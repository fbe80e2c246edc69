/**
  fs.c as it runs: the bitmap, inodes and file blocks changed in place, each method proved to do
  what the functions of FsSpec and FsFile say. Blocks are read and written through the log, so
  `disk` is what the log's View shows; bread and brelse leave no trace here.
 */
module FileSystem {
  import opened Basics
  import opened Blocks
  import opened FsLayout
  import S = FsSpec
  import F = FsFile
  import B = FsBudget

  /** struct inode: the in-memory copy, valid and locked by its holder. */
  class Inode {
    const inum: nat
    var typ: Half
    var major: Half
    var minor: Half
    var nlink: Half
    var size: Word
    const addrs: array<Word>

    ghost predicate Valid()
      reads this, addrs
    {
      addrs.Length == NADDRS
    }

    ghost function Value(): Dinode
      requires Valid()
      reads this, addrs
    {
      Dinode(typ, major, minor, nlink, size, addrs[..])
    }

    constructor (inum: nat, d: Dinode)
      ensures Valid() && this.inum == inum && Value() == d && fresh(addrs)
    {
      this.inum := inum;
      typ, major, minor, nlink, size := d.typ, d.major, d.minor, d.nlink, d.size;
      addrs := new Word[NADDRS](i requires 0 <= i < NADDRS => d.addrs[i]);
      new;
      assert addrs[..] == d.addrs;
    }
  }

  class FileSystem {
    const sb: Super
    var disk: Disk
    var halted: bool               // the kernel has panicked
    ghost var logged: set<nat>     // the blocks that log_write got
    ghost var inodes: seq<Dinode>  // the effective inodes

    ghost function Abs(): S.Fs
      reads this
    {
      S.Fs(sb, disk, inodes, logged, halted)
    }

    ghost predicate Holds(ip: Inode)
      reads this, ip, ip.addrs
    {
      Abs().Shape() && ip.Valid() && ip.inum < |inodes| && ip.Value() == inodes[ip.inum]
    }

    /** bread, a change to the buffer, log_write and brelse */
    method LogWrite(x: nat, b: Block)
      requires x < |disk|
      modifies this`disk, this`logged
      ensures disk == old(disk)[x := b] && logged == old(logged) + {x}
    {
      disk := disk[x := b];
      logged := logged + {x};
    }

    method Panic()
      modifies this`halted
      ensures Abs() == S.Halt(old(Abs()))
    {
      halted := true;
    }

    /** The scan of one bitmap block, which covers blocks b .. b + BPB - 1. */
    method FreeInBlock(b: nat) returns (bi: nat)
      requires Abs().Shape() && b < sb.size && b % BPB == 0
      ensures bi <= BPB && b + bi <= sb.size
      ensures bi < BPB ==> S.FreeFrom(Abs(), b) == b + bi
      ensures bi == BPB ==> S.FreeFrom(Abs(), b) == S.FreeFrom(Abs(), b + BPB)
    {
      BBlockIsBitmap(sb, disk, b);
      var data := disk[sb.BBlock(b)];
      bi := 0;
      while bi < BPB && b + bi < sb.size
        invariant bi <= BPB && b + bi <= sb.size
        invariant S.FreeFrom(Abs(), b) == S.FreeFrom(Abs(), b + bi)
      {
        SameBitmapBlock(b, bi);
        if !BlockBit(data, bi) {
          return;
        }
        bi := bi + 1;
      }
    }

    lemma SameBitmapBlock(b: nat, bi: nat)
      requires Abs().Shape() && b + bi < sb.size && b % BPB == 0 && bi < BPB
      ensures sb.BBlock(b) < |disk| && Bit(sb, disk, b + bi) == BlockBit(disk[sb.BBlock(b)], bi)
    {
      BBlockIsBitmap(sb, disk, b);
      assert (b + bi) % BPB == bi && (b + bi) / BPB == b / BPB;
    }

    /** balloc's find: mark it in use, then bzero. */
    method Take(b: nat)
      requires Abs().Shape() && b < sb.size
      modifies this`disk, this`logged
      ensures Abs() == S.Taken(old(Abs()), b)
    {
      BBlockIsBitmap(sb, disk, b);
      LogWrite(sb.BBlock(b), PutBlockBit(disk[sb.BBlock(b)], b % BPB, true));
      LogWrite(b, ZERO);
    }

    /** balloc: the first block that is not marked, zeroed */
    method Balloc() returns (b: Word)
      requires Abs().Shape()
      modifies this`disk, this`logged, this`halted
      ensures var f := S.FreeFrom(old(Abs()), 0);
              if f == sb.size then Abs() == S.Halt(old(Abs())) && b == 0 else Abs() == S.Taken(old(Abs()), f) && b == f
    {
      var base := 0;
      while base < sb.size
        invariant base % BPB == 0 && Abs() == old(Abs())
        invariant base < sb.size ==> S.FreeFrom(Abs(), 0) == S.FreeFrom(Abs(), base)
        invariant base >= sb.size ==> S.FreeFrom(Abs(), 0) == sb.size
      {
        var bi := FreeInBlock(base);
        if bi < BPB && base + bi < sb.size {
          b := base + bi;
          Take(b);
          return;
        }
        NextBitmapBlock(base);
        base := base + BPB;
      }
      Panic();
      b := 0;
    }

    method Bfree(b: nat)
      requires Abs().Shape() && b < sb.size
      modifies this`disk, this`logged, this`halted
      ensures Abs() == S.Bfree(old(Abs()), b)
    {
      BBlockIsBitmap(sb, disk, b);
      if !BlockBit(disk[sb.BBlock(b)], b % BPB) {
        Panic();
        return;
      }
      LogWrite(sb.BBlock(b), PutBlockBit(disk[sb.BBlock(b)], b % BPB, false));
    }

    method Iupdate(ip: Inode)
      requires Holds(ip)
      modifies this`disk, this`logged
      ensures Abs() == S.Iupdate(old(Abs()), ip.inum) && Holds(ip)
    {
      IBlockIsInode(sb, disk, ip.inum);
      var d := Dinode(ip.typ, ip.major, ip.minor, ip.nlink, ip.size, ip.addrs[..]);
      var i := sb.IBlock(ip.inum);
      LogWrite(i, EncodeInode(disk[i], ip.inum % IPB, d));
    }

    /**
      ilock of an inode that is not valid: the copy on disk becomes the effective one. Nothing changes
      if that was the one already; what is lost otherwise, FsSpec.ReloadSound says.
     */
    method Ilock(inum: nat) returns (ip: Inode)
      requires Abs().Shape() && inum < sb.ninodes
      modifies this`inodes, this`halted
      ensures fresh(ip) && fresh(ip.addrs) && ip.inum == inum && Holds(ip)
      ensures Abs() == if ip.typ == 0 then S.Halt(S.Reload(old(Abs()), inum)) else S.Reload(old(Abs()), inum)
      ensures S.Synced(old(Abs()), inum) && ip.typ != 0 ==> Abs() == old(Abs())
    {
      IBlockIsInode(sb, disk, inum);
      var d := DecodeInode(disk[sb.IBlock(inum)], inum % IPB);
      ip := new Inode(inum, d);
      inodes := inodes[inum := d];
      if ip.typ == 0 {
        Panic();
      }
    }

    /** ip->addrs[j] = a */
    method SetAddr(ip: Inode, j: nat, a: Word)
      requires Holds(ip) && j <= NDIRECT
      modifies this`inodes, ip.addrs
      ensures Abs() == S.SetAddr(old(Abs()), ip.inum, j, a) && Holds(ip)
    {
      ip.addrs[j] := a;
      inodes := inodes[ip.inum := inodes[ip.inum].(addrs := ip.addrs[..])];
    }

    /** The first half of bmap, for a pointer in the inode itself. */
    method BmapAddr(ip: Inode, j: nat) returns (addr: Word)
      requires Holds(ip) && j <= NDIRECT && !halted
      modifies this, ip.addrs
      ensures Abs() == S.AllocAddr(old(Abs()), ip.inum, j) && Holds(ip)
      ensures !halted ==> addr == inodes[ip.inum].addrs[j]
    {
      addr := ip.addrs[j];
      if addr == 0 {
        addr := Balloc();
        if halted {
          return;
        }
        SetAddr(ip, j, addr);
      }
    }

    /** The second half of bmap: the entry for block bn in the indirect block at x. */
    method BmapEntry(ip: Inode, x: Word, bn: nat, ghost own: map<nat, S.Slot>) returns (addr: Word)
      requires Holds(ip) && NDIRECT <= bn < MAXFILE && !halted && x == ip.addrs[NDIRECT] && x != 0
      requires S.Owned(Abs(), own, 0, 0)
      modifies this
      ensures Abs() == S.AllocEntry(old(Abs()), ip.inum, bn - NDIRECT) && Holds(ip)
      ensures !halted ==> addr == S.Addr(Abs(), ip.inum, S.SlotOf(bn))
    {
      var e := bn - NDIRECT;
      IndirectIsData(own, ip.inum, x, e);
      addr := LoadWord(disk[x], e);
      if addr == 0 {
        addr := Balloc();
        if halted {
          return;
        }
        LogWrite(x, StoreWord(disk[x], e, addr));
        EntryGiven(old(Abs()), own, ip.inum, x, e, addr);
      }
    }

    lemma IndirectIsData(own: map<nat, S.Slot>, k: nat, x: Word, e: nat)
      requires S.Owned(Abs(), own, 0, 0) && k < |inodes| && e < NINDIRECT && x == inodes[k].addrs[NDIRECT] && x != 0
      ensures sb.dataStart <= x < |disk| && LoadWord(disk[x], e) == S.Addr(Abs(), k, NDIRECT + 1 + e)
    {
      assert x == S.Addr(Abs(), k, NDIRECT);
      S.PointerIsOwned(Abs(), own, 0, 0, k, NDIRECT);
    }

    /** bmap for a block behind the direct ones: allocate the indirect block first if there is none. */
    method BmapIndirect(ip: Inode, bn: nat, ghost own: map<nat, S.Slot>) returns (addr: Word)
      requires Holds(ip) && NDIRECT <= bn < MAXFILE && !halted && S.Owned(Abs(), own, 0, 0)
      modifies this, ip.addrs
      ensures Abs() == S.Bmap(old(Abs()), ip.inum, bn) && Holds(ip)
      ensures !halted ==> addr == S.Addr(Abs(), ip.inum, S.SlotOf(bn))
    {
      ghost var fs := Abs();
      ghost var own1 := S.MapAddr(fs, own, ip.inum, NDIRECT);
      addr := BmapAddr(ip, NDIRECT);
      ghost var fs1 := Abs();
      if !halted {
        assert addr == S.Addr(fs1, ip.inum, NDIRECT);
        addr := BmapEntry(ip, addr, bn, own1);
      }
      BothHalves(fs, fs1, Abs(), ip.inum, bn);
    }

    /** bmap: every other slot keeps its pointer, holes of this file excepted, and no file reads differently. */
    method Bmap(ip: Inode, bn: nat, ghost own: map<nat, S.Slot>) returns (addr: Word, ghost own': map<nat, S.Slot>)
      requires Holds(ip) && bn < MAXFILE && !halted && S.Owned(Abs(), own, 0, 0)
      modifies this, ip.addrs
      ensures Abs() == S.Bmap(old(Abs()), ip.inum, bn) && Holds(ip)
      ensures !halted ==> addr == S.Addr(Abs(), ip.inum, S.SlotOf(bn))
      ensures if halted then S.AllMarked(Abs()) else S.Mapped(old(Abs()), Abs(), own, own', ip.inum, S.SlotOf(bn))
    {
      own' := S.BmapMaps(Abs(), own, ip.inum, bn);
      if bn < NDIRECT {
        addr := BmapAddr(ip, bn);
      } else {
        addr := BmapIndirect(ip, bn, own);
      }
    }

    /** itrunc's first loop */
    method FreeDirect(ip: Inode, ghost own: map<nat, S.Slot>)
      requires Holds(ip) && !halted && S.Owned(Abs(), own, 0, 0)
      modifies this, ip.addrs
      ensures Abs() == S.FreeDirect(old(Abs()), ip.inum, NDIRECT) && Holds(ip) && !halted
    {
      var i := 0;
      while i < NDIRECT
        invariant i <= NDIRECT && Holds(ip) && !halted
        invariant Abs() == S.FreeDirect(old(Abs()), ip.inum, i)
      {
        ghost var own1 := DirectFreed(old(Abs()), own, ip.inum, i);
        if ip.addrs[i] != 0 {
          Bfree(ip.addrs[i]);
          SetAddr(ip, i, 0);
        }
        i := i + 1;
      }
    }

    /** itrunc's second loop, over the indirect block at x */
    method FreeEntries(ip: Inode, x: Word, ghost own: map<nat, S.Slot>)
      requires Holds(ip) && !halted && S.Owned(Abs(), own, 0, 0) && x == ip.addrs[NDIRECT] && x != 0 && x < sb.size
      modifies this
      ensures Abs() == S.FreeEntries(old(Abs()), x, NINDIRECT) && Holds(ip) && !halted
    {
      var j := 0;
      while j < NINDIRECT
        invariant j <= NINDIRECT && Holds(ip) && !halted
        invariant Abs() == S.FreeEntries(old(Abs()), x, j)
      {
        EntryFreed(old(Abs()), own, ip.inum, x, j);
        var a := LoadWord(disk[x], j);
        if a != 0 {
          Bfree(a);
        }
        j := j + 1;
      }
    }

    method FreeIndirect(ip: Inode, ghost own: map<nat, S.Slot>)
      requires Holds(ip) && !halted && S.Owned(Abs(), own, 0, 0)
      modifies this, ip.addrs
      ensures Abs() == S.FreeIndirect(old(Abs()), ip.inum) && Holds(ip) && !halted
    {
      var x := ip.addrs[NDIRECT];
      if x != 0 {
        IndirectIsData(own, ip.inum, x, 0);
        IndirectFreed(Abs(), own, ip.inum, x);
        FreeEntries(ip, x, own);
        Bfree(x);
        SetAddr(ip, NDIRECT, 0);
      }
    }

    /** itrunc */
    method Itrunc(ip: Inode, ghost own: map<nat, S.Slot>) returns (ghost own': map<nat, S.Slot>)
      requires Holds(ip) && !halted && S.Owned(Abs(), own, 0, 0)
      modifies this, ip, ip.addrs
      ensures Abs() == S.Itrunc(old(Abs()), ip.inum) && Holds(ip)
      ensures !halted && S.Owned(Abs(), own', 0, 0) && S.NoBlocks(Abs(), ip.inum)
      ensures S.OthersKept(old(Abs()), Abs(), ip.inum)
      ensures forall a: nat :: a in own' <==> a in own && own[a].k != ip.inum
    {
      own' := S.ItruncFreesAll(Abs(), own, ip.inum);
      ghost var own1 := S.FreeDirectFrees(Abs(), own, ip.inum);
      FreeDirect(ip, own);
      S.NoneDead(Abs(), own1, ip.inum, 0);
      FreeIndirect(ip, own1);
      ip.size := 0;
      inodes := inodes[ip.inum := inodes[ip.inum].(size := 0)];
      Iupdate(ip);
    }

    /** One pass of writei's loop. */
    method WriteBlock(ip: Inode, piece: seq<Byte>, off: nat, ghost own: map<nat, S.Slot>, ghost f: S.Fs)
      returns (ghost own': map<nat, S.Slot>)
      requires Holds(ip) && !halted && S.Owned(Abs(), own, 0, 0) && off < F.MAXBYTES && off % BSIZE + |piece| <= BSIZE
      requires f == F.WriteStep(Abs(), ip.inum, off, piece)
      modifies this, ip.addrs
      ensures Abs() == f && Holds(ip)
      ensures !halted ==> S.Owned(Abs(), own', 0, 0)
    {
      ghost var fs := Abs();
      var a;
      ghost var own1;
      a, own1 := Bmap(ip, off / BSIZE, own);
      own' := StepIs(fs, own, Abs(), own1, f, ip.inum, off, piece, a);
      if halted {
        return;
      }
      LogWrite(a, F.Splice(disk[a], off % BSIZE, piece));
    }

    /** One pass of writei's loop: m bytes on. */
    method WriteNext(ip: Inode, src: seq<Byte>, tot: nat, off: nat, ghost own: map<nat, S.Slot>, ghost r: S.Fs)
      returns (tot': nat, off': nat, ghost own': map<nat, S.Slot>)
      requires Holds(ip) && !halted && S.Owned(Abs(), own, 0, 0) && tot < |src|
      requires F.WritesTo(Abs(), ip.inum, src[tot..], off, r)
      modifies this, ip.addrs
      ensures Holds(ip) && tot < tot' <= |src| && off' - off == tot' - tot && (halted ==> Abs() == r)
      ensures !halted ==> S.Owned(Abs(), own', 0, 0) && F.WritesTo(Abs(), ip.inum, src[tot'..], off', r)
    {
      ghost var f, done, rest, end := F.Unfold(Abs(), r, ip.inum, src[tot..], off);
      var m := Min(|src| - tot, BSIZE - off % BSIZE);
      tot', off' := tot + m, off + m;
      NextPiece(src, tot, done, rest, tot');
      own' := WriteBlock(ip, src[tot..tot'], off, own, f);
    }

    /** The loop of writei. */
    method WriteLoop(ip: Inode, src: seq<Byte>, off0: nat, ghost own: map<nat, S.Slot>)
      requires Holds(ip) && !halted && S.Owned(Abs(), own, 0, 0) && off0 + |src| <= F.MAXBYTES
      modifies this, ip.addrs
      ensures Abs() == F.WriteFrom(old(Abs()), ip.inum, src, off0) && Holds(ip)
    {
      ghost var r, own1 := F.WriteFrom(Abs(), ip.inum, src, off0), own;
      assert src[0..] == src;
      var tot, off, n := 0, off0, |src|;
      while tot < n
        invariant tot <= n == |src| && Holds(ip) && !halted && S.Owned(Abs(), own1, 0, 0)
        invariant F.WritesTo(Abs(), ip.inum, src[tot..], off, r)
      {
        tot, off, own1 := WriteNext(ip, src, tot, off, own1, r);
        if halted {
          return;
        }
      }
    }

    /** ip->size = off; iupdate(ip) */
    method Grow(ip: Inode, end: Word)
      requires Holds(ip)
      modifies this, ip
      ensures Abs() == F.Grown(old(Abs()), ip.inum, end) && Holds(ip)
    {
      ip.size := end;
      inodes := inodes[ip.inum := inodes[ip.inum].(size := end)];
      Iupdate(ip);
    }

    /** writei on an inode that is no device */
    method WriteFile(ip: Inode, src: seq<Byte>, off: Word, ghost own: map<nat, S.Slot>) returns (r: int)
      requires Holds(ip) && !halted && S.Owned(Abs(), own, 0, 0) && ip.typ != F.T_DEV && |src| < 0x1_0000_0000
      modifies this, ip, ip.addrs
      ensures (Abs(), r) == F.Writei(old(Abs()), ip.inum, src, off, -1) && Holds(ip)
    {
      F.WriteiIs(Abs(), ip.inum, src, off, -1);
      F.OutOfFileMeans(ip.size, off, |src|);
      if off > ip.size || (off + |src|) % 0x1_0000_0000 < off {
        return -1;
      }
      if off + |src| > F.MAXBYTES {
        return -1;
      }
      WriteLoop(ip, src, off, own);
      r := |src|;
      if !halted && |src| > 0 && off + |src| > ip.size {
        Grow(ip, off + |src|);
      }
    }

    /** writei. `device` is what the driver answers for a device file, -1 if there is none. */
    method Writei(ip: Inode, src: seq<Byte>, off: Word, device: int, ghost own: map<nat, S.Slot>)
      returns (r: int, ghost own': map<nat, S.Slot>)
      requires Holds(ip) && !halted && S.Owned(Abs(), own, 0, 0) && F.SizeOk(Abs(), ip.inum) && |src| < 0x1_0000_0000
      modifies this, ip, ip.addrs
      ensures (Abs(), r) == F.Writei(old(Abs()), ip.inum, src, off, device) && Holds(ip)
      ensures old(ip.typ) != F.T_DEV ==>
                if off > old(ip.size) || off + |src| > F.MAXBYTES then r == -1 && Abs() == old(Abs())
                else
                  r == |src| && if halted then S.AllMarked(Abs())
                    else F.FileWritten(old(Abs()), Abs(), own', ip.inum, off, src)
    {
      own' := own;
      if ip.typ == F.T_DEV {
        return device, own';
      }
      own' := F.WriteiRefines(Abs(), own, ip.inum, src, off, -1);
      r := WriteFile(ip, src, off, own);
    }

    /** One pass of readi's loop. */
    method ReadBlock(ip: Inode, off: nat, m: nat, ghost own: map<nat, S.Slot>, ghost f: S.Fs)
      returns (piece: seq<Byte>, ghost own': map<nat, S.Slot>)
      requires Holds(ip) && !halted && S.Owned(Abs(), own, 0, 0) && off < F.MAXBYTES && off % BSIZE + m <= BSIZE
      requires f == S.Bmap(Abs(), ip.inum, off / BSIZE)
      modifies this, ip.addrs
      ensures Abs() == f && Holds(ip)
      ensures !halted ==> S.Owned(Abs(), own', 0, 0) && piece == F.ReadPiece(f, ip.inum, off, m)
    {
      var addr;
      piece := [];
      addr, own' := Bmap(ip, off / BSIZE, own);
      if !halted {
        S.PointerIsOwned(Abs(), own', 0, 0, ip.inum, S.SlotOf(off / BSIZE));
        piece := disk[addr][off % BSIZE..off % BSIZE + m];
      }
    }

    /** The loop of readi. */
    method ReadLoop(ip: Inode, off0: nat, n: nat, ghost own: map<nat, S.Slot>) returns (dst: seq<Byte>)
      requires Holds(ip) && !halted && S.Owned(Abs(), own, 0, 0) && off0 + n <= F.MAXBYTES
      modifies this, ip.addrs
      ensures Holds(ip) && F.ReadFrom(old(Abs()), ip.inum, off0, n, []).0 == Abs()
      ensures !halted ==> F.ReadFrom(old(Abs()), ip.inum, off0, n, []).1 == dst
    {
      ghost var own1 := own;
      ghost var result := F.ReadFrom(Abs(), ip.inum, off0, n, []);
      var tot, off := 0, off0;
      dst := [];
      while tot < n
        invariant tot <= n && tot == |dst| && off == off0 + tot
        invariant Holds(ip) && !halted && S.Owned(Abs(), own1, 0, 0)
        invariant F.ReadsTo(Abs(), ip.inum, off0, n, dst, result)
      {
        ghost var f, more := F.UnfoldRead(Abs(), result, ip.inum, off0, n, dst, off);
        var m := Min(n - tot, BSIZE - off % BSIZE);
        var piece;
        piece, own1 := ReadBlock(ip, off, m, own1, f);
        if halted {
          F.ReadHalted(f, ip.inum, off0, n, more);
          return;
        }
        dst := dst + piece;
        assert dst == more;
        tot, off := tot + m, off + m;
      }
    }

    /** readi. It may have to allocate a block that it reads; see FsFile.ReadiRefines. */
    method Readi(ip: Inode, off: Word, n: Word, device: int, ghost own: map<nat, S.Slot>)
      returns (dst: seq<Byte>, r: int, ghost own': map<nat, S.Slot>)
      requires Holds(ip) && !halted && S.Owned(Abs(), own, 0, 0) && F.SizeOk(Abs(), ip.inum)
      modifies this, ip.addrs
      ensures Holds(ip)
      ensures old(ip.typ) == F.T_DEV ==> r == device && Abs() == old(Abs())
      ensures old(ip.typ) != F.T_DEV ==>
                if off > ip.size || off + n >= 0x1_0000_0000 then r == -1 && Abs() == old(Abs())
                else
                  r == Min(n, ip.size - off) && (halted || F.SliceRead(old(Abs()), Abs(), own', ip.inum, off, r, dst))
    {
      own', dst := own, [];
      if ip.typ == F.T_DEV {
        return [], device, own';
      }
      F.OutOfFileMeans(ip.size, off, n);
      if off > ip.size || (off + n) % 0x1_0000_0000 < off {
        return [], -1, own';
      }
      var left: Word := n;
      if off + n > ip.size {
        left := ip.size - off;
      }
      own' := F.ReadSlice(Abs(), own, ip.inum, off, left, F.ReadFrom(Abs(), ip.inum, off, left, []));
      dst := ReadLoop(ip, off, left, own);
      r := left;
    }

    /** One transaction of filewrite: begin_op, writei, end_op. */
    method WriteOp(ip: Inode, piece: seq<Byte>, off: Word, ghost own: map<nat, S.Slot>)
      returns (r: int, ghost own': map<nat, S.Slot>)
      requires Holds(ip) && !halted && S.Owned(Abs(), own, 0, 0) && F.SizeOk(Abs(), ip.inum)
      requires ip.typ != F.T_DEV && off <= ip.size && |piece| <= B.CHUNK
      modifies this, ip, ip.addrs
      ensures Holds(ip) && B.ChunkWent(old(Abs()), Abs(), r, own', ip.inum, off, piece) && (r < 0 || r == |piece|)
      ensures B.NoHoles(old(Abs()), ip.inum) && !halted ==> B.NoHoles(Abs(), ip.inum) && |logged| <= B.MAXOPBLOCKS
    {
      own' := B.OneChunk(Abs(), own, ip.inum, piece, off);
      if B.NoHoles(Abs(), ip.inum) {
        B.OneChunkFits(Abs(), own, ip.inum, piece, off);
      }
      B.BegunKeeps(Abs(), own);
      logged := {};
      ghost var own1;
      r, own1 := Writei(ip, piece, off, -1, own);
    }

    /** One pass of filewrite's loop, which has written the first i bytes of src at off0, and now w of them. */
    method WriteChunk(ip: Inode, src: seq<Byte>, i: nat, off: Word, ghost own: map<nat, S.Slot>, ghost fs0: S.Fs,
                      ghost off0: nat)
      returns (r: int, ghost own': map<nat, S.Slot>, ghost w: nat)
      requires Holds(ip) && !halted && ip.typ != F.T_DEV && i < |src| && off == off0 + i
      requires B.WroteUpTo(fs0, Abs(), own, ip.inum, off0, src, i)
      modifies this, ip, ip.addrs
      ensures Holds(ip) && (!halted ==> ip.typ == old(ip.typ)) && w == (if r < 0 then i else i + r)
      ensures r < 0 || 0 < r <= |src| - i
      ensures !halted ==> B.ChunkAfter(fs0, Abs(), own', ip.inum, off0, src, off, r, w)
      ensures B.NoHoles(old(Abs()), ip.inum) && !halted ==> B.NoHoles(Abs(), ip.inum) && |logged| <= B.MAXOPBLOCKS
    {
      var n1 := Min(|src| - i, B.CHUNK);
      var piece := src[i..i + n1];
      ghost var f := Abs();
      r, own' := WriteOp(ip, piece, off, own);
      w := if r < 0 then i else i + r;
      if !halted {
        own' := B.ChunkDone(fs0, f, Abs(), own, own', ip.inum, off0, src, i, off, piece, r, w);
      }
    }

    /**
      filewrite on an inode that is no device: every chunk is a transaction of its own. The w bytes
      before a refused chunk stay written, and f->off, here `off`, stands behind them.
     */
    method Filewrite(ip: Inode, src: seq<Byte>, off0: Word, ghost own: map<nat, S.Slot>)
      returns (r: int, off: Word, ghost own': map<nat, S.Slot>, ghost w: nat)
      requires Holds(ip) && !halted && S.Owned(Abs(), own, 0, 0) && F.SizeOk(Abs(), ip.inum)
      requires ip.typ != F.T_DEV && off0 <= ip.size && |src| < 0x8000_0000
      modifies this, ip, ip.addrs
      ensures Holds(ip) && r == (if off == off0 + |src| && !halted then |src| else -1)
      ensures !halted ==> B.WroteSome(old(Abs()), B.Done(Abs(), off, r == |src|, []), own', ip.inum, off0, src, w)
    {
      var i, n := 0, |src|;
      off, own', w := off0, own, 0;
      ghost var fs0 := Abs();
      B.WrittenNone(fs0, fs0, own, ip.inum, off0);
      while i < n
        invariant i <= n && w == i && off == off0 + i && !halted && Holds(ip) && ip.typ != F.T_DEV
        invariant B.WroteUpTo(fs0, Abs(), own', ip.inum, off0, src, w)
      {
        r, own', w := WriteChunk(ip, src, i, off, own', fs0, off0);
        if halted || r < 0 {
          return -1, off, own', w;
        }
        off, i := off + r, i + r;
      }
      r := n;
    }
  }

  /** A pass of writei's loop after bmap gave block a. */
  lemma StepIs(fs: S.Fs, own: map<nat, S.Slot>, fs1: S.Fs, own1: map<nat, S.Slot>, f: S.Fs, k: nat, off: nat,
               piece: seq<Byte>, a: Word)
    returns (own': map<nat, S.Slot>)
    requires S.Owned(fs, own, 0, 0) && !fs.halted && k < |fs.inodes| && off < F.MAXBYTES
    requires off % BSIZE + |piece| <= BSIZE
    requires fs1 == S.Bmap(fs, k, off / BSIZE) && f == F.WriteStep(fs, k, off, piece)
    requires !fs1.halted ==>
        S.Mapped(fs, fs1, own, own1, k, S.SlotOf(off / BSIZE)) && a == S.Addr(fs1, k, S.SlotOf(off / BSIZE))
    ensures fs1.halted ==> f == fs1
    ensures !fs1.halted ==>
        a < fs1.sb.size == |fs1.disk| && f == F.PutData(fs1, a, F.Splice(fs1.disk[a], off % BSIZE, piece))
    ensures !f.halted ==> S.Owned(f, own', 0, 0)
  {
    own' := F.WriteStepWrites(fs, own, k, off, piece);
    if !fs1.halted {
      S.PointerIsOwned(fs1, own1, 0, 0, k, S.SlotOf(off / BSIZE));
    }
  }

  lemma BothHalves(fs: S.Fs, fs1: S.Fs, f: S.Fs, k: nat, bn: nat)
    requires fs.Shape() && k < |fs.inodes| && NDIRECT <= bn < MAXFILE && fs1 == S.AllocAddr(fs, k, NDIRECT)
    requires f == if fs1.halted then fs1 else S.AllocEntry(fs1, k, bn - NDIRECT)
    ensures f == S.Bmap(fs, k, bn)
  {
  }

  lemma NextBitmapBlock(base: nat)
    requires base % BPB == 0
    ensures (base + BPB) % BPB == 0
  {
  }

  lemma NextPiece(src: seq<Byte>, tot: nat, done: seq<Byte>, rest: seq<Byte>, tot': nat)
    requires tot <= |src| && src[tot..] == done + rest && tot' == tot + |done|
    ensures tot' <= |src| && done == src[tot..tot'] && rest == src[tot'..]
  {
    assert forall i :: 0 <= i < |rest| ==> rest[i] == src[tot..][|done| + i];
    assert forall i :: 0 <= i < |done| ==> done[i] == src[tot..][i];
  }

  lemma IndirectFreed(fs: S.Fs, own: map<nat, S.Slot>, k: nat, x: Word)
    requires S.Owned(fs, own, 0, 0) && k < |fs.inodes| && !fs.halted && x == fs.inodes[k].addrs[NDIRECT] && x != 0
    requires x < fs.sb.size
    ensures var f := S.FreeEntries(fs, x, NINDIRECT);
            !f.halted && Bit(f.sb, f.disk, x)
  {
    var own1 := S.FreeEntriesFrees(fs, own, k, x);
    S.ClearIndirect(S.FreeEntries(fs, x, NINDIRECT), own1, k, x);
  }

  /** After i passes the i-th direct block is still owned, so freeing it cannot panic. */
  lemma DirectFreed(fs: S.Fs, own: map<nat, S.Slot>, k: nat, i: nat) returns (own1: map<nat, S.Slot>)
    requires S.Owned(fs, own, 0, 0) && k < |fs.inodes| && i < NDIRECT && !fs.halted
    ensures var f := S.FreeDirect(fs, k, i);
            !f.halted && !S.FreeAddr(f, k, i).halted
            && (f.inodes[k].addrs[i] != 0 ==> f.inodes[k].addrs[i] < fs.sb.size)
  {
    S.FreedNothing(fs, own, k);
    own1 := S.FreeDirectOn(fs, fs, own, own, k, 0, i);
    var f := S.FreeDirect(fs, k, i);
    var own2 := S.FreeAddrFrees(f, own1, k, i);
  }

  lemma EntryFreed(fs: S.Fs, own: map<nat, S.Slot>, k: nat, x: Word, j: nat)
    requires S.Owned(fs, own, 0, 0) && k < |fs.inodes| && j < NINDIRECT && !fs.halted
    requires x == fs.inodes[k].addrs[NDIRECT] && x != 0 && x < fs.sb.size
    ensures var f := S.FreeEntries(fs, x, j);
            !f.halted && !S.FreeEntry(f, x, j).halted
            && (LoadWord(f.disk[x], j) != 0 ==> LoadWord(f.disk[x], j) < fs.sb.size)
  {
    S.FreedNothing(fs, own, k);
    var own1 := S.FreeEntriesOn(fs, own, own, k, x, 0, j);
    var own2 := S.FreeEntryFrees(S.FreeEntries(fs, x, j), own1, k, x, j);
  }

  lemma EntryGiven(fs: S.Fs, own: map<nat, S.Slot>, k: nat, x: Word, e: nat, b: nat)
    requires S.Owned(fs, own, 0, 0) && k < |fs.inodes| && e < NINDIRECT && x == fs.inodes[k].addrs[NDIRECT]
    requires fs.sb.dataStart <= x < fs.sb.size && b < fs.sb.size && !Bit(fs.sb, fs.disk, b)
    ensures S.Addr(S.GiveEntry(fs, x, e, b), k, NDIRECT + 1 + e) == b
  {
    S.GiveEntryAt(fs, own, k, e, b, k, NDIRECT + 1 + e);
  }
}
