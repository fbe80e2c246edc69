/**
  The transactions of link, unlink and create, as the file system sees them once the path has been
  resolved: which blocks they log, and when these are no more than begin_op reserved. The directory has
  no hole that looking for the entry would fill.
 */
module FsCalls {
  import opened Basics
  import opened Blocks
  import opened FsLayout
  import opened FsSpec
  import opened FsFile
  import opened FsLogged
  import opened FsBudget

  const DIRENT: nat := 16
  const NOADDRS: Addrs := [0, 0, 0, 0, 0, 0, 0, 0, 0, 0, 0, 0, 0]

  // ---------- one entry of a directory ----------

  /** A place for an entry, within the directory or at its end. */
  predicate EntryFits(fs: Fs, k: nat, src: seq<Byte>, off: nat) {
    && SizeOk(fs, k) && !fs.halted && fs.inodes[k].typ != T_DEV && |src| == DIRENT && off % DIRENT == 0
    && off <= fs.inodes[k].size && off + DIRENT <= MAXBYTES
  }

  /** How many blocks the entry's writei logs at most, the inode not counted. */
  function EntryCost(fs: Fs, k: nat, off: nat): nat
    requires k < |fs.inodes| && off < MAXBYTES
  {
    if Addr(fs, k, SlotOf(off / BSIZE)) != 0 then 1 else if off / BSIZE < NDIRECT then 2 else 4
  }

  lemma EntryInBlock(off: nat)
    requires off % DIRENT == 0 && off + DIRENT <= MAXBYTES
    ensures EndBlock(off, DIRENT) == off / BSIZE + 1 <= MAXFILE && off % BSIZE + DIRENT <= BSIZE
  {
  }

  lemma OneBlockCost(fs: Fs, f: Fs, k: nat, lo: nat, hi: nat)
    requires fs.Shape() && k < |fs.inodes| && k < |f.inodes| && hi == lo + 1 <= MAXFILE
    ensures Addr(fs, k, SlotOf(lo)) != 0 ==> Allocations(fs, k, lo, hi) == 0 && |Logs(fs, f, k, lo, hi)| == 1
    ensures lo < NDIRECT ==> Allocations(fs, k, lo, hi) <= 1 && |Logs(fs, f, k, lo, hi)| <= 1
    ensures Allocations(fs, k, lo, hi) <= 2 && |Logs(fs, f, k, lo, hi)| <= 2
  {
    assert Data(f, k, lo, hi) == {Addr(f, k, SlotOf(lo)) as nat} + Data(f, k, hi, hi);
    assert EntersAny(fs, k, lo, hi) == Enters(fs, k, lo);
  }

  /** What a writei of one entry has done: logged a few blocks and perhaps the inode. */
  ghost predicate EntryWrote(fs: Fs, r: Fs, own': map<nat, Slot>, k: nat, src: seq<Byte>, off: nat, S: set<nat>) {
    && FileWritten(fs, r, own', k, off, src) && off < MAXBYTES && |S| <= EntryCost(fs, k, off)
    && r.logged <= fs.logged + S + {fs.sb.IBlock(k)} && r.sb == fs.sb
  }

  /** The bitmap blocks are no more than the blocks taken. */
  lemma FewBits(fs: Fs, n: nat, bits: set<nat>)
    requires fs.Shape() && bits == BitsOf(fs.sb, Frees(Marks(fs), 0, n))
    ensures |bits| <= n
  {
    BitsAreBitmap(fs.sb, fs.disk, Frees(Marks(fs), 0, n));
  }

  lemma Sum(a: set<nat>, b: set<nat>, n: nat, m: nat, c: nat)
    requires |a| <= n && |b| <= m && n + m <= c
    ensures |a + b| <= c
  {
  }

  lemma LoopLogged(fs: Fs, f: Fs, k: nat, lo: nat, hi: nat, n: nat, rest: set<nat>, cost: nat) returns (S: set<nat>)
    requires LoopAdds(fs, f, k, lo, hi) && !f.halted && hi == lo + 1
    requires n == Allocations(fs, k, lo, hi) && rest == Logs(fs, f, k, lo, hi)
    requires cost == if Addr(fs, k, SlotOf(lo)) != 0 then 1 else if lo < NDIRECT then 2 else 4
    ensures |S| <= cost && f.logged == fs.logged + S
  {
    OneBlockCost(fs, f, k, lo, hi);
    var bits := BitsOf(fs.sb, Frees(Marks(fs), 0, n));
    FewBits(fs, n, bits);
    Sum(bits, rest, n, |rest|, cost);
    S := bits + rest;
    AddsAre(fs, f, n, rest, S);
  }

  lemma AddsAre(fs: Fs, f: Fs, n: nat, rest: set<nat>, S: set<nat>)
    requires Adds(fs, f, n, rest) && S == BitsOf(fs.sb, Frees(Marks(fs), 0, n)) + rest
    ensures f.logged == fs.logged + S
  {
  }

  lemma EntryWrites(fs: Fs, own: map<nat, Slot>, k: nat, src: seq<Byte>, off: nat, r: Fs)
    returns (own': map<nat, Slot>, S: set<nat>)
    requires Owned(fs, own, 0, 0) && EntryFits(fs, k, src, off) && r == Writei(fs, k, src, off, -1).0
    ensures !r.halted ==> EntryWrote(fs, r, own', k, src, off, S)
  {
    own' := WriteiRefines(fs, own, k, src, off, -1);
    WriteiIs(fs, k, src, off, -1);
    var f := WriteFrom(fs, k, src, off);
    S := {};
    if !f.halted {
      var lo := off / BSIZE;
      WriteAdds(fs, f, own, k, src, off);
      EntryInBlock(off);
      var hi := EndBlock(off, |src|);
      S := LoopLogged(fs, f, k, lo, hi, Allocations(fs, k, lo, hi), Logs(fs, f, k, lo, hi), EntryCost(fs, k, off));
    }
  }

  // ---------- changes to an inode ----------

  /** A change to an inode's fields other than its addresses, and iupdate. */
  function Updated(fs: Fs, k: nat, d: Dinode): (r: Fs)
    requires fs.Shape() && k < |fs.inodes|
    ensures r.Shape() && r.sb == fs.sb && |r.inodes| == |fs.inodes| && r.halted == fs.halted
    ensures r.inodes == fs.inodes[k := d] && r.logged == fs.logged + {fs.sb.IBlock(k)}
  {
    Iupdate(fs.(inodes := fs.inodes[k := d]), k)
  }

  lemma UpdatedKeeps(fs: Fs, own: map<nat, Slot>, k: nat, d: Dinode)
    requires Owned(fs, own, 0, 0) && k < |fs.inodes| && d.addrs == fs.inodes[k].addrs
    ensures Owned(Updated(fs, k, d), own, 0, 0) && SameAddrs(fs, Updated(fs, k, d))
  {
    var h := fs.(inodes := fs.inodes[k := d]);
    SameAddrsOwned(fs, h, own);
    IupdateUnseen(h, k);
    UnseenKeeps(h, Iupdate(h, k), own);
    forall k2: nat, j2: nat | fs.Has(k2, j2)
      ensures Addr(Updated(fs, k, d), k2, j2) == Addr(fs, k2, j2)
    {
      UnseenAddr(h, Iupdate(h, k), own, k2, j2);
    }
  }

  function Linked(d: Dinode, delta: int): Dinode {
    d.(nlink := (d.nlink + delta) % 0x1_0000)
  }

  // ---------- sys_link ----------

  /** sys_link of inode i as an entry of directory d; `clash` says that dirlink finds the name bound. */
  function Link(fs: Fs, d: nat, i: nat, entry: seq<Byte>, off: Word, clash: bool): Fs
    requires fs.Shape() && d < |fs.inodes| && i < |fs.inodes| && |entry| == DIRENT
  {
    var f := Updated(fs, i, Linked(fs.inodes[i], 1));
    if clash then Updated(f, i, Linked(f.inodes[i], -1)) else Writei(f, d, entry, off, -1).0
  }

  /** A transaction of link logs six blocks at most. */
  lemma LinkFits(fs: Fs, own: map<nat, Slot>, d: nat, i: nat, entry: seq<Byte>, off: Word, clash: bool)
    requires Owned(fs, own, 0, 0) && i < |fs.inodes| && EntryFits(fs, d, entry, off) && fs.logged == {}
    ensures var r := Link(fs, d, i, entry, off, clash);
            !r.halted ==> |r.logged| <= 6 && |r.logged| <= MAXOPBLOCKS
  {
    UpdatedKeeps(fs, own, i, Linked(fs.inodes[i], 1));
    if !clash {
      var f := Updated(fs, i, Linked(fs.inodes[i], 1));
      var own', S := EntryWrites(f, own, d, entry, off, Writei(f, d, entry, off, -1).0);
      if !Writei(f, d, entry, off, -1).0.halted {
        FewAndTwo(Writei(f, d, entry, off, -1).0.logged, S, fs.sb.IBlock(i), fs.sb.IBlock(d));
      }
    }
  }

  lemma FewAndTwo(a: set<nat>, S: set<nat>, x: nat, y: nat)
    requires a <= {x} + S + {y}
    ensures |a| <= |S| + 2
  {
    Subset(a, {x} + S + {y});
  }

  // ---------- sys_unlink ----------

  /** A write into a block that is there touches that block alone. */
  lemma MappedWrite(fs: Fs, own: map<nat, Slot>, k: nat, src: seq<Byte>, off: nat, r: Fs)
    requires Owned(fs, own, 0, 0) && EntryFits(fs, k, src, off) && off + DIRENT <= fs.inodes[k].size
    requires Addr(fs, k, SlotOf(off / BSIZE)) != 0 && r == Writei(fs, k, src, off, -1).0
    ensures Owned(r, own, 0, 0) && r.inodes == fs.inodes && !r.halted && r.sb == fs.sb
    ensures r.logged == fs.logged + {Addr(fs, k, SlotOf(off / BSIZE)) as nat}
  {
    EntryInBlock(off);
    WriteiIs(fs, k, src, off, -1);
    var f, done, rest, end := Unfold(fs, r, k, src, off);
    assert done == src;
    BmapOfMapped(fs, own, k, off / BSIZE);
    PieceWritten(fs, own, k, off, src);
    PointerIsOwned(fs, own, 0, 0, k, SlotOf(off / BSIZE));
  }

  /** The end of iput, for an inode without links and other references. */
  function Released(fs: Fs, k: nat): Fs
    requires fs.Shape() && k < |fs.inodes|
  {
    var f := Itrunc(fs, k);
    if f.halted then f else Updated(f, k, f.inodes[k].(typ := 0))
  }

  /** iput frees all of the inode's blocks and marks it free, on the disk too; no other inode is concerned. */
  lemma ReleasedFrees(fs: Fs, own: map<nat, Slot>, k: nat) returns (own': map<nat, Slot>)
    requires Owned(fs, own, 0, 0) && k < |fs.inodes| && !fs.halted
    ensures var r := Released(fs, k);
            && !r.halted && Owned(r, own', 0, 0) && NoBlocks(r, k) && r.inodes[k].typ == 0 && Synced(r, k)
            && OthersKept(fs, r, k) && OthersSynced(fs, r, k)
    ensures forall a: nat :: a in own' <==> a in own && own[a].k != k
  {
    own' := ItruncFreesAll(fs, own, k);
    var f := Itrunc(fs, k);
    ReleasedAfter(fs, f, own', k, f.inodes[k].(typ := 0));
  }

  lemma ReleasedAfter(fs: Fs, f: Fs, own: map<nat, Slot>, k: nat, d: Dinode)
    requires Owned(f, own, 0, 0) && k < |f.inodes| && !f.halted && NoBlocks(f, k) && d == f.inodes[k].(typ := 0)
    requires OthersKept(fs, f, k) && OthersSynced(fs, f, k) && fs.Shape()
    ensures var r := Updated(f, k, d);
            && Owned(r, own, 0, 0) && NoBlocks(r, k) && Synced(r, k) && OthersKept(fs, r, k) && OthersSynced(fs, r, k)
  {
    var r, h := Updated(f, k, d), f.(inodes := f.inodes[k := d]);
    UpdatedKeeps(f, own, k, d);
    SameAddrsOwned(f, h, own);
    IupdateUnseen(h, k);
    UnseenKeeps(h, r, own);
    OthersKeptTwice(fs, f, r, k);
    forall i: nat | i < |fs.inodes|
      ensures Synced(r, i) <==> i == k || Synced(f, i)
    {
      IupdateSyncs(h, k, i);
    }
  }

  lemma ReleasedLogs(fs: Fs, own: map<nat, Slot>, k: nat)
    requires Owned(fs, own, 0, 0) && k < |fs.inodes| && !fs.halted
    ensures !Released(fs, k).halted
    ensures Released(fs, k).logged == fs.logged + BitsOwned(fs.sb, own, k) + {fs.sb.IBlock(k)}
  {
    var own' := ItruncFreesAll(fs, own, k);
  }

  /** The parent's nlink is written if a directory goes. */
  function ParentUpdated(fs: Fs, d: nat, dir: bool): (r: Fs)
    requires fs.Shape() && d < |fs.inodes|
    ensures r.Shape() && r.sb == fs.sb && |r.inodes| == |fs.inodes| && r.halted == fs.halted
  {
    if dir then Updated(fs, d, Linked(fs.inodes[d], -1)) else fs
  }

  lemma ParentLogs(fs: Fs, own: map<nat, Slot>, d: nat, dir: bool)
    requires Owned(fs, own, 0, 0) && d < |fs.inodes|
    ensures var r := ParentUpdated(fs, d, dir);
            && Owned(r, own, 0, 0) && r.logged == fs.logged + (if dir then {fs.sb.IBlock(d)} else {})
            && forall k: nat :: k < |fs.inodes| && k != d ==> r.inodes[k] == fs.inodes[k]
  {
    UpdatedKeeps(fs, own, d, Linked(fs.inodes[d], -1));
  }

  /** The inode's own nlink is written, and perhaps it goes away. */
  function Dropped(fs: Fs, i: nat, goes: bool): Fs
    requires fs.Shape() && i < |fs.inodes|
  {
    var f := Updated(fs, i, Linked(fs.inodes[i], -1));
    if goes then Released(f, i) else f
  }

  lemma DroppedLogs(fs: Fs, own: map<nat, Slot>, i: nat, goes: bool)
    requires Owned(fs, own, 0, 0) && i < |fs.inodes| && !fs.halted
    ensures var r := Dropped(fs, i, goes);
            && !r.halted
            && r.logged == fs.logged + {fs.sb.IBlock(i)} + if goes then BitsOwned(fs.sb, own, i) else {}
  {
    UpdatedKeeps(fs, own, i, Linked(fs.inodes[i], -1));
    if goes {
      ReleasedLogs(Updated(fs, i, Linked(fs.inodes[i], -1)), own, i);
    }
  }

  /** Whether iput at the end of sys_unlink frees inode i; `unused` says that nobody else has a reference to it. */
  predicate GoesAway(fs: Fs, i: nat, unused: bool)
    requires i < |fs.inodes|
  {
    unused && Linked(fs.inodes[i], -1).nlink == 0
  }

  /** sys_unlink of the entry at off of directory d, which names inode i */
  function Unlink(fs: Fs, d: nat, off: Word, i: nat, unused: bool): Fs
    requires fs.Shape() && d < |fs.inodes| && i < |fs.inodes|
  {
    var f1 := Writei(fs, d, Zeros(DIRENT), off, -1).0;
    if f1.halted then f1
    else
      Dropped(ParentUpdated(f1, d, fs.inodes[i].typ == T_DIR), i, GoesAway(fs, i, unused))
  }

  /** The inode blocks that it logs. */
  function InodeBlocks(fs: Fs, d: nat, i: nat): set<nat>
    requires i < |fs.inodes|
  {
    {fs.sb.IBlock(i)} + if fs.inodes[i].typ == T_DIR then {fs.sb.IBlock(d)} else {}
  }

  /** The bitmap blocks that it logs. */
  ghost function BitmapBlocks(fs: Fs, own: map<nat, Slot>, i: nat, unused: bool): set<nat>
    requires i < |fs.inodes|
  {
    if GoesAway(fs, i, unused) then BitsOwned(fs.sb, own, i) else {}
  }

  /** An entry of a directory, in a block that is there, and the inode it names. */
  predicate CanUnlink(fs: Fs, d: nat, off: nat, i: nat) {
    && EntryFits(fs, d, Zeros(DIRENT), off) && off + DIRENT <= fs.inodes[d].size && i < |fs.inodes| && i != d
    && Addr(fs, d, SlotOf(off / BSIZE)) != 0
  }

  lemma Together(before: set<nat>, a: nat, parent: set<nat>, own: nat, bits: set<nat>, all: set<nat>)
    requires before == {} && all == before + {a} + parent + {own} + bits
    ensures all == {a} + ({own} + parent) + bits
  {
  }

  lemma UnlinkLogs(fs: Fs, own: map<nat, Slot>, d: nat, off: Word, i: nat, unused: bool, f1: Fs, f2: Fs, r: Fs)
    requires Owned(fs, own, 0, 0) && CanUnlink(fs, d, off, i) && fs.logged == {}
    requires f1 == Writei(fs, d, Zeros(DIRENT), off, -1).0 && f1.Shape() && d < |f1.inodes|
    requires f2 == ParentUpdated(f1, d, fs.inodes[i].typ == T_DIR) && i < |f2.inodes|
    requires r == Dropped(f2, i, GoesAway(fs, i, unused))
    ensures !f1.halted && !r.halted
    ensures r.logged == {Addr(fs, d, SlotOf(off / BSIZE)) as nat} + InodeBlocks(fs, d, i)
                        + BitmapBlocks(fs, own, i, unused)
  {
    MappedWrite(fs, own, d, Zeros(DIRENT), off, f1);
    ParentLogs(f1, own, d, fs.inodes[i].typ == T_DIR);
    DroppedLogs(f2, own, i, GoesAway(fs, i, unused));
    Together(fs.logged, Addr(fs, d, SlotOf(off / BSIZE)), if fs.inodes[i].typ == T_DIR then {fs.sb.IBlock(d)} else {},
             fs.sb.IBlock(i), BitmapBlocks(fs, own, i, unused), r.logged);
  }

  /** Data, inodes and bits lie in different regions. */
  lemma ThreeRegions(a: nat, inodes: set<nat>, bits: set<nat>, lo: nat, mid: nat, hi: nat)
    requires Within(inodes, lo, mid) && Within(bits, mid, hi) && mid <= hi <= a
    ensures |{a} + inodes + bits| == 1 + |inodes| + |bits|
  {
    assert inodes !! bits && a !in inodes + bits;
    assert {a} + inodes + bits == {a} + (inodes + bits);
  }

  lemma InodeBlocksWithin(fs: Fs, d: nat, i: nat)
    requires fs.Shape() && d < |fs.inodes| && i < |fs.inodes|
    ensures Within(InodeBlocks(fs, d, i), fs.sb.inodestart, fs.sb.bmapstart) && 1 <= |InodeBlocks(fs, d, i)| <= 2
  {
    IBlockIsInode(fs.sb, fs.disk, i);
    IBlockIsInode(fs.sb, fs.disk, d);
  }

  lemma BitmapBlocksWithin(fs: Fs, own: map<nat, Slot>, i: nat, unused: bool)
    requires Owned(fs, own, 0, 0) && i < |fs.inodes|
    ensures Within(BitmapBlocks(fs, own, i, unused), fs.sb.bmapstart, fs.sb.dataStart)
    ensures fs.sb.size <= 7 * BPB ==> |BitmapBlocks(fs, own, i, unused)| <= 7
  {
    forall b: nat | b in own
      ensures b < fs.sb.size
    {
      OwnerIsData(fs, own, 0, 0, b);
    }
    BitsAreBlocks(fs.sb, fs.disk, own, i);
    FewBitmapBlocks(fs.sb, own, i, 7);
  }

  /**
    A transaction of unlink logs the directory's block, one or two inode blocks, and if the file goes away
    the bitmap blocks that its blocks lie in. So it stays within the reservation exactly if there are not
    too many of these, and always on a disk of seven bitmap blocks.
   */
  lemma UnlinkFits(fs: Fs, own: map<nat, Slot>, d: nat, off: Word, i: nat, unused: bool)
    requires Owned(fs, own, 0, 0) && CanUnlink(fs, d, off, i) && fs.logged == {}
    ensures var r, few := Unlink(fs, d, off, i, unused), MAXOPBLOCKS - 1 - |InodeBlocks(fs, d, i)|;
            && (|r.logged| <= MAXOPBLOCKS <==> (GoesAway(fs, i, unused) ==> |BitsOwned(fs.sb, own, i)| <= few))
            && few >= 7 && (fs.sb.size <= 7 * BPB ==> |r.logged| <= MAXOPBLOCKS)
  {
    var f1 := Writei(fs, d, Zeros(DIRENT), off, -1).0;
    var f2 := ParentUpdated(f1, d, fs.inodes[i].typ == T_DIR);
    UnlinkLogs(fs, own, d, off, i, unused, f1, f2, Dropped(f2, i, GoesAway(fs, i, unused)));
    PointerIsOwned(fs, own, 0, 0, d, SlotOf(off / BSIZE));
    InodeBlocksWithin(fs, d, i);
    BitmapBlocksWithin(fs, own, i, unused);
    ThreeRegions(Addr(fs, d, SlotOf(off / BSIZE)), InodeBlocks(fs, d, i), BitmapBlocks(fs, own, i, unused),
                 fs.sb.inodestart, fs.sb.bmapstart, fs.sb.dataStart);
  }

  // ---------- create ----------

  /** "." and ".." of a new directory i below d */
  function Dots(fs: Fs, d: nat, i: nat, dot: seq<Byte>, dotdot: seq<Byte>): (r: Fs)
    requires fs.Shape() && d < |fs.inodes| && i < |fs.inodes| && |dot| == DIRENT && |dotdot| == DIRENT
    ensures r.Shape() && r.sb == fs.sb && |r.inodes| == |fs.inodes|
  {
    var f1 := Updated(fs, d, Linked(fs.inodes[d], 1));
    var f2 := Writei(f1, i, dot, 0, -1).0;
    if f2.halted then f2 else Writei(f2, i, dotdot, DIRENT, -1).0
  }

  /** ialloc of inode i and create, which makes `made` of it and enters it in directory d */
  function Create(fs: Fs, d: nat, i: nat, made: Dinode, entry: seq<Byte>, off: Word, dot: seq<Byte>,
                  dotdot: seq<Byte>): Fs
    requires fs.Shape() && d < |fs.inodes| && i < |fs.inodes| && |entry| == DIRENT
    requires |dot| == DIRENT && |dotdot| == DIRENT
  {
    var f := Updated(fs, i, made);
    var g := if made.typ == T_DIR then Dots(f, d, i, dot, dotdot) else f;
    if g.halted then g else Writei(g, d, entry, off, -1).0
  }

  /** A new inode: one link, no blocks. */
  predicate New(d: Dinode) {
    d.nlink == 1 && d.size == 0 && d.addrs == NOADDRS
  }

  lemma NoBlocksNoAddrs(fs: Fs, i: nat)
    requires NoBlocks(fs, i)
    ensures fs.inodes[i].addrs == NOADDRS
  {
    forall j: nat | j < NADDRS
      ensures fs.inodes[i].addrs[j] == 0
    {
      assert Addr(fs, i, j) == 0;
    }
  }

  /** An entry can still be put where it could, once other inodes have changed. */
  lemma StillFits(fs: Fs, r: Fs, k: nat, src: seq<Byte>, off: nat)
    requires EntryFits(fs, k, src, off) && k < |r.inodes| && !r.halted
    requires r.inodes[k].size == fs.inodes[k].size && r.inodes[k].typ == fs.inodes[k].typ
    ensures EntryFits(r, k, src, off)
  {
  }

  /** What the two entries of a new directory log: its first block, its bitmap block and twice the inode. */
  lemma DotsLog(fs: Fs, own: map<nat, Slot>, d: nat, i: nat, dot: seq<Byte>, dotdot: seq<Byte>, r: Fs)
    returns (own': map<nat, Slot>, S: set<nat>, T: set<nat>)
    requires Owned(fs, own, 0, 0) && d < |fs.inodes| && i < |fs.inodes| && i != d && New(fs.inodes[i]) && !fs.halted
    requires |dot| == DIRENT && |dotdot| == DIRENT && fs.inodes[i].typ == T_DIR && r == Dots(fs, d, i, dot, dotdot)
    ensures !r.halted ==>
        && Owned(r, own', 0, 0) && r.sb == fs.sb && |r.inodes| == |fs.inodes| && |S| <= 2 && |T| <= 1
        && r.inodes[d] == Linked(fs.inodes[d], 1)
        && r.logged <= fs.logged + {fs.sb.IBlock(d)} + S + {fs.sb.IBlock(i)} + T
  {
    var f1 := Updated(fs, d, Linked(fs.inodes[d], 1));
    UpdatedKeeps(fs, own, d, Linked(fs.inodes[d], 1));
    var f2 := Writei(f1, i, dot, 0, -1).0;
    T := {};
    own', S := EntryWrites(f1, own, i, dot, 0, f2);
    if !f2.halted {
      WrittenIsMapped(f1, own, i, dot, 0, -1, DIRENT);
      SecondEntry(f1, f2, own', i, dot, S);
      own', T := EntryWrites(f2, own', i, dotdot, DIRENT, r);
    }
  }

  lemma SecondEntry(f1: Fs, f2: Fs, own': map<nat, Slot>, i: nat, dot: seq<Byte>, S: set<nat>)
    requires i < |f1.inodes| && New(f1.inodes[i]) && f1.inodes[i].typ == T_DIR && |dot| == DIRENT
    requires EntryWrote(f1, f2, own', i, dot, 0, S) && RangeMapped(f2, i, 0, DIRENT)
    ensures EntryCost(f2, i, DIRENT) == 1 && |S| <= 2
    ensures forall src: seq<Byte> :: |src| == DIRENT ==> EntryFits(f2, i, src, DIRENT)
  {
    assert Addr(f2, i, SlotOf(0)) != 0;
  }

  lemma Nine(a: set<nat>, x: nat, y: nat, S: set<nat>, T: set<nat>, V: set<nat>)
    requires a <= {x} + {y} + S + {x} + T + V + {y} && |S| <= 2 && |T| <= 1 && |V| <= 4
    ensures |a| <= 9
  {
    Subset(a, {x} + {y} + S + T + V);
  }

  /** A transaction of create, of a directory too, logs nine blocks at most. */
  lemma CreateFits(fs: Fs, own: map<nat, Slot>, d: nat, i: nat, made: Dinode, entry: seq<Byte>, off: Word,
                   dot: seq<Byte>, dotdot: seq<Byte>)
    requires Owned(fs, own, 0, 0) && EntryFits(fs, d, entry, off) && fs.logged == {}
    requires i < |fs.inodes| && i != d && NoBlocks(fs, i) && New(made) && |dot| == DIRENT && |dotdot| == DIRENT
    ensures var r := Create(fs, d, i, made, entry, off, dot, dotdot);
            !r.halted ==> |r.logged| <= 9 && |r.logged| <= MAXOPBLOCKS
  {
    NoBlocksNoAddrs(fs, i);
    UpdatedKeeps(fs, own, i, made);
    var f := Updated(fs, i, made);
    var g, own1 := f, own;
    var S: set<nat>, T: set<nat> := {}, {};
    if made.typ == T_DIR {
      g := Dots(f, d, i, dot, dotdot);
      own1, S, T := DotsLog(f, own, d, i, dot, dotdot, g);
    }
    if !g.halted {
      StillFits(fs, g, d, entry, off);
      var r := Writei(g, d, entry, off, -1).0;
      var own2, V := EntryWrites(g, own1, d, entry, off, r);
      if !r.halted {
        Nine(r.logged, fs.sb.IBlock(i), fs.sb.IBlock(d), S, T, V);
      }
    }
  }
}
