/**
  Writes into a hole below the end of a file: they succeed, but the inode that points to the new
  block never reaches the log. On a concrete disk, and what becomes of any such write.
 */
module FsHole {
  import opened Basics
  import opened Blocks
  import opened FsLayout
  import opened FsSpec
  import opened FsFile
  import opened FsLogged
  import B = FsBudget

  // ---------- what is lost ----------

  /** Until its inode is written, a file that writei filled is ahead of the disk by the new pointers only. */
  lemma FilledLags(fs: Fs, f: Fs, k: nat)
    requires Synced(fs, k) && f.Shape() && f.sb == fs.sb && InodeBlocksKept(fs, f) && Filled(fs, f, k)
    ensures DiskInode(f.sb, f.disk, k) == fs.inodes[k] && LagsBehind(f, k)
  {
    IBlockIsInode(fs.sb, fs.disk, k);
    forall j: nat | j < NADDRS
      ensures Lags(f, k, j)
    {
      assert Addr(f, k, j) == f.inodes[k].addrs[j] && Addr(fs, k, j) == fs.inodes[k].addrs[j];
    }
  }

  lemma LoopLeaks(fs: Fs, f: Fs, own: map<nat, Slot>, k: nat, src: seq<Byte>, off: Word)
    requires Owned(fs, own, 0, 0) && !fs.halted && WritesTo(fs, k, src, off, f) && Synced(fs, k)
    ensures !f.halted ==> (Sound(Reload(f, k)) <==> !FillsHole(fs, k, off, |src|))
  {
    var own' := WriteAll(fs, f, own, k, src, off);
    if !f.halted {
      FilledLags(fs, f, k);
      ReloadSound(f, own', k);
      if FillsHole(fs, k, off, |src|) {
        FilledHoleShows(fs, f, k, off, |src|);
      } else {
        WriteFromKeepsInodes(fs, f, k, src, off);
      }
    }
  }

  /**
    Once the inode is read from the disk again after a writei, no block is leaked if and only if
    the file grew or no pointer of the inode was filled in.
   */
  lemma HoleWriteLeaks(fs: Fs, own: map<nat, Slot>, k: nat, src: seq<Byte>, off: Word, device: int)
    requires Owned(fs, own, 0, 0) && SizeOk(fs, k) && !fs.halted && |src| < 0x1_0000_0000 && fs.inodes[k].typ != T_DEV
    requires Synced(fs, k) && off <= fs.inodes[k].size && off + |src| <= MAXBYTES
    ensures var r := Writei(fs, k, src, off, device).0;
            !r.halted ==> (Sound(Reload(r, k)) <==> off + |src| > fs.inodes[k].size || !FillsHole(fs, k, off, |src|))
  {
    WriteiIs(fs, k, src, off, device);
    var f := WriteFrom(fs, k, src, off);
    if off + |src| > fs.inodes[k].size {
      GrownSound(fs, f, own, k, src, off, off + |src|);
    } else {
      LoopLeaks(fs, f, own, k, src, off);
    }
  }

  lemma GrownSound(fs: Fs, f: Fs, own: map<nat, Slot>, k: nat, src: seq<Byte>, off: Word, end: Word)
    requires Owned(fs, own, 0, 0) && !fs.halted && WritesTo(fs, k, src, off, f)
    ensures !f.halted ==> Sound(Reload(Grown(f, k, end), k))
  {
    var own' := WriteAll(fs, f, own, k, src, off);
    if !f.halted {
      GrownSynced(f, own', k, end, Grown(f, k, end));
    }
  }

  lemma GrownSynced(f: Fs, own: map<nat, Slot>, k: nat, end: Word, r: Fs)
    requires Owned(f, own, 0, 0) && k < |f.inodes| && r == Grown(f, k, end)
    ensures Sound(Reload(r, k))
  {
    GrownKeeps(f, own, k, end);
    IupdateSyncs(SetSize(f, k, end), k, k);
    SyncedSound(r, own, k);
  }

  lemma SyncedSound(r: Fs, own: map<nat, Slot>, k: nat)
    requires Owned(r, own, 0, 0) && Synced(r, k)
    ensures Sound(Reload(r, k))
  {
    assert Reload(r, k) == r;
  }

  /**
    Whatever was written into a direct hole without growing the file is gone once the inode is read from
    disk again.
   */
  lemma HoleWriteLost(fs: Fs, own: map<nat, Slot>, k: nat, src: seq<Byte>, off: Word, device: int, bn: nat)
    requires Owned(fs, own, 0, 0) && SizeOk(fs, k) && !fs.halted && |src| < 0x1_0000_0000 && fs.inodes[k].typ != T_DEV
    requires Synced(fs, k) && off + |src| <= fs.inodes[k].size && bn < NDIRECT && fs.inodes[k].addrs[bn] == 0
    ensures var r := Writei(fs, k, src, off, device).0;
            !r.halted ==> BlockOf(Reload(r, k), k, bn) == ZERO
  {
    WriteiIs(fs, k, src, off, device);
    LoopLost(fs, WriteFrom(fs, k, src, off), own, k, src, off, bn);
  }

  lemma LoopLost(fs: Fs, f: Fs, own: map<nat, Slot>, k: nat, src: seq<Byte>, off: Word, bn: nat)
    requires Owned(fs, own, 0, 0) && !fs.halted && WritesTo(fs, k, src, off, f) && Synced(fs, k)
    requires bn < NDIRECT && fs.inodes[k].addrs[bn] == 0
    ensures !f.halted ==> BlockOf(Reload(f, k), k, bn) == ZERO
  {
    var own' := WriteAll(fs, f, own, k, src, off);
    if !f.halted {
      FilledLags(fs, f, k);
    }
  }

  // ---------- a concrete disk ----------

  const FIRST: Addrs := [34, 0, 0, 0, 0, 0, 0, 0, 0, 0, 0, 0, 0]
  const NONE: Addrs := [0, 0, 0, 0, 0, 0, 0, 0, 0, 0, 0, 0, 0]
  const EMPTY: Dinode := Dinode(0, 0, 0, 0, 0, NONE)
  const ROOT: Dinode := Dinode(T_DIR, 0, 0, 1, 1024, FIRST)
  const SMALL: Super := Super(38, 2, 32, 33, 34)

  predicate InUse(b: nat) {
    b <= 34
  }

  /**
    Boot block, superblock, thirty blocks of log, one of inodes, one of bits, the directory's block and
    three free ones.
   */
  function SmallDisk(entries: Block): Disk {
    seq(32, i => ZERO)
    + [EncodeInode(EncodeInode(ZERO, 0, EMPTY), 1, ROOT), BitBlock(InUse, 0, 38), entries, ZERO, ZERO, ZERO]
  }

  /**
    The root directory as mkfs leaves it when its entries fill one block exactly: the size counts
    two blocks, the second of which was never allocated.
   */
  function SmallFs(entries: Block): (r: Fs)
    ensures r.Shape()
  {
    Fs(SMALL, SmallDisk(entries), [EMPTY, ROOT], {}, false)
  }

  function SmallOwn(): map<nat, Slot> {
    map[34 := Slot(1, 0)]
  }

  lemma SmallSynced(entries: Block)
    ensures Synced(SmallFs(entries), 0) && Synced(SmallFs(entries), 1)
  {
    InodeRoundTrip(ZERO, 0, EMPTY);
    InodeRoundTrip(EncodeInode(ZERO, 0, EMPTY), 1, ROOT);
    InodeFrame(EncodeInode(ZERO, 0, EMPTY), 1, ROOT, 0);
  }

  lemma SmallAddr(fs: Fs, k: nat, j: nat)
    requires fs.Has(k, j) && fs.inodes == [EMPTY, ROOT]
    ensures Addr(fs, k, j) == if k == 1 && j == 0 then 34 else 0
  {
    assert forall i: nat :: i < NADDRS ==> NONE[i] == 0;
    assert forall i: nat :: 0 < i < NADDRS ==> FIRST[i] == 0;
  }

  lemma SmallOwned(entries: Block)
    ensures Owned(SmallFs(entries), SmallOwn(), 0, 0)
  {
    var fs, own := SmallFs(entries), SmallOwn();
    forall k: nat, j: nat | fs.Has(k, j)
      ensures PointerOwned(fs, own, k, j)
    {
      SmallAddr(fs, k, j);
    }
    SmallAddr(fs, 1, 0);
    SmallBits(entries, own);
  }

  lemma SmallBits(entries: Block, own: map<nat, Slot>)
    requires own == SmallOwn()
    ensures BitsMatch(SmallFs(entries), own)
  {
    forall b: nat | b < 38
      ensures Bit(SMALL, SmallDisk(entries), b) <==> b < SMALL.dataStart || b in own
    {
      BitBlockAt(InUse, 0, 38, b);
      SmallBit(entries, b);
    }
  }

  lemma SmallBit(entries: Block, b: nat)
    requires b < 38
    ensures Bit(SMALL, SmallDisk(entries), b) == BlockBit(BitBlock(InUse, 0, 38), b)
  {
    assert SmallDisk(entries)[33] == BitBlock(InUse, 0, 38);
  }

  /** One block is wanted, and block 35 is free. */
  lemma SmallEnough(fs: Fs)
    requires fs.Shape() && fs.sb == SMALL && fs.inodes == [EMPTY, ROOT] && !Bit(SMALL, fs.disk, 35)
    ensures EndBlock(512, 16) == 2 && Allocations(fs, 1, 1, 2) == 1 && Enough(Marks(fs), 1)
  {
    SmallAddr(fs, 1, 1);
    OneIsEnough(fs);
  }

  /**
    WriteiSync's condition can fail: an entry of sixteen bytes written at the start of the root
    directory's missing block succeeds, and afterwards the inode on disk still shows the hole. Read
    from there again it has lost the entry, and the new block is marked with nothing pointing to it.
   */
  lemma HoleWriteNotLogged(entries: Block, entry: seq<Byte>)
    requires |entry| == 16
    ensures var (r, n) := Writei(SmallFs(entries), 1, entry, 512, -1);
            n == 16 && !r.halted && r.inodes[1].size == 1024 && !Synced(r, 1) && !Sound(Reload(r, 1))
  {
    var fs, own := SmallFs(entries), SmallOwn();
    SmallOwned(entries);
    SmallSynced(entries);
    BitBlockAt(InUse, 0, 38, 35);
    SmallEnough(fs);
    SmallHole(fs);
    B.WriteiCosts(fs, own, 1, entry, 512, -1);
    WriteiSync(fs, own, 1, entry, 512, -1);
    HoleWriteLeaks(fs, own, 1, entry, 512, -1);
    var own' := WriteiRefines(fs, own, 1, entry, 512, -1);
  }

  /** The missing block of the root directory is a hole that a read meets. */
  lemma SmallNotMapped(fs: Fs)
    requires fs.inodes == [EMPTY, ROOT]
    ensures !RangeMapped(fs, 1, 512, 528)
  {
    SmallAddr(fs, 1, 1);
    assert Addr(fs, 1, SlotOf(1)) == 0;
  }

  lemma SmallReads(fs: Fs, own: map<nat, Slot>)
    requires Owned(fs, own, 0, 0) && fs.inodes == [EMPTY, ROOT] && !fs.halted && Enough(Marks(fs), 1)
    ensures !ReadFrom(fs, 1, 512, 16, []).0.halted
  {
    SmallAddr(fs, 1, 1);
    var result := ReadFrom(fs, 1, 512, 16, []);
    var f, more := UnfoldRead(fs, result, 1, 512, 16, [], 512);
    BmapAdds(fs, own, 1, 1, f);
    var own' := BmapMaps(fs, own, 1, 1);
    ReadDone(f, result, more);
  }

  lemma ReadDone(f: Fs, result: (Fs, seq<Byte>), more: seq<Byte>)
    requires ReadsTo(f, 1, 512, 16, more, result) && |more| == 16
    ensures result.0 == f
  {
  }

  /**
    Reading the first entry of that block changes the file system and hands blocks to log_write,
    although a caller of readi need not have begun a transaction.
   */
  lemma HoleReadLogs(entries: Block)
    ensures var (r, got, n) := Readi(SmallFs(entries), 1, 512, 16, -1);
            n == 16 && !r.halted && r != SmallFs(entries) && r.logged != {}
  {
    var fs, own := SmallFs(entries), SmallOwn();
    SmallOwned(entries);
    BitBlockAt(InUse, 0, 38, 35);
    SmallEnough(fs);
    SmallNotMapped(fs);
    ReadiIs(fs, 1, 512, 16, -1);
    SmallReads(fs, own);
    ReadiLogsExactly(fs, own, 1, 512, 16, -1);
  }

  lemma SmallHole(fs: Fs)
    requires fs.inodes == [EMPTY, ROOT]
    ensures FillsHole(fs, 1, 512, 16)
  {
    SmallAddr(fs, 1, 1);
    assert Addr(fs, 1, Min(1, NDIRECT)) == 0;
  }
}
