/**
  A disk of ten bitmap blocks, with a file that has a block in the reach of each: truncating it, or
  unlinking its last name, logs more blocks than a transaction may.
 */
module FsSpread {
  import opened Blocks
  import opened FsLayout
  import opened FsSpec
  import B = FsBudget
  import C = FsCalls

  const SIZE: nat := 36929
  const LAYOUT: Super := Super(SIZE, 2, 2, 3, 13)
  const APART: Addrs := [64, 4160, 8256, 12352, 16448, 20544, 24640, 28736, 32832, 36928, 0, 0, 0]
  const ENTRIES: nat := 100  // the directory's block
  const FIRST: Addrs := [ENTRIES, 0, 0, 0, 0, 0, 0, 0, 0, 0, 0, 0, 0]
  const DIR: Dinode := Dinode(1, 0, 0, 1, 512, FIRST)

  /** The file, of ten blocks. */
  function File(nlink: Half): Dinode {
    Dinode(2, 0, 0, nlink, 5120, APART)
  }

  predicate InUse(b: nat) {
    b < LAYOUT.dataStart || b % BPB == 64 || b == ENTRIES
  }

  function InodeBlock(nlink: Half): Block {
    EncodeInode(EncodeInode(ZERO, 0, File(nlink)), 1, DIR)
  }

  function DiskBlock(nlink: Half, b: nat): Block {
    if b == LAYOUT.inodestart then InodeBlock(nlink)
    else if LAYOUT.bmapstart <= b < LAYOUT.dataStart then BitBlock(InUse, BPB * (b - LAYOUT.bmapstart), BPB)
    else ZERO
  }

  /** Inode 0 is the file and inode 1 a directory. */
  function Spread(nlink: Half): (r: Fs)
    ensures r.Shape() && r.sb == LAYOUT && r.inodes == [File(nlink), DIR] && r.logged == {} && !r.halted
    ensures forall b: nat :: b < SIZE ==> r.disk[b] == DiskBlock(nlink, b)
  {
    Fs(LAYOUT, seq(SIZE, b requires 0 <= b => DiskBlock(nlink, b)), [File(nlink), DIR], {}, false)
  }

  function Owners(): map<nat, Slot> {
    map b: nat | LAYOUT.dataStart <= b < SIZE && InUse(b) :: if b == ENTRIES then Slot(1, 0) else Slot(0, b / BPB)
  }

  lemma SpreadSynced(nlink: Half)
    ensures Synced(Spread(nlink), 0) && Synced(Spread(nlink), 1)
  {
    var b := EncodeInode(ZERO, 0, File(nlink));
    InodeRoundTrip(ZERO, 0, File(nlink));
    InodeRoundTrip(b, 1, DIR);
    InodeFrame(b, 1, DIR, 0);
  }

  lemma SpreadAddr(fs: Fs, nlink: Half, k: nat, j: nat)
    requires fs.inodes == [File(nlink), DIR] && k < 2 && j < SLOTS
    ensures Addr(fs, k, j) == if k == 1 then if j == 0 then ENTRIES else 0 else if j < 10 then BPB * j + 64 else 0
  {
  }

  lemma SpreadBits(fs: Fs, nlink: Half, own: map<nat, Slot>)
    requires fs == Spread(nlink) && own == Owners()
    ensures BitsMatch(fs, own)
  {
    forall b: nat | b < SIZE
      ensures Bit(LAYOUT, fs.disk, b) <==> InUse(b)
    {
      BitBlockAt(InUse, BPB * (b / BPB), BPB, b % BPB);
    }
  }

  lemma SpreadOwned(nlink: Half)
    ensures Owned(Spread(nlink), Owners(), 0, 0)
  {
    var fs, own := Spread(nlink), Owners();
    forall k: nat, j: nat | fs.Has(k, j)
      ensures PointerOwned(fs, own, k, j)
    {
      SpreadAddr(fs, nlink, k, j);
    }
    forall a: nat | a in own
      ensures OwnerPoints(fs, own[a], a, 0, 0)
    {
      SpreadAddr(fs, nlink, own[a].k, own[a].j);
    }
    SpreadBits(fs, nlink, own);
  }

  /** Bitmap block x has the bit of the file's block number x - bmapstart. */
  lemma BitmapBlock(x: nat)
    requires LAYOUT.bmapstart <= x < LAYOUT.dataStart
    ensures x in BitsOwned(LAYOUT, Owners(), 0)
  {
    var q := x - LAYOUT.bmapstart;
    var b := BPB * q + 64;
    assert b / BPB == q && b % BPB == 64;
    assert b in Owners() && Owners()[b].k == 0 && LAYOUT.BBlock(b) == x;
  }

  lemma InBitmap(b: nat)
    requires b < SIZE
    ensures LAYOUT.bmapstart <= LAYOUT.BBlock(b) < LAYOUT.dataStart
  {
  }

  lemma OnlyBitmapBlocks(own: map<nat, Slot>, x: nat)
    requires x in BitsOwned(LAYOUT, own, 0) && forall b: nat :: b in own ==> b < SIZE
    ensures LAYOUT.bmapstart <= x < LAYOUT.dataStart
  {
    var b: nat :| b in own && own[b].k == 0 && LAYOUT.BBlock(b) == x;
    InBitmap(b);
  }

  /** Each of the ten bitmap blocks has a bit of the file. */
  lemma AllBitmapBlocks(bits: set<nat>)
    requires bits == BitsOwned(LAYOUT, Owners(), 0)
    ensures bits == B.Run(LAYOUT.bmapstart, B.MAXOPBLOCKS)
  {
    forall x: nat
      ensures x in bits <==> LAYOUT.bmapstart <= x < LAYOUT.dataStart
    {
      if x in bits {
        OnlyBitmapBlocks(Owners(), x);
      } else if LAYOUT.bmapstart <= x < LAYOUT.dataStart {
        BitmapBlock(x);
      }
    }
  }

  /**
    iput's truncation can exceed the reservation: this file system is consistent, its inodes are as on
    the disk, and itrunc does not panic, but logs eleven blocks.
   */
  lemma ItruncOverruns()
    ensures Owned(Spread(0), Owners(), 0, 0) && Synced(Spread(0), 0) && Synced(Spread(0), 1)
    ensures !Itrunc(Spread(0), 0).halted && |Itrunc(Spread(0), 0).logged| == B.MAXOPBLOCKS + 1
  {
    SpreadOwned(0);
    SpreadSynced(0);
    AllBitmapBlocks(BitsOwned(LAYOUT, Owners(), 0));
    B.ItruncFits(Spread(0), Owners(), 0);
    var own' := ItruncFreesAll(Spread(0), Owners(), 0);
  }

  lemma TooManyBits(fs: Fs, own: map<nat, Slot>, bits: set<nat>)
    requires Owned(fs, own, 0, 0) && fs.logged == {} && C.CanUnlink(fs, 1, 0, 0) && C.GoesAway(fs, 0, true)
    requires bits == BitsOwned(fs.sb, own, 0) && |bits| == B.MAXOPBLOCKS
    ensures |C.Unlink(fs, 1, 0, 0, true).logged| > B.MAXOPBLOCKS
  {
    C.UnlinkFits(fs, own, 1, 0, 0, true);
  }

  /** The first entry of the directory names the file, whose only name it is. */
  lemma SpreadUnlinks(fs: Fs)
    requires fs.inodes == [File(1), DIR] && !fs.halted
    ensures C.CanUnlink(fs, 1, 0, 0) && C.GoesAway(fs, 0, true)
  {
    SpreadAddr(fs, 1, 1, 0);
  }

  /** So can unlink: taking the only name of this file, which nobody has open, out of the directory. */
  lemma UnlinkOverruns()
    ensures Owned(Spread(1), Owners(), 0, 0) && Synced(Spread(1), 0) && Synced(Spread(1), 1)
    ensures C.CanUnlink(Spread(1), 1, 0, 0) && |C.Unlink(Spread(1), 1, 0, 0, true).logged| > B.MAXOPBLOCKS
  {
    SpreadOwned(1);
    SpreadSynced(1);
    SpreadUnlinks(Spread(1));
    AllBitmapBlocks(BitsOwned(LAYOUT, Owners(), 0));
    TooManyBits(Spread(1), Owners(), BitsOwned(LAYOUT, Owners(), 0));
  }
}
