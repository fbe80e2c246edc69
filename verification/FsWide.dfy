/**
  A disk on which one chunk of filewrite logs as many blocks as it can: all but five blocks are in
  use, and the five free ones lie in five bitmap blocks.
 */
module FsWide {
  import opened Blocks
  import opened FsLayout
  import opened FsSpec
  import opened FsFile
  import opened FsLogged
  import opened FsBudget

  const FILES: nat := 117   // inodes 0 .. 116 have all their blocks; inode 117 is written
  const DATA: nat := 22     // the boot block and others, 15 blocks of inodes, 5 of bits
  const BITS: nat := 17
  const INODES: nat := 2
  const FREE: nat := 64     // block 64 is free, and so is every 4096th block behind it
  const OFF: nat := 5633    // 11 * BSIZE + 1

  /** The first `direct` blocks of inode 117 are there. */
  function Size(direct: nat): nat {
    DATA + SLOTS * FILES + direct
  }

  predicate InUse(direct: nat, b: nat) {
    b < Size(direct) && (b < DATA || b % BPB != FREE)
  }

  /** The pointer to block b, if that is in use. */
  function At(direct: nat, b: nat): Word
    requires direct <= NDIRECT
  {
    if InUse(direct, b) then b else 0
  }

  // ---------- the disk ----------

  /** Block b, if it is an indirect block: its entries are the blocks that follow it. */
  function Entries(direct: nat, b: nat, n: nat): Block
    requires direct <= NDIRECT && n <= NINDIRECT
  {
    if n == 0 then ZERO else StoreWord(Entries(direct, b, n - 1), n - 1, At(direct, b + n))
  }

  lemma {:induction false} EntriesAt(direct: nat, b: nat, n: nat, e: nat)
    requires direct <= NDIRECT && e < n <= NINDIRECT
    ensures LoadWord(Entries(direct, b, n), e) == At(direct, b + 1 + e)
  {
    LoadStore(Entries(direct, b, n - 1), n - 1, At(direct, b + n), e);
    if e < n - 1 {
      EntriesAt(direct, b, n - 1, e);
    }
  }

  function Used(direct: nat): nat -> bool {
    (b: nat) => InUse(direct, b)
  }

  /** The pointers in inode k: its blocks follow each other, and the thirteenth is the indirect one. */
  function Pointers(direct: nat, k: nat, n: nat): (r: seq<Word>)
    requires direct <= NDIRECT
    ensures |r| == n && forall j: nat :: j < n ==> r[j] == At(direct, DATA + SLOTS * k + j)
  {
    if n == 0 then [] else Pointers(direct, k, n - 1) + [At(direct, DATA + SLOTS * k + n - 1)]
  }

  function Inode(direct: nat, k: nat): Dinode
    requires direct <= NDIRECT
  {
    Dinode(2, 0, 0, 1, if k < FILES then MAXBYTES else OFF, Pointers(direct, k, NADDRS))
  }

  /** The n inodes from k on. */
  function InodeBlock(direct: nat, k: nat, n: nat): Block
    requires direct <= NDIRECT && n <= IPB
  {
    if n == 0 then ZERO else EncodeInode(InodeBlock(direct, k, n - 1), n - 1, Inode(direct, k + n - 1))
  }

  lemma {:induction false} InodeBlockAt(direct: nat, k: nat, n: nat, i: nat)
    requires direct <= NDIRECT && i < n <= IPB
    ensures DecodeInode(InodeBlock(direct, k, n), i) == Inode(direct, k + i)
  {
    var b := InodeBlock(direct, k, n - 1);
    if i == n - 1 {
      InodeRoundTrip(b, i, Inode(direct, k + i));
    } else {
      InodeFrame(b, n - 1, Inode(direct, k + n - 1), i);
      InodeBlockAt(direct, k, n - 1, i);
    }
  }

  function DiskBlock(direct: nat, b: nat): Block
    requires direct <= NDIRECT
  {
    if b < INODES then ZERO
    else if b < BITS then InodeBlock(direct, IPB * (b - INODES), IPB)
    else if b < DATA then BitBlock(Used(direct), BPB * (b - BITS), BPB)
    else Entries(direct, b, NINDIRECT)
  }

  function WideDisk(direct: nat, n: nat): (r: Disk)
    requires direct <= NDIRECT
    ensures |r| == n && forall b: nat :: b < n ==> r[b] == DiskBlock(direct, b)
  {
    if n == 0 then [] else WideDisk(direct, n - 1) + [DiskBlock(direct, n - 1)]
  }

  function Inodes(direct: nat, n: nat): (r: seq<Dinode>)
    requires direct <= NDIRECT
    ensures |r| == n && forall k: nat :: k < n ==> r[k] == Inode(direct, k)
  {
    if n == 0 then [] else Inodes(direct, n - 1) + [Inode(direct, n - 1)]
  }

  /** The file system; no operation has logged anything yet. */
  function Wide(direct: nat): (r: Fs)
    requires direct <= NDIRECT
    ensures r.Shape() && r.logged == {} && !r.halted && |r.inodes| == FILES + 1 && r.sb.size == Size(direct)
    ensures r.sb.dataStart == DATA
  {
    Fs(Super(Size(direct), FILES + 1, INODES, BITS, DATA), WideDisk(direct, Size(direct)), Inodes(direct, FILES + 1),
       {}, false)
  }

  /** Every inode on the disk is the one in memory. */
  ghost predicate AllSynced(fs: Fs) {
    forall k: nat :: k < |fs.inodes| ==> Synced(fs, k)
  }

  lemma WideSyncedAt(direct: nat, k: nat, q: nat, i: nat)
    requires direct <= NDIRECT && k <= FILES && q == k / IPB && i == k % IPB && k == IPB * q + i
    ensures Synced(Wide(direct), k)
  {
    InodeBlockAt(direct, IPB * q, IPB, i);
    assert Wide(direct).disk[INODES + q] == InodeBlock(direct, IPB * q, IPB);
  }

  lemma WideSynced(direct: nat)
    requires direct <= NDIRECT
    ensures AllSynced(Wide(direct))
  {
    forall k: nat | k <= FILES
      ensures Synced(Wide(direct), k)
    {
      WideSyncedAt(direct, k, k / IPB, k % IPB);
    }
  }

  /** The bitmap says what is in use. */
  ghost predicate BitsSo(fs: Fs, direct: nat) {
    && direct <= NDIRECT && fs.Shape() && fs.sb.size == Size(direct) && fs.sb.bmapstart == BITS
    && forall q: nat :: q < DATA - BITS ==> fs.disk[BITS + q] == BitBlock(Used(direct), BPB * q, BPB)
  }

  lemma WideHasBits(direct: nat)
    requires direct <= NDIRECT
    ensures BitsSo(Wide(direct), direct)
  {
  }

  lemma BitIs(fs: Fs, direct: nat, b: nat)
    requires BitsSo(fs, direct) && b < fs.sb.size
    ensures Bit(fs.sb, fs.disk, b) <==> InUse(direct, b)
  {
    var q, i := b / BPB, b % BPB;
    assert fs.disk[BITS + q] == BitBlock(Used(direct), BPB * q, BPB);
    BitBlockAt(Used(direct), BPB * q, BPB, i);
  }

  // ---------- who owns what ----------

  /** The indirect blocks are none of the free ones. */
  lemma IndirectInUse(k: nat)
    requires k < FILES
    ensures (DATA + SLOTS * k + NDIRECT) % BPB != FREE
  {
  }

  lemma WideEntry(direct: nat, k: nat, j: nat, e: nat, x: nat)
    requires direct <= NDIRECT && k < FILES && e < NINDIRECT && j == NDIRECT + 1 + e && x == DATA + SLOTS * k + NDIRECT
    ensures Addr(Wide(direct), k, j) == At(direct, x + 1 + e)
  {
    IndirectInUse(k);
    assert Inode(direct, k).addrs[NDIRECT] == x && Wide(direct).disk[x] == Entries(direct, x, NINDIRECT);
    EntriesAt(direct, x, NINDIRECT, e);
  }

  lemma WidePointer(direct: nat, k: nat, j: nat)
    requires direct <= NDIRECT && k <= FILES && j < NADDRS
    ensures Wide(direct).inodes[k].addrs[j] == At(direct, DATA + SLOTS * k + j)
  {
  }

  /** The last inode has no indirect block. */
  lemma WideBehind(direct: nat, j: nat)
    requires direct <= NDIRECT && NDIRECT <= j < SLOTS
    ensures At(direct, DATA + SLOTS * FILES + j) == 0
  {
  }

  lemma WideLast(fs: Fs, direct: nat, j: nat)
    requires direct <= NDIRECT < j < SLOTS && FILES < |fs.inodes|
    requires fs.inodes[FILES].addrs[NDIRECT] == At(direct, DATA + SLOTS * FILES + NDIRECT)
    ensures Addr(fs, FILES, j) == At(direct, DATA + SLOTS * FILES + j)
  {
    WideBehind(direct, NDIRECT);
    WideBehind(direct, j);
  }

  lemma WideAddr(direct: nat, k: nat, j: nat)
    requires direct <= NDIRECT && k <= FILES && j < SLOTS
    ensures Addr(Wide(direct), k, j) == At(direct, DATA + SLOTS * k + j)
  {
    if j <= NDIRECT {
      WidePointer(direct, k, j);
    } else if k == FILES {
      WidePointer(direct, k, NDIRECT);
      WideLast(Wide(direct), direct, j);
    } else {
      var x := DATA + SLOTS * k + NDIRECT;
      WideEntry(direct, k, j, j - NDIRECT - 1, x);
      assert x + 1 + (j - NDIRECT - 1) == DATA + SLOTS * k + j;
    }
  }

  /** The slot whose block b is. */
  function SlotAt(b: nat): Slot
    requires DATA <= b
  {
    Slot((b - DATA) / SLOTS, (b - DATA) % SLOTS)
  }

  function Owners(direct: nat): map<nat, Slot> {
    map b: nat | DATA <= b < Size(direct) && InUse(direct, b) :: SlotAt(b)
  }

  lemma SlotAtIs(k: nat, j: nat)
    requires j < SLOTS
    ensures SlotAt(DATA + SLOTS * k + j) == Slot(k, j)
  {
  }

  lemma SlotAtHas(direct: nat, b: nat)
    requires direct <= NDIRECT && DATA <= b < Size(direct)
    ensures var s := SlotAt(b); s.k <= FILES && s.j < SLOTS && DATA + SLOTS * s.k + s.j == b
  {
  }

  lemma WideOwned(direct: nat)
    requires direct <= NDIRECT
    ensures Owned(Wide(direct), Owners(direct), 0, 0)
  {
    var fs, own := Wide(direct), Owners(direct);
    forall k: nat, j: nat | fs.Has(k, j)
      ensures PointerOwned(fs, own, k, j)
    {
      WideAddr(direct, k, j);
      SlotAtIs(k, j);
    }
    forall a: nat | a in own
      ensures OwnerPoints(fs, own[a], a, 0, 0)
    {
      SlotAtHas(direct, a);
      WideAddr(direct, SlotAt(a).k, SlotAt(a).j);
    }
    WideHasBits(direct);
    forall b: nat | b < fs.sb.size
      ensures Bit(fs.sb, fs.disk, b) <==> b < fs.sb.dataStart || b in own
    {
      BitIs(fs, direct, b);
    }
  }

  // ---------- the write ----------

  ghost predicate MarksAre(m: seq<bool>, direct: nat) {
    |m| == Size(direct) && forall b: nat :: b < |m| ==> (m[b] <==> InUse(direct, b))
  }

  lemma WideMarks(direct: nat)
    requires direct <= NDIRECT
    ensures MarksAre(Marks(Wide(direct)), direct)
  {
    WideHasBits(direct);
    forall b: nat | b < Size(direct)
      ensures Marks(Wide(direct))[b] <==> InUse(direct, b)
    {
      BitIs(Wide(direct), direct, b);
    }
  }

  /** The first free block from b on, if none is between them. */
  lemma NextFree(m: seq<bool>, direct: nat, b: nat, q: nat)
    requires MarksAre(m, direct) && b <= BPB * q + FREE < Size(direct) && BPB * q + FREE < b + BPB
    ensures First(m, b) == BPB * q + FREE
  {
    forall c: nat | b <= c < BPB * q + FREE
      ensures m[c]
    {
    }
    FirstIs(m, b, BPB * q + FREE);
  }

  /** The free blocks are one in each bitmap block, from the i-th on. */
  ghost predicate OneEach(xs: seq<nat>, i: nat) {
    forall j :: 0 <= j < |xs| ==> xs[j] == BPB * (i + j) + FREE
  }

  lemma OneEachMore(xs: seq<nat>, i: nat)
    requires OneEach(xs, i + 1)
    ensures OneEach([BPB * i + FREE] + xs, i)
  {
  }

  lemma {:induction false} FreesAre(m: seq<bool>, direct: nat, i: nat, b: nat, n: nat)
    requires MarksAre(m, direct) && i + n <= 5 && b <= BPB * i + FREE < b + BPB && b <= |m|
    ensures OneEach(Frees(m, b, n), i) && |Frees(m, b, n)| == n
    decreases n
  {
    if n > 0 {
      FreesAre(m, direct, i + 1, BPB * i + FREE + 1, n - 1);
      FirstOfFrees(m, direct, i, b, n);
    }
  }

  lemma FirstOfFrees(m: seq<bool>, direct: nat, i: nat, b: nat, n: nat)
    requires MarksAre(m, direct) && 0 < n && i + n <= 5 && b <= BPB * i + FREE < b + BPB && b <= |m|
    requires OneEach(Frees(m, BPB * i + FREE + 1, n - 1), i + 1) && |Frees(m, BPB * i + FREE + 1, n - 1)| == n - 1
    ensures OneEach(Frees(m, b, n), i) && |Frees(m, b, n)| == n
  {
    NextFree(m, direct, b, i);
    OneEachMore(Frees(m, BPB * i + FREE + 1, n - 1), i);
  }

  lemma {:induction false} OneEachBits(sb: Super, xs: seq<nat>)
    requires OneEach(xs, 0)
    ensures |BitsOf(sb, xs)| == |xs| && forall b: nat :: b in BitsOf(sb, xs) ==> b < sb.bmapstart + |xs|
  {
    if xs != [] {
      OneEachBits(sb, xs[..|xs| - 1]);
      assert sb.BBlock(xs[|xs| - 1]) == sb.bmapstart + |xs| - 1;
    }
  }

  /** The blocks that a chunk at OFF touches. */
  lemma ChunkAtOff()
    ensures OFF / BSIZE == 11 && EndBlock(OFF, CHUNK) == 15 && OFF + CHUNK <= MAXBYTES
  {
  }

  /** Inode 117 has its first `direct` blocks and no other. */
  ghost predicate Tail(fs: Fs, direct: nat) {
    && FILES < |fs.inodes| && fs.inodes[FILES].size == OFF && fs.inodes[FILES].typ == 2
    && forall j: nat :: j < SLOTS ==> (Addr(fs, FILES, j) != 0 <==> j < direct)
  }

  lemma WideTail(direct: nat)
    requires direct <= NDIRECT
    ensures Tail(Wide(direct), direct)
  {
    forall j: nat | j < SLOTS
      ensures Addr(Wide(direct), FILES, j) != 0 <==> j < direct
    {
      WideAddr(direct, FILES, j);
      TailInUse(direct, j);
    }
  }

  lemma TailInUse(direct: nat, j: nat)
    requires direct <= NDIRECT && j < SLOTS
    ensures InUse(direct, DATA + SLOTS * FILES + j) <==> j < direct
  {
  }

  /** What a chunk at OFF needs of such a file. */
  lemma TailNeeds(fs: Fs, direct: nat)
    requires Tail(fs, direct) && (direct == 0 || direct == NDIRECT)
    ensures Allocations(fs, FILES, 11, 15) == if direct == 0 then 5 else 4
    ensures AllHoles(fs, FILES, if direct == 0 then 11 else 12, 15)
  {
    MissingAll(fs, FILES, 12, 15);
    assert forall bn: nat :: 12 <= bn < 15 ==> Addr(fs, FILES, SlotOf(bn)) == 0;
    assert Addr(fs, FILES, 11) != 0 <==> 11 < direct;
  }

  lemma TailNoHoles(fs: Fs)
    requires Tail(fs, NDIRECT)
    ensures NoHoles(fs, FILES)
  {
    forall bn: nat | bn < MAXFILE && bn * BSIZE < OFF
      ensures Addr(fs, FILES, SlotOf(bn)) != 0
    {
      assert SlotOf(bn) == bn < NDIRECT;
    }
  }

  /** A chunk at OFF takes n blocks from n bitmap blocks. */
  lemma WideTakes(fs: Fs, direct: nat, n: nat)
    requires fs.Shape() && MarksAre(Marks(fs), direct) && n <= 5
    ensures Enough(Marks(fs), n) && |BitsOf(fs.sb, Frees(Marks(fs), 0, n))| == n
  {
    FreesAre(Marks(fs), direct, 0, 0, n);
    OneEachBits(fs.sb, Frees(Marks(fs), 0, n));
  }

  lemma WideCosts(fs: Fs, own: map<nat, Slot>, direct: nat, src: seq<Byte>, n: nat)
    requires Owned(fs, own, 0, 0) && fs.logged == {} && !fs.halted && MarksAre(Marks(fs), direct) && Tail(fs, direct)
    requires (direct == 0 && n == 5) || (direct == NDIRECT && n == 4)
    requires |src| == CHUNK
    ensures var r := Writei(fs, FILES, src, OFF, -1).0;
            !r.halted && |r.logged| == Cost(fs, FILES, OFF, CHUNK)
    ensures Cost(fs, FILES, OFF, CHUNK) == n + 6
  {
    ChunkAtOff();
    TailNeeds(fs, direct);
    WideTakes(fs, direct, n);
    WriteiCosts(fs, own, FILES, src, OFF, -1);
    EntersAt(fs, FILES, 11, 15, 12);
  }

  /**
    The reservation is used up: on this disk, where every inode is as on the disk and the file has
    no hole, a chunk that runs over the last direct block into a new indirect block logs ten blocks.
   */
  lemma TenIsReached(src: seq<Byte>)
    requires |src| == CHUNK
    ensures Owned(Wide(NDIRECT), Owners(NDIRECT), 0, 0) && AllSynced(Wide(NDIRECT)) && SizeOk(Wide(NDIRECT), FILES)
    ensures NoHoles(Wide(NDIRECT), FILES)
    ensures var r := Writei(Wide(NDIRECT), FILES, src, OFF, -1).0;
            !r.halted && |r.logged| == MAXOPBLOCKS
  {
    WideOwned(NDIRECT);
    WideSynced(NDIRECT);
    WideMarks(NDIRECT);
    WideTail(NDIRECT);
    TailNoHoles(Wide(NDIRECT));
    WideCosts(Wide(NDIRECT), Owners(NDIRECT), NDIRECT, src, 4);
  }

  /** The same chunk logs eleven blocks if the file has none of its blocks yet. */
  lemma ElevenIsReached(src: seq<Byte>)
    requires |src| == CHUNK
    ensures Owned(Wide(0), Owners(0), 0, 0) && AllSynced(Wide(0)) && SizeOk(Wide(0), FILES)
    ensures var r := Writei(Wide(0), FILES, src, OFF, -1).0;
            !r.halted && |r.logged| == MAXOPBLOCKS + 1
  {
    WideOwned(0);
    WideSynced(0);
    WideMarks(0);
    WideTail(0);
    WideCosts(Wide(0), Owners(0), 0, src, 5);
  }
}
