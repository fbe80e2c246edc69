/**
  How much log space a system call needs: filewrite cuts a write into chunks that are meant to
  stay within the MAXOPBLOCKS blocks that begin_op reserved.
 */
module FsBudget {
  import opened Basics
  import opened Blocks
  import opened FsLayout
  import opened FsSpec
  import opened FsFile
  import opened FsLogged
  import LogSpec

  const MAXOPBLOCKS: nat := LogSpec.MAXOPBLOCKS
  const CHUNK: nat := 1536  // ((MAXOPBLOCKS - 1 - 1 - 2) / 2) * BSIZE

  // ---------- how many blocks that are ----------

  ghost predicate AllMapped(r: Fs, k: nat, lo: nat, hi: nat) {
    k < |r.inodes| && hi <= MAXFILE && forall bn: nat :: lo <= bn < hi ==> Addr(r, k, SlotOf(bn)) != 0
  }

  /** A block of another slot is none of those that hold file blocks lo .. hi - 1. */
  lemma {:induction false} NotData(r: Fs, own: map<nat, Slot>, k: nat, j: nat, lo: nat, hi: nat)
    requires Owned(r, own, 0, 0) && r.Has(k, j) && Addr(r, k, j) != 0 && hi <= MAXFILE
    requires forall bn: nat :: lo <= bn < hi ==> SlotOf(bn) != j
    ensures Addr(r, k, j) !in Data(r, k, lo, hi)
    decreases hi - lo
  {
    if lo < hi {
      NotData(r, own, k, j, lo + 1, hi);
      NoSharing(r, own, 0, 0, k, j, k, SlotOf(lo));
    }
  }

  ghost predicate Above(s: set<nat>, low: nat) {
    forall b: nat :: b in s ==> low <= b
  }

  lemma OneMore(a: nat, s: set<nat>, low: nat)
    requires a !in s && Above(s, low) && low <= a
    ensures |{a} + s| == |s| + 1 && Above({a} + s, low)
  {
  }

  lemma {:induction false} DataCount(r: Fs, own: map<nat, Slot>, k: nat, lo: nat, hi: nat)
    requires Owned(r, own, 0, 0) && AllMapped(r, k, lo, hi) && lo <= hi
    ensures |Data(r, k, lo, hi)| == hi - lo && Above(Data(r, k, lo, hi), r.sb.dataStart)
    decreases hi - lo
  {
    if lo < hi {
      DataCount(r, own, k, lo + 1, hi);
      FirstIsNew(r, own, k, lo, hi);
      OneMore(Addr(r, k, SlotOf(lo)), Data(r, k, lo + 1, hi), r.sb.dataStart);
    }
  }

  lemma FirstIsNew(r: Fs, own: map<nat, Slot>, k: nat, lo: nat, hi: nat)
    requires Owned(r, own, 0, 0) && AllMapped(r, k, lo, hi) && lo < hi
    ensures Addr(r, k, SlotOf(lo)) !in Data(r, k, lo + 1, hi) && r.sb.dataStart <= Addr(r, k, SlotOf(lo))
  {
    assert Addr(r, k, SlotOf(lo)) != 0;
    NotData(r, own, k, SlotOf(lo), lo + 1, hi);
    PointerIsOwned(r, own, 0, 0, k, SlotOf(lo));
  }

  lemma {:induction false} EntersMapped(fs: Fs, r: Fs, k: nat, lo: nat, hi: nat)
    requires k < |fs.inodes| && AllMapped(r, k, lo, hi) && EntersAny(fs, k, lo, hi)
    ensures Addr(r, k, NDIRECT) != 0
    decreases hi - lo
  {
    assert Addr(r, k, SlotOf(lo)) != 0;
    if !Enters(fs, k, lo) {
      EntersMapped(fs, r, k, lo + 1, hi);
    }
  }

  function One(b: bool): nat {
    if b then 1 else 0
  }

  lemma LogsCount(fs: Fs, r: Fs, own: map<nat, Slot>, k: nat, lo: nat, hi: nat)
    requires Owned(r, own, 0, 0) && k < |fs.inodes| && AllMapped(r, k, lo, hi) && lo <= hi
    ensures |Logs(fs, r, k, lo, hi)| == hi - lo + One(EntersAny(fs, k, lo, hi))
    ensures Above(Logs(fs, r, k, lo, hi), r.sb.dataStart)
  {
    DataCount(r, own, k, lo, hi);
    if EntersAny(fs, k, lo, hi) {
      EntersMapped(fs, r, k, lo, hi);
      NotData(r, own, k, NDIRECT, lo, hi);
      PointerIsOwned(r, own, 0, 0, k, NDIRECT);
    }
  }

  ghost predicate Within(s: set<nat>, low: nat, high: nat) {
    forall b: nat :: b in s ==> low <= b < high
  }

  lemma {:induction false} BitsAreBitmap(sb: Super, disk: Disk, xs: seq<nat>)
    requires sb.Laid(disk) && forall i :: 0 <= i < |xs| ==> xs[i] < sb.size
    ensures Within(BitsOf(sb, xs), sb.bmapstart, sb.dataStart) && |BitsOf(sb, xs)| <= |xs|
  {
    if xs != [] {
      BitsAreBitmap(sb, disk, xs[..|xs| - 1]);
      BBlockIsBitmap(sb, disk, xs[|xs| - 1]);
    }
  }

  lemma ApartSum(a: set<nat>, b: set<nat>, low: nat, high: nat)
    requires Within(a, low, high) && Above(b, high) && low <= high
    ensures |a + b| == |a| + |b| && Above(a + b, low)
  {
    assert a !! b;
  }

  /** The unmarked blocks that a write of n bytes at off takes, in order. */
  function Takes(fs: Fs, k: nat, off: nat, n: nat): seq<nat>
    requires fs.Shape() && k < |fs.inodes| && off + n <= MAXBYTES
  {
    EndIn(off, n);
    Frees(Marks(fs), 0, Allocations(fs, k, off / BSIZE, EndBlock(off, n)))
  }

  lemma EndIn(off: nat, n: nat)
    requires off + n <= MAXBYTES
    ensures EndBlock(off, n) <= MAXFILE && (n > 0 ==> off / BSIZE < EndBlock(off, n))
    ensures forall bn: nat :: bn < EndBlock(off, n) ==> bn * BSIZE < off + n
  {
  }

  /**
    What a write of n > 0 bytes at off logs: its data blocks, the indirect block if an entry of it
    is filled, the bitmap blocks of the unmarked blocks that balloc will find, and the inode if
    the file grows.
   */
  function Cost(fs: Fs, k: nat, off: nat, n: nat): nat
    requires fs.Shape() && k < |fs.inodes| && off + n <= MAXBYTES && n > 0
  {
    EndIn(off, n);
    var lo, hi := off / BSIZE, EndBlock(off, n);
    hi - lo + One(EntersAny(fs, k, lo, hi)) + |BitsOf(fs.sb, Takes(fs, k, off, n))| + One(off + n > fs.inodes[k].size)
  }

  lemma LoopCount(fs: Fs, f: Fs, own': map<nat, Slot>, k: nat, lo: nat, hi: nat)
    requires LoopAdds(fs, f, k, lo, hi) && !f.halted && Owned(f, own', 0, 0) && fs.logged == {} && lo < hi
    requires AllMapped(f, k, lo, hi)
    ensures |f.logged| == hi - lo + One(EntersAny(fs, k, lo, hi))
                          + |BitsOf(fs.sb, Frees(Marks(fs), 0, Allocations(fs, k, lo, hi)))|
    ensures Above(f.logged, fs.sb.bmapstart)
  {
    var xs := Frees(Marks(fs), 0, Allocations(fs, k, lo, hi));
    LogsCount(fs, f, own', k, lo, hi);
    BitsAreBitmap(fs.sb, fs.disk, xs);
    ApartSum(BitsOf(fs.sb, xs), Logs(fs, f, k, lo, hi), fs.sb.bmapstart, fs.sb.dataStart);
  }

  lemma GrownCount(f: Fs, k: nat, end: Word)
    requires f.Shape() && k < |f.inodes| && Above(f.logged, f.sb.bmapstart)
    ensures |Grown(f, k, end).logged| == |f.logged| + 1
  {
    IBlockIsInode(f.sb, f.disk, k);
  }

  lemma RangeIsMapped(f: Fs, k: nat, off: nat, n: nat)
    requires RangeMapped(f, k, off, off + n) && off + n <= MAXBYTES
    ensures AllMapped(f, k, off / BSIZE, EndBlock(off, n))
  {
    EndIn(off, n);
  }

  lemma WriteCosts(fs: Fs, f: Fs, own: map<nat, Slot>, k: nat, src: seq<Byte>, off: nat)
    requires Owned(fs, own, 0, 0) && k < |fs.inodes| && !fs.halted && off + |src| <= MAXBYTES
    requires f == WriteFrom(fs, k, src, off)
    requires src != [] && fs.logged == {}
    ensures f.halted <==> !Enough(Marks(fs), Allocations(fs, k, off / BSIZE, EndBlock(off, |src|)))
    ensures !f.halted ==>
        |f.logged| + One(off + |src| > fs.inodes[k].size) == Cost(fs, k, off, |src|) && Above(f.logged, f.sb.bmapstart)
  {
    WriteAdds(fs, f, own, k, src, off);
    if !f.halted {
      var own' := WriteAll(fs, f, own, k, src, off);
      RangeIsMapped(f, k, off, |src|);
      LoopCount(fs, f, own', k, off / BSIZE, EndBlock(off, |src|));
    }
  }

  /**
    Exactly when writei runs out of blocks, and exactly how many blocks it logs, in terms of the
    file system before it.
   */
  lemma WriteiCosts(fs: Fs, own: map<nat, Slot>, k: nat, src: seq<Byte>, off: Word, device: int)
    requires Owned(fs, own, 0, 0) && SizeOk(fs, k) && !fs.halted && fs.inodes[k].typ != T_DEV && fs.logged == {}
    requires src != [] && off <= fs.inodes[k].size && off + |src| <= MAXBYTES
    ensures var r := Writei(fs, k, src, off, device).0;
            && (r.halted <==> !Enough(Marks(fs), Allocations(fs, k, off / BSIZE, EndBlock(off, |src|))))
            && (!r.halted ==> |r.logged| == Cost(fs, k, off, |src|))
  {
    OutOfFileMeans(fs.inodes[k].size, off, |src|);
    var f := WriteFrom(fs, k, src, off);
    WriteCosts(fs, f, own, k, src, off);
    if !f.halted && off + |src| > fs.inodes[k].size {
      GrownCount(f, k, off + |src|);
    }
  }

  // ---------- the bound ----------

  ghost predicate NoHoles(fs: Fs, k: nat) {
    k < |fs.inodes| && forall bn: nat :: bn < MAXFILE && bn * BSIZE < fs.inodes[k].size ==> Addr(fs, k, SlotOf(bn)) != 0
  }

  /** File blocks lo .. hi - 1 are all holes, and so is the indirect block, which they need. */
  ghost predicate AllHoles(fs: Fs, k: nat, lo: nat, hi: nat) {
    && k < |fs.inodes| && NDIRECT < hi <= MAXFILE && Addr(fs, k, NDIRECT) == 0
    && forall bn: nat :: lo <= bn < hi ==> Addr(fs, k, SlotOf(bn)) == 0
  }

  lemma {:induction false} MissingAll(fs: Fs, k: nat, lo: nat, hi: nat)
    requires k < |fs.inodes| && lo <= hi <= MAXFILE
    ensures Missing(fs, k, lo, hi) == hi - lo <==> forall bn: nat :: lo <= bn < hi ==> Addr(fs, k, SlotOf(bn)) == 0
    decreases hi - lo
  {
    if lo < hi {
      MissingAll(fs, k, lo + 1, hi);
      var sub := forall bn: nat :: lo + 1 <= bn < hi ==> Addr(fs, k, SlotOf(bn)) == 0;
      assert (forall bn: nat :: lo <= bn < hi ==> Addr(fs, k, SlotOf(bn)) == 0) <==>
        sub && Addr(fs, k, SlotOf(lo)) == 0;
    }
  }

  /** A chunk touches at most four blocks; of a file without holes the first is there if there are four. */
  lemma ChunkBlocks(fs: Fs, k: nat, off: nat, n: nat, lo: nat, hi: nat)
    requires SizeOk(fs, k) && off <= fs.inodes[k].size && off + n <= MAXBYTES && 0 < n <= CHUNK
    requires lo == off / BSIZE && hi == EndBlock(off, n)
    ensures lo < hi <= MAXFILE && hi - lo <= 4
    ensures NoHoles(fs, k) && hi - lo == 4 ==> Addr(fs, k, SlotOf(lo)) != 0
  {
    if off % BSIZE != 0 && NoHoles(fs, k) {
      assert Addr(fs, k, SlotOf(lo)) != 0;
    }
  }

  lemma {:induction false} EntersAt(fs: Fs, k: nat, lo: nat, hi: nat, bn: nat)
    requires k < |fs.inodes| && lo <= bn < hi <= MAXFILE && Enters(fs, k, bn)
    ensures EntersAny(fs, k, lo, hi)
    decreases hi - lo
  {
    if lo < bn {
      EntersAt(fs, k, lo + 1, hi, bn);
    }
  }

  /** The allocations of a range are as many as can be exactly if all of it is missing. */
  lemma AllocationsAll(fs: Fs, k: nat, lo: nat, hi: nat)
    requires k < |fs.inodes| && lo < hi <= MAXFILE
    ensures Allocations(fs, k, lo, hi) <= hi - lo + 1
    ensures Allocations(fs, k, lo, hi) == hi - lo + 1 <==> AllHoles(fs, k, lo, hi)
    ensures AllHoles(fs, k, lo, hi) ==> EntersAny(fs, k, lo, hi)
  {
    MissingAll(fs, k, lo, hi);
    if AllHoles(fs, k, lo, hi) {
      assert Addr(fs, k, SlotOf(hi - 1)) == 0;
      EntersAt(fs, k, lo, hi, hi - 1);
    }
  }

  lemma AllocationsFrom(fs: Fs, k: nat, lo: nat, hi: nat)
    requires k < |fs.inodes| && lo < hi <= MAXFILE
    ensures Addr(fs, k, SlotOf(lo)) != 0 && lo + 1 < hi ==> Allocations(fs, k, lo, hi) == Allocations(fs, k, lo + 1, hi)
    ensures lo + 1 < hi && EntersAny(fs, k, lo + 1, hi) ==> EntersAny(fs, k, lo, hi)
  {
  }

  /** No more bitmap blocks than blocks taken. */
  lemma BitsFit(fs: Fs, k: nat, off: nat, n: nat)
    requires fs.Shape() && k < |fs.inodes| && off + n <= MAXBYTES && n > 0
    ensures |BitsOf(fs.sb, Takes(fs, k, off, n))| <= Allocations(fs, k, off / BSIZE, EndBlock(off, n))
  {
    EndIn(off, n);
    BitsAreBitmap(fs.sb, fs.disk, Takes(fs, k, off, n));
  }

  /**
    The largest chunk: four blocks, all of them holes, with the indirect block still to be
    allocated, five free blocks from five bitmap blocks, and a file that grows.
   */
  ghost predicate Overruns(fs: Fs, k: nat, off: nat, n: nat) {
    && fs.Shape() && k < |fs.inodes| && off + n <= MAXBYTES && n > 0 && EndBlock(off, n) - off / BSIZE == 4
    && AllHoles(fs, k, off / BSIZE, EndBlock(off, n))
    && |BitsOf(fs.sb, Takes(fs, k, off, n))| == 5 && off + n > fs.inodes[k].size
  }

  /** The largest chunk of a file without holes: all but the first of its four blocks are new. */
  ghost predicate FillsUp(fs: Fs, k: nat, off: nat, n: nat) {
    && fs.Shape() && k < |fs.inodes| && off + n <= MAXBYTES && n > 0 && EndBlock(off, n) - off / BSIZE == 4
    && AllHoles(fs, k, off / BSIZE + 1, EndBlock(off, n))
    && |BitsOf(fs.sb, Takes(fs, k, off, n))| == 4 && off + n > fs.inodes[k].size
  }

  lemma CostOverruns(fs: Fs, k: nat, off: nat, n: nat)
    requires fs.Shape() && SizeOk(fs, k) && off <= fs.inodes[k].size && off + n <= MAXBYTES && 0 < n <= CHUNK
    ensures Cost(fs, k, off, n) <= MAXOPBLOCKS + 1 && (Cost(fs, k, off, n) > MAXOPBLOCKS <==> Overruns(fs, k, off, n))
  {
    var lo, hi := off / BSIZE, EndBlock(off, n);
    ChunkBlocks(fs, k, off, n, lo, hi);
    BitsFit(fs, k, off, n);
    AllocationsAll(fs, k, lo, hi);
  }

  lemma CostWithoutHoles(fs: Fs, k: nat, off: nat, n: nat)
    requires fs.Shape() && SizeOk(fs, k) && off <= fs.inodes[k].size && off + n <= MAXBYTES && 0 < n <= CHUNK
    requires NoHoles(fs, k)
    ensures Cost(fs, k, off, n) <= MAXOPBLOCKS && (Cost(fs, k, off, n) == MAXOPBLOCKS <==> FillsUp(fs, k, off, n))
  {
    var lo, hi := off / BSIZE, EndBlock(off, n);
    ChunkBlocks(fs, k, off, n, lo, hi);
    BitsFit(fs, k, off, n);
    if hi - lo == 4 {
      FourBlocks(fs, k, lo, hi);
    } else {
      AllocationsAll(fs, k, lo, hi);
    }
  }

  /** Four blocks of which the first is there: at most four allocations, and four exactly if all else is missing. */
  lemma FourBlocks(fs: Fs, k: nat, lo: nat, hi: nat)
    requires k < |fs.inodes| && hi == lo + 4 && hi <= MAXFILE && Addr(fs, k, SlotOf(lo)) != 0
    ensures Allocations(fs, k, lo, hi) <= 4 && (Allocations(fs, k, lo, hi) == 4 <==> AllHoles(fs, k, lo + 1, hi))
    ensures AllHoles(fs, k, lo + 1, hi) ==> EntersAny(fs, k, lo, hi)
  {
    AllocationsFrom(fs, k, lo, hi);
    AllocationsAll(fs, k, lo + 1, hi);
  }

  lemma WriteiLogsNone(fs: Fs, k: nat, src: seq<Byte>, off: Word, device: int)
    requires fs.Shape() && SizeOk(fs, k) && |src| < 0x1_0000_0000 && fs.inodes[k].typ != T_DEV
    requires src == [] || off > fs.inodes[k].size || off + |src| > MAXBYTES
    ensures Writei(fs, k, src, off, device).0 == fs
  {
    OutOfFileMeans(fs.inodes[k].size, off, |src|);
  }

  /**
    One chunk of filewrite logs at most the ten distinct blocks that begin_op reserved, on a
    disk of any size, for a file with no hole below its end, and reaches them exactly if FillsUp
    holds before it. For any file it logs at most eleven, and eleven exactly if Overruns holds.
   */
  lemma ChunkFitsReservation(fs: Fs, own: map<nat, Slot>, k: nat, src: seq<Byte>, off: Word, device: int)
    requires Owned(fs, own, 0, 0) && SizeOk(fs, k) && !fs.halted && fs.inodes[k].typ != T_DEV
    requires |src| <= CHUNK && fs.logged == {}
    ensures var r := Writei(fs, k, src, off, device).0;
            !r.halted ==>
              && |r.logged| <= MAXOPBLOCKS + 1
              && (|r.logged| > MAXOPBLOCKS <==> off <= fs.inodes[k].size && Overruns(fs, k, off, |src|))
              && (NoHoles(fs, k) ==>
                    && |r.logged| <= MAXOPBLOCKS
                    && (|r.logged| == MAXOPBLOCKS <==> off <= fs.inodes[k].size && FillsUp(fs, k, off, |src|)))
  {
    if src != [] && off <= fs.inodes[k].size && off + |src| <= MAXBYTES {
      WriteiCosts(fs, own, k, src, off, device);
      CostOverruns(fs, k, off, |src|);
      if NoHoles(fs, k) {
        CostWithoutHoles(fs, k, off, |src|);
      }
    } else {
      WriteiLogsNone(fs, k, src, off, device);
    }
  }

  // ---------- itrunc ----------

  lemma BitsAreBlocks(sb: Super, disk: Disk, own: map<nat, Slot>, k: nat)
    requires sb.Laid(disk) && forall b: nat :: b in own ==> b < sb.size
    ensures Within(BitsOwned(sb, own, k), sb.bmapstart, sb.dataStart)
  {
    forall x: nat | x in BitsOwned(sb, own, k)
      ensures sb.bmapstart <= x < sb.dataStart
    {
      var b: nat :| b in own && own[b].k == k && sb.BBlock(b) == x;
      BBlockIsBitmap(sb, disk, b);
    }
  }

  /**
    The transaction of iput, which calls itrunc with none of its own blocks logged yet, logs one
    block for the inode and one for every bitmap block that the file's blocks lie in: it stays
    within the reservation if and only if these are fewer than ten, which a disk of up to nine
    bitmap blocks grants for every file.
   */
  lemma ItruncFits(fs: Fs, own: map<nat, Slot>, k: nat)
    requires Owned(fs, own, 0, 0) && k < |fs.inodes| && !fs.halted && fs.logged == {}
    ensures |Itrunc(fs, k).logged| == |BitsOwned(fs.sb, own, k)| + 1
    ensures |Itrunc(fs, k).logged| <= MAXOPBLOCKS <==> |BitsOwned(fs.sb, own, k)| < MAXOPBLOCKS
    ensures fs.sb.size <= (MAXOPBLOCKS - 1) * BPB ==> |Itrunc(fs, k).logged| <= MAXOPBLOCKS
  {
    var own' := ItruncFreesAll(fs, own, k);
    forall b: nat | b in own
      ensures b < fs.sb.size
    {
      OwnerIsData(fs, own, 0, 0, b);
    }
    BitsAreBlocks(fs.sb, fs.disk, own, k);
    IBlockIsInode(fs.sb, fs.disk, k);
    FewBitmapBlocks(fs.sb, own, k, MAXOPBLOCKS - 1);
  }

  lemma FewBitmapBlocks(sb: Super, own: map<nat, Slot>, k: nat, n: nat)
    requires forall b: nat :: b in own ==> b < sb.size
    ensures sb.size <= n * BPB ==> |BitsOwned(sb, own, k)| <= n
  {
    if sb.size <= n * BPB {
      var all := Run(sb.bmapstart, n);
      forall x: nat | x in BitsOwned(sb, own, k)
        ensures x in all
      {
        var b: nat :| b in own && own[b].k == k && sb.BBlock(b) == x;
      }
      Subset(BitsOwned(sb, own, k), all);
    }
  }

  /** n numbers from a on */
  function Run(a: nat, n: nat): (r: set<nat>)
    ensures |r| == n && forall x: nat :: x in r <==> a <= x < a + n
  {
    if n == 0 then {} else Run(a, n - 1) + {a + n - 1}
  }

  lemma {:induction false} Subset(a: set<nat>, b: set<nat>)
    requires a <= b
    ensures |a| <= |b|
    decreases |a|
  {
    if a != {} {
      var e :| e in a;
      Subset(a - {e}, b - {e});
    }
  }

  // ---------- filewrite ----------

  /** What filewrite leaves: the file system, f->off, success, and what each transaction logged. */
  datatype Done = Done(fs: Fs, off: Word, ok: bool, ops: seq<set<nat>>)

  /** filewrite on an inode that is no device: one transaction for every chunk */
  function FileWrite(fs: Fs, k: nat, src: seq<Byte>, off: Word): Done
    requires fs.Shape() && k < |fs.inodes|
    decreases |src|
  {
    if src == [] || fs.halted then Done(fs, off, true, [])
    else
      var n := Min(|src|, CHUNK);
      var op := Writei(Begun(fs), k, src[..n], off, -1);
      if op.1 < 0 then Done(op.0, off, false, [op.0.logged])
      else if off + n >= 0x1_0000_0000 then Done(Halt(op.0), off, false, [op.0.logged])
      else
        var rest := FileWrite(op.0, k, src[n..], off + n);
        rest.(ops := [op.0.logged] + rest.ops)
  }

  lemma WriteiKeepsNoHoles(fs: Fs, f: Fs, own: map<nat, Slot>, own': map<nat, Slot>, r: Fs, k: nat, off: nat,
                           src: seq<Byte>)
    requires NoHoles(fs, k) && Progress(fs, f, own, own', k, off, src) && SizeOk(fs, k) && off <= fs.inodes[k].size
    requires k < |r.inodes| && r.inodes[k].size == Max(fs.inodes[k].size, off + |src|)
    requires forall j: nat :: j < SLOTS ==> Addr(r, k, j) == Addr(f, k, j)
    ensures NoHoles(r, k)
  {
    forall bn: nat | bn < MAXFILE && bn * BSIZE < r.inodes[k].size
      ensures Addr(r, k, SlotOf(bn)) != 0
    {
      if bn * BSIZE < fs.inodes[k].size {
        assert Addr(fs, k, SlotOf(bn)) != 0;
      } else {
        assert off / BSIZE <= bn && src != [];
        assert Addr(f, k, SlotOf(bn)) != 0;
      }
    }
  }

  lemma GrownNoHoles(fs: Fs, f: Fs, own: map<nat, Slot>, own': map<nat, Slot>, k: nat, off: nat, src: seq<Byte>)
    requires NoHoles(fs, k) && Progress(fs, f, own, own', k, off, src) && SizeOk(fs, k)
    requires off <= fs.inodes[k].size < off + |src| < 0x1_0000_0000
    ensures NoHoles(Grown(f, k, off + |src|), k)
  {
    GrownAddrs(f, own', k, off + |src|);
    WriteiKeepsNoHoles(fs, f, own, own', Grown(f, k, off + |src|), k, off, src);
  }

  /** A file without holes stays one. */
  lemma WriteiNoHoles(fs: Fs, own: map<nat, Slot>, k: nat, src: seq<Byte>, off: Word, device: int)
    requires Owned(fs, own, 0, 0) && SizeOk(fs, k) && !fs.halted && fs.inodes[k].typ != T_DEV && |src| < 0x1_0000_0000
    requires NoHoles(fs, k)
    ensures var r := Writei(fs, k, src, off, device).0;
            !r.halted ==> NoHoles(r, k)
  {
    OutOfFileMeans(fs.inodes[k].size, off, |src|);
    if off <= fs.inodes[k].size && off + |src| <= MAXBYTES {
      var f := WriteFrom(fs, k, src, off);
      var own' := WriteAll(fs, f, own, k, src, off);
      if !f.halted {
        if off + |src| > fs.inodes[k].size {
          GrownNoHoles(fs, f, own, own', k, off, src);
        } else {
          WriteiKeepsNoHoles(fs, f, own, own', f, k, off, src);
        }
      }
    }
  }

  /** A new transaction starts with nothing logged. */
  function Begun(fs: Fs): (r: Fs)
    ensures r.Shape() == fs.Shape() && r.inodes == fs.inodes && r.sb == fs.sb
  {
    fs.(logged := {})
  }

  lemma BegunKeeps(fs: Fs, own: map<nat, Slot>)
    requires Owned(fs, own, 0, 0)
    ensures Owned(Begun(fs), own, 0, 0) && BlocksKept(fs, Begun(fs)) && SameAddrs(fs, Begun(fs))
  {
    SameAddrsOwned(fs, Begun(fs), own);
  }

  lemma SameFile(fs: Fs, f: Fs, k: nat)
    requires SizeOk(fs, k) && BlocksKept(fs, f) && f.inodes == fs.inodes
    ensures SizeOk(f, k) && Content(f, k) == Content(fs, k)
  {
    SameBlocksSameBytes(fs, f, k, fs.inodes[k].size);
  }

  lemma OverwriteTwice(c: seq<Byte>, off: nat, a: seq<Byte>, b: seq<Byte>)
    requires off <= |c|
    ensures off + |a| <= |Overwrite(c, off, a)|
    ensures Overwrite(Overwrite(c, off, a), off + |a|, b) == Overwrite(c, off, a + b)
  {
    var d := Overwrite(c, off, a);
    var e, g := Overwrite(d, off + |a|, b), Overwrite(c, off, a + b);
    assert |e| == |g|;
    forall i: nat | i < |e|
      ensures e[i] == g[i]
    {
      OverwriteAt(d, off + |a|, b, i);
      OverwriteAt(c, off, a + b, i);
      if i < |d| {
        OverwriteAt(c, off, a, i);
      }
    }
  }

  lemma BegunWritten(fs: Fs, f: Fs, own: map<nat, Slot>, own': map<nat, Slot>, k: nat, off: nat, src: seq<Byte>)
    requires Owned(fs, own, 0, 0) && FileWritten(Begun(fs), f, own', k, off, src)
    ensures FileWritten(fs, f, own', k, off, src)
  {
    BegunKeeps(fs, own);
    SameFile(fs, Begun(fs), k);
    OthersThrough(fs, Begun(fs), f, k);
  }

  lemma OthersThrough(fs: Fs, f: Fs, r: Fs, k: nat)
    requires BlocksKept(fs, f) && f.inodes == fs.inodes && OthersKept(f, r, k)
    ensures OthersKept(fs, r, k)
  {
  }

  lemma OthersTwice(fs: Fs, f: Fs, r: Fs, k: nat)
    requires OthersKept(fs, f, k) && OthersKept(f, r, k)
    ensures OthersKept(fs, r, k)
  {
  }

  lemma FileWrittenTwice(fs: Fs, f: Fs, r: Fs, own1: map<nat, Slot>, own2: map<nat, Slot>, k: nat, off: nat,
                         a: seq<Byte>, mid: nat, b: seq<Byte>, all: seq<Byte>)
    requires FileWritten(fs, f, own1, k, off, a) && FileWritten(f, r, own2, k, mid, b) && mid == off + |a|
    requires all == a + b
    ensures FileWritten(fs, r, own2, k, off, all)
  {
    OverwriteTwice(Content(fs, k), off, a, b);
    OthersTwice(fs, f, r, k);
  }

  /** filewrite got w bytes in; it stops early only at a chunk that would end beyond the largest file. */
  ghost predicate WroteSome(fs: Fs, d: Done, own': map<nat, Slot>, k: nat, off: nat, src: seq<Byte>, w: nat) {
    && w <= |src| && FileWritten(fs, d.fs, own', k, off, src[..w])
    && d.off == off + w && d.ok == (w == |src|)
    && (w == |src| || off + w + Min(CHUNK, |src| - w) > MAXBYTES)
  }

  ghost predicate WroteUpTo(fs: Fs, f: Fs, own': map<nat, Slot>, k: nat, off: nat, src: seq<Byte>, i: nat) {
    i <= |src| && FileWritten(fs, f, own', k, off, src[..i])
  }

  ghost predicate WithinReservation(d: Done) {
    forall i :: 0 <= i < |d.ops| ==> |d.ops[i]| <= MAXOPBLOCKS
  }

  /** What one chunk's transaction does. */
  ghost predicate ChunkWent(fs: Fs, f: Fs, r: int, own': map<nat, Slot>, k: nat, off: nat, piece: seq<Byte>) {
    && f.Shape() && k < |f.inodes| && (r < 0 <==> off + |piece| > MAXBYTES)
    && (r < 0 ==> f == Begun(fs))
    && (r >= 0 && !f.halted ==> FileWritten(fs, f, own', k, off, piece))
  }

  lemma OneChunk(fs: Fs, own: map<nat, Slot>, k: nat, piece: seq<Byte>, off: Word) returns (own': map<nat, Slot>)
    requires Owned(fs, own, 0, 0) && SizeOk(fs, k) && !fs.halted && fs.inodes[k].typ != T_DEV
    requires off <= fs.inodes[k].size
    requires |piece| <= CHUNK
    ensures var (f, r) := Writei(Begun(fs), k, piece, off, -1);
            ChunkWent(fs, f, r, own', k, off, piece)
  {
    BegunKeeps(fs, own);
    own' := WriteiRefines(Begun(fs), own, k, piece, off, -1);
    var (f, r) := Writei(Begun(fs), k, piece, off, -1);
    if r >= 0 && !f.halted {
      BegunWritten(fs, f, own, own', k, off, piece);
    }
  }

  lemma BegunNoHoles(fs: Fs, k: nat)
    requires NoHoles(fs, k)
    ensures NoHoles(Begun(fs), k)
  {
    forall bn: nat | bn < MAXFILE && bn * BSIZE < fs.inodes[k].size
      ensures Addr(Begun(fs), k, SlotOf(bn)) != 0
    {
      assert Addr(fs, k, SlotOf(bn)) != 0;
    }
  }

  lemma OneChunkFits(fs: Fs, own: map<nat, Slot>, k: nat, piece: seq<Byte>, off: Word)
    requires Owned(fs, own, 0, 0) && SizeOk(fs, k) && !fs.halted && fs.inodes[k].typ != T_DEV && NoHoles(fs, k)
    requires |piece| <= CHUNK
    ensures var f := Writei(Begun(fs), k, piece, off, -1).0;
            !f.halted ==> NoHoles(f, k) && |f.logged| <= MAXOPBLOCKS
  {
    BegunKeeps(fs, own);
    BegunNoHoles(fs, k);
    WriteiNoHoles(Begun(fs), own, k, piece, off, -1);
    ChunkFitsReservation(Begun(fs), own, k, piece, off, -1);
  }

  lemma CutChunk(src: seq<Byte>) returns (n: nat)
    requires src != []
    ensures n == Min(|src|, CHUNK) && src == src[..n] + src[n..] && |src[..n]| == n && 0 < n <= |src|
  {
    n := Min(|src|, CHUNK);
  }

  /** d is what filewrite makes of fs. */
  ghost predicate EndsIn(fs: Fs, k: nat, src: seq<Byte>, off: Word, d: Done) {
    fs.Shape() && k < |fs.inodes| && d == FileWrite(fs, k, src, off)
  }

  /** filewrite's loop, one pass unfolded */
  lemma OnePass(fs: Fs, d: Done, k: nat, src: seq<Byte>, off: Word, n: nat)
    returns (f: Fs, r: int, d': Done)
    requires EndsIn(fs, k, src, off, d) && src != [] && !fs.halted && off <= MAXBYTES && n == Min(|src|, CHUNK)
    ensures (f, r) == Writei(Begun(fs), k, src[..n], off, -1)
    ensures r < 0 ==> d == Done(f, off, false, [f.logged])
    ensures r >= 0 ==> EndsIn(f, k, src[n..], off + n, d') && d == d'.(ops := [f.logged] + d'.ops)
  {
    var op := Writei(Begun(fs), k, src[..n], off, -1);
    f, r, d' := op.0, op.1, d;
    if r >= 0 {
      d' := FileWrite(f, k, src[n..], off + n);
    }
  }

  lemma EndsHalted(f: Fs, k: nat, rest: seq<Byte>, off: Word, d: Done)
    requires EndsIn(f, k, rest, off, d) && f.halted
    ensures d.fs.halted
  {
  }

  lemma NextChunk(fs: Fs, d: Done, k: nat, src: seq<Byte>, off: Word, n: nat, piece: seq<Byte>, rest: seq<Byte>)
    returns (f: Fs, r: int, d': Done)
    requires EndsIn(fs, k, src, off, d) && src != [] && !fs.halted && off <= MAXBYTES
    requires n == Min(|src|, CHUNK) && piece == src[..n] && rest == src[n..]
    ensures (f, r) == Writei(Begun(fs), k, piece, off, -1) && f.Shape() && k < |f.inodes|
    ensures r < 0 ==> d == Done(f, off, false, [f.logged])
    ensures r >= 0 ==> EndsIn(f, k, rest, off + n, d') && d == d'.(ops := [f.logged] + d'.ops)
  {
    f, r, d' := OnePass(fs, d, k, src, off, n);
  }

  lemma WrittenNone(fs: Fs, r: Fs, own: map<nat, Slot>, k: nat, off: nat)
    requires Owned(fs, own, 0, 0) && SizeOk(fs, k) && !fs.halted && off <= fs.inodes[k].size
    requires r == fs || r == Begun(fs)
    ensures FileWritten(fs, r, own, k, off, [])
  {
    BegunKeeps(fs, own);
    SameFile(fs, Begun(fs), k);
  }

  /** A chunk that is refused, after the first i bytes. */
  lemma NoneAfter(fs: Fs, f: Fs, r: Fs, own: map<nat, Slot>, k: nat, off: nat, src: seq<Byte>, i: nat, mid: Word)
    requires WroteUpTo(fs, f, own, k, off, src, i) && i < |src| && mid == off + i && FileWritten(f, r, own, k, mid, [])
    requires mid + Min(CHUNK, |src| - i) > MAXBYTES
    ensures WroteSome(fs, Done(r, mid, false, []), own, k, off, src, i)
  {
    FileWrittenTwice(fs, f, r, own, own, k, off, src[..i], mid, [], src[..i]);
  }

  /** One more chunk after the first i bytes. */
  lemma PieceAfter(fs: Fs, f: Fs, r: Fs, own: map<nat, Slot>, own': map<nat, Slot>, k: nat, off: nat, src: seq<Byte>,
                   i: nat, mid: nat, piece: seq<Byte>, w: nat)
    requires WroteUpTo(fs, f, own, k, off, src, i) && mid == off + i && FileWritten(f, r, own', k, mid, piece)
    requires w == i + |piece| <= |src| && piece == src[i..w]
    ensures WroteUpTo(fs, r, own', k, off, src, w)
  {
    FileWrittenTwice(fs, f, r, own, own', k, off, src[..i], mid, piece, src[..w]);
  }

  /** Where a chunk's result leaves filewrite's loop: at the end, or one chunk on. */
  ghost predicate ChunkAfter(fs: Fs, f: Fs, own': map<nat, Slot>, k: nat, off: nat, src: seq<Byte>, mid: Word, r: int,
                             w: nat)
  {
    if r < 0 then WroteSome(fs, Done(f, mid, false, []), own', k, off, src, w)
      else WroteUpTo(fs, f, own', k, off, src, w)
  }

  lemma ChunkDone(fs: Fs, f: Fs, g: Fs, own: map<nat, Slot>, own1: map<nat, Slot>, k: nat, off: nat, src: seq<Byte>,
                  i: nat, mid: Word, piece: seq<Byte>, r: int, w: nat)
    returns (own': map<nat, Slot>)
    requires WroteUpTo(fs, f, own, k, off, src, i) && i < |src| && mid == off + i
    requires ChunkWent(f, g, r, own1, k, mid, piece) && !g.halted
    requires |piece| == Min(|src| - i, CHUNK) && piece == src[i..i + |piece|]
    requires w == (if r < 0 then i else i + r) && (r < 0 || r == |piece|)
    ensures ChunkAfter(fs, g, own', k, off, src, mid, r, w)
  {
    if r < 0 {
      own' := own;
      WrittenNone(f, g, own, k, mid);
      NoneAfter(fs, f, g, own, k, off, src, i, mid);
    } else {
      own' := own1;
      PieceAfter(fs, f, g, own, own1, k, off, src, i, mid, piece, w);
    }
  }

  lemma WroteNothing(fs: Fs, d: Done, own: map<nat, Slot>, k: nat, off: nat, src: seq<Byte>)
    requires Owned(fs, own, 0, 0) && SizeOk(fs, k) && !fs.halted && off <= fs.inodes[k].size
    requires d.fs == fs || d.fs == Begun(fs)
    requires d.off == off && d.ok == (src == []) && (src == [] || off + Min(CHUNK, |src|) > MAXBYTES)
    ensures WroteSome(fs, d, own, k, off, src, 0)
  {
    WrittenNone(fs, d.fs, own, k, off);
  }

  lemma WroteMore(fs: Fs, f: Fs, d: Done, d': Done, own1: map<nat, Slot>, own': map<nat, Slot>, k: nat, off: nat,
                  piece: seq<Byte>, mid: nat, rest: seq<Byte>, src: seq<Byte>, w: nat)
    requires FileWritten(fs, f, own1, k, off, piece) && WroteSome(f, d', own', k, mid, rest, w)
    requires mid == off + |piece| && src == piece + rest && d.fs == d'.fs && d.off == d'.off && d.ok == d'.ok
    ensures WroteSome(fs, d, own', k, off, src, |piece| + w)
  {
    FileWrittenTwice(fs, f, d.fs, own1, own', k, off, piece, mid, rest[..w], src[..|piece| + w]);
  }

  /**
    filewrite writes a prefix of the data, all of it if it returns success; if not, the next chunk
    would have run beyond the largest file. The chunks before it stay written.
   */
  lemma {:induction false} FileWriteRefines(fs: Fs, d: Done, own: map<nat, Slot>, k: nat, src: seq<Byte>, off: Word)
    returns (own': map<nat, Slot>, w: nat)
    requires Owned(fs, own, 0, 0) && SizeOk(fs, k) && !fs.halted && fs.inodes[k].typ != T_DEV
    requires off <= fs.inodes[k].size
    requires EndsIn(fs, k, src, off, d)
    ensures !d.fs.halted ==> WroteSome(fs, d, own', k, off, src, w)
    decreases |src|
  {
    if src == [] {
      WroteNothing(fs, d, own, k, off, src);
      own', w := own, 0;
    } else {
      var n := CutChunk(src);
      var piece, rest := src[..n], src[n..];
      var f, r, d' := NextChunk(fs, d, k, src, off, n, piece, rest);
      own' := OneChunk(fs, own, k, piece, off);
      w := 0;
      if r < 0 {
        WroteNothing(fs, d, own, k, off, src);
        own' := own;
      } else if f.halted {
        EndsHalted(f, k, rest, off + n, d');
      } else {
        var own1, mid := own', off + n;
        own', w := FileWriteRefines(f, d', own1, k, rest, mid);
        if !d.fs.halted {
          WroteMore(fs, f, d, d', own1, own', k, off, piece, mid, rest, src, w);
        }
        w := |piece| + w;
      }
    }
  }

  lemma FitsMore(d: Done, d': Done, l: set<nat>)
    requires |l| <= MAXOPBLOCKS && WithinReservation(d') && d.ops == [l] + d'.ops
    ensures WithinReservation(d)
  {
  }

  /** Every transaction of a filewrite stays within its reservation. */
  lemma {:induction false} FileWriteFits(fs: Fs, d: Done, own: map<nat, Slot>, k: nat, src: seq<Byte>, off: Word)
    requires Owned(fs, own, 0, 0) && SizeOk(fs, k) && !fs.halted && fs.inodes[k].typ != T_DEV
    requires off <= fs.inodes[k].size && NoHoles(fs, k)
    requires EndsIn(fs, k, src, off, d)
    ensures !d.fs.halted ==> WithinReservation(d)
    decreases |src|
  {
    if src != [] {
      var n := CutChunk(src);
      var piece, rest := src[..n], src[n..];
      var f, r, d' := NextChunk(fs, d, k, src, off, n, piece, rest);
      var own' := OneChunk(fs, own, k, piece, off);
      if !f.halted {
        OneChunkFits(fs, own, k, piece, off);
        if r >= 0 {
          if !d'.fs.halted {
            FileWriteFits(f, d', own', k, rest, off + n);
            FitsMore(d, d', f.logged);
          }
        }
      }
    }
  }
}
