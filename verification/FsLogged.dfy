/**
  Exactly which blocks a writei logs, and when it runs out of blocks, in terms of the file system
  before it: the holes it meets and the unmarked blocks that balloc will find. And when a readi
  logs any.
 */
module FsLogged {
  import opened Basics
  import opened Blocks
  import opened FsLayout
  import opened FsSpec
  import opened FsFile

  // ---------- the blocks that balloc will find ----------

  /** The free map: which blocks are marked in use. */
  function Marks(fs: Fs): (r: seq<bool>)
    requires fs.Shape()
    ensures |r| == fs.sb.size && forall b: nat :: b < fs.sb.size ==> r[b] == Bit(fs.sb, fs.disk, b)
  {
    seq(fs.sb.size, b requires 0 <= b < fs.sb.size => Bit(fs.sb, fs.disk, b))
  }

  function First(m: seq<bool>, b: nat): (r: nat)
    requires b <= |m|
    ensures b <= r <= |m| && (r < |m| ==> !m[r]) && forall c: nat :: b <= c < r ==> m[c]
    decreases |m| - b
  {
    if b < |m| && m[b] then First(m, b + 1) else b
  }

  lemma FirstIs(m: seq<bool>, b: nat, r: nat)
    requires b <= r <= |m| && (r < |m| ==> !m[r]) && forall c: nat :: b <= c < r ==> m[c]
    ensures First(m, b) == r
  {
  }

  lemma FindsFirst(fs: Fs)
    requires fs.Shape()
    ensures FreeFrom(fs, 0) == First(Marks(fs), 0)
  {
    FirstIs(Marks(fs), 0, FreeFrom(fs, 0));
  }

  /** The first n unmarked blocks from b on, fewer if there are not so many. */
  function Frees(m: seq<bool>, b: nat, n: nat): (r: seq<nat>)
    requires b <= |m|
    ensures |r| <= n && forall i :: 0 <= i < |r| ==> b <= r[i] < |m|
    decreases n
  {
    if n == 0 then []
    else
      var f := First(m, b);
      if f == |m| then [] else [f] + Frees(m, f + 1, n - 1)
  }

  /** Above a block that is marked the unmarked blocks stay the same. */
  lemma {:induction false} FreesAbove(m: seq<bool>, b: nat, c: nat, n: nat)
    requires b < c <= |m|
    ensures Frees(m[b := true], c, n) == Frees(m, c, n)
    decreases n
  {
    if n > 0 {
      var f := First(m, c);
      FirstIs(m[b := true], c, f);
      if f < |m| {
        FreesAbove(m, b, f + 1, n - 1);
      }
    }
  }

  ghost predicate Follows(m: seq<bool>, m1: seq<bool>, n: nat, i: nat) {
    Frees(m, 0, n + i) == Frees(m, 0, n) + Frees(m1, 0, i)
  }

  /** m1 is m with its first n unmarked blocks marked, as far as balloc can tell. */
  ghost predicate Took(m: seq<bool>, m1: seq<bool>, n: nat) {
    |Frees(m, 0, n)| == n && forall i: nat :: Follows(m, m1, n, i)
  }

  lemma FreesFirst(m: seq<bool>, b: nat, i: nat)
    requires b == First(m, 0) < |m|
    ensures Frees(m[b := true], 0, i) == Frees(m, b + 1, i)
  {
    FreesAbove(m, b, b + 1, i);
    FirstIs(m[b := true], 0, First(m, b + 1));
    FirstIs(m[b := true], b + 1, First(m, b + 1));
  }

  lemma TookOne(m: seq<bool>, b: nat)
    requires b == First(m, 0) < |m|
    ensures Took(m, m[b := true], 1) && Frees(m, 0, 1) == [b]
  {
    var m1 := m[b := true];
    assert Frees(m, 0, 1) == [b] + Frees(m, b + 1, 0);
    forall i: nat
      ensures Follows(m, m1, 1, i)
    {
      FreesFirst(m, b, i);
      assert Frees(m, 0, 1 + i) == [b] + Frees(m, b + 1, i);
    }
  }

  lemma TookNone(m: seq<bool>)
    ensures Took(m, m, 0)
  {
  }

  lemma TookTwice(m: seq<bool>, m1: seq<bool>, m2: seq<bool>, n: nat, p: nat)
    requires Took(m, m1, n) && Took(m1, m2, p)
    ensures Took(m, m2, n + p) && Frees(m, 0, n + p) == Frees(m, 0, n) + Frees(m1, 0, p)
  {
    var q := n + p;
    assert Follows(m, m1, n, p);
    forall i: nat
      ensures Follows(m, m2, q, i)
    {
      assert Follows(m, m1, n, p + i) && Follows(m1, m2, p, i);
    }
  }

  /** Whether n more blocks are to be had. */
  ghost predicate Enough(m: seq<bool>, n: nat) {
    |Frees(m, 0, n)| == n
  }

  lemma EnoughBoth(m: seq<bool>, m1: seq<bool>, n: nat, p: nat, q: nat)
    requires Took(m, m1, n) && q == n + p
    ensures Enough(m, q) <==> Enough(m1, p)
  {
    assert Follows(m, m1, n, p);
  }

  /** With too few for n there are too few for more. */
  lemma {:induction false} FreesShort(m: seq<bool>, b: nat, n: nat, p: nat)
    requires b <= |m| && n <= p && |Frees(m, b, n)| < n
    ensures |Frees(m, b, p)| < p
    decreases n
  {
    var f := First(m, b);
    if f < |m| {
      FreesShort(m, f + 1, n - 1, p - 1);
    }
  }

  lemma EnoughForOne(m: seq<bool>)
    ensures Enough(m, 0) && (Enough(m, 1) <==> First(m, 0) < |m|)
  {
    var f := First(m, 0);
    if f < |m| {
      assert Frees(m, 0, 1) == [f] + Frees(m, f + 1, 0);
    }
  }

  /** The bitmap blocks of the blocks in xs. */
  function BitsOf(sb: Super, xs: seq<nat>): set<nat> {
    if xs == [] then {} else BitsOf(sb, xs[..|xs| - 1]) + {sb.BBlock(xs[|xs| - 1])}
  }

  lemma {:induction false} BitsOfAppend(sb: Super, xs: seq<nat>, ys: seq<nat>)
    ensures BitsOf(sb, xs + ys) == BitsOf(sb, xs) + BitsOf(sb, ys)
  {
    if ys == [] {
      assert xs + ys == xs;
    } else {
      var n := |ys| - 1;
      assert (xs + ys)[..|xs| + n] == xs + ys[..n];
      BitsOfAppend(sb, xs, ys[..n]);
    }
  }

  // ---------- what one step logs ----------

  /** r took n blocks, and logged their bitmap blocks and the blocks in D. */
  ghost predicate Adds(fs: Fs, r: Fs, n: nat, D: set<nat>) {
    && fs.Shape() && r.Shape() && r.sb == fs.sb && Took(Marks(fs), Marks(r), n)
    && r.logged == fs.logged + BitsOf(fs.sb, Frees(Marks(fs), 0, n)) + D
  }

  lemma AddsTwice(fs: Fs, f: Fs, r: Fs, n: nat, m: nat, D: set<nat>, E: set<nat>)
    requires Adds(fs, f, n, D) && Adds(f, r, m, E)
    ensures Adds(fs, r, n + m, D + E)
  {
    TookTwice(Marks(fs), Marks(f), Marks(r), n, m);
    BitsOfAppend(fs.sb, Frees(Marks(fs), 0, n), Frees(Marks(f), 0, m));
  }

  lemma SameAdds(fs: Fs, r: Fs, n: nat, q: nat, D: set<nat>, F: set<nat>)
    requires Adds(fs, r, n, D) && q == n && F == D
    ensures Adds(fs, r, q, F)
  {
  }

  lemma AddsBoth(fs: Fs, f: Fs, r: Fs, n: nat, m: nat, q: nat, D: set<nat>, E: set<nat>, F: set<nat>)
    requires Adds(fs, f, n, D) && Adds(f, r, m, E) && q == n + m && F == D + E
    ensures Adds(fs, r, q, F)
  {
    AddsTwice(fs, f, r, n, m, D, E);
    SameAdds(fs, r, n + m, q, D + E, F);
  }

  lemma AddsNone(fs: Fs)
    requires fs.Shape()
    ensures Adds(fs, fs, 0, {})
  {
    TookNone(Marks(fs));
  }

  /** Marking the block that balloc finds, and logging its bitmap block and D. */
  lemma AddsOne(fs: Fs, r: Fs, b: nat, D: set<nat>)
    requires fs.Shape() && r.Shape() && r.sb == fs.sb && b == FreeFrom(fs, 0) < fs.sb.size && BitPut(fs, r, b, true)
    requires r.logged == fs.logged + {fs.sb.BBlock(b)} + D
    ensures Adds(fs, r, 1, D)
  {
    FindsFirst(fs);
    TookOne(Marks(fs), b);
    assert Marks(r) == Marks(fs)[b := true];
    assert BitsOf(fs.sb, [b]) == BitsOf(fs.sb, [b][..0]) + {fs.sb.BBlock(b)};
  }

  function Need(a: Word): nat {
    if a == 0 then 1 else 0
  }

  lemma OneIsEnough(fs: Fs)
    requires fs.Shape()
    ensures Enough(Marks(fs), 0) && (Enough(Marks(fs), 1) <==> FreeFrom(fs, 0) < fs.sb.size)
  {
    FindsFirst(fs);
    EnoughForOne(Marks(fs));
  }

  /** What filling slot j logs beside bitmap blocks: the new block, if it was a hole. */
  function NewAt(fs: Fs, r: Fs, k: nat, j: nat): set<nat>
    requires fs.Has(k, j) && r.Has(k, j)
  {
    if Addr(fs, k, j) == 0 then {Addr(r, k, j) as nat} else {}
  }

  lemma GiveAddrAdds(fs: Fs, own: map<nat, Slot>, k: nat, j: nat, b: nat, r: Fs)
    requires Owned(fs, own, 0, 0) && fs.Has(k, j) && j <= NDIRECT && b == FreeFrom(fs, 0) < fs.sb.size
    requires r == GiveAddr(fs, k, j, b)
    ensures Addr(r, k, j) == b && Adds(fs, r, 1, {b})
  {
    FreeIsData(fs, own, 0, 0, b);
    TakenBits(fs, b);
    AddsOne(fs, r, b, {b});
  }

  lemma AddrAdds(fs: Fs, own: map<nat, Slot>, k: nat, j: nat, r: Fs)
    requires Owned(fs, own, 0, 0) && fs.Has(k, j) && j <= NDIRECT && !fs.halted && r == AllocAddr(fs, k, j)
    ensures r.halted <==> !Enough(Marks(fs), Need(Addr(fs, k, j)))
    ensures !r.halted ==> Adds(fs, r, Need(Addr(fs, k, j)), NewAt(fs, r, k, j))
  {
    OneIsEnough(fs);
    if Addr(fs, k, j) != 0 {
      AddsNone(fs);
    } else if FreeFrom(fs, 0) < fs.sb.size {
      GiveAddrAdds(fs, own, k, j, FreeFrom(fs, 0), r);
    }
  }

  /** The indirect block of an inode, where it is owned. */
  lemma EntryBlock(fs: Fs, own: map<nat, Slot>, k: nat, e: nat) returns (x: Word)
    requires Owned(fs, own, 0, 0) && k < |fs.inodes| && e < NINDIRECT && Addr(fs, k, NDIRECT) != 0
    ensures x == fs.inodes[k].addrs[NDIRECT] == Addr(fs, k, NDIRECT) && fs.sb.dataStart <= x < fs.sb.size
    ensures Addr(fs, k, NDIRECT + 1 + e) == LoadWord(fs.disk[x], e)
  {
    PointerIsOwned(fs, own, 0, 0, k, NDIRECT);
    x := fs.inodes[k].addrs[NDIRECT];
  }

  /** Filling an entry logs the indirect block as well. */
  function NewEntry(fs: Fs, r: Fs, k: nat, e: nat): set<nat>
    requires k < |fs.inodes| && k < |r.inodes| && e < NINDIRECT
  {
    if Addr(fs, k, NDIRECT + 1 + e) == 0 then {Addr(r, k, NDIRECT + 1 + e) as nat, Addr(r, k, NDIRECT) as nat} else {}
  }

  lemma GiveEntryAdds(fs: Fs, own: map<nat, Slot>, k: nat, e: nat, x: Word, b: nat, r: Fs)
    requires Owned(fs, own, 0, 0) && k < |fs.inodes| && e < NINDIRECT
    requires x == fs.inodes[k].addrs[NDIRECT] && fs.sb.dataStart <= x < fs.sb.size
    requires b == FreeFrom(fs, 0) < fs.sb.size && r == GiveEntry(fs, x, e, b)
    ensures Addr(r, k, NDIRECT + 1 + e) == b && Addr(r, k, NDIRECT) == x && Adds(fs, r, 1, {b, x as nat})
  {
    FreeIsData(fs, own, 0, 0, b);
    GiveEntryAt(fs, own, k, e, b, k, NDIRECT + 1 + e);
    GiveEntryLogs(fs, x, e, b, r);
    AddsOne(fs, r, b, {b, x as nat});
  }

  lemma GiveEntryLogs(fs: Fs, x: Word, e: nat, b: nat, r: Fs)
    requires fs.Shape() && fs.sb.dataStart <= x < fs.sb.size && e < NINDIRECT && fs.sb.dataStart <= b < fs.sb.size
    requires r == GiveEntry(fs, x, e, b)
    ensures r.logged == fs.logged + {fs.sb.BBlock(b)} + {b, x as nat} && BitPut(fs, r, b, true)
  {
    GiveEntryBits(fs, x, e, b);
  }

  lemma EntryAdds(fs: Fs, own: map<nat, Slot>, k: nat, e: nat, r: Fs)
    requires Owned(fs, own, 0, 0) && k < |fs.inodes| && e < NINDIRECT && Addr(fs, k, NDIRECT) != 0 && !fs.halted
    requires r == AllocEntry(fs, k, e)
    ensures r.halted <==> !Enough(Marks(fs), Need(Addr(fs, k, NDIRECT + 1 + e)))
    ensures !r.halted ==> Adds(fs, r, Need(Addr(fs, k, NDIRECT + 1 + e)), NewEntry(fs, r, k, e))
  {
    var x := EntryBlock(fs, own, k, e);
    OneIsEnough(fs);
    if Addr(fs, k, NDIRECT + 1 + e) != 0 {
      AddsNone(fs);
    } else if FreeFrom(fs, 0) < fs.sb.size {
      GiveEntryAdds(fs, own, k, e, x, FreeFrom(fs, 0), r);
    }
  }

  // ---------- what bmap and a pass of writei's loop log ----------

  /** Allocating for one slot changes no other, the entries of a new indirect block included. */
  lemma AllocAddrAt(fs: Fs, own: map<nat, Slot>, k: nat, j: nat, j2: nat)
    requires Owned(fs, own, 0, 0) && fs.Has(k, j) && fs.Has(k, j2) && j <= NDIRECT && j2 != j
    requires !AllocAddr(fs, k, j).halted
    ensures Addr(AllocAddr(fs, k, j), k, j2) == Addr(fs, k, j2)
  {
    if fs.inodes[k].addrs[j] == 0 {
      GiveAddrAt(fs, own, k, j, FreeFrom(fs, 0), k, j2);
    }
  }

  lemma AllocEntryAt(fs: Fs, own: map<nat, Slot>, k: nat, e: nat, j2: nat)
    requires Owned(fs, own, 0, 0) && fs.Has(k, j2) && e < NINDIRECT && j2 != NDIRECT + 1 + e
    requires Addr(fs, k, NDIRECT) != 0
    requires !AllocEntry(fs, k, e).halted
    ensures Addr(AllocEntry(fs, k, e), k, j2) == Addr(fs, k, j2)
  {
    PointerIsOwned(fs, own, 0, 0, k, NDIRECT);
    var x := fs.inodes[k].addrs[NDIRECT];
    assert x == Addr(fs, k, NDIRECT);
    if LoadWord(fs.disk[x], e) == 0 {
      GiveEntryAt(fs, own, k, e, FreeFrom(fs, 0), k, j2);
    }
  }

  /** The indirect block is there, and its other pointers are as they were. */
  lemma IndirectThere(fs: Fs, own: map<nat, Slot>, k: nat, j2: nat, fs1: Fs) returns (own1: map<nat, Slot>)
    requires Owned(fs, own, 0, 0) && fs.Has(k, j2) && j2 != NDIRECT && !fs.halted && fs1 == AllocAddr(fs, k, NDIRECT)
    requires !fs1.halted
    ensures Owned(fs1, own1, 0, 0) && fs1.Has(k, j2) && Addr(fs1, k, NDIRECT) != 0
    ensures Addr(fs1, k, j2) == Addr(fs, k, j2)
  {
    own1 := MapAddr(fs, own, k, NDIRECT);
    AllocAddrAt(fs, own, k, NDIRECT, j2);
  }

  lemma BmapAt(fs: Fs, own: map<nat, Slot>, k: nat, bn: nat, j2: nat)
    requires Owned(fs, own, 0, 0) && fs.Has(k, j2) && bn < MAXFILE && !fs.halted && !Bmap(fs, k, bn).halted
    requires j2 != SlotOf(bn) && (j2 != NDIRECT || bn < NDIRECT)
    ensures Addr(Bmap(fs, k, bn), k, j2) == Addr(fs, k, j2)
  {
    if bn < NDIRECT {
      AllocAddrAt(fs, own, k, bn, j2);
    } else {
      var fs1 := AllocAddr(fs, k, NDIRECT);
      var own1 := IndirectThere(fs, own, k, j2, fs1);
      AllocEntryAt(fs1, own1, k, bn - NDIRECT, j2);
    }
  }

  lemma StepAt(fs: Fs, f: Fs, own: map<nat, Slot>, k: nat, at: nat, piece: seq<Byte>, j2: nat)
    requires Owned(fs, own, 0, 0) && fs.Has(k, j2) && at < MAXBYTES && at % BSIZE + |piece| <= BSIZE && !fs.halted
    requires f == WriteStep(fs, k, at, piece) && !f.halted
    requires j2 != SlotOf(at / BSIZE) && (j2 != NDIRECT || at / BSIZE < NDIRECT)
    ensures Addr(f, k, j2) == Addr(fs, k, j2)
  {
    BmapAt(fs, own, k, at / BSIZE, j2);
    var own1 := BmapMaps(fs, own, k, at / BSIZE);
    PieceWritten(Bmap(fs, k, at / BSIZE), own1, k, at, piece);
  }

  /** The blocks that bmap allocates for file block bn. */
  function NewBlocks(fs: Fs, k: nat, bn: nat): nat
    requires k < |fs.inodes| && bn < MAXFILE
  {
    Need(Addr(fs, k, SlotOf(bn))) + if bn < NDIRECT then 0 else Need(Addr(fs, k, NDIRECT))
  }

  /** A new entry for file block bn makes bmap log the indirect block. */
  predicate Enters(fs: Fs, k: nat, bn: nat)
    requires k < |fs.inodes| && bn < MAXFILE
  {
    bn >= NDIRECT && Addr(fs, k, SlotOf(bn)) == 0
  }

  function Entry(fs: Fs, r: Fs, k: nat, bn: nat): set<nat>
    requires k < |fs.inodes| && k < |r.inodes| && bn < MAXFILE
  {
    if Enters(fs, k, bn) then {Addr(r, k, NDIRECT) as nat} else {}
  }

  /** bmap logs the block of bn if it is new, and the indirect block if it has a new entry. */
  lemma BmapAdds(fs: Fs, own: map<nat, Slot>, k: nat, bn: nat, r: Fs)
    requires Owned(fs, own, 0, 0) && k < |fs.inodes| && bn < MAXFILE && !fs.halted && r == Bmap(fs, k, bn)
    ensures r.halted <==> !Enough(Marks(fs), NewBlocks(fs, k, bn))
    ensures !r.halted ==> Adds(fs, r, NewBlocks(fs, k, bn), NewAt(fs, r, k, SlotOf(bn)) + Entry(fs, r, k, bn))
  {
    if bn < NDIRECT {
      AddrAdds(fs, own, k, bn, r);
    } else {
      var fs1 := AllocAddr(fs, k, NDIRECT);
      AddrAdds(fs, own, k, NDIRECT, fs1);
      if fs1.halted {
        FreesShort(Marks(fs), 0, Need(Addr(fs, k, NDIRECT)), NewBlocks(fs, k, bn));
      } else {
        IndirectAdds(fs, own, k, bn, fs1, r);
      }
    }
  }

  lemma IndirectAdds(fs: Fs, own: map<nat, Slot>, k: nat, bn: nat, fs1: Fs, r: Fs)
    requires Owned(fs, own, 0, 0) && k < |fs.inodes| && NDIRECT <= bn < MAXFILE && !fs.halted
    requires fs1 == AllocAddr(fs, k, NDIRECT) && !fs1.halted && r == AllocEntry(fs1, k, bn - NDIRECT)
    requires Adds(fs, fs1, Need(Addr(fs, k, NDIRECT)), NewAt(fs, fs1, k, NDIRECT))
    ensures r.halted <==> !Enough(Marks(fs), NewBlocks(fs, k, bn))
    ensures !r.halted ==> Adds(fs, r, NewBlocks(fs, k, bn), NewAt(fs, r, k, SlotOf(bn)) + Entry(fs, r, k, bn))
  {
    var own1 := IndirectThere(fs, own, k, SlotOf(bn), fs1);
    var n, m := Need(Addr(fs, k, NDIRECT)), Need(Addr(fs, k, SlotOf(bn)));
    EntryFacts(fs1, own1, k, bn - NDIRECT, r, m);
    EnoughBoth(Marks(fs), Marks(fs1), n, m, NewBlocks(fs, k, bn));
    if !r.halted {
      NewSets(fs, fs1, r, k, bn);
      AddsBoth(fs, fs1, r, n, m, NewBlocks(fs, k, bn), NewAt(fs, fs1, k, NDIRECT), NewEntry(fs1, r, k, bn - NDIRECT),
               NewAt(fs, r, k, SlotOf(bn)) + Entry(fs, r, k, bn));
    }
  }

  lemma EntryFacts(fs1: Fs, own1: map<nat, Slot>, k: nat, e: nat, r: Fs, n: nat)
    requires Owned(fs1, own1, 0, 0) && k < |fs1.inodes| && e < NINDIRECT && Addr(fs1, k, NDIRECT) != 0 && !fs1.halted
    requires r == AllocEntry(fs1, k, e) && n == Need(Addr(fs1, k, NDIRECT + 1 + e))
    ensures k < |r.inodes| && (r.halted <==> !Enough(Marks(fs1), n))
    ensures !r.halted ==> Addr(r, k, NDIRECT) == Addr(fs1, k, NDIRECT) && Adds(fs1, r, n, NewEntry(fs1, r, k, e))
  {
    EntryAdds(fs1, own1, k, e, r);
    if !r.halted {
      AllocEntryAt(fs1, own1, k, e, NDIRECT);
    }
  }

  lemma NewSets(fs: Fs, fs1: Fs, r: Fs, k: nat, bn: nat)
    requires k < |fs.inodes| && k < |fs1.inodes| && k < |r.inodes| && NDIRECT <= bn < MAXFILE
    requires Addr(fs1, k, SlotOf(bn)) == Addr(fs, k, SlotOf(bn)) && Addr(r, k, NDIRECT) == Addr(fs1, k, NDIRECT)
    ensures NewAt(fs, fs1, k, NDIRECT) + NewEntry(fs1, r, k, bn - NDIRECT)
        == NewAt(fs, r, k, SlotOf(bn)) + Entry(fs, r, k, bn)
  {
    assert Addr(fs, k, NDIRECT) == 0 ==> Addr(fs, k, SlotOf(bn)) == 0;
  }

  /** Writing into a block that is there takes no block, and logs that one. */
  lemma PieceAdds(fs: Fs, own: map<nat, Slot>, k: nat, at: nat, piece: seq<Byte>, r: Fs)
    requires Owned(fs, own, 0, 0) && k < |fs.inodes| && at < MAXBYTES && at % BSIZE + |piece| <= BSIZE && !fs.halted
    requires Addr(fs, k, SlotOf(at / BSIZE)) != 0 && r == WritePiece(fs, k, at, piece)
    ensures Adds(fs, r, 0, {Addr(fs, k, SlotOf(at / BSIZE)) as nat}) && !r.halted && SameAddrs(fs, r)
  {
    PieceWritten(fs, own, k, at, piece);
    PointerIsOwned(fs, own, 0, 0, k, SlotOf(at / BSIZE));
    PieceMarks(fs, r, own);
    TookNone(Marks(fs));
  }

  lemma PieceMarks(fs: Fs, r: Fs, own: map<nat, Slot>)
    requires Owned(fs, own, 0, 0) && Owned(r, own, 0, 0) && r.sb == fs.sb
    ensures Marks(r) == Marks(fs)
  {
    forall b: nat | b < fs.sb.size
      ensures Marks(r)[b] == Marks(fs)[b]
    {
    }
  }

  lemma StepAdds(fs: Fs, own: map<nat, Slot>, k: nat, at: nat, piece: seq<Byte>, r: Fs, bn: nat)
    requires Owned(fs, own, 0, 0) && k < |fs.inodes| && at < MAXBYTES && at % BSIZE + |piece| <= BSIZE && !fs.halted
    requires r == WriteStep(fs, k, at, piece) && bn == at / BSIZE
    ensures r.halted <==> !Enough(Marks(fs), NewBlocks(fs, k, bn))
    ensures !r.halted ==> Adds(fs, r, NewBlocks(fs, k, bn), {Addr(r, k, SlotOf(bn)) as nat} + Entry(fs, r, k, bn))
  {
    var fs1 := Bmap(fs, k, bn);
    BmapAdds(fs, own, k, bn, fs1);
    if !fs1.halted {
      var own1 := BmapMaps(fs, own, k, bn);
      PieceAdds(fs1, own1, k, at, piece, r);
      StepSets(fs, fs1, r, k, bn);
      AddsBoth(fs, fs1, r, NewBlocks(fs, k, bn), 0, NewBlocks(fs, k, bn),
               NewAt(fs, fs1, k, SlotOf(bn)) + Entry(fs, fs1, k, bn),
               {Addr(fs1, k, SlotOf(bn)) as nat}, {Addr(r, k, SlotOf(bn)) as nat} + Entry(fs, r, k, bn));
    }
  }

  lemma StepSets(fs: Fs, fs1: Fs, r: Fs, k: nat, bn: nat)
    requires k < |fs.inodes| && k < |fs1.inodes| && bn < MAXFILE && SameAddrs(fs1, r)
    ensures {Addr(r, k, SlotOf(bn)) as nat} + Entry(fs, r, k, bn)
         == NewAt(fs, fs1, k, SlotOf(bn)) + Entry(fs, fs1, k, bn) + {Addr(fs1, k, SlotOf(bn)) as nat}
  {
    assert Addr(r, k, SlotOf(bn)) == Addr(fs1, k, SlotOf(bn)) && Addr(r, k, NDIRECT) == Addr(fs1, k, NDIRECT);
  }

  // ---------- a whole writei ----------

  /** The holes among file blocks lo .. hi - 1. */
  function Missing(fs: Fs, k: nat, lo: nat, hi: nat): (r: nat)
    requires k < |fs.inodes| && hi <= MAXFILE
    ensures r <= if lo < hi then hi - lo else 0
    decreases hi - lo
  {
    if lo >= hi then 0 else Need(Addr(fs, k, SlotOf(lo))) + Missing(fs, k, lo + 1, hi)
  }

  lemma {:induction false} MissingSame(fs: Fs, f: Fs, k: nat, lo: nat, hi: nat)
    requires k < |fs.inodes| && k < |f.inodes| && hi <= MAXFILE
    requires forall bn: nat :: lo <= bn < hi ==> Addr(f, k, SlotOf(bn)) == Addr(fs, k, SlotOf(bn))
    ensures Missing(f, k, lo, hi) == Missing(fs, k, lo, hi) && EntersAny(f, k, lo, hi) == EntersAny(fs, k, lo, hi)
    decreases hi - lo
  {
    if lo < hi {
      MissingSame(fs, f, k, lo + 1, hi);
    }
  }

  /** The blocks that a write of file blocks lo .. hi - 1 allocates. */
  function Allocations(fs: Fs, k: nat, lo: nat, hi: nat): nat
    requires k < |fs.inodes| && hi <= MAXFILE
  {
    Missing(fs, k, lo, hi) + if lo < hi && hi > NDIRECT then Need(Addr(fs, k, NDIRECT)) else 0
  }

  predicate EntersAny(fs: Fs, k: nat, lo: nat, hi: nat)
    requires k < |fs.inodes| && hi <= MAXFILE
    decreases hi - lo
  {
    lo < hi && (Enters(fs, k, lo) || EntersAny(fs, k, lo + 1, hi))
  }

  /** The blocks that hold file blocks lo .. hi - 1. */
  function Data(r: Fs, k: nat, lo: nat, hi: nat): set<nat>
    requires k < |r.inodes| && hi <= MAXFILE
    decreases hi - lo
  {
    if lo >= hi then {} else {Addr(r, k, SlotOf(lo)) as nat} + Data(r, k, lo + 1, hi)
  }

  /** What is logged beside bitmap blocks while file blocks lo .. hi - 1 are written. */
  function Logs(fs: Fs, r: Fs, k: nat, lo: nat, hi: nat): set<nat>
    requires k < |fs.inodes| && k < |r.inodes| && hi <= MAXFILE
  {
    Data(r, k, lo, hi) + if EntersAny(fs, k, lo, hi) then {Addr(r, k, NDIRECT) as nat} else {}
  }

  /** The pass over block lo fills no other hole. */
  ghost predicate Passed(fs: Fs, f: Fs, k: nat, lo: nat) {
    && k < |fs.inodes| && k < |f.inodes| && lo < MAXFILE && Addr(f, k, SlotOf(lo)) != 0
    && (forall j: nat :: j < SLOTS && j != SlotOf(lo) && (j != NDIRECT || lo < NDIRECT) ==>
          Addr(f, k, j) == Addr(fs, k, j))
    && (lo >= NDIRECT ==> Addr(f, k, NDIRECT) != 0)
  }

  lemma PassedSums(fs: Fs, f: Fs, k: nat, lo: nat, hi: nat)
    requires Passed(fs, f, k, lo) && lo < hi <= MAXFILE
    ensures NewBlocks(fs, k, lo) + Allocations(f, k, lo + 1, hi) == Allocations(fs, k, lo, hi)
    ensures EntersAny(fs, k, lo, hi) <==> Enters(fs, k, lo) || EntersAny(f, k, lo + 1, hi)
  {
    MissingSame(fs, f, k, lo + 1, hi);
  }

  lemma LogsStep(fs: Fs, f: Fs, r: Fs, k: nat, lo: nat, hi: nat)
    requires Passed(fs, f, k, lo) && lo < hi <= MAXFILE && Filled(f, r, k)
    ensures {Addr(f, k, SlotOf(lo)) as nat} + Entry(fs, f, k, lo) + Logs(f, r, k, lo + 1, hi) == Logs(fs, r, k, lo, hi)
  {
    PassedSums(fs, f, k, lo, hi);
    assert Addr(r, k, SlotOf(lo)) == Addr(f, k, SlotOf(lo));
    if lo >= NDIRECT {
      assert Addr(r, k, NDIRECT) == Addr(f, k, NDIRECT);
    }
  }

  /** The number of blocks from the one that holds byte lo up to the one that holds byte hi - 1. */
  function EndBlock(off: nat, n: nat): nat {
    (off + n + BSIZE - 1) / BSIZE
  }

  lemma PassEnd(off: nat, n: nat, m: nat)
    requires 0 < m <= n && off % BSIZE + m <= BSIZE && (m == n || (off + m) % BSIZE == 0)
    ensures m < n ==> (off + m) / BSIZE == off / BSIZE + 1
    ensures m == n ==> EndBlock(off, n) == off / BSIZE + 1
    ensures off + n <= MAXBYTES ==> off / BSIZE < EndBlock(off, n) <= MAXFILE
    ensures EndBlock(off + m, n - m) == EndBlock(off, n)
  {
  }

  lemma UnfoldAt(fs: Fs, r: Fs, k: nat, src: seq<Byte>, off: nat)
    returns (f: Fs, done: seq<Byte>, rest: seq<Byte>, end: nat)
    requires WritesTo(fs, k, src, off, r) && src != [] && !fs.halted
    ensures done != [] && off % BSIZE + |done| <= BSIZE && f == WriteStep(fs, k, off, done) && (f.halted ==> r == f)
    ensures f.Shape() && k < |f.inodes| && |rest| < |src| && end + |rest| == off + |src| && WritesTo(f, k, rest, end, r)
    ensures EndBlock(end, |rest|) == EndBlock(off, |src|) && off / BSIZE < EndBlock(off, |src|) <= MAXFILE
    ensures rest == [] ==> EndBlock(off, |src|) == off / BSIZE + 1 && r == f
    ensures rest != [] ==> end / BSIZE == off / BSIZE + 1
  {
    f, done, rest, end := Unfold(fs, r, k, src, off);
    PassEnd(off, |src|, |done|);
  }

  lemma PassIs(fs: Fs, f: Fs, own: map<nat, Slot>, k: nat, at: nat, piece: seq<Byte>, lo: nat)
    returns (own': map<nat, Slot>)
    requires Owned(fs, own, 0, 0) && k < |fs.inodes| && at < MAXBYTES && at % BSIZE + |piece| <= BSIZE && !fs.halted
    requires f == WriteStep(fs, k, at, piece) && !f.halted && piece != [] && lo == at / BSIZE
    ensures Owned(f, own', 0, 0) && Filled(fs, f, k) && Passed(fs, f, k, lo)
  {
    own' := WriteStepWrites(fs, own, k, at, piece);
    assert RangeMapped(f, k, at, at + |piece|);
    forall j: nat | j < SLOTS && j != SlotOf(lo) && (j != NDIRECT || lo < NDIRECT)
      ensures Addr(f, k, j) == Addr(fs, k, j)
    {
      StepAt(fs, f, own, k, at, piece, j);
    }
    if lo >= NDIRECT {
      assert Addr(f, k, SlotOf(lo)) != 0;
    }
  }

  /**
    Exactly what writei's loop takes and logs, and that it panics exactly if it needs more blocks than
    are unmarked.
   */
  ghost predicate LoopAdds(fs: Fs, r: Fs, k: nat, lo: nat, hi: nat) {
    && fs.Shape() && k < |fs.inodes| && k < |r.inodes| && hi <= MAXFILE
    && (r.halted <==> !Enough(Marks(fs), Allocations(fs, k, lo, hi)))
    && (!r.halted ==> Adds(fs, r, Allocations(fs, k, lo, hi), Logs(fs, r, k, lo, hi)) && Filled(fs, r, k))
  }

  lemma LoopStepAdds(fs: Fs, f: Fs, r: Fs, k: nat, lo: nat, hi: nat, D: set<nat>)
    requires Passed(fs, f, k, lo) && lo < hi <= MAXFILE && Filled(f, r, k)
    requires D == {Addr(f, k, SlotOf(lo)) as nat} + Entry(fs, f, k, lo) && Adds(fs, f, NewBlocks(fs, k, lo), D)
    requires Adds(f, r, Allocations(f, k, lo + 1, hi), Logs(f, r, k, lo + 1, hi))
    ensures Adds(fs, r, Allocations(fs, k, lo, hi), Logs(fs, r, k, lo, hi))
  {
    PassedSums(fs, f, k, lo, hi);
    LogsStep(fs, f, r, k, lo, hi);
    AddsBoth(fs, f, r, NewBlocks(fs, k, lo), Allocations(f, k, lo + 1, hi), Allocations(fs, k, lo, hi), D,
             Logs(f, r, k, lo + 1, hi), Logs(fs, r, k, lo, hi));
  }

  lemma LoopStepEnough(fs: Fs, f: Fs, k: nat, lo: nat, hi: nat)
    requires Passed(fs, f, k, lo) && lo < hi <= MAXFILE && fs.Shape() && f.Shape()
    requires Took(Marks(fs), Marks(f), NewBlocks(fs, k, lo))
    ensures Enough(Marks(fs), Allocations(fs, k, lo, hi)) <==> Enough(Marks(f), Allocations(f, k, lo + 1, hi))
  {
    PassedSums(fs, f, k, lo, hi);
    EnoughBoth(Marks(fs), Marks(f), NewBlocks(fs, k, lo), Allocations(f, k, lo + 1, hi), Allocations(fs, k, lo, hi));
  }

  /** The pass over block lo, and what it logged. */
  ghost predicate PassAdds(fs: Fs, f: Fs, k: nat, lo: nat) {
    && Passed(fs, f, k, lo) && Filled(fs, f, k) && fs.Shape() && !f.halted
    && Adds(fs, f, NewBlocks(fs, k, lo), {Addr(f, k, SlotOf(lo)) as nat} + Entry(fs, f, k, lo))
  }

  lemma LoopStep(fs: Fs, f: Fs, r: Fs, k: nat, lo: nat, next: nat, hi: nat)
    requires PassAdds(fs, f, k, lo) && next == lo + 1 <= hi <= MAXFILE && LoopAdds(f, r, k, next, hi)
    ensures LoopAdds(fs, r, k, lo, hi)
  {
    LoopStepEnough(fs, f, k, lo, hi);
    if !r.halted {
      FilledTwice(fs, f, r, k);
      LoopStepAdds(fs, f, r, k, lo, hi, {Addr(f, k, SlotOf(lo)) as nat} + Entry(fs, f, k, lo));
    }
  }

  lemma LoopEnds(f: Fs, k: nat, hi: nat)
    requires f.Shape() && k < |f.inodes| && !f.halted && hi <= MAXFILE
    ensures LoopAdds(f, f, k, hi, hi)
  {
    AddsNone(f);
    OneIsEnough(f);
  }

  lemma {:induction false} WriteAdds(fs: Fs, r: Fs, own: map<nat, Slot>, k: nat, src: seq<Byte>, off: nat)
    requires Owned(fs, own, 0, 0) && !fs.halted && WritesTo(fs, k, src, off, r) && src != []
    ensures off / BSIZE < EndBlock(off, |src|) <= MAXFILE && LoopAdds(fs, r, k, off / BSIZE, EndBlock(off, |src|))
    decreases |src|, 1
  {
    var f, done, rest, end := UnfoldAt(fs, r, k, src, off);
    var lo, hi := off / BSIZE, EndBlock(off, |src|);
    var own1 := FirstAdds(fs, f, own, k, off, done, lo);
    if f.halted {
      HaltedEarly(fs, k, lo, hi);
    } else {
      var next := lo + 1;
      RestAdds(f, r, own1, k, rest, end, next, hi);
      LoopStep(fs, f, r, k, lo, next, hi);
    }
  }

  lemma FirstAdds(fs: Fs, f: Fs, own: map<nat, Slot>, k: nat, at: nat, piece: seq<Byte>, lo: nat)
    returns (own': map<nat, Slot>)
    requires Owned(fs, own, 0, 0) && k < |fs.inodes| && at < MAXBYTES && at % BSIZE + |piece| <= BSIZE && !fs.halted
    requires piece != []
    requires f == WriteStep(fs, k, at, piece) && lo == at / BSIZE
    ensures f.halted ==> !Enough(Marks(fs), NewBlocks(fs, k, lo))
    ensures !f.halted ==> Owned(f, own', 0, 0) && PassAdds(fs, f, k, lo)
  {
    StepAdds(fs, own, k, at, piece, f, lo);
    if f.halted {
      own' := own;
    } else {
      own' := PassIs(fs, f, own, k, at, piece, lo);
    }
  }

  lemma {:induction false} RestAdds(f: Fs, r: Fs, own: map<nat, Slot>, k: nat, rest: seq<Byte>, end: nat, lo: nat,
                                    hi: nat)
    requires Owned(f, own, 0, 0) && !f.halted && WritesTo(f, k, rest, end, r) && hi <= MAXFILE
    requires if rest == [] then r == f && lo == hi else lo == end / BSIZE && hi == EndBlock(end, |rest|)
    ensures LoopAdds(f, r, k, lo, hi)
    decreases |rest|, 2
  {
    if rest == [] {
      LoopEnds(f, k, hi);
    } else {
      WriteAdds(f, r, own, k, rest, end);
    }
  }

  lemma HaltedEarly(fs: Fs, k: nat, lo: nat, hi: nat)
    requires fs.Shape() && k < |fs.inodes| && lo < hi <= MAXFILE && !Enough(Marks(fs), NewBlocks(fs, k, lo))
    ensures !Enough(Marks(fs), Allocations(fs, k, lo, hi))
  {
    FreesShort(Marks(fs), 0, NewBlocks(fs, k, lo), Allocations(fs, k, lo, hi));
  }

  // ---------- what readi logs ----------

  /** What bmap logs of a hole is not nothing; a block that is there it leaves alone. */
  lemma BmapLogs(fs: Fs, own: map<nat, Slot>, k: nat, bn: nat, r: Fs)
    requires Owned(fs, own, 0, 0) && k < |fs.inodes| && bn < MAXFILE && !fs.halted && r == Bmap(fs, k, bn) && !r.halted
    ensures fs.logged <= r.logged
    ensures if Addr(fs, k, SlotOf(bn)) == 0 then r.logged != {} else r == fs
  {
    BmapAdds(fs, own, k, bn, r);
    if Addr(fs, k, SlotOf(bn)) == 0 {
      assert Addr(r, k, SlotOf(bn)) as nat in NewAt(fs, r, k, SlotOf(bn));
    } else {
      BmapOfMapped(fs, own, k, bn);
    }
  }

  /** What the loop has logged at its end, if it began with a range at .. end - 1 to read. */
  ghost predicate ReadLogged(fs: Fs, r: Fs, k: nat, at: nat, end: nat) {
    !r.halted ==> fs.logged <= r.logged && (at < end && !RangeMapped(fs, k, at, end) ==> r.logged != {})
  }

  lemma ReadLoggedMore(fs: Fs, f: Fs, r: Fs, k: nat, at: nat, mid: nat, end: nat)
    requires fs.logged <= f.logged && ReadLogged(f, r, k, mid, end) && k < |fs.inodes| && at < mid <= end
    requires f.logged != {} || (f == fs && RangeMapped(fs, k, at, mid))
    ensures ReadLogged(fs, r, k, at, end)
  {
    if f == fs && RangeMapped(fs, k, at, mid) && RangeMapped(fs, k, mid, end) {
      RangesMapped(fs, fs, k, at, mid, end);
    }
  }

  lemma {:induction false} ReadFromLogs(fs: Fs, result: (Fs, seq<Byte>), own: map<nat, Slot>, k: nat, off: nat,
                                        n: nat, got: seq<Byte>, at: nat)
    requires Owned(fs, own, 0, 0) && !fs.halted && ReadsTo(fs, k, off, n, got, result) && at == off + |got|
    ensures ReadLogged(fs, result.0, k, at, off + n)
    decreases n - |got|
  {
    if |got| < n {
      var f, more := UnfoldRead(fs, result, k, off, n, got, at);
      var own' := BmapMaps(fs, own, k, at / BSIZE);
      if f.halted {
        ReadHalted(f, k, off, n, more);
      } else {
        var mid := off + |more|;
        BmapLogs(fs, own, k, at / BSIZE, f);
        OneBlockMapped(f, k, at, Chunk(n - |got|, at));
        ReadFromLogs(f, result, own', k, off, n, more, mid);
        ReadLoggedMore(fs, f, result.0, k, at, mid, off + n);
      }
    }
  }

  lemma ReadFromQuiet(fs: Fs, result: (Fs, seq<Byte>), own: map<nat, Slot>, k: nat, off: nat, n: nat)
    requires Owned(fs, own, 0, 0) && !fs.halted && ReadsTo(fs, k, off, n, [], result) && fs.logged == {} && n > 0
    ensures !result.0.halted ==> (result.0.logged == {} <==> RangeMapped(fs, k, off, off + n))
  {
    if RangeMapped(fs, k, off, off + n) {
      ReadFromMapped(fs, result, own, k, off, n, []);
    } else {
      ReadFromLogs(fs, result, own, k, off, n, [], off);
    }
  }

  /**
    readi hands a block to log_write if and only if the range it reads has a hole, which is a panic
    for a caller that has not begun a transaction.
   */
  lemma ReadiLogsExactly(fs: Fs, own: map<nat, Slot>, k: nat, off: Word, n: Word, device: int)
    requires Owned(fs, own, 0, 0) && SizeOk(fs, k) && !fs.halted && fs.inodes[k].typ != T_DEV && fs.logged == {}
    requires off <= fs.inodes[k].size && off + n < 0x1_0000_0000
    ensures var r, n' := Readi(fs, k, off, n, device).0, Min(n, fs.inodes[k].size - off);
            !r.halted ==> (r.logged == {} <==> n' == 0 || RangeMapped(fs, k, off, off + n'))
  {
    var n' := Min(n, fs.inodes[k].size - off);
    ReadiIs(fs, k, off, n, device);
    if n' > 0 {
      ReadFromQuiet(fs, ReadFrom(fs, k, off, n', []), own, k, off, n');
    }
  }
}
