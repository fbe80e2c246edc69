/**
  The free list of umalloc.c as a value. Addresses and sizes count units of
  sizeof(Header); a block occupies `size` units from its header on.
 */
module HeapSpec {

  datatype Seg = Seg(addr: nat, size: nat) {
    predicate Has(u: nat) {
      addr <= u < addr + size
    }
  }

  /** Address order with a gap after every free block: no overlap, nothing left to coalesce. */
  ghost predicate Ordered(free: seq<Seg>) {
    |free| <= 1 || (free[0].addr + free[0].size < free[1].addr && Ordered(free[1..]))
  }

  lemma {:induction false} OrderedMeans(free: seq<Seg>)
    ensures Ordered(free) <==> forall i, j :: 0 <= i < j < |free| ==> free[i].addr + free[i].size < free[j].addr
  {
    if |free| > 1 {
      OrderedMeans(free[1..]);
      if Ordered(free) {
        forall j | 1 < j < |free|
          ensures free[0].addr + free[0].size < free[j].addr
        {
          assert free[1..][0].addr + free[1..][0].size < free[1..][j - 1].addr;
        }
      }
      assert forall i, j :: 0 <= i < j < |free[1..]| ==> free[1..][i] == free[i + 1] && free[1..][j] == free[j + 1];
    }
  }

  /** The blocks around the i-th one. */
  lemma OrderedAt(free: seq<Seg>, i: nat)
    requires Ordered(free) && i < |free|
    ensures forall j :: 0 <= j < i ==> free[j].addr + free[j].size < free[i].addr
    ensures forall j :: i < j < |free| ==> free[i].addr + free[i].size < free[j].addr
  {
    OrderedMeans(free);
  }

  /** The list starts with `base`, the empty block that is never handed out. */
  ghost predicate FreeListOk(free: seq<Seg>) {
    && free != [] && free[0].addr > 0 && free[0].size == 0
    && (forall i :: 1 <= i < |free| ==> free[i].size > 0)
    && Ordered(free)
  }

  predicate Apart(a: Seg, b: Seg) {
    a.addr + a.size <= b.addr || b.addr + b.size <= a.addr
  }

  ghost predicate ApartFromAll(s: Seg, free: seq<Seg>) {
    forall i :: 0 <= i < |free| ==> Apart(s, free[i])
  }

  function Live(live: map<nat, nat>, b: nat): Seg
    requires b in live
  {
    Seg(b, live[b])
  }

  ghost predicate LiveOk(free: seq<Seg>, live: map<nat, nat>)
    requires free != []
  {
    && (forall b :: b in live ==> live[b] > 0 && b > free[0].addr && ApartFromAll(Live(live, b), free))
    && (forall b, c :: b in live && c in live && b != c ==> Apart(Live(live, b), Live(live, c)))
  }

  /** Unit u belongs to one of the blocks or regions in s. */
  ghost predicate Covers(s: seq<Seg>, u: nat) {
    exists i :: 0 <= i < |s| && s[i].Has(u)
  }

  ghost predicate LiveUnit(live: map<nat, nat>, u: nat) {
    exists b :: b in live && Live(live, b).Has(u)
  }

  /**
    The heap: the units of the regions that sbrk granted are exactly those of the free blocks
    and of the live ones, and no two blocks overlap.
   */
  ghost predicate HeapOk(free: seq<Seg>, live: map<nat, nat>, granted: seq<Seg>) {
    && FreeListOk(free) && LiveOk(free, live)
    && forall u: nat :: Covers(granted, u) <==> Covers(free, u) || LiveUnit(live, u)
  }

  // ---------- giving a block back ----------

  /** The last free block below address a, the place where the block at a belongs. */
  function Position(free: seq<Seg>, a: nat, k: nat): (r: nat)
    requires k < |free|
    ensures r <= k
  {
    if k == 0 || free[k].addr < a then k else Position(free, a, k - 1)
  }

  lemma {:induction false} PositionIsBelow(free: seq<Seg>, a: nat, k: nat)
    requires FreeListOk(free) && k < |free| && free[0].addr < a
    requires forall j :: k < j < |free| ==> a <= free[j].addr
    ensures var r := Position(free, a, k);
            free[r].addr < a && forall j :: r < j < |free| ==> a <= free[j].addr
  {
    OrderedMeans(free);
    if k > 0 && free[k].addr >= a {
      PositionIsBelow(free, a, k - 1);
    }
  }

  /** p in front of rest, coalesced with its first block if that begins where p ends. */
  function Join(p: Seg, rest: seq<Seg>): (r: seq<Seg>)
    ensures r != [] && r[0].addr == p.addr
  {
    if rest != [] && p.addr + p.size == rest[0].addr then [Seg(p.addr, p.size + rest[0].size)] + rest[1..]
    else [p] + rest
  }

  /** free() behind the k-th block: coalesce with the block above, then with the block below. */
  function Merge(free: seq<Seg>, k: nat, s: Seg): seq<Seg>
    requires k < |free|
  {
    free[..k] + Join(free[k], Join(s, free[k + 1..]))
  }

  ghost predicate Fits(free: seq<Seg>, k: nat, s: Seg) {
    && FreeListOk(free) && k < |free| && s.size > 0 && ApartFromAll(s, free)
    && free[k].addr < s.addr && forall j :: k < j < |free| ==> s.addr <= free[j].addr
  }

  lemma CoversSplit(a: seq<Seg>, b: seq<Seg>, u: nat)
    ensures Covers(a + b, u) <==> Covers(a, u) || Covers(b, u)
  {
    if i :| 0 <= i < |a| && a[i].Has(u) {
      assert (a + b)[i].Has(u);
    }
    if i :| 0 <= i < |b| && b[i].Has(u) {
      assert (a + b)[|a| + i].Has(u);
    }
  }

  lemma CoversOne(s: Seg, u: nat)
    ensures Covers([s], u) <==> s.Has(u)
  {
    if s.Has(u) {
      assert [s][0].Has(u);
    }
  }

  lemma JoinUnits(p: Seg, rest: seq<Seg>, u: nat)
    ensures Covers(Join(p, rest), u) <==> p.Has(u) || Covers(rest, u)
  {
    CoversOne(p, u);
    CoversSplit([p], rest, u);
    if rest != [] {
      assert rest == [rest[0]] + rest[1..];
      var q := Seg(p.addr, p.size + rest[0].size);
      CoversSplit([rest[0]], rest[1..], u);
      CoversOne(rest[0], u);
      CoversSplit([q], rest[1..], u);
      CoversOne(q, u);
    }
  }

  /** Coalescing changes how the free units are cut into blocks, not which units are free. */
  lemma MergeUnits(free: seq<Seg>, k: nat, s: Seg, u: nat)
    requires k < |free|
    ensures Covers(Merge(free, k, s), u) <==> Covers(free, u) || s.Has(u)
  {
    var above := free[k + 1..];
    JoinUnits(s, above, u);
    JoinUnits(free[k], Join(s, above), u);
    CoversSplit(free[..k], Join(free[k], Join(s, above)), u);
    assert free == free[..k] + ([free[k]] + above);
    CoversSplit(free[..k], [free[k]] + above, u);
    CoversSplit([free[k]], above, u);
    CoversOne(free[k], u);
  }

  lemma JoinOrdered(p: Seg, rest: seq<Seg>)
    requires Ordered(rest) && (rest != [] ==> p.addr + p.size <= rest[0].addr)
    ensures Ordered(Join(p, rest))
  {
  }

  lemma {:induction false} OrderedAppend(a: seq<Seg>, b: seq<Seg>)
    requires Ordered(a) && Ordered(b)
    requires a != [] && b != [] ==> a[|a| - 1].addr + a[|a| - 1].size < b[0].addr
    ensures Ordered(a + b)
  {
    if a == [] {
      assert a + b == b;
    } else {
      assert (a + b)[1..] == a[1..] + b;
      OrderedAppend(a[1..], b);
    }
  }

  lemma {:induction false} OrderedParts(a: seq<Seg>, b: seq<Seg>)
    requires Ordered(a + b)
    ensures Ordered(a) && Ordered(b)
    ensures a != [] && b != [] ==> a[|a| - 1].addr + a[|a| - 1].size < b[0].addr
  {
    if a == [] {
      assert a + b == b;
    } else {
      assert (a + b)[1..] == a[1..] + b;
      OrderedParts(a[1..], b);
    }
  }

  lemma AroundPlace(free: seq<Seg>, k: nat, s: Seg)
    requires Fits(free, k, s)
    ensures Ordered(free[..k]) && Ordered(free[k + 1..])
    ensures k > 0 ==> free[k - 1].addr + free[k - 1].size < free[k].addr
    ensures free[k].addr + free[k].size <= s.addr
    ensures k + 1 < |free| ==> s.addr + s.size <= free[k + 1].addr
  {
    assert Apart(s, free[k]);
    if k + 1 < |free| {
      assert Apart(s, free[k + 1]);
    }
    assert free == free[..k] + free[k..];
    OrderedParts(free[..k], free[k..]);
    assert free[k..] == [free[k]] + free[k + 1..];
    OrderedParts([free[k]], free[k + 1..]);
  }

  lemma MergeKeepsOrder(free: seq<Seg>, k: nat, s: Seg)
    requires Fits(free, k, s)
    ensures Ordered(Merge(free, k, s))
  {
    AroundPlace(free, k, s);
    JoinOrdered(s, free[k + 1..]);
    JoinOrdered(free[k], Join(s, free[k + 1..]));
    OrderedAppend(free[..k], Join(free[k], Join(s, free[k + 1..])));
  }

  lemma MergeKeepsList(free: seq<Seg>, k: nat, s: Seg)
    requires Fits(free, k, s)
    ensures FreeListOk(Merge(free, k, s)) && Merge(free, k, s)[0] == free[0]
  {
    MergeKeepsOrder(free, k, s);
    var up := Join(s, free[k + 1..]);
    assert forall i :: 0 <= i < |up| ==> up[i].size > 0;
  }

  lemma JoinApart(p: Seg, rest: seq<Seg>, t: Seg)
    requires Apart(t, p) && ApartFromAll(t, rest) && t.size > 0
    requires p.size > 0 || (rest != [] ==> p.addr < rest[0].addr)
    ensures ApartFromAll(t, Join(p, rest))
  {
    if rest != [] {
      assert Apart(t, rest[0]);
    }
  }

  /** A block that overlaps neither the free blocks nor s is apart from the merged list too. */
  lemma MergeApart(free: seq<Seg>, k: nat, s: Seg, t: Seg)
    requires Fits(free, k, s) && ApartFromAll(t, free) && Apart(t, s) && t.size > 0
    ensures ApartFromAll(t, Merge(free, k, s))
  {
    assert Apart(t, free[k]);
    JoinApart(s, free[k + 1..], t);
    JoinApart(free[k], Join(s, free[k + 1..]), t);
  }

  /** free(): the block leaves the live ones and its units are free again. */
  lemma FreeKeepsHeap(free: seq<Seg>, live: map<nat, nat>, granted: seq<Seg>, k: nat, b: nat)
    requires HeapOk(free, live, granted) && b in live && k < |free|
    requires free[k].addr < b && forall j :: k < j < |free| ==> b <= free[j].addr
    ensures Fits(free, k, Live(live, b))
    ensures HeapOk(Merge(free, k, Live(live, b)), live - {b}, granted)
  {
    var s := Live(live, b);
    var m, live' := Merge(free, k, s), live - {b};
    MergeKeepsList(free, k, s);
    forall c | c in live'
      ensures ApartFromAll(Live(live', c), m)
    {
      assert Live(live', c) == Live(live, c);
      MergeApart(free, k, s, Live(live, c));
    }
    forall u: nat
      ensures Covers(granted, u) <==> Covers(m, u) || LiveUnit(live', u)
    {
      MergeUnits(free, k, s, u);
      LiveUnitWithout(live, b, u);
    }
  }

  lemma LiveUnitWithout(live: map<nat, nat>, b: nat, u: nat)
    requires b in live
    ensures LiveUnit(live, u) <==> LiveUnit(live - {b}, u) || Live(live, b).Has(u)
  {
    var live' := live - {b};
    if LiveUnit(live', u) {
      var c :| c in live' && Live(live', c).Has(u);
      assert Live(live, c).Has(u);
    }
    if c :| c in live && Live(live, c).Has(u) && c != b {
      assert Live(live', c).Has(u);
    }
  }

  // ---------- taking a block ----------

  /** The list after malloc took n units from the block at i: all of it, or its upper end. */
  function Take(free: seq<Seg>, i: nat, n: nat): seq<Seg>
    requires i < |free| && n <= free[i].size
  {
    if free[i].size == n then free[..i] + free[i + 1..]
    else free[i := Seg(free[i].addr, free[i].size - n)]
  }

  function Taken(free: seq<Seg>, i: nat, n: nat): Seg
    requires i < |free| && n <= free[i].size
  {
    Seg(free[i].addr + (free[i].size - n), n)
  }

  lemma TakeUnits(free: seq<Seg>, i: nat, n: nat, u: nat)
    requires i < |free| && n <= free[i].size
    ensures Covers(free, u) <==> Covers(Take(free, i, n), u) || Taken(free, i, n).Has(u)
  {
    assert free == free[..i] + ([free[i]] + free[i + 1..]);
    CoversSplit(free[..i], [free[i]] + free[i + 1..], u);
    CoversSplit([free[i]], free[i + 1..], u);
    CoversOne(free[i], u);
    CoversSplit(free[..i], free[i + 1..], u);
    if free[i].size != n {
      var r := Seg(free[i].addr, free[i].size - n);
      assert Take(free, i, n) == free[..i] + ([r] + free[i + 1..]);
      CoversSplit(free[..i], [r] + free[i + 1..], u);
      CoversSplit([r], free[i + 1..], u);
      CoversOne(r, u);
    }
  }

  lemma TakeApart(free: seq<Seg>, i: nat, n: nat)
    requires FreeListOk(free) && 1 <= i < |free| && 0 < n <= free[i].size
    ensures FreeListOk(Take(free, i, n)) && Take(free, i, n)[0] == free[0]
    ensures ApartFromAll(Taken(free, i, n), Take(free, i, n))
  {
    OrderedMeans(free);
    OrderedMeans(Take(free, i, n));
  }

  lemma TakeKeepsApart(free: seq<Seg>, i: nat, n: nat, t: Seg)
    requires i < |free| && n <= free[i].size && ApartFromAll(t, free)
    ensures ApartFromAll(t, Take(free, i, n)) && Apart(t, Taken(free, i, n))
  {
    assert Apart(t, free[i]);
  }

  /** malloc(): the block handed out overlaps no live block and no free one. */
  lemma TakeKeepsHeap(free: seq<Seg>, live: map<nat, nat>, granted: seq<Seg>, i: nat, n: nat)
    requires HeapOk(free, live, granted) && 1 <= i < |free| && 0 < n <= free[i].size
    ensures var t := Taken(free, i, n);
            && t.addr !in live && (forall b :: b in live ==> Apart(Live(live, b), t))
            && HeapOk(Take(free, i, n), live[t.addr := n], granted)
  {
    OrderedMeans(free);
    var t, f := Taken(free, i, n), Take(free, i, n);
    var live' := live[t.addr := n];
    TakeApart(free, i, n);
    forall b | b in live
      ensures Apart(Live(live, b), t) && ApartFromAll(Live(live, b), f) && b != t.addr
    {
      TakeKeepsApart(free, i, n, Live(live, b));
    }
    assert forall b :: b in live ==> Live(live', b) == Live(live, b);
    forall u: nat
      ensures Covers(granted, u) <==> Covers(f, u) || LiveUnit(live', u)
    {
      TakeUnits(free, i, n, u);
      assert live' - {t.addr} == live;
      LiveUnitWithout(live', t.addr, u);
    }
  }

  // ---------- getting more from sbrk ----------

  /** morecore(): the new units, which lie above everything granted before, start out live. */
  lemma GrowKeepsHeap(free: seq<Seg>, live: map<nat, nat>, granted: seq<Seg>, r: nat, n: nat)
    requires HeapOk(free, live, granted) && n > 0 && r > free[0].addr
    requires forall u: nat :: Covers(granted, u) ==> u < r
    ensures r !in live && HeapOk(free, live[r := n], granted + [Seg(r, n)])
  {
    var live' := live[r := n];
    var t := Seg(r, n);
    forall i | 0 <= i < |free|
      ensures Apart(t, free[i])
    {
      if i > 0 {
        assert free[i].Has(free[i].addr + free[i].size - 1);
        assert Covers(free, free[i].addr + free[i].size - 1);
      }
    }
    forall b | b in live
      ensures b + live[b] <= r
    {
      assert Live(live, b).Has(b + live[b] - 1);
      assert LiveUnit(live, b + live[b] - 1);
    }
    assert live' - {r} == live;
    forall u: nat
      ensures Covers(granted + [Seg(r, n)], u) <==> Covers(free, u) || LiveUnit(live', u)
    {
      LiveUnitWithout(live', r, u);
      CoversSplit(granted, [t], u);
      CoversOne(t, u);
    }
    assert forall b :: b in live ==> Live(live', b) == Live(live, b);
  }

  // ---------- the list is canonical ----------

  lemma StartCovered(f: seq<Seg>, k: nat, u: nat)
    requires k < |f|
    ensures f[k].Has(u) ==> Covers(f, u)
  {
  }

  /** No unit between two neighbouring free blocks is free, nor one above the last. */
  lemma GapNotCovered(f: seq<Seg>, k: nat, u: nat)
    requires FreeListOk(f) && 1 <= k <= |f|
    ensures f[k - 1].addr + f[k - 1].size <= u && (k < |f| ==> u < f[k].addr) ==> !Covers(f, u)
  {
    OrderedMeans(f);
    if f[k - 1].addr + f[k - 1].size <= u && (k < |f| ==> u < f[k].addr) {
      forall i | 0 <= i < |f|
        ensures !f[i].Has(u)
      {
        if i < k - 1 {
          assert f[i].addr + f[i].size < f[k - 1].addr;
        } else if i > k {
          assert f[k].addr + f[k].size < f[i].addr;
        }
      }
    }
  }

  lemma SameStart(f: seq<Seg>, g: seq<Seg>, k: nat)
    requires FreeListOk(f) && FreeListOk(g) && 1 <= k < |f| && k < |g| && f[k - 1] == g[k - 1]
    requires forall u: nat :: Covers(f, u) ==> Covers(g, u)
    ensures f[k].addr >= g[k].addr
  {
    OrderedMeans(f);
    StartCovered(f, k, f[k].addr);
    GapNotCovered(g, k, f[k].addr);
  }

  lemma SameEnd(f: seq<Seg>, g: seq<Seg>, k: nat)
    requires FreeListOk(f) && FreeListOk(g) && 1 <= k < |f| && k < |g| && f[k].addr == g[k].addr
    requires forall u: nat :: Covers(f, u) ==> Covers(g, u)
    ensures f[k].size <= g[k].size
  {
    OrderedMeans(f);
    OrderedMeans(g);
    var u := g[k].addr + g[k].size;
    StartCovered(f, k, u);
    GapNotCovered(g, k + 1, u);
  }

  lemma {:induction false} CanonicalUpTo(f: seq<Seg>, g: seq<Seg>, n: nat)
    requires FreeListOk(f) && FreeListOk(g) && f[0] == g[0] && n <= |f| && n <= |g|
    requires forall u: nat :: Covers(f, u) <==> Covers(g, u)
    ensures f[..n] == g[..n]
  {
    if n > 1 {
      CanonicalUpTo(f, g, n - 1);
      assert f[n - 2] == f[..n - 1][n - 2] == g[n - 2];
      SameStart(f, g, n - 1);
      SameStart(g, f, n - 1);
      SameEnd(f, g, n - 1);
      SameEnd(g, f, n - 1);
      assert f[..n] == f[..n - 1] + [f[n - 1]] && g[..n] == g[..n - 1] + [g[n - 1]];
    }
  }

  lemma NotLonger(f: seq<Seg>, g: seq<Seg>)
    requires FreeListOk(f) && FreeListOk(g) && f[0] == g[0]
    requires forall u: nat :: Covers(f, u) <==> Covers(g, u)
    ensures |f| <= |g|
  {
    OrderedMeans(f);
    if |g| < |f| {
      CanonicalUpTo(f, g, |g|);
      assert f[|g| - 1] == f[..|g|][|g| - 1];
      var u := f[|g|].addr;
      GapNotCovered(g, |g|, u);
      StartCovered(f, |g|, u);
    }
  }

  /**
    The free list is determined by which units are free: two well-formed lists over the same
    base that cover the same units are the same list.
   */
  lemma CanonicalList(f: seq<Seg>, g: seq<Seg>)
    requires FreeListOk(f) && FreeListOk(g) && f[0] == g[0]
    requires forall u: nat :: Covers(f, u) <==> Covers(g, u)
    ensures f == g
  {
    NotLonger(f, g);
    NotLonger(g, f);
    CanonicalUpTo(f, g, |f|);
    assert f[..|f|] == f && g[..|g|] == g;
  }

  /** Freeing what malloc just handed out gives back the very list that malloc found. */
  lemma TakeThenMerge(free: seq<Seg>, i: nat, n: nat, k: nat)
    requires FreeListOk(free) && 1 <= i < |free| && 0 < n <= free[i].size
    requires var f, b := Take(free, i, n), Taken(free, i, n).addr;
             k < |f| && f[k].addr < b && forall j :: k < j < |f| ==> b <= f[j].addr
    ensures Merge(Take(free, i, n), k, Taken(free, i, n)) == free
  {
    var f, t := Take(free, i, n), Taken(free, i, n);
    TakeApart(free, i, n);
    MergeKeepsList(f, k, t);
    forall u: nat
      ensures Covers(Merge(f, k, t), u) <==> Covers(free, u)
    {
      MergeUnits(f, k, t, u);
      TakeUnits(free, i, n, u);
    }
    CanonicalList(Merge(f, k, t), free);
  }
}
