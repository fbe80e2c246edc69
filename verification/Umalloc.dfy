/**
  umalloc.c as it runs: headers rewired in memory, a roving pointer `freep`, and sbrk as the
  source of new units. A pointer is a unit address, 0 is the null pointer, and the
  pointer the user sees lies one unit above the block's header.
 */
module Umalloc {
  import opened Blocks
  import opened HeapSpec

  const HEADER: nat := 8      // sizeof(Header)
  const MIN_UNITS: nat := 4096

  /** The units for a request: the rounding is 32-bit arithmetic and one unit holds the header. */
  function Units(nbytes: Word): (r: nat)
    ensures r > 0
  {
    (nbytes + HEADER - 1) % 0x1_0000_0000 / HEADER + 1
  }

  /** The block has room for the request, unless the rounding wraps around. */
  lemma UnitsSuffice(nbytes: Word)
    ensures (Units(nbytes) - 1) * HEADER >= nbytes <==> nbytes <= 0x1_0000_0000 - HEADER
  {
    if nbytes <= 0x1_0000_0000 - HEADER {
      assert (nbytes + 7) % 0x1_0000_0000 == nbytes + 7;
    } else {
      assert (nbytes + 7) % 0x1_0000_0000 == nbytes + 7 - 0x1_0000_0000;
    }
  }

  /** What morecore asks sbrk for, as the signed int that sbrk takes. */
  function SbrkArgument(units: nat): int {
    var bytes := units * HEADER % 0x1_0000_0000;
    if bytes < 0x8000_0000 then bytes else bytes - 0x1_0000_0000
  }

  function AtLeastMin(units: nat): nat {
    if units < MIN_UNITS then MIN_UNITS else units
  }

  /** The request reaches sbrk as it was meant: every size up to 2^31 - 16, and those so large that they wrap. */
  lemma SbrkGetsTheSize(nbytes: Word)
    ensures SbrkArgument(AtLeastMin(Units(nbytes))) == AtLeastMin(Units(nbytes)) * HEADER
       <==> nbytes <= 0x8000_0000 - 16 || nbytes > 0x1_0000_0000 - HEADER
  {
    if nbytes <= 0x1_0000_0000 - HEADER {
      assert (nbytes + 7) % 0x1_0000_0000 == nbytes + 7;
    } else {
      assert (nbytes + 7) % 0x1_0000_0000 == nbytes + 7 - 0x1_0000_0000;
      assert Units(nbytes) == 1;
    }
  }

  /** s is linked in order through ptr, and its last block points to `end`. */
  ghost predicate Chain(ptr: map<nat, nat>, size: map<nat, nat>, s: seq<Seg>, end: nat) {
    s == [] ||
    (&& s[0].addr in ptr && s[0].addr in size && size[s[0].addr] == s[0].size
     && ptr[s[0].addr] == (if |s| > 1 then s[1].addr else end)
     && Chain(ptr, size, s[1..], end))
  }

  lemma {:induction false} ChainAt(ptr: map<nat, nat>, size: map<nat, nat>, s: seq<Seg>, end: nat, i: nat)
    requires Chain(ptr, size, s, end) && i < |s|
    ensures s[i].addr in ptr && s[i].addr in size && size[s[i].addr] == s[i].size
    ensures ptr[s[i].addr] == if i + 1 < |s| then s[i + 1].addr else end
  {
    if i > 0 {
      ChainAt(ptr, size, s[1..], end, i - 1);
    }
  }

  lemma {:induction false} ChainSplit(ptr: map<nat, nat>, size: map<nat, nat>, a: seq<Seg>, b: seq<Seg>, end: nat)
    requires b != []
    ensures Chain(ptr, size, a + b, end) <==> Chain(ptr, size, a, b[0].addr) && Chain(ptr, size, b, end)
  {
    if a == [] {
      assert a + b == b;
    } else {
      assert (a + b)[1..] == a[1..] + b;
      ChainSplit(ptr, size, a[1..], b, end);
    }
  }

  /** Headers outside a chain can be rewritten without disturbing it. */
  lemma {:induction false} ChainFrame(ptr: map<nat, nat>, size: map<nat, nat>, ptr': map<nat, nat>,
                                      size': map<nat, nat>, s: seq<Seg>, end: nat)
    requires Chain(ptr, size, s, end)
    requires forall i :: 0 <= i < |s| && s[i].addr in ptr && s[i].addr in size ==>
               && s[i].addr in ptr' && s[i].addr in size'
               && ptr'[s[i].addr] == ptr[s[i].addr] && size'[s[i].addr] == size[s[i].addr]
    ensures Chain(ptr', size', s, end)
  {
    if s != [] {
      ChainFrame(ptr, size, ptr', size', s[1..], end);
    }
  }

  /** free()'s loop stops at the last free block below bp, whether or not the list wraps there. */
  lemma SearchStops(ptr: map<nat, nat>, size: map<nat, nat>, free: seq<Seg>, k: nat, i: nat, bp: nat)
    requires FreeListOk(free) && Chain(ptr, size, free, free[0].addr) && i < |free| && k < |free|
    requires free[k].addr < bp && forall j :: k < j < |free| ==> bp <= free[j].addr
    requires forall j :: 0 <= j < |free| ==> bp != free[j].addr
    ensures free[i].addr in ptr
    ensures var p := free[i].addr;
            var next := ptr[p];
            && ((bp > p && bp < next) || (p >= next && (bp > p || bp < next)) <==> i == k)
            && next == (if i + 1 < |free| then free[i + 1].addr else free[0].addr)
  {
    OrderedMeans(free);
    ChainAt(ptr, size, free, free[0].addr, i);
    assert i < k ==> i + 1 == k || free[i + 1].addr < free[k].addr;
    assert i > k ==> free[k].addr < free[i].addr;
    assert i > 0 ==> free[0].addr < free[i].addr;
    assert k > 0 ==> free[0].addr < free[k].addr;
    assert i + 1 < |free| ==> free[i].addr < free[i + 1].addr;
  }

  /** The headers after bp, behind the k-th free block, took over its successor. */
  lemma LinkUp(ptr: map<nat, nat>, size: map<nat, nat>, free: seq<Seg>, k: nat, s: Seg, ptr': map<nat, nat>,
               size': map<nat, nat>)
    requires Fits(free, k, s) && Chain(ptr, size, free[k + 1..], free[0].addr)
    requires s.addr in size && size[s.addr] == s.size && free[k].addr in ptr
    requires var next := ptr[free[k].addr];
             && next == (if k + 1 < |free| then free[k + 1].addr else free[0].addr)
             && if s.addr + s.size == next then
                  && next in ptr && next in size
                  && ptr' == ptr[s.addr := ptr[next]] && size' == size[s.addr := s.size + size[next]]
                else ptr' == ptr[s.addr := next] && size' == size
    ensures Chain(ptr', size', Join(s, free[k + 1..]), free[0].addr)
  {
    OrderedMeans(free);
    var above := free[k + 1..];
    assert forall i :: 0 <= i < |free| ==> Apart(s, free[i]);
    if above != [] {
      ChainFrame(ptr, size, ptr', size', above, free[0].addr);
    }
  }

  /** The headers after the k-th free block took over the block at bp, the first of `up`. */
  lemma LinkDown(ptr: map<nat, nat>, size: map<nat, nat>, free: seq<Seg>, k: nat, up: seq<Seg>, ptr': map<nat, nat>,
                 size': map<nat, nat>)
    requires k < |free| && up != [] && Chain(ptr, size, up, free[0].addr)
    requires free[k].addr in size && size[free[k].addr] == free[k].size
    requires forall i :: 0 <= i < |up| ==> up[i].addr != free[k].addr
    requires up[0].addr in ptr && up[0].addr in size
    requires var p, bp := free[k].addr, up[0].addr;
             if p + free[k].size == bp then
               ptr' == ptr[p := ptr[bp]] && size' == size[p := free[k].size + size[bp]]
             else ptr' == ptr[p := bp] && size' == size
    ensures Chain(ptr', size', Join(free[k], up), free[0].addr)
  {
    ChainFrame(ptr, size, ptr', size', up, free[0].addr);
    if free[k].addr + free[k].size != up[0].addr {
      assert ([free[k]] + up)[1..] == up;
    }
  }

  /** The part of the list below the place of insertion is not touched. */
  lemma LinkBelow(ptr: map<nat, nat>, size: map<nat, nat>, free: seq<Seg>, k: nat, s: Seg, ptr': map<nat, nat>,
                  size': map<nat, nat>)
    requires Fits(free, k, s) && Chain(ptr, size, free[..k], free[k].addr)
    requires forall a :: a in ptr && a != s.addr && a != free[k].addr ==> a in ptr' && ptr'[a] == ptr[a]
    requires forall a :: a in size && a != s.addr && a != free[k].addr ==> a in size' && size'[a] == size[a]
    requires Chain(ptr', size', Join(free[k], Join(s, free[k + 1..])), free[0].addr)
    ensures Chain(ptr', size', Merge(free, k, s), free[0].addr)
  {
    OrderedMeans(free);
    assert forall i :: 0 <= i < k ==> Apart(s, free[i]) && free[i].addr < free[k].addr;
    ChainFrame(ptr, size, ptr', size', free[..k], free[k].addr);
    ChainSplit(ptr', size', free[..k], Join(free[k], Join(s, free[k + 1..])), free[0].addr);
  }

  /** Around the k-th free block: what it points to, and that a next block has a header too. */
  lemma Neighbours(ptr: map<nat, nat>, size: map<nat, nat>, free: seq<Seg>, k: nat)
    requires FreeListOk(free) && Chain(ptr, size, free, free[0].addr) && k < |free|
    ensures free[k].addr in ptr && free[k].addr in size && size[free[k].addr] == free[k].size
    ensures ptr[free[k].addr] == if k + 1 < |free| then free[k + 1].addr else free[0].addr
    ensures k + 1 < |free| ==> free[k + 1].addr in ptr && free[k + 1].addr in size
    ensures free[0].addr <= free[k].addr
    ensures Chain(ptr, size, free[..k], free[k].addr) && Chain(ptr, size, free[k + 1..], free[0].addr)
  {
    OrderedMeans(free);
    ChainAt(ptr, size, free, free[0].addr, k);
    if k + 1 < |free| {
      ChainAt(ptr, size, free, free[0].addr, k + 1);
    }
    assert free == free[..k] + free[k..];
    ChainSplit(ptr, size, free[..k], free[k..], free[0].addr);
    assert free[k..][1..] == free[k + 1..];
  }

  lemma JoinAbove(free: seq<Seg>, k: nat, s: Seg)
    requires Fits(free, k, s)
    ensures var up := Join(s, free[k + 1..]);
            up[0].addr == s.addr && forall i :: 0 <= i < |up| ==> up[i].addr != free[k].addr
  {
    OrderedMeans(free);
    assert forall j :: k < j < |free| ==> free[k].addr < free[j].addr;
  }

  /** The headers in memory link the free list, starting at base; freep is one of its blocks. */
  ghost predicate Listed(base: nat, ptr: map<nat, nat>, size: map<nat, nat>, freep: nat,
                         free: seq<Seg>, live: map<nat, nat>, granted: seq<Seg>) {
    && HeapOk(free, live, granted) && free[0] == Seg(base, 0)
    && Chain(ptr, size, free, base)
    && (exists f :: 0 <= f < |free| && free[f].addr == freep)
    && forall b :: b in live ==> b in size && size[b] == live[b]
  }

  lemma FreeListed(base: nat, ptr: map<nat, nat>, size: map<nat, nat>, freep: nat, free: seq<Seg>, live: map<nat, nat>,
                   granted: seq<Seg>, k: nat, bp: nat, ptr': map<nat, nat>, size': map<nat, nat>)
    requires Listed(base, ptr, size, freep, free, live, granted) && bp in live && k < |free|
    requires free[k].addr < bp && forall j :: k < j < |free| ==> bp <= free[j].addr
    requires Chain(ptr', size', Merge(free, k, HeapSpec.Live(live, bp)), base)
    requires forall a :: a in size && a != bp && a != free[k].addr ==> a in size' && size'[a] == size[a]
    ensures Listed(base, ptr', size', free[k].addr, Merge(free, k, HeapSpec.Live(live, bp)), live - {bp}, granted)
  {
    OrderedMeans(free);
    var m := Merge(free, k, HeapSpec.Live(live, bp));
    FreeKeepsHeap(free, live, granted, k, bp);
    assert m[k].addr == free[k].addr;
    forall b | b in live
      ensures b != free[k].addr
    {
      assert ApartFromAll(HeapSpec.Live(live, b), free);
    }
  }

  /** The list's order is circular: base follows the last block. */
  function Next(free: seq<Seg>, i: nat): (j: nat)
    requires i < |free|
    ensures j < |free|
  {
    if i + 1 < |free| then i + 1 else 0
  }

  /** Block j was looked at on the way from the one after f to i. */
  predicate Passed(f: nat, i: nat, j: nat) {
    if f < i then f < j < i else f < j || j < i
  }

  ghost predicate TooSmall(free: seq<Seg>, f: nat, i: nat, n: nat) {
    forall j :: 0 <= j < |free| && Passed(f, i, j) ==> free[j].size < n
  }

  ghost predicate NoneFits(free: seq<Seg>, n: nat) {
    forall j :: 0 <= j < |free| ==> free[j].size < n
  }

  /** malloc()'s step from a block that is too small; back at f, no block was large enough. */
  lemma StepPast(free: seq<Seg>, f: nat, i: nat, n: nat)
    requires f < |free| && i < |free| && TooSmall(free, f, i, n) && free[i].size < n
    ensures i == f ==> NoneFits(free, n)
    ensures i != f ==> TooSmall(free, f, Next(free, i), n)
  {
  }

  lemma SameAddress(free: seq<Seg>, i: nat, j: nat)
    requires Ordered(free) && i < |free| && j < |free| && free[i].addr == free[j].addr
    ensures i == j
  {
    OrderedMeans(free);
  }

  /** A block merged into the list is part of a block at least as large. */
  lemma MergeFits(free: seq<Seg>, k: nat, s: Seg) returns (g: nat)
    requires k < |free|
    ensures var m := Merge(free, k, s);
            g < |m| && m[g].size >= s.size
  {
    var up := Join(s, free[k + 1..]);
    assert up[0].size >= s.size;
    var m := Merge(free, k, s);
    if free[k].addr + free[k].size == up[0].addr {
      g := k;
    } else {
      g := k + 1;
      assert m[k + 1] == up[0];
    }
  }

  lemma TakeAll(ptr: map<nat, nat>, size: map<nat, nat>, free: seq<Seg>, i: nat, ptr': map<nat, nat>)
    requires FreeListOk(free) && Chain(ptr, size, free, free[0].addr) && 1 <= i < |free|
    requires free[i].addr in ptr && ptr' == ptr[free[i - 1].addr := ptr[free[i].addr]]
    ensures Chain(ptr', size, free[..i] + free[i + 1..], free[0].addr)
  {
    var e := free[0].addr;
    var below, above := free[..i - 1], free[i + 1..];
    Neighbours(ptr, size, free, i - 1);
    Neighbours(ptr, size, free, i);
    OrderedAt(free, i - 1);
    ChainFrame(ptr, size, ptr', size, below, free[i - 1].addr);
    ChainFrame(ptr, size, ptr', size, above, e);
    var rest := [free[i - 1]] + above;
    assert rest[1..] == above;
    ChainSplit(ptr', size, below, rest, e);
    assert free[..i] + above == below + rest;
  }

  lemma TakePart(ptr: map<nat, nat>, size: map<nat, nat>, free: seq<Seg>, i: nat, n: nat, size': map<nat, nat>)
    requires FreeListOk(free) && Chain(ptr, size, free, free[0].addr) && 1 <= i < |free| && 0 < n < free[i].size
    requires var p := free[i].addr;
             size' == size[p := free[i].size - n][p + (free[i].size - n) := n]
    ensures Chain(ptr, size', Take(free, i, n), free[0].addr)
  {
    var e := free[0].addr;
    var r := Seg(free[i].addr, free[i].size - n);
    var below, above := free[..i], free[i + 1..];
    Neighbours(ptr, size, free, i);
    OrderedAt(free, i);
    ChainFrame(ptr, size, ptr, size', below, free[i].addr);
    ChainFrame(ptr, size, ptr, size', above, e);
    var rest := [r] + above;
    assert rest[1..] == above;
    ChainSplit(ptr, size', below, rest, e);
    assert Take(free, i, n) == below + rest;
  }

  function PlaceOf(free: seq<Seg>, bp: nat): (k: nat)
    requires free != []
    ensures k < |free|
  {
    Position(free, bp, |free| - 1)
  }

  lemma PlaceIsBelow(free: seq<Seg>, live: map<nat, nat>, granted: seq<Seg>, bp: nat)
    requires HeapOk(free, live, granted) && bp in live
    ensures var k := PlaceOf(free, bp);
            free[k].addr < bp && forall j :: k < j < |free| ==> bp <= free[j].addr
  {
    OrderedMeans(free);
    PositionIsBelow(free, bp, |free| - 1);
  }

  lemma GrowListed(base: nat, ptr: map<nat, nat>, size: map<nat, nat>, freep: nat, free: seq<Seg>, live: map<nat, nat>,
                   granted: seq<Seg>, r: nat, n: nat)
    requires Listed(base, ptr, size, freep, free, live, granted) && n > 0 && r > base
    requires forall u: nat :: Covers(granted, u) ==> u < r
    ensures Listed(base, ptr, size[r := n], freep, free, live[r := n], granted + [Seg(r, n)]) && r !in live
  {
    GrowKeepsHeap(free, live, granted, r, n);
    assert ApartFromAll(HeapSpec.Live(live[r := n], r), free);
    ChainFrame(ptr, size, ptr, size[r := n], free, base);
  }

  lemma GrowBelow(granted: seq<Seg>, r: nat, n: nat, brk: nat)
    requires r >= brk && forall u: nat :: Covers(granted, u) ==> u < brk
    ensures forall u: nat :: Covers(granted + [Seg(r, n)], u) ==> u < r + n
  {
    forall u: nat | Covers(granted + [Seg(r, n)], u)
      ensures u < r + n
    {
      CoversSplit(granted, [Seg(r, n)], u);
      CoversOne(Seg(r, n), u);
    }
  }

  lemma TakeListed(base: nat, ptr: map<nat, nat>, size: map<nat, nat>, freep: nat, free: seq<Seg>, live: map<nat, nat>,
                   granted: seq<Seg>, i: nat, n: nat, ptr': map<nat, nat>, size': map<nat, nat>)
    requires Listed(base, ptr, size, freep, free, live, granted) && 1 <= i < |free| && 0 < n <= free[i].size
    requires var t := Taken(free, i, n).addr;
             && Chain(ptr', size', Take(free, i, n), base) && t in size' && size'[t] == n
             && forall a :: a in size && a != free[i].addr && a != t ==> a in size' && size'[a] == size[a]
    ensures var t := Taken(free, i, n).addr;
            && t !in live && (forall b :: b in live ==> Apart(HeapSpec.Live(live, b), Seg(t, n)))
            && Listed(base, ptr', size', free[i - 1].addr, Take(free, i, n), live[t := n], granted)
  {
    TakeKeepsHeap(free, live, granted, i, n);
    forall b | b in live
      ensures b != free[i].addr
    {
      assert ApartFromAll(HeapSpec.Live(live, b), free);
    }
    assert Take(free, i, n)[i - 1].addr == free[i - 1].addr;
    assert Take(free, i, n)[0] == free[0];
  }

  /** G is the list F, or, if no block of F fits, F with one region from sbrk merged in. */
  ghost predicate Source(F: seq<Seg>, granted: seq<Seg>, n: nat, sbrkOk: bool, region: nat, G: seq<Seg>,
                         granted': seq<Seg>)
    requires F != []
  {
    || (G == F && granted' == granted)
    || (&& sbrkOk && NoneFits(F, n)
        && G == Merge(F, PlaceOf(F, region), Seg(region, AtLeastMin(n)))
        && granted' == granted + [Seg(region, AtLeastMin(n))])
  }

  lemma PutAndRemove(m: map<nat, nat>, k: nat, v: nat)
    requires k !in m
    ensures m[k := v] - {k} == m
  {
  }

  class Heap {
    const base: nat
    var ptr: map<nat, nat>    // s.ptr of the header at an address
    var size: map<nat, nat>   // s.size
    var freep: nat
    ghost var free: seq<Seg>
    ghost var live: map<nat, nat>
    ghost var granted: seq<Seg>
    ghost var brk: nat        // every granted unit lies below

    ghost predicate Valid()
      reads this
    {
      && 0 < base < brk && (forall u: nat :: Covers(granted, u) ==> u < brk)
      && if freep == 0 then free == [] && live == map[] && granted == []
         else Listed(base, ptr, size, freep, free, live, granted)
    }

    constructor (base: nat, brk: nat)
      requires 0 < base < brk
      ensures Valid() && this.base == base && this.brk == brk && freep == 0
    {
      this.base, this.brk := base, brk;
      ptr, size, freep := map[], map[], 0;
      free, live, granted := [], map[], [];
    }

    method FindPlace(bp: nat, ghost k: nat) returns (p: nat)
      requires FreeListOk(free) && Chain(ptr, size, free, free[0].addr) && k < |free|
      requires exists f :: 0 <= f < |free| && free[f].addr == freep
      requires free[k].addr < bp && forall j :: k < j < |free| ==> bp <= free[j].addr
      requires forall j :: 0 <= j < |free| ==> bp != free[j].addr
      ensures p == free[k].addr
    {
      p := freep;
      ghost var i :| 0 <= i < |free| && free[i].addr == freep;
      SearchStops(ptr, size, free, k, i, bp);
      while !(bp > p && bp < ptr[p])
        invariant 0 <= i < |free| && p == free[i].addr && p in ptr
        invariant ((bp > p && bp < ptr[p]) || (p >= ptr[p] && (bp > p || bp < ptr[p]))) <==> i == k
        invariant ptr[p] == if i + 1 < |free| then free[i + 1].addr else free[0].addr
        decreases if i <= k then k - i else |free| - i + k
      {
        if p >= ptr[p] && (bp > p || bp < ptr[p]) {
          break;
        }
        p := ptr[p];
        i := if i + 1 < |free| then i + 1 else 0;
        SearchStops(ptr, size, free, k, i, bp);
      }
    }

    /** free(), first half: bp takes over the successor of p, coalescing if it touches it. */
    method RelinkUp(p: nat, bp: nat, ghost k: nat)
      requires k < |free| && p == free[k].addr && bp in size && Fits(free, k, Seg(bp, size[bp]))
      requires Chain(ptr, size, free, free[0].addr)
      modifies this`ptr, this`size
      ensures Chain(ptr, size, Join(Seg(bp, old(size[bp])), free[k + 1..]), free[0].addr)
      ensures bp in ptr && bp in size && ptr == old(ptr)[bp := ptr[bp]] && size == old(size)[bp := size[bp]]
    {
      ghost var s := Seg(bp, size[bp]);
      Neighbours(ptr, size, free, k);
      var next := ptr[p];
      if bp + size[bp] == next {
        assert next == free[k + 1].addr;
        size, ptr := size[bp := size[bp] + size[next]], ptr[bp := ptr[next]];
      } else {
        ptr := ptr[bp := next];
      }
      LinkUp(old(ptr), old(size), free, k, s, ptr, size);
    }

    /** free(), second half: p links to bp, coalescing if bp touches it. */
    method RelinkDown(p: nat, bp: nat, ghost k: nat, ghost up: seq<Seg>)
      requires k < |free| && p == free[k].addr && p in size && size[p] == free[k].size
      requires up != [] && up[0].addr == bp && bp in ptr && bp in size && Chain(ptr, size, up, free[0].addr)
      requires forall i :: 0 <= i < |up| ==> up[i].addr != p
      modifies this`ptr, this`size
      ensures Chain(ptr, size, Join(free[k], up), free[0].addr)
      ensures p in ptr && p in size && ptr == old(ptr)[p := ptr[p]] && size == old(size)[p := size[p]]
    {
      if p + size[p] == bp {
        size, ptr := size[p := size[p] + size[bp]], ptr[p := ptr[bp]];
      } else {
        ptr := ptr[p := bp];
      }
      LinkDown(old(ptr), old(size), free, k, up, ptr, size);
    }

    method Relink(p: nat, bp: nat, ghost k: nat)
      requires k < |free| && p == free[k].addr && bp in size && Fits(free, k, Seg(bp, size[bp]))
      requires Chain(ptr, size, free, free[0].addr)
      modifies this`ptr, this`size
      ensures Chain(ptr, size, Merge(free, k, Seg(bp, old(size[bp]))), free[0].addr)
      ensures forall a :: a in old(size) && a != bp && a != p ==> a in size && size[a] == old(size)[a]
    {
      ghost var s := Seg(bp, size[bp]);
      Neighbours(ptr, size, free, k);
      JoinAbove(free, k, s);
      RelinkUp(p, bp, k);
      RelinkDown(p, bp, k, Join(s, free[k + 1..]));
      LinkBelow(old(ptr), old(size), free, k, s, ptr, size);
    }

    /** free() with the block's place in the list named. */
    method Release(bp: nat, ghost k: nat)
      requires Listed(base, ptr, size, freep, free, live, granted) && bp in live && k < |free|
      requires free[k].addr < bp && forall j :: k < j < |free| ==> bp <= free[j].addr
      modifies this`ptr, this`size, this`freep
      ensures Listed(base, ptr, size, freep, Merge(free, k, HeapSpec.Live(live, bp)), live - {bp}, granted)
      ensures freep != 0
    {
      ghost var s := HeapSpec.Live(live, bp);
      assert ApartFromAll(s, free);
      assert Fits(free, k, s);
      Neighbours(ptr, size, free, k);
      var p := FindPlace(bp, k);
      Relink(p, bp, k);
      FreeListed(base, old(ptr), old(size), freep, free, live, granted, k, bp, ptr, size);
      freep := p;
    }

    /** free() of a block that malloc returned and that was not freed since. */
    method Free(ap: nat)
      requires Valid() && freep != 0 && ap > 0 && ap - 1 in live
      modifies this`ptr, this`size, this`freep, this`free, this`live
      ensures Valid() && freep != 0
      ensures free == Merge(old(free), PlaceOf(old(free), ap - 1), HeapSpec.Live(old(live), ap - 1))
      ensures live == old(live) - {ap - 1}
    {
      var bp := ap - 1;
      ghost var k := PlaceOf(free, bp);
      PlaceIsBelow(free, live, granted, bp);
      Release(bp, k);
      free, live := Merge(free, k, HeapSpec.Live(live, bp)), live - {bp};
    }

    /** The header that morecore writes makes the new region a live block. */
    method Adopt(region: nat, units: nat)
      requires Valid() && freep != 0 && units > 0 && region >= brk
      modifies this`size, this`live, this`granted, this`brk
      ensures Valid() && region !in old(live) && live == old(live)[region := units]
      ensures granted == old(granted) + [Seg(region, units)]
    {
      GrowListed(base, ptr, size, freep, free, live, granted, region, units);
      GrowBelow(granted, region, units, brk);
      size := size[region := units];
      live, granted, brk := live[region := units], granted + [Seg(region, units)], region + units;
    }

    /** A region from sbrk is made a block and freed. */
    method AddCore(region: nat, units: nat)
      requires Valid() && freep != 0 && units > 0 && region >= brk
      modifies this`ptr, this`size, this`freep, this`free, this`live, this`granted, this`brk
      ensures Valid() && freep != 0 && live == old(live)
      ensures free == Merge(old(free), PlaceOf(old(free), region), Seg(region, units))
      ensures granted == old(granted) + [Seg(region, units)]
    {
      Adopt(region, units);
      ghost var free0, k, s := free, PlaceOf(free, region), HeapSpec.Live(live, region);
      assert s == Seg(region, units);
      Free(region + 1);
      assert free == Merge(free0, k, s);
      PutAndRemove(old(live), region, units);
    }

    /** morecore(): `sbrkOk` and `region` are what sbrk answers; the region starts at the old break. */
    method Morecore(nu: nat, sbrkOk: bool, region: nat) returns (p: nat)
      requires Valid() && freep != 0 && nu > 0 && (sbrkOk ==> region >= brk)
      modifies this`ptr, this`size, this`freep, this`free, this`live, this`granted, this`brk
      ensures Valid() && freep != 0 && live == old(live)
      ensures !sbrkOk ==> p == 0 && free == old(free) && freep == old(freep) && granted == old(granted)
      ensures sbrkOk ==>
                var s := Seg(region, AtLeastMin(nu));
                p == freep && free == Merge(old(free), PlaceOf(old(free), region), s) && granted == old(granted) + [s]
    {
      var units := if nu < MIN_UNITS then MIN_UNITS else nu;
      if !sbrkOk {
        return 0;
      }
      AddCore(region, units);
      p := freep;
    }

    /** Cuts n units off block i: all of it, or its upper end. */
    method Cut(p: nat, prevp: nat, n: nat, ghost i: nat) returns (t: nat)
      requires FreeListOk(free) && Chain(ptr, size, free, free[0].addr)
      requires 1 <= i < |free| && p == free[i].addr && prevp == free[i - 1].addr && 0 < n <= free[i].size
      modifies this`ptr, this`size
      ensures t == Taken(free, i, n).addr && prevp > 0
      ensures Chain(ptr, size, Take(free, i, n), free[0].addr) && t in size && size[t] == n
      ensures forall a :: a in old(size) && a != p && a != t ==> a in size && size[a] == old(size)[a]
    {
      Neighbours(ptr, size, free, i);
      Neighbours(ptr, size, free, i - 1);
      t := p;
      if size[p] == n {
        ptr := ptr[prevp := ptr[p]];
        TakeAll(old(ptr), size, free, i, ptr);
      } else {
        size := size[p := size[p] - n];
        t := p + size[p];
        size := size[t := n];
        TakePart(ptr, old(size), free, i, n, size);
      }
    }

    method TakeBlock(p: nat, prevp: nat, n: nat, ghost i: nat) returns (r: nat)
      requires Valid() && freep != 0
      requires 1 <= i < |free| && p == free[i].addr && prevp == free[i - 1].addr && 0 < n <= free[i].size
      modifies this`ptr, this`size, this`freep, this`free, this`live
      ensures Valid() && freep != 0
      ensures r == Taken(old(free), i, n).addr + 1
      ensures free == Take(old(free), i, n) && live == old(live)[r - 1 := n]
      ensures r - 1 !in old(live) && forall b :: b in old(live) ==> Apart(HeapSpec.Live(old(live), b), Seg(r - 1, n))
    {
      var t := Cut(p, prevp, n, i);
      TakeListed(base, old(ptr), old(size), freep, free, live, granted, i, n, ptr, size);
      freep := prevp;
      free, live := Take(free, i, n), live[t := n];
      return t + 1;
    }

    /** The first call makes the list: base alone, linked to itself. */
    method Init()
      requires Valid()
      modifies this`ptr, this`size, this`freep, this`free
      ensures Valid() && freep != 0
      ensures free == if old(freep) == 0 then [Seg(base, 0)] else old(free)
    {
      if freep == 0 {
        ptr, size, freep := ptr[base := base], size[base := 0], base;
        free := [Seg(base, 0)];
        assert Listed(base, ptr, size, freep, free, live, granted);
      }
    }

    /** The loop came round to freep: more core, after which some block is large enough. */
    method Refill(n: nat, sbrkOk: bool, region: nat) returns (p: nat, ghost f: nat)
      requires Valid() && freep != 0 && n > 0 && (sbrkOk ==> region >= brk) && NoneFits(free, n)
      modifies this`ptr, this`size, this`freep, this`free, this`live, this`granted, this`brk
      ensures Valid() && freep != 0 && live == old(live)
      ensures Source(old(free), old(granted), n, sbrkOk, region, free, granted)
      ensures p == 0 ==> !sbrkOk && free == old(free) && granted == old(granted)
      ensures p != 0 ==> p == freep && f < |free| && free[f].addr == p && !NoneFits(free, n)
    {
      f := 0;
      p := Morecore(n, sbrkOk, region);
      if p != 0 {
        ghost var g := MergeFits(old(free), PlaceOf(old(free), region), Seg(region, AtLeastMin(n)));
        f :| 0 <= f < |free| && free[f].addr == freep;
      }
    }

    ghost predicate At(p: nat, prevp: nat, i: nat)
      reads this
    {
      && i < |free| && p == free[i].addr && p > 0 && p in size && size[p] == free[i].size
      && p in ptr && ptr[p] == free[Next(free, i)].addr
      && (i > 0 ==> prevp == free[i - 1].addr)
    }

    lemma StepTo(i: nat)
      requires Valid() && freep != 0 && i < |free|
      ensures At(free[Next(free, i)].addr, free[i].addr, Next(free, i))
      ensures At(free[i].addr, if i > 0 then free[i - 1].addr else 0, i)
    {
      Neighbours(ptr, size, free, i);
      Neighbours(ptr, size, free, Next(free, i));
    }

    /** One pass of malloc()'s loop over a block that is too small: to the next one, or back at freep for more core. */
    method Advance(n: nat, sbrkOk: bool, region: nat, p: nat, prevp: nat, ghost i: nat, ghost f: nat)
      returns (p': nat, prevp': nat, ghost i': nat, ghost f': nat, ghost grew: bool)
      requires Valid() && freep != 0 && n > 0 && (sbrkOk && NoneFits(free, n) ==> region >= brk)
      requires f < |free| && free[f].addr == freep && At(p, prevp, i) && TooSmall(free, f, i, n) && size[p] < n
      modifies this`ptr, this`size, this`freep, this`free, this`live, this`granted, this`brk
      ensures Valid() && freep != 0 && live == old(live) && grew == (i == f)
      ensures !grew ==>
          free == old(free) && granted == old(granted) && brk == old(brk) && f' == f && i' == Next(free, i)
      ensures grew ==> NoneFits(old(free), n) && Source(old(free), old(granted), n, sbrkOk, region, free, granted)
      ensures grew ==> if p' == 0 then !sbrkOk && free == old(free) && granted == old(granted) else !NoneFits(free, n)
      ensures p' == 0 ==> grew
      ensures p' != 0 ==> f' < |free| && free[f'].addr == freep && At(p', prevp', i') && TooSmall(free, f', i', n)
    {
      StepPast(free, f, i, n);
      p', prevp', i', f', grew := p, prevp, i, f, false;
      if p == freep {
        SameAddress(free, i, f);
        grew := true;
        p', f' := Refill(n, sbrkOk, region);
        if p' == 0 {
          return;
        }
        i' := f';
      }
      StepTo(i');
      prevp', p' := p', ptr[p'];
      i' := Next(free, i');
    }

    /** malloc()'s loop: the first block from freep on that is large enough, or p == 0. */
    method Search(n: nat, sbrkOk: bool, region: nat) returns (p: nat, prevp: nat, ghost i: nat)
      requires Valid() && freep != 0 && n > 0 && (sbrkOk ==> region >= brk)
      modifies this`ptr, this`size, this`freep, this`free, this`live, this`granted, this`brk
      ensures Valid() && freep != 0 && live == old(live)
      ensures Source(old(free), old(granted), n, sbrkOk, region, free, granted)
      ensures p == 0 ==> !sbrkOk && NoneFits(free, n) && granted == old(granted)
      ensures p != 0 ==> 1 <= i < |free| && p == free[i].addr && prevp == free[i - 1].addr && n <= free[i].size
    {
      ghost var f: nat :| f < |free| && free[f].addr == freep;
      ghost var grown := false;
      StepTo(f);
      prevp := freep;
      p := ptr[prevp];
      i := Next(free, f);
      while size[p] < n
        invariant Valid() && freep != 0 && live == old(live)
        invariant f < |free| && free[f].addr == freep && At(p, prevp, i) && TooSmall(free, f, i, n)
        invariant if grown then !NoneFits(free, n) else free == old(free) && granted == old(granted) && brk == old(brk)
        invariant Source(old(free), old(granted), n, sbrkOk, region, free, granted)
        decreases if grown then 0 else 1, if i <= f then f - i else |free| - i + f
      {
        ghost var grew;
        p, prevp, i, f, grew := Advance(n, sbrkOk, region, p, prevp, i, f);
        if p == 0 {
          return;
        }
        grown := grown || grew;
      }
    }

    /**
      malloc(), with sbrk's answer should it be asked. G is the list it allocates from: the one
      it found, or that list with one new region merged in, and only if nothing in it fits. The
      region that sbrk gives must be the one that malloc takes it for, which SbrkGetsTheSize says
      when; a request that fits what is free needs no such region.
     */
    method Malloc(nbytes: Word, sbrkOk: bool, region: nat) returns (r: nat, ghost G: seq<Seg>, ghost i: nat)
      requires Valid() && (sbrkOk ==> region >= brk)
      requires sbrkOk && NoneFits(if freep == 0 then [Seg(base, 0)] else free, Units(nbytes)) ==>
                 SbrkArgument(AtLeastMin(Units(nbytes))) == AtLeastMin(Units(nbytes)) * HEADER
      modifies this
      ensures Valid() && freep != 0
      ensures Source(if old(freep) == 0 then [Seg(base, 0)] else old(free), old(granted), Units(nbytes),
                     sbrkOk, region, G, granted)
      ensures r == 0 ==>
          !sbrkOk && NoneFits(G, Units(nbytes)) && free == G && live == old(live) && granted == old(granted)
      ensures r != 0 ==>
                && i < |G| && Units(nbytes) <= G[i].size && r == Taken(G, i, Units(nbytes)).addr + 1
                && free == Take(G, i, Units(nbytes)) && live == old(live)[r - 1 := Units(nbytes)]
                && r - 1 !in old(live)
                && forall b :: b in old(live) ==> Apart(HeapSpec.Live(old(live), b), Seg(r - 1, Units(nbytes)))
    {
      var nunits := (nbytes + HEADER - 1) % 0x1_0000_0000 / HEADER + 1;
      Init();
      var p, prevp;
      p, prevp, i := Search(nunits, sbrkOk, region);
      G := free;
      if p == 0 {
        return 0, G, i;
      }
      r := TakeBlock(p, prevp, nunits, i);
    }
  }
}
