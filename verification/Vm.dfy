/**
  kalloc.c and vm.c as they run: the free list of physical pages, and the operations on one
  address space's page tables. Pages are numbered.
 */
module Vm {
  import opened VmSpec

  type Bytes = s: seq<int> | |s| == PGSIZE witness seq(PGSIZE, _ => 0)

  const WU: nat := 7  // PTE_P | PTE_W | PTE_U
  const ZEROS: Bytes := Fill(0, PGSIZE)
  const JUNK: Bytes := Fill(1, PGSIZE)

  function Fill(x: int, n: nat): (r: seq<int>)
    ensures |r| == n
  {
    if n == 0 then [] else Fill(x, n - 1) + [x]
  }

  /** A page directory and the tables below it. */
  class Pgdir {
    const page: nat
    var dir: Dir

    constructor (page: nat)
      ensures this.page == page && (forall v: nat :: v < ENTRIES * ENTRIES ==> Lookup(dir, v) == NoPage)
      ensures forall q: nat :: Owned(page, dir, q) == Is(page, q)
    {
      this.page := page;
      dir := EmptyDir(ENTRIES);
      new;
      forall q: nat
        ensures Owned(page, dir, q) == Is(page, q)
      {
        EmptyOwnsNothing(dir, ENTRIES, q);
      }
    }
  }

  class Kmem {
    const first: nat             // the first page behind the kernel, at or above `end`
    const limit: nat             // PHYSTOP / PGSIZE
    var freelist: nat            // 0 ends the list
    var next: map<nat, nat>      // run.next, in the free page itself
    var mem: map<nat, Bytes>     // what the pages hold
    ghost var free: seq<nat>     // the list from freelist on

    ghost predicate Linked(f: nat, s: seq<nat>)
      reads this`next
      decreases |s|
    {
      if s == [] then f == 0 else f == s[0] > 0 && f in next && Linked(next[f], s[1..])
    }

    /** The pages that kfree takes. */
    predicate Manages(v: nat) {
      first <= v < limit
    }

    /** How often a page may be free or owned: once, and not at all outside the managed memory. */
    function Cap(q: nat): nat {
      if Manages(q) then 1 else 0
    }

    ghost predicate Valid()
      reads this
    {
      first > 0 && Linked(freelist, free) && forall q: nat :: InList(free, q) <= Cap(q)
    }

    constructor (first: nat, limit: nat)
      requires first > 0
      ensures Valid() && free == [] && this.first == first && this.limit == limit
    {
      this.first, this.limit := first, limit;
      freelist, next, mem, free := 0, map[], map[], [];
      new;
    }

    lemma {:induction false} StillLinked(f: nat, s: seq<nat>, old_: map<nat, nat>, v: nat)
      requires v !in s && (forall k :: k in old_ ==> k in next && (k != v ==> next[k] == old_[k]))
      requires LinkedIn(old_, f, s)
      ensures Linked(f, s)
      decreases |s|
    {
      if s != [] {
        StillLinked(old_[f], s[1..], old_, v);
      }
    }

    static ghost predicate LinkedIn(next: map<nat, nat>, f: nat, s: seq<nat>)
      decreases |s|
    {
      if s == [] then f == 0 else f == s[0] > 0 && f in next && LinkedIn(next, next[f], s[1..])
    }

    lemma {:induction false} SameLinked(f: nat, s: seq<nat>)
      ensures Linked(f, s) == LinkedIn(next, f, s)
      decreases |s|
    {
      if s != [] && f in next {
        SameLinked(next[f], s[1..]);
      }
    }

    /** kfree of a page that is not free; one outside the managed memory is a panic. */
    method Kfree(v: nat) returns (ok: bool)
      requires Valid() && v !in free
      modifies this
      ensures Valid() && (ok <==> Manages(v))
      ensures ok ==> free == [v] + old(free) && mem == old(mem)[v := JUNK]
      ensures ok ==> forall q: nat :: InList(free, q) == InList(old(free), q) + Is(v, q)
      ensures !ok ==> free == old(free) && mem == old(mem)
    {
      if v < first || v >= limit {
        return false;
      }
      SameLinked(freelist, free);
      InListHas(free, v);
      ghost var old_ := next;
      mem := mem[v := JUNK];
      next := next[v := freelist];
      StillLinked(freelist, free, old_, v);
      freelist := v;
      free := [v] + free;
      assert free[1..] == old(free);
      ok := true;
    }

    /** kalloc: 0 if the list is empty */
    method Kalloc() returns (r: nat)
      requires Valid()
      modifies this`freelist, this`free
      ensures Valid() && (r == 0 <==> old(free) == [])
      ensures if r == 0 then free == old(free) else old(free) == [r] + free
      ensures r != 0 ==> forall q: nat :: InList(old(free), q) == Is(r, q) + InList(free, q)
    {
      r := freelist;
      if r != 0 {
        freelist := next[r];
        free := free[1..];
        assert forall q: nat :: InList(old(free), q) == Is(r, q) + InList(free, q);
      }
    }

    /** memset(v, 0, PGSIZE) */
    method Clear(v: nat)
      modifies this`mem
      ensures mem == old(mem)[v := ZEROS]
    {
      mem := mem[v := ZEROS];
    }

    /** memmove(v, src, PGSIZE) */
    method Copy(v: nat, src: nat)
      requires src in mem
      modifies this`mem
      ensures mem == old(mem)[v := old(mem)[src]]
    {
      mem := mem[v := mem[src]];
    }

    /** freerange over the pages lo .. hi - 1; a page outside the managed memory is a panic. */
    method Freerange(lo: nat, hi: nat) returns (ok: bool)
      requires Valid() && lo <= hi && forall q: nat :: lo <= q < hi ==> q !in free
      modifies this
      ensures Valid() && (ok <==> forall q: nat :: lo <= q < hi ==> Manages(q))
      ensures ok ==> forall q: nat :: q in free <==> q in old(free) || lo <= q < hi
    {
      var p := lo;
      ok := true;
      while p < hi
        invariant lo <= p <= hi && Valid() && ok && forall q: nat :: lo <= q < p ==> Manages(q)
        invariant forall q: nat :: q in free <==> q in old(free) || lo <= q < p
      {
        ok := Kfree(p);
        if !ok {
          return;
        }
        p := p + 1;
      }
    }

    // ---------- address spaces ----------

    ghost function TotalOf(pd: Pgdir, q: nat): nat
      reads this, pd
    {
      Total(free, pd.page, pd.dir, q)
    }

    /** Every managed page has one owner at most, and no other page any. */
    ghost predicate Sound(pd: Pgdir)
      reads this, pd
    {
      Valid() && forall q: nat :: TotalOf(pd, q) <= Cap(q)
    }

    /** walkpgdir; with alloc an empty page table is made where there is none. */
    method Walkpgdir(pd: Pgdir, vpn: nat, alloc: bool) returns (ok: bool)
      requires Sound(pd) && vpn < ENTRIES * ENTRIES
      modifies this, pd
      ensures Sound(pd) && ok == pd.dir[vpn / ENTRIES].HasTable?
      ensures SameMaps(pd.dir, old(pd.dir)) && forall q: nat :: TotalOf(pd, q) == old(TotalOf(pd, q))
      ensures !ok || !alloc || old(pd.dir)[vpn / ENTRIES].HasTable? ==>
          pd.dir == old(pd.dir) && free == old(free) && mem == old(mem)
      ensures alloc && !ok ==> free == []
      ensures forall v :: v in old(mem) && old(InList(free, v)) == 0 ==> v in mem && mem[v] == old(mem)[v]
      ensures forall q: nat :: InList(free, q) <= old(InList(free, q))
    {
      if pd.dir[vpn / ENTRIES].HasTable? {
        return true;
      }
      if !alloc {
        return false;
      }
      var t := Kalloc();
      if t == 0 {
        return false;
      }
      Clear(t);
      ghost var dir0 := pd.dir;
      pd.dir := NewTable(pd.dir, vpn, t);
      forall q: nat
        ensures TotalOf(pd, q) == old(TotalOf(pd, q))
      {
        NewTableOwns(pd.page, dir0, vpn, t, q);
      }
      forall v: nat | v < ENTRIES * ENTRIES
        ensures Lookup(pd.dir, v) == Lookup(dir0, v)
      {
        NewTableAt(dir0, vpn, t, v);
      }
      ok := true;
    }

    /** *pte = pa | perm | PTE_P */
    method SetEntry(pd: Pgdir, vpn: nat, p: Pte)
      requires vpn < ENTRIES * ENTRIES && pd.dir[vpn / ENTRIES].HasTable?
      modifies pd
      ensures forall v: nat :: v < ENTRIES * ENTRIES ==>
          Lookup(pd.dir, v) == if v == vpn then p else Lookup(old(pd.dir), v)
      ensures forall q: nat :: TotalOf(pd, q) + (if vpn < USERPAGES then PageOf(Lookup(old(pd.dir), vpn), q) else 0)
                            == old(TotalOf(pd, q)) + if vpn < USERPAGES then PageOf(p, q) else 0
    {
      ghost var dir0 := pd.dir;
      pd.dir := SetPte(pd.dir, vpn, p);
      forall v: nat | v < ENTRIES * ENTRIES
        ensures Lookup(pd.dir, v) == if v == vpn then p else Lookup(dir0, v)
      {
        SetPteAt(dir0, vpn, p, v);
      }
      forall q: nat
        ensures TotalOf(pd, q) + (if vpn < USERPAGES then PageOf(Lookup(dir0, vpn), q) else 0)
             == Total(free, pd.page, dir0, q) + if vpn < USERPAGES then PageOf(p, q) else 0
      {
        SetPteOwns(pd.page, dir0, vpn, p, q);
      }
    }

    /** Where k pages from ppn on were entered at lo, and nothing else was. */
    static ghost predicate Entered(before: Dir, after: Dir, lo: nat, k: nat, ppn: nat, flags: nat) {
      forall v: nat :: v < ENTRIES * ENTRIES ==>
        Lookup(after, v) == if lo <= v < lo + k then Page(ppn + (v - lo), flags) else Lookup(before, v)
    }

    /** Whether page q is among the k from ppn on that become a user's. */
    static ghost function Entering(lo: nat, ppn: nat, k: nat, q: nat): nat {
      if lo < USERPAGES && ppn <= q < ppn + k then 1 else 0
    }

    /** One pass of mappages: a page table for a if there is none, and the entry. */
    method MapNext(pd: Pgdir, a: nat, pa: nat, flags: nat) returns (ok: bool, remap: bool)
      requires Sound(pd) && a < ENTRIES * ENTRIES && (a < USERPAGES ==> Manages(pa) && TotalOf(pd, pa) == 0)
      modifies this, pd
      ensures Sound(pd) && Entered(old(pd.dir), pd.dir, a, if ok then 1 else 0, pa, flags)
      ensures remap ==> !ok && Lookup(old(pd.dir), a).Page?
      ensures ok ==> Lookup(old(pd.dir), a) == NoPage
      ensures forall q: nat :: TotalOf(pd, q) == old(TotalOf(pd, q)) + if ok && a < USERPAGES then Is(pa, q) else 0
      ensures forall v :: v in old(mem) && old(InList(free, v)) == 0 ==> v in mem && mem[v] == old(mem)[v]
      ensures forall q: nat :: InList(free, q) <= old(InList(free, q))
    {
      remap := false;
      ok := Walkpgdir(pd, a, true);
      if ok {
        if pd.dir[a / ENTRIES].ptes[a % ENTRIES].Page? {
          return false, true;
        }
        assert Lookup(pd.dir, a) == NoPage;
        SetEntry(pd, a, Page(pa, flags));
      }
    }

    /**
      mappages of n pages; the first k are entered, all if it succeeds. User pages become the address
      space's own. It stops short without memory for a page table, or with the panic "remap" at a page
      that is mapped already.
     */
    method Mappages(pd: Pgdir, lo: nat, n: nat, ppn: nat, flags: nat) returns (ok: bool, remap: bool, ghost k: nat)
      requires Sound(pd) && n > 0 && lo + n <= ENTRIES * ENTRIES && (lo + n <= USERPAGES || lo >= USERPAGES)
      requires lo < USERPAGES ==> forall q: nat :: ppn <= q < ppn + n ==> Manages(q) && TotalOf(pd, q) == 0
      modifies this, pd
      ensures Sound(pd) && k <= n && ok == (k == n) && Entered(old(pd.dir), pd.dir, lo, k, ppn, flags)
      ensures NoneMapped(old(pd.dir), lo, lo + k)
      ensures remap ==> !ok && Lookup(old(pd.dir), lo + k).Page?
      ensures forall q: nat :: TotalOf(pd, q) == old(TotalOf(pd, q)) + Entering(lo, ppn, k, q)
      ensures forall v :: v in old(mem) && old(InList(free, v)) == 0 ==> v in mem && mem[v] == old(mem)[v]
      ensures forall q: nat :: InList(free, q) <= old(InList(free, q))
    {
      k, remap := 0, false;
      var a, last, pa := lo, lo + n - 1, ppn;
      while true
        invariant k < n && a == lo + k && pa == ppn + k && last == lo + n - 1 && !remap
        invariant Sound(pd) && Entered(old(pd.dir), pd.dir, lo, k, ppn, flags) && NoneMapped(old(pd.dir), lo, a)
        invariant forall q: nat :: TotalOf(pd, q) == old(TotalOf(pd, q)) + Entering(lo, ppn, k, q)
        invariant forall v :: v in old(mem) && old(InList(free, v)) == 0 ==> v in mem && mem[v] == old(mem)[v]
        invariant forall q: nat :: InList(free, q) <= old(InList(free, q))
        decreases n - k
      {
        ghost var dir1 := pd.dir;
        ok, remap := MapNext(pd, a, pa, flags);
        if !ok {
          return;
        }
        EnteredMore(old(pd.dir), dir1, pd.dir, lo, k, ppn, flags, a, pa);
        k := k + 1;
        if a == last {
          return;
        }
        a := a + 1;
        pa := pa + 1;
      }
    }

    /** mappages of one page of memory that nobody owns, where nothing is mapped. */
    method MapOne(pd: Pgdir, v: nat, page: nat, flags: nat) returns (ok: bool)
      requires Sound(pd) && v < USERPAGES && Lookup(pd.dir, v) == NoPage && Manages(page) && TotalOf(pd, page) == 0
      modifies this, pd
      ensures Sound(pd) && if ok then Entered(old(pd.dir), pd.dir, v, 1, page, flags) else SameMaps(pd.dir, old(pd.dir))
      ensures forall q: nat :: TotalOf(pd, q) == old(TotalOf(pd, q)) + if ok then Is(page, q) else 0
      ensures forall v :: v in old(mem) && old(InList(free, v)) == 0 ==> v in mem && mem[v] == old(mem)[v]
      ensures forall q: nat :: InList(free, q) <= old(InList(free, q))
    {
      var remap;
      ghost var k;
      ok, remap, k := Mappages(pd, v, 1, page, flags);
      assert k == if ok then 1 else 0;
      forall q: nat
        ensures TotalOf(pd, q) == old(TotalOf(pd, q)) + if ok then Is(page, q) else 0
      {
        assert page <= q < page + k <==> ok && q == page;
      }
    }

    /** One more page entered. */
    static lemma EnteredMore(d0: Dir, d1: Dir, d2: Dir, lo: nat, k: nat, ppn: nat, flags: nat, a: nat, pa: nat)
      requires Entered(d0, d1, lo, k, ppn, flags) && a == lo + k < ENTRIES * ENTRIES && pa == ppn + k
      requires Entered(d1, d2, a, 1, pa, flags) && NoneMapped(d0, lo, a) && Lookup(d1, a) == NoPage
      ensures Entered(d0, d2, lo, k + 1, ppn, flags) && NoneMapped(d0, lo, a + 1)
    {
      assert Lookup(d1, a) == Lookup(d0, a);
      forall v: nat | v < ENTRIES * ENTRIES
        ensures Lookup(d2, v) == if lo <= v < lo + k + 1 then Page(ppn + (v - lo), flags) else Lookup(d0, v)
      {
        assert Lookup(d2, v) == if v == a then Page(pa, flags) else Lookup(d1, v);
      }
    }

    ghost predicate Kept(before: map<nat, Bytes>, keep: set<nat>)
      reads this
    {
      forall p :: p in keep && p in before ==> p in mem && mem[p] == before[p]
    }

    /** Nothing in `keep` is mapped between lo and hi. */
    static ghost predicate Spared(dir: Dir, lo: nat, hi: nat, keep: set<nat>) {
      forall v: nat :: lo <= v < hi && v < ENTRIES * ENTRIES && Lookup(dir, v).Page? ==> Lookup(dir, v).page !in keep
    }

    /** kfree of what is mapped at page v, which does not panic, and *pte = 0 */
    method Unmap(pd: Pgdir, v: nat, ghost keep: set<nat>)
      requires Sound(pd) && v < USERPAGES && Lookup(pd.dir, v).Page? && Lookup(pd.dir, v).page !in keep
      modifies this, pd
      ensures Sound(pd) && forall q: nat :: TotalOf(pd, q) == old(TotalOf(pd, q))
      ensures forall u: nat :: u < ENTRIES * ENTRIES ==>
          Lookup(pd.dir, u) == if u == v then NoPage else Lookup(old(pd.dir), u)
      ensures Kept(old(mem), keep)
    {
      ghost var p := Lookup(pd.dir, v).page;
      LookupOwned(pd.page, pd.dir, v, p);
      InListHas(free, p);
      assert TotalOf(pd, p) <= Cap(p);
      var e := pd.dir[v / ENTRIES];
      var pa := e.ptes[v % ENTRIES].page;
      var freed := Kfree(pa);
      assert freed;
      SetEntry(pd, v, NoPage);
    }

    /** deallocuvm from oldsz down to newsz; where there is no page table the loop skips to the next one. */
    method Deallocuvm(pd: Pgdir, oldsz: nat, newsz: nat, ghost keep: set<nat>) returns (r: nat)
      requires Sound(pd) && oldsz <= KERNBASE && Spared(pd.dir, RoundUp(newsz), RoundUp(oldsz), keep)
      modifies this, pd
      ensures Sound(pd) && r == (if newsz >= oldsz then oldsz else newsz)
      ensures forall q: nat :: TotalOf(pd, q) == old(TotalOf(pd, q))
      ensures newsz < oldsz ==>
          SameOutside(pd.dir, old(pd.dir), RoundUp(newsz), RoundUp(oldsz))
          && NoneMapped(pd.dir, RoundUp(newsz), RoundUp(oldsz))
      ensures newsz >= oldsz ==> pd.dir == old(pd.dir) && free == old(free)
      ensures Kept(old(mem), keep)
    {
      if newsz >= oldsz {
        return oldsz;
      }
      var v := RoundUp(newsz);
      ghost var hi := RoundUp(oldsz);
      while v * PGSIZE < oldsz
        invariant RoundUp(newsz) <= v && Sound(pd) && Kept(old(mem), keep)
        invariant forall q: nat :: TotalOf(pd, q) == old(TotalOf(pd, q))
        invariant SameOutside(pd.dir, old(pd.dir), RoundUp(newsz), if v < hi then v else hi)
        invariant NoneMapped(pd.dir, RoundUp(newsz), if v < hi then v else hi)
        decreases oldsz - v * PGSIZE
      {
        PageInUser(v, oldsz, hi);
        if pd.dir[v / ENTRIES].NoTable? {
          SkipTable(pd.dir, v);
          v := (v / ENTRIES + 1) * ENTRIES;
        } else {
          if Lookup(pd.dir, v).Page? {
            assert Lookup(pd.dir, v) == Lookup(old(pd.dir), v);
            Unmap(pd, v, keep);
          }
          v := v + 1;
        }
      }
      r := newsz;
    }

    /** The pages lo .. hi - 1 are mapped, zeroed and writable. */
    static ghost predicate Grown(dir: Dir, mem: map<nat, Bytes>, lo: nat, hi: nat) {
      forall v: nat :: lo <= v < hi && v < ENTRIES * ENTRIES ==>
        Lookup(dir, v).Page? && Lookup(dir, v).flags == WU && Lookup(dir, v).page in mem
        && mem[Lookup(dir, v).page] == ZEROS
    }

    /** Pages that are mapped are not free. */
    lemma GrownIsOwned(pd: Pgdir, lo: nat, hi: nat)
      requires Sound(pd) && hi <= USERPAGES
      ensures forall u: nat :: lo <= u < hi && Lookup(pd.dir, u).Page? ==> InList(free, Lookup(pd.dir, u).page) == 0
    {
      forall u: nat | lo <= u < hi && Lookup(pd.dir, u).Page?
        ensures InList(free, Lookup(pd.dir, u).page) == 0
      {
        LookupOwned(pd.page, pd.dir, u, Lookup(pd.dir, u).page);
        assert TotalOf(pd, Lookup(pd.dir, u).page) <= Cap(Lookup(pd.dir, u).page);
      }
    }

    /** A page from the free list, which then nobody owns. */
    method TakePage(pd: Pgdir) returns (page: nat)
      requires Sound(pd)
      modifies this`freelist, this`free
      ensures Sound(pd) && (page == 0 ==> free == old(free))
      ensures page != 0 ==>
          Manages(page) && TotalOf(pd, page) == 0
          && forall q: nat :: TotalOf(pd, q) + Is(page, q) == old(TotalOf(pd, q))
      ensures page != 0 ==> forall q: nat :: InList(free, q) + Is(page, q) == old(InList(free, q))
    {
      page := Kalloc();
      if page != 0 {
        forall q: nat
          ensures TotalOf(pd, q) + Is(page, q) == old(TotalOf(pd, q)) <= Cap(q)
        {
          assert InList(old(free), q) == Is(page, q) + InList(free, q);
        }
        assert TotalOf(pd, page) + Is(page, page) <= Cap(page);
      }
    }

    /** Giving a page back that nobody owns. */
    method GiveBack(pd: Pgdir, page: nat)
      requires Sound(pd) && Manages(page) && TotalOf(pd, page) == 0
      modifies this
      ensures Sound(pd) && forall q: nat :: TotalOf(pd, q) == old(TotalOf(pd, q)) + Is(page, q)
      ensures forall q: nat :: InList(free, q) == old(InList(free, q)) + Is(page, q)
      ensures mem == old(mem)[page := JUNK]
    {
      InListHas(free, page);
      ghost var free0 := free;
      forall q: nat
        ensures Total(free0, pd.page, pd.dir, q) + Is(page, q) <= Cap(q)
      {
        assert TotalOf(pd, q) <= Cap(q);
      }
      var freed := Kfree(page);
      forall q: nat
        ensures TotalOf(pd, q) == Total(free0, pd.page, pd.dir, q) + Is(page, q) <= Cap(q)
      {
        assert InList(free, q) == InList(free0, q) + Is(page, q);
      }
    }

    ghost predicate Frame(before: map<nat, Bytes>, freeBefore: seq<nat>)
      reads this
    {
      forall p :: p in before && InList(freeBefore, p) == 0 ==> p in mem && mem[p] == before[p]
    }

    /** A page that is held, not owned; 0 is none. */
    static ghost function Held(held: nat, q: nat): nat {
      if held == 0 then 0 else Is(held, q)
    }

    /** One pass of allocuvm's loop: a zeroed page at v, or nothing but perhaps a new page table and a page in hand. */
    method GrowPage(pd: Pgdir, v: nat) returns (ok: bool, held: nat, ghost page: nat)
      requires Sound(pd) && v < USERPAGES && Lookup(pd.dir, v) == NoPage
      modifies this, pd
      ensures Sound(pd) && forall q: nat :: TotalOf(pd, q) + Held(held, q) == old(TotalOf(pd, q))
      ensures ok ==>
          held == 0 && Entered(old(pd.dir), pd.dir, v, 1, page, WU) && page in mem && mem[page] == ZEROS
          && InList(old(free), page) > 0
      ensures !ok ==> SameMaps(pd.dir, old(pd.dir))
      ensures held != 0 ==> Manages(held) && TotalOf(pd, held) == 0 && InList(old(free), held) > 0
      ensures Frame(old(mem), old(free)) && forall q: nat :: InList(free, q) <= old(InList(free, q))
    {
      var mem0 := TakePage(pd);
      page := mem0;
      if mem0 == 0 {
        return false, 0, 0;
      }
      Clear(mem0);
      ok := MapOne(pd, v, mem0, WU);
      held := if ok then 0 else mem0;
    }

    /** The same, with what it means for the pages mapped before and for those in `keep`. */
    method GrowOne(pd: Pgdir, v: nat, ghost lo: nat, ghost keep: set<nat>) returns (ok: bool, held: nat)
      requires Sound(pd) && lo <= v < USERPAGES && Lookup(pd.dir, v) == NoPage && Grown(pd.dir, mem, lo, v)
      requires Spared(pd.dir, lo, v, keep)
      requires forall p: nat :: p in keep ==> InList(free, p) == 0
      modifies this, pd
      ensures Sound(pd) && forall q: nat :: TotalOf(pd, q) + Held(held, q) == old(TotalOf(pd, q))
      ensures ok ==>
          held == 0 && SameOutside(pd.dir, old(pd.dir), v, v + 1) && Grown(pd.dir, mem, lo, v + 1)
          && Spared(pd.dir, lo, v + 1, keep)
      ensures !ok ==> SameMaps(pd.dir, old(pd.dir))
      ensures held != 0 ==> Manages(held) && TotalOf(pd, held) == 0 && held !in keep
      ensures Kept(old(mem), keep) && forall p: nat :: p in keep ==> InList(free, p) == 0
    {
      GrownIsOwned(pd, lo, v);
      ghost var page;
      ok, held, page := GrowPage(pd, v);
      if ok {
        GrownMore(old(pd.dir), old(mem), old(free), pd.dir, mem, lo, v, page);
      }
    }

    /**
      allocuvm. On success the pages from the old size up are mapped, zeroed; on failure the mappings
      are as they were, though page tables may have been added. Either way every
      page is still free or owned once, and pages that were in use keep their contents.
     */
    method Allocuvm(pd: Pgdir, oldsz: nat, newsz: nat) returns (r: nat)
      requires Sound(pd) && oldsz <= KERNBASE && NoneMapped(pd.dir, RoundUp(oldsz), USERPAGES)
      modifies this, pd
      ensures Sound(pd) && forall q: nat :: TotalOf(pd, q) == old(TotalOf(pd, q))
      ensures r == 0 || r == if newsz < oldsz then oldsz else newsz
      ensures newsz >= KERNBASE ==> r == 0
      ensures newsz >= KERNBASE || newsz < oldsz ==> pd.dir == old(pd.dir) && free == old(free)
      ensures r != 0 && newsz >= oldsz ==>
          Grown(pd.dir, mem, RoundUp(oldsz), RoundUp(newsz))
          && SameOutside(pd.dir, old(pd.dir), RoundUp(oldsz), RoundUp(newsz))
      ensures r == 0 ==> SameMaps(pd.dir, old(pd.dir))
      ensures Frame(old(mem), old(free))
    {
      if newsz >= KERNBASE {
        return 0;
      }
      if newsz < oldsz {
        return oldsz;
      }
      r := GrowTo(pd, oldsz, newsz);
    }

    /** The pages from lo to v are new, and those in `keep` are in use as before. */
    ghost predicate Growing(pd: Pgdir, before: map<nat, Bytes>, dir0: Dir, lo: nat, v: nat, keep: set<nat>)
      reads this, pd
    {
      && Sound(pd) && SameOutside(pd.dir, dir0, lo, v) && Grown(pd.dir, mem, lo, v)
      && Kept(before, keep) && Spared(pd.dir, lo, v, keep) && forall p: nat :: p in keep ==> InList(free, p) == 0
    }

    /** allocuvm's loop */
    method GrowTo(pd: Pgdir, oldsz: nat, newsz: nat) returns (r: nat)
      requires Sound(pd) && oldsz <= newsz < KERNBASE && NoneMapped(pd.dir, RoundUp(oldsz), USERPAGES)
      modifies this, pd
      ensures Sound(pd) && forall q: nat :: TotalOf(pd, q) == old(TotalOf(pd, q))
      ensures r == 0 || r == newsz
      ensures r != 0 ==>
          Grown(pd.dir, mem, RoundUp(oldsz), RoundUp(newsz))
          && SameOutside(pd.dir, old(pd.dir), RoundUp(oldsz), RoundUp(newsz))
      ensures r == 0 ==> SameMaps(pd.dir, old(pd.dir))
      ensures Frame(old(mem), old(free))
    {
      var v := RoundUp(oldsz);
      ghost var lo, hi := RoundUp(oldsz), RoundUp(newsz);
      ghost var keep := set p | p in mem && InList(free, p) == 0;
      RoundUpGrows(oldsz, newsz);
      while v * PGSIZE < newsz
        invariant lo <= v <= hi && forall q: nat :: TotalOf(pd, q) == old(TotalOf(pd, q))
        invariant Growing(pd, old(mem), old(pd.dir), lo, v, keep)
        decreases newsz - v * PGSIZE
      {
        PageInUser(v, newsz, hi);
        assert Lookup(pd.dir, v) == NoPage;
        ghost var dir0 := pd.dir;
        var ok, held := GrowOne(pd, v, lo, keep);
        if !ok {
          Rollback(pd, newsz, oldsz, held, keep, v, dir0);
          RolledBack(old(pd.dir), dir0, pd.dir, lo, v, hi);
          return 0;
        }
        v := v + 1;
      }
      AllCovered(v, newsz);
      r := newsz;
    }

    static lemma RolledBack(d0: Dir, d1: Dir, d2: Dir, lo: nat, v: nat, hi: nat)
      requires NoneMapped(d0, lo, USERPAGES) && SameOutside(d1, d0, lo, v) && lo <= v < hi <= USERPAGES
      requires SameOutside(d2, d1, lo, hi) && NoneMapped(d2, lo, hi)
      ensures SameMaps(d2, d0)
    {
      forall u: nat | u < ENTRIES * ENTRIES
        ensures Lookup(d2, u) == Lookup(d0, u)
      {
        assert lo <= u < hi ==> Lookup(d2, u) == NoPage;
      }
    }

    /** allocuvm's deallocuvm(pgdir, newsz, oldsz) on failure, and the page in hand goes back after it. */
    method Rollback(pd: Pgdir, newsz: nat, oldsz: nat, held: nat, ghost keep: set<nat>, ghost v: nat, ghost dir0: Dir)
      requires Sound(pd) && oldsz <= newsz <= KERNBASE && SameMaps(pd.dir, dir0) && RoundUp(oldsz) <= v < RoundUp(newsz)
      requires NoneMapped(dir0, v, RoundUp(newsz)) && Spared(dir0, RoundUp(oldsz), v, keep)
      requires held != 0 ==> Manages(held) && TotalOf(pd, held) == 0 && held !in keep
      modifies this, pd
      ensures Sound(pd) && forall q: nat :: TotalOf(pd, q) == old(TotalOf(pd, q)) + Held(held, q)
      ensures SameOutside(pd.dir, dir0, RoundUp(oldsz), RoundUp(newsz))
      ensures NoneMapped(pd.dir, RoundUp(oldsz), RoundUp(newsz))
      ensures Kept(old(mem), keep)
    {
      var r := Deallocuvm(pd, newsz, oldsz, keep);
      if held != 0 {
        GiveBack(pd, held);
      }
    }
  }

  lemma GrownMore(d0: Dir, m0: map<nat, Bytes>, free0: seq<nat>, d1: Dir, m1: map<nat, Bytes>, lo: nat, v: nat,
                  page: nat)
    requires lo <= v < USERPAGES && Kmem.Grown(d0, m0, lo, v) && Kmem.Entered(d0, d1, v, 1, page, WU) && page in m1
    requires m1[page] == ZEROS
    requires forall u: nat :: lo <= u < v && Lookup(d0, u).Page? ==> InList(free0, Lookup(d0, u).page) == 0
    requires forall p :: p in m0 && InList(free0, p) == 0 ==> p in m1 && m1[p] == m0[p]
    ensures Kmem.Grown(d1, m1, lo, v + 1)
  {
    forall u: nat | lo <= u < v + 1 && u < ENTRIES * ENTRIES
      ensures Lookup(d1, u).Page? && Lookup(d1, u).flags == WU && Lookup(d1, u).page in m1
      ensures m1[Lookup(d1, u).page] == ZEROS
    {
      if u < v {
        assert Lookup(d1, u) == Lookup(d0, u);
      }
    }
  }

  lemma RoundUpGrows(a: nat, b: nat)
    requires a <= b
    ensures RoundUp(a) <= RoundUp(b)
  {
  }

  lemma AllCovered(v: nat, size: nat)
    requires v * PGSIZE >= size
    ensures RoundUp(size) <= v
  {
  }

  lemma PageInUser(v: nat, oldsz: nat, hi: nat)
    requires v * PGSIZE < oldsz <= KERNBASE && hi == RoundUp(oldsz)
    ensures v < hi <= USERPAGES
  {
  }

  lemma SkipTable(dir: Dir, v: nat)
    requires v < ENTRIES * ENTRIES && dir[v / ENTRIES].NoTable?
    ensures NoneMapped(dir, v, (v / ENTRIES + 1) * ENTRIES) && v < (v / ENTRIES + 1) * ENTRIES
  {
    forall u: nat | v <= u < (v / ENTRIES + 1) * ENTRIES && u < ENTRIES * ENTRIES
      ensures Lookup(dir, u) == NoPage
    {
      assert u / ENTRIES == v / ENTRIES;
    }
  }
}
