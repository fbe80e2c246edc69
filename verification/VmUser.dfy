/**
  Users of an address space: copyout of vm.c, which writes to user memory through the page table, and
  growproc of proc.c, which changes a process's size.
 */
module VmUser {
  import opened Basics
  import opened VmSpec
  import opened Vm
  import opened VmCopy

  /** PTE_U */
  predicate UserFlag(flags: nat) {
    flags / 4 % 2 == 1
  }

  predicate UserPage(dir: Dir, v: nat)
    requires v < ENTRIES * ENTRIES
  {
    Lookup(dir, v).Page? && UserFlag(Lookup(dir, v).flags)
  }

  /** Nothing of the kernel half is open to user code. */
  ghost predicate KernelHidden(dir: Dir) {
    forall v: nat :: USERPAGES <= v < ENTRIES * ENTRIES ==> !UserPage(dir, v)
  }

  ghost predicate Backed(dir: Dir, mem: map<nat, Bytes>) {
    forall v: nat :: v < USERPAGES && Lookup(dir, v).Page? ==> Lookup(dir, v).page in mem
  }

  lemma MappedTwice(page: nat, dir: Dir, u: nat, v: nat, q: nat)
    requires u < USERPAGES && v < USERPAGES && u != v && Lookup(dir, u).Page? && Lookup(dir, v).Page?
    requires Owned(page, dir, q) <= 1 && Lookup(dir, u).page == q
    ensures Lookup(dir, v).page != q
  {
    UserDir(v);
    var d := SetPte(dir, v, NoPage);
    SetPteOwns(page, dir, v, NoPage, q);
    SetPteAt(dir, v, NoPage, u);
    LookupOwned(page, d, u, q);
  }

  /** In a sound address space two user pages are never the same physical page. */
  lemma NoAlias(km: Kmem, pd: Pgdir, u: nat, v: nat)
    requires km.Sound(pd) && u < USERPAGES && v < USERPAGES && u != v && Lookup(pd.dir, u).Page?
    requires Lookup(pd.dir, v).Page?
    ensures Lookup(pd.dir, u).page != Lookup(pd.dir, v).page
  {
    var q := Lookup(pd.dir, u).page;
    assert km.TotalOf(pd, q) <= km.Cap(q);
    MappedTwice(pd.page, pd.dir, u, v, q);
  }

  /** Byte o of virtual page v. */
  function ByteAt(dir: Dir, mem: map<nat, Bytes>, v: nat, o: nat): int
    requires v < USERPAGES && o < PGSIZE && Lookup(dir, v).Page? && Lookup(dir, v).page in mem
  {
    mem[Lookup(dir, v).page][o]
  }

  /**
    Virtual memory differs in the n bytes from va on only, and they are those of buf; pages of others
    are as they were.
   */
  ghost predicate Written(page: nat, dir: Dir, m0: map<nat, Bytes>, m1: map<nat, Bytes>, va: nat, buf: seq<int>, n: nat)
    requires n <= |buf| && Backed(dir, m0) && Backed(dir, m1)
  {
    && (forall v: nat, o: nat :: v < USERPAGES && o < PGSIZE && Lookup(dir, v).Page? ==>
          ByteAt(dir, m1, v, o) == var a := v * PGSIZE + o; if va <= a < va + n then buf[a - va]
            else ByteAt(dir, m0, v, o))
    && (forall p: nat :: p in m0 && Owned(page, dir, p) == 0 ==> p in m1 && m1[p] == m0[p])
  }

  function Patch(s: Bytes, off: nat, x: seq<int>): Bytes
    requires off + |x| <= PGSIZE
  {
    s[..off] + x + s[off + |x|..]
  }

  lemma PatchAt(s: Bytes, off: nat, x: seq<int>, o: nat)
    requires off + |x| <= PGSIZE && o < PGSIZE
    ensures Patch(s, off, x)[o] == if off <= o < off + |x| then x[o - off] else s[o]
  {
  }

  lemma WrittenMore(km: Kmem, pd: Pgdir, m0: map<nat, Bytes>, m1: map<nat, Bytes>, m2: map<nat, Bytes>, va: nat,
                    buf: seq<int>, n: nat, k: nat, v: nat, off: nat)
    requires km.Sound(pd) && n + k <= |buf| && Backed(pd.dir, m0) && Backed(pd.dir, m1)
    requires Written(pd.page, pd.dir, m0, m1, va, buf, n)
    requires v < USERPAGES && Lookup(pd.dir, v).Page? && va + n == v * PGSIZE + off && off < PGSIZE && off + k <= PGSIZE
    requires m2 == m1[Lookup(pd.dir, v).page := Patch(m1[Lookup(pd.dir, v).page], off, buf[n..n + k])]
    ensures Backed(pd.dir, m2) && Written(pd.page, pd.dir, m0, m2, va, buf, n + k)
  {
    var p := Lookup(pd.dir, v).page;
    forall u: nat, o: nat | u < USERPAGES && o < PGSIZE && Lookup(pd.dir, u).Page?
      ensures ByteAt(pd.dir, m2, u, o) == var a := u * PGSIZE + o; if va <= a < va + (n + k) then buf[a - va]
          else ByteAt(pd.dir, m0, u, o)
    {
      assert ByteAt(pd.dir, m1, u, o) == var a := u * PGSIZE + o; if va <= a < va + n then buf[a - va]
        else ByteAt(pd.dir, m0, u, o);
      if u == v {
        PatchAt(m1[p], off, buf[n..n + k], o);
      } else {
        NoAlias(km, pd, u, v);
      }
    }
    forall q: nat | q in m0 && Owned(pd.page, pd.dir, q) == 0
      ensures q in m2 && m2[q] == m0[q]
    {
      LookupOwned(pd.page, pd.dir, v, q);
    }
  }

  predicate HasTable(dir: Dir, v: nat)
    requires v < ENTRIES * ENTRIES
  {
    dir[v / ENTRIES].HasTable?
  }

  /**
    uva2ka: the physical page, or none if user code may not touch it. Without a page table it follows
    walkpgdir's null pointer, to whatever the process has at address 0.
   */
  method Uva2ka(pd: Pgdir, v: nat) returns (p: Pte, followsNull: bool)
    requires v < ENTRIES * ENTRIES
    ensures followsNull <==> !HasTable(pd.dir, v)
    ensures p == if UserPage(pd.dir, v) then Lookup(pd.dir, v) else NoPage
  {
    p, followsNull := NoPage, false;
    if pd.dir[v / ENTRIES].NoTable? {
      followsNull := true;
      return;
    }
    p := pd.dir[v / ENTRIES].ptes[v % ENTRIES];
    if p.NoPage? {
      return NoPage, false;
    }
    if !UserFlag(p.flags) {
      return NoPage, false;
    }
  }

  /** Page v holds one of the bytes va .. va + n - 1. */
  predicate Meets(v: nat, va: nat, n: nat) {
    n > 0 && va / PGSIZE <= v < RoundUp(va + n)
  }

  /** The n bytes from va on are user memory. */
  ghost predicate UserRange(dir: Dir, va: nat, n: nat) {
    forall v: nat :: Meets(v, va, n) ==> v < USERPAGES && UserPage(dir, v)
  }

  lemma PageParts(va: nat)
    ensures va == va / PGSIZE * PGSIZE + va % PGSIZE && va % PGSIZE < PGSIZE
    ensures va < ENTRIES * ENTRIES * PGSIZE ==> va / PGSIZE < ENTRIES * ENTRIES
  {
  }

  /**
    copyout: reading user memory afterwards gives buf at va and what was there before everywhere else. It stops at
    the first page that user code may not touch, with everything before it written, and follows a
    null pointer if that page has no page table.
   */
  method Copyout(km: Kmem, pd: Pgdir, va: nat, buf: seq<int>) returns (ok: bool, followsNull: bool, ghost n: nat)
    requires km.Sound(pd) && va < ENTRIES * ENTRIES * PGSIZE && KernelHidden(pd.dir) && Backed(pd.dir, km.mem)
    modifies km`mem
    ensures n <= |buf| && ok == (n == |buf|) && Backed(pd.dir, km.mem)
    ensures Written(pd.page, pd.dir, old(km.mem), km.mem, va, buf, n)
    ensures UserRange(pd.dir, va, n)
    ensures !ok ==> (va + n) / PGSIZE < ENTRIES * ENTRIES && !UserPage(pd.dir, (va + n) / PGSIZE)
    ensures followsNull <==> !ok && !HasTable(pd.dir, (va + n) / PGSIZE)
  {
    n, followsNull := 0, false;
    var cur, i := va, 0;
    while i < |buf|
      invariant !followsNull && i == n <= |buf| && cur == va + i && cur < ENTRIES * ENTRIES * PGSIZE
      invariant km.Sound(pd) && Backed(pd.dir, km.mem)
      invariant Written(pd.page, pd.dir, old(km.mem), km.mem, va, buf, n)
      invariant UserRange(pd.dir, va, n)
    {
      PageParts(cur);
      var v := cur / PGSIZE;
      var pte;
      pte, followsNull := Uva2ka(pd, v);
      if pte.NoPage? {
        return false, followsNull, i;
      }
      assert UserPage(pd.dir, v) && v < USERPAGES;
      var off := cur % PGSIZE;
      var k := Min(PGSIZE - off, |buf| - i);
      ghost var m1 := km.mem;
      km.mem := km.mem[pte.page := Patch(km.mem[pte.page], off, buf[i..i + k])];
      WrittenMore(km, pd, old(km.mem), m1, km.mem, va, buf, i, k, v, off);
      RangeMore(pd.dir, va, i, k, v, off);
      i := i + k;
      n := i;
      cur := va + i;
    }
    ok := true;
  }

  lemma RangeMore(dir: Dir, va: nat, i: nat, k: nat, v: nat, off: nat)
    requires va + i == v * PGSIZE + off && off + k <= PGSIZE && off < PGSIZE && v < USERPAGES && UserPage(dir, v)
    requires UserRange(dir, va, i)
    ensures UserRange(dir, va, i + k) && va + (i + k) < ENTRIES * ENTRIES * PGSIZE
  {
    forall u: nat | Meets(u, va, i + k)
      ensures u < USERPAGES && UserPage(dir, u)
    {
      if u != v {
        assert Meets(u, va, i);
      }
    }
  }

  // ---------- growproc ----------

  const U32: int := 0x1_0000_0000

  /** All the process's pages are below its size. */
  ghost predicate Sized(dir: Dir, sz: nat) {
    sz < KERNBASE && NoneMapped(dir, RoundUp(sz), USERPAGES)
  }

  /** Page p is mapped between lo and hi. */
  ghost predicate MappedIn(dir: Dir, lo: nat, hi: nat, p: nat)
    requires hi <= USERPAGES
  {
    exists v: nat :: lo <= v < hi && Lookup(dir, v).Page? && Lookup(dir, v).page == p
  }

  /** What is mapped before and after is the same page with the same contents. */
  ghost predicate Stayed(d0: Dir, m0: map<nat, Bytes>, d1: Dir, m1: map<nat, Bytes>) {
    forall v: nat :: v < USERPAGES && Lookup(d0, v).Page? && Lookup(d1, v).Page? ==>
      && Lookup(d1, v) == Lookup(d0, v)
      && (Lookup(d0, v).page in m0 ==> Lookup(d0, v).page in m1 && m1[Lookup(d0, v).page] == m0[Lookup(d0, v).page])
  }

  /** The pages that were neither free nor the address space's keep their contents. */
  ghost predicate OthersStayed(free0: seq<nat>, page: nat, d0: Dir, m0: map<nat, Bytes>, m1: map<nat, Bytes>) {
    forall p: nat :: p in m0 && Total(free0, page, d0, p) == 0 ==> p in m1 && m1[p] == m0[p]
  }

  /** Changes to the size leave the rest of memory alone. */
  ghost predicate Resized(free0: seq<nat>, page: nat, d0: Dir, m0: map<nat, Bytes>, d1: Dir, m1: map<nat, Bytes>) {
    && Stayed(d0, m0, d1, m1) && OthersStayed(free0, page, d0, m0, m1)
    && (Backed(d0, m0) ==> Backed(d1, m1))
    && forall v: nat :: USERPAGES <= v < ENTRIES * ENTRIES ==> Lookup(d1, v) == Lookup(d0, v)
  }

  /** Pages that were mapped and are not free were not touched, and new ones are memory. */
  lemma ExpandedStays(km: Kmem, pd: Pgdir, free0: seq<nat>, d0: Dir, m0: map<nat, Bytes>, lo: nat, hi: nat)
    requires OnceOnly(km, free0, pd.page, d0) && km.Frame(m0, free0) && SameOutside(pd.dir, d0, lo, hi)
    requires NoneMapped(d0, lo, hi) && hi <= USERPAGES && Kmem.Grown(pd.dir, km.mem, lo, hi)
    ensures Resized(free0, pd.page, d0, m0, pd.dir, km.mem)
  {
    forall v: nat | v < USERPAGES && Lookup(d0, v).Page?
      ensures InList(free0, Lookup(d0, v).page) == 0 && Lookup(pd.dir, v) == Lookup(d0, v)
    {
      LookupOwned(pd.page, d0, v, Lookup(d0, v).page);
      assert Total(free0, pd.page, d0, Lookup(d0, v).page) <= km.Cap(Lookup(d0, v).page);
    }
  }

  /** allocuvm, with what it leaves alone. */
  method Expand(km: Kmem, pd: Pgdir, oldsz: nat, newsz: nat) returns (r: nat)
    requires km.Sound(pd) && oldsz < newsz && oldsz <= KERNBASE && NoneMapped(pd.dir, RoundUp(oldsz), USERPAGES)
    modifies km, pd
    ensures km.Sound(pd) && forall q: nat :: km.TotalOf(pd, q) == old(km.TotalOf(pd, q))
    ensures r == 0 || r == newsz < KERNBASE
    ensures r != 0 ==>
        Kmem.Grown(pd.dir, km.mem, RoundUp(oldsz), RoundUp(newsz))
        && SameOutside(pd.dir, old(pd.dir), RoundUp(oldsz), RoundUp(newsz))
    ensures r == 0 ==> SameMaps(pd.dir, old(pd.dir))
    ensures Resized(old(km.free), pd.page, old(pd.dir), old(km.mem), pd.dir, km.mem)
  {
    ghost var free0, d0, m0 := km.free, pd.dir, km.mem;
    OnceOnlyNow(km, pd, free0);
    r := km.Allocuvm(pd, oldsz, newsz);
    RoundUpGrows(oldsz, newsz);
    if r == 0 {
      ExpandedStays(km, pd, free0, d0, m0, RoundUp(oldsz), RoundUp(oldsz));
    } else {
      RoundUpGrows(newsz, KERNBASE);
      ExpandedStays(km, pd, free0, d0, m0, RoundUp(oldsz), RoundUp(newsz));
    }
  }

  /** Pages not mapped between lo and hi were spared. */
  lemma ReducedStays(km: Kmem, pd: Pgdir, free0: seq<nat>, d0: Dir, m0: map<nat, Bytes>, lo: nat, hi: nat,
                     keep: set<nat>)
    requires OnceOnly(km, free0, pd.page, d0) && hi <= USERPAGES && SameOutside(pd.dir, d0, lo, hi)
    requires NoneMapped(pd.dir, lo, hi) && km.Kept(m0, keep)
    requires forall p: nat :: p in m0 && !MappedIn(d0, lo, hi, p) ==> p in keep
    ensures Resized(free0, pd.page, d0, m0, pd.dir, km.mem)
  {
    forall v: nat | v < USERPAGES && Lookup(d0, v).Page? && !(lo <= v < hi)
      ensures !MappedIn(d0, lo, hi, Lookup(d0, v).page)
    {
      OneMapping(km, free0, pd.page, d0, lo, hi, v);
    }
    forall p: nat | Total(free0, pd.page, d0, p) == 0
      ensures !MappedIn(d0, lo, hi, p)
    {
      NotMapped(free0, pd.page, d0, lo, hi, p);
    }
  }

  lemma NotMapped(free0: seq<nat>, page: nat, d0: Dir, lo: nat, hi: nat, p: nat)
    requires hi <= USERPAGES && Total(free0, page, d0, p) == 0
    ensures !MappedIn(d0, lo, hi, p)
  {
    forall v: nat | lo <= v < hi && Lookup(d0, v).Page?
      ensures Lookup(d0, v).page != p
    {
      LookupOwned(page, d0, v, p);
    }
  }

  lemma OneMapping(km: Kmem, free0: seq<nat>, page: nat, d0: Dir, lo: nat, hi: nat, v: nat)
    requires OnceOnly(km, free0, page, d0) && hi <= USERPAGES && v < USERPAGES && Lookup(d0, v).Page?
    requires !(lo <= v < hi)
    ensures !MappedIn(d0, lo, hi, Lookup(d0, v).page)
  {
    forall u: nat | lo <= u < hi && Lookup(d0, u).Page?
      ensures Lookup(d0, u).page != Lookup(d0, v).page
    {
      assert Total(free0, page, d0, Lookup(d0, u).page) <= km.Cap(Lookup(d0, u).page);
      MappedTwice(page, d0, u, v, Lookup(d0, u).page);
    }
  }

  /** deallocuvm, with what it leaves alone. */
  method Reduce(km: Kmem, pd: Pgdir, oldsz: nat, newsz: nat) returns (r: nat)
    requires km.Sound(pd) && oldsz <= KERNBASE
    modifies km, pd
    ensures km.Sound(pd) && r == (if newsz >= oldsz then oldsz else newsz)
    ensures forall q: nat :: km.TotalOf(pd, q) == old(km.TotalOf(pd, q))
    ensures newsz < oldsz ==>
        SameOutside(pd.dir, old(pd.dir), RoundUp(newsz), RoundUp(oldsz))
        && NoneMapped(pd.dir, RoundUp(newsz), RoundUp(oldsz))
    ensures newsz >= oldsz ==> pd.dir == old(pd.dir)
    ensures Resized(old(km.free), pd.page, old(pd.dir), old(km.mem), pd.dir, km.mem)
  {
    ghost var free0, d0, m0 := km.free, pd.dir, km.mem;
    ghost var lo, hi := RoundUp(newsz), RoundUp(oldsz);
    ghost var keep := set p | p in km.mem && !MappedIn(d0, lo, hi, p);
    OnceOnlyNow(km, pd, free0);
    RoundUpGrows(oldsz, KERNBASE);
    r := km.Deallocuvm(pd, oldsz, newsz, keep);
    if newsz < oldsz {
      ReducedStays(km, pd, free0, d0, m0, lo, hi, keep);
    } else {
      RoundUpGrows(oldsz, newsz);
      ReducedStays(km, pd, free0, d0, m0, hi, hi, keep);
    }
  }

  /** A shrink to exactly zero. */
  predicate ToZero(sz: nat, n: int) {
    n < 0 && sz + n == 0
  }

  /**
    growproc, with n a C int added to an unsigned size. A growth is all or nothing. A shrink below zero wraps to a size
    above the old one, and does nothing, without an error. A shrink to exactly zero releases the pages, yet
    reports an error and leaves the size as it was; that is the one way to a page below the size that is
    not mapped.
   */
  method Growproc(km: Kmem, pd: Pgdir, sz: nat, n: int) returns (r: int, sz': nat)
    requires km.Sound(pd) && Sized(pd.dir, sz) && -0x8000_0000 <= n < 0x8000_0000
    modifies km, pd
    ensures km.Sound(pd) && Sized(pd.dir, sz') && forall q: nat :: km.TotalOf(pd, q) == old(km.TotalOf(pd, q))
    ensures Resized(old(km.free), pd.page, old(pd.dir), old(km.mem), pd.dir, km.mem)
    ensures r == 0 || r == -1
    ensures r == 0 ==> sz' == if sz + n < 0 then sz else sz + n
    ensures r == -1 ==> sz' == sz
    ensures n == 0 ==> r == 0 && pd.dir == old(pd.dir)
    ensures n >= 0 && r == -1 ==> SameMaps(pd.dir, old(pd.dir))
    ensures n < 0 ==> (r == -1 <==> sz + n == 0 || sz == 0)
    ensures n < 0 && sz + n < 0 ==> pd.dir == old(pd.dir)
    ensures n < 0 <= sz + n ==>
        NoneMapped(pd.dir, RoundUp(sz + n), USERPAGES) && SameOutside(pd.dir, old(pd.dir), RoundUp(sz + n), USERPAGES)
    ensures n > 0 && r == 0 ==>
        Kmem.Grown(pd.dir, km.mem, RoundUp(sz), RoundUp(sz'))
        && SameOutside(pd.dir, old(pd.dir), RoundUp(sz), RoundUp(sz'))
    ensures old(AllPresent(pd.dir, RoundUp(sz))) && !ToZero(sz, n) ==> AllPresent(pd.dir, RoundUp(sz'))
  {
    var new_ := sz;
    var want := (sz + n) % U32;
    Wraps(sz, n);
    if n > 0 {
      new_ := Expand(km, pd, sz, want);
      if new_ == 0 {
        return -1, sz;
      }
    } else if n < 0 {
      new_ := Reduce(km, pd, sz, want);
      if new_ == 0 {
        return -1, sz;
      }
    }
    return 0, new_;
  }

  lemma Wraps(sz: nat, n: int)
    requires sz < KERNBASE && -0x8000_0000 <= n < 0x8000_0000
    ensures (sz + n) % U32 == if sz + n < 0 then sz + n + U32 else sz + n
    ensures 0 <= sz + n < KERNBASE ==> RoundUp(sz + n) <= USERPAGES
    ensures sz + n < 0 ==> sz + n + U32 > sz
    ensures 0 <= n ==> RoundUp(sz) <= RoundUp(sz + n)
    ensures n <= 0 <= sz + n ==> RoundUp(sz + n) <= RoundUp(sz)
  {
  }
}
