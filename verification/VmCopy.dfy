/**
  vm.c, whole address spaces: making one, releasing one, copying one. The allocator is shared with
  other address spaces, so what they own appears as the pages that are neither free nor this one's.
 */
module VmCopy {
  import opened VmSpec
  import opened Vm

  // ---------- freevm ----------

  lemma {:induction false} TablesGrow(dir: Dir, i: nat, n: nat, q: nat)
    requires i <= n <= ENTRIES
    ensures TablesOnly(dir, i, q) <= TablesOnly(dir, n, q)
  {
    if i < n {
      TablesGrow(dir, i, n - 1, q);
    }
  }

  /** The pages in `keep` belong to others. */
  ghost predicate Foreign(km: Kmem, pd: Pgdir, keep: set<nat>)
    reads km, pd
  {
    forall p: nat :: p in keep ==> km.TotalOf(pd, p) == 0
  }

  lemma ForeignSpared(km: Kmem, pd: Pgdir, keep: set<nat>)
    requires Foreign(km, pd, keep)
    ensures Kmem.Spared(pd.dir, 0, USERPAGES, keep)
  {
    forall v: nat | v < USERPAGES && Lookup(pd.dir, v).Page?
      ensures Lookup(pd.dir, v).page !in keep
    {
      LookupOwned(pd.page, pd.dir, v, Lookup(pd.dir, v).page);
    }
  }

  /** What freevm's loop still has to give back after i directory entries. */
  ghost predicate Releasing(km: Kmem, pd: Pgdir, total: nat -> nat, i: nat)
    reads km, pd
  {
    i <= ENTRIES && km.Valid() &&
    forall q: nat ::
      InList(km.free, q) + TablesOnly(pd.dir, ENTRIES, q) - TablesOnly(pd.dir, i, q) + Is(pd.page, q) == total(q)
  }

  /** freevm's deallocuvm: of what the address space owned, its tables and its directory are left. */
  method FreeUser(km: Kmem, pd: Pgdir, ghost total: nat -> nat, ghost keep: set<nat>)
    requires km.Sound(pd) && Foreign(km, pd, keep) && forall q: nat :: total(q) == km.TotalOf(pd, q)
    modifies km, pd
    ensures Releasing(km, pd, total, 0) && km.Kept(old(km.mem), keep)
  {
    ForeignSpared(km, pd, keep);
    var r := km.Deallocuvm(pd, KERNBASE, 0, keep);
    forall q: nat
      ensures InList(km.free, q) + TablesOnly(pd.dir, ENTRIES, q) + Is(pd.page, q) == total(q)
    {
      OnlyTables(pd.dir, ENTRIES, q);
      assert km.TotalOf(pd, q) == total(q);
    }
  }

  /** Every page the address space owned goes to the free list, and no other. */
  method Freevm(km: Kmem, pd: Pgdir, ghost keep: set<nat>)
    requires km.Sound(pd) && Foreign(km, pd, keep)
    modifies km, pd
    ensures km.Valid() && forall q: nat :: InList(km.free, q) == old(km.TotalOf(pd, q))
    ensures km.Kept(old(km.mem), keep)
  {
    ghost var f0, p0, d0 := km.free, pd.page, pd.dir;
    ghost var total: nat -> nat := q => Total(f0, p0, d0, q);
    forall q: nat
      ensures total(q) == km.TotalOf(pd, q) <= km.Cap(q)
    {
    }
    FreeUser(km, pd, total, keep);
    var i := 0;
    while i < ENTRIES
      invariant Releasing(km, pd, total, i) && km.Kept(old(km.mem), keep)
    {
      if pd.dir[i].HasTable? {
        FreeTable(km, pd, total, i, keep);
      }
      i := i + 1;
    }
    assert InList(km.free, pd.page) + Is(pd.page, pd.page) == total(pd.page);
    InListHas(km.free, pd.page);
    var freed := km.Kfree(pd.page);
  }

  method FreeTable(km: Kmem, pd: Pgdir, ghost total: nat -> nat, i: nat, ghost keep: set<nat>)
    requires i < ENTRIES && pd.dir[i].HasTable? && Releasing(km, pd, total, i)
    requires (forall q: nat :: total(q) <= km.Cap(q)) && forall p: nat :: p in keep ==> total(p) == 0
    modifies km
    ensures Releasing(km, pd, total, i + 1) && km.Kept(old(km.mem), keep)
  {
    var t := pd.dir[i].page;
    TablesGrow(pd.dir, i + 1, ENTRIES, t);
    assert InList(km.free, t) + TablesOnly(pd.dir, ENTRIES, t) - TablesOnly(pd.dir, i, t) + Is(pd.page, t) == total(t);
    InListHas(km.free, t);
    ghost var f0 := km.free;
    assert forall q: nat ::
      InList(f0, q) + TablesOnly(pd.dir, ENTRIES, q) - TablesOnly(pd.dir, i, q) + Is(pd.page, q) == total(q);
    var freed := km.Kfree(t);
    forall q: nat
      ensures InList(km.free, q) + TablesOnly(pd.dir, ENTRIES, q) - TablesOnly(pd.dir, i + 1, q) + Is(pd.page, q)
          == total(q)
    {
      assert InList(f0, q) + TablesOnly(pd.dir, ENTRIES, q) - TablesOnly(pd.dir, i, q) + Is(pd.page, q) == total(q);
      assert InList(km.free, q) == InList(f0, q) + Is(t, q);
    }
  }

  // ---------- setupkvm ----------

  /** n pages from virtual page lo on, at physical page ppn. */
  datatype Range = Range(lo: nat, n: nat, ppn: nat, flags: nat)

  const EXTMEM: nat := 256        // 0x100000 / PGSIZE
  const PHYSTOP: nat := 57344     // 0xE000000 / PGSIZE
  const DEVSPACE: nat := 1040384  // 0xFE000000 / PGSIZE
  const KW: nat := 3              // PTE_P | PTE_W
  const KR: nat := 1              // PTE_P

  /** kmap; the kernel's data begin at physical page `data`, which the linker sets. */
  function Kmap(data: nat): (r: seq<Range>)
    requires EXTMEM < data < PHYSTOP
  {
    [Range(USERPAGES, EXTMEM, 0, KW),
     Range(USERPAGES + EXTMEM, data - EXTMEM, EXTMEM, KR),
     Range(USERPAGES + data, PHYSTOP - data, data, KW),
     Range(DEVSPACE, ENTRIES * ENTRIES - DEVSPACE, DEVSPACE, KW)]
  }

  function MapOf(kmap: seq<Range>, n: nat, v: nat): Pte
    requires n <= |kmap|
  {
    if n == 0 then NoPage
    else
      var k := kmap[n - 1];
      if k.lo <= v < k.lo + k.n then Page(k.ppn + (v - k.lo), k.flags) else MapOf(kmap, n - 1, v)
  }

  /**
    What the kernel half looks like: physical memory from KERNBASE on, the kernel's text read-only,
    devices at their own address.
   */
  function KernelMap(data: nat, v: nat): Pte {
    if USERPAGES <= v < USERPAGES + PHYSTOP then Page(v - USERPAGES, if EXTMEM <= v - USERPAGES < data then KR else KW)
    else if v >= DEVSPACE then Page(v, KW)
    else NoPage
  }

  lemma KmapMeans(data: nat, v: nat)
    requires EXTMEM < data < PHYSTOP && v < ENTRIES * ENTRIES
    ensures MapOf(Kmap(data), 4, v) == KernelMap(data, v)
  {
    var m := Kmap(data);
    assert MapOf(m, 1, v) == if m[0].lo <= v < m[0].lo + m[0].n then Page(m[0].ppn + (v - m[0].lo), m[0].flags)
      else NoPage;
    assert MapOf(m, 2, v) == if m[1].lo <= v < m[1].lo + m[1].n then Page(m[1].ppn + (v - m[1].lo), m[1].flags)
      else MapOf(m, 1, v);
    assert MapOf(m, 3, v) == if m[2].lo <= v < m[2].lo + m[2].n then Page(m[2].ppn + (v - m[2].lo), m[2].flags)
      else MapOf(m, 2, v);
  }

  /** The ranges do not meet, so mappages never finds a page mapped. */
  lemma KmapApart(data: nat, i: nat, v: nat)
    requires EXTMEM < data < PHYSTOP && i < 4 && Kmap(data)[i].lo <= v < Kmap(data)[i].lo + Kmap(data)[i].n
    ensures MapOf(Kmap(data), i, v) == NoPage
  {
    var m := Kmap(data);
    if i > 0 {
      assert MapOf(m, 1, v) == NoPage;
      if i > 1 {
        assert MapOf(m, 2, v) == NoPage;
      }
    }
  }

  ghost predicate Maps(dir: Dir, kmap: seq<Range>, n: nat)
    requires n <= |kmap|
  {
    forall v: nat :: v < ENTRIES * ENTRIES ==> Lookup(dir, v) == MapOf(kmap, n, v)
  }

  /** No user page, and the kernel half. */
  ghost predicate KernelOnly(dir: Dir, data: nat) {
    forall v: nat :: v < ENTRIES * ENTRIES ==> Lookup(dir, v) == KernelMap(data, v)
  }

  /** The pages in use that `keep` names. */
  ghost predicate InUse(km: Kmem, keep: set<nat>)
    reads km
  {
    forall p: nat :: p in keep ==> InList(km.free, p) == 0
  }

  lemma {:induction false} LinkedPositive(km: Kmem, f: nat, s: seq<nat>)
    requires km.Linked(f, s)
    ensures InList(s, 0) == 0
    decreases |s|
  {
    if s != [] {
      LinkedPositive(km, km.next[f], s[1..]);
    }
  }

  /** An address space made of pages that were free: with the rest of the free list it makes up the old one. */
  ghost predicate MadeOf(km: Kmem, pd: Pgdir, free0: seq<nat>)
    reads km, pd
  {
    km.Sound(pd) && forall q: nat :: km.TotalOf(pd, q) == InList(free0, q)
  }

  method NewDir(km: Kmem) returns (pd: Pgdir?)
    requires km.Valid()
    modifies km
    ensures km.Valid() && km.mem.Keys >= old(km.mem).Keys
    ensures pd == null ==> km.free == old(km.free) && km.mem == old(km.mem)
    ensures pd != null ==> fresh(pd) && MadeOf(km, pd, old(km.free)) && Maps(pd.dir, [], 0)
    ensures km.Frame(old(km.mem), old(km.free)) && forall q: nat :: InList(km.free, q) <= InList(old(km.free), q)
  {
    LinkedPositive(km, km.freelist, km.free);
    var page := km.Kalloc();
    if page == 0 {
      return null;
    }
    km.Clear(page);
    pd := new Pgdir(page);
    forall q: nat
      ensures km.TotalOf(pd, q) == InList(old(km.free), q) <= km.Cap(q)
    {
    }
  }

  /** setupkvm: the kernel half on fresh pages, or nothing at all. */
  method Setupkvm(km: Kmem, data: nat, ghost keep: set<nat>) returns (pd: Pgdir?)
    requires km.Valid() && EXTMEM < data < PHYSTOP && InUse(km, keep)
    modifies km
    ensures km.Valid() && km.Kept(old(km.mem), keep) && InUse(km, keep)
    ensures pd != null ==> fresh(pd) && MadeOf(km, pd, old(km.free)) && KernelOnly(pd.dir, data)
    ensures pd == null ==> forall q: nat :: InList(km.free, q) == InList(old(km.free), q)
  {
    pd := NewDir(km);
    if pd == null {
      return;
    }
    var kmap := Kmap(data);
    var i := 0;
    while i < 4
      invariant 0 <= i <= 4 && fresh(pd) && MadeOf(km, pd, old(km.free)) && Maps(pd.dir, kmap, i)
      invariant km.Kept(old(km.mem), keep) && InUse(km, keep)
    {
      var ok := MapRange(km, pd, data, i, keep, old(km.free));
      if !ok {
        Freevm(km, pd, keep);
        return null;
      }
      i := i + 1;
    }
    forall v: nat | v < ENTRIES * ENTRIES
      ensures Lookup(pd.dir, v) == KernelMap(data, v)
    {
      KmapMeans(data, v);
      assert Lookup(pd.dir, v) == MapOf(kmap, 4, v);
    }
  }

  method MapRange(km: Kmem, pd: Pgdir, data: nat, i: nat, ghost keep: set<nat>, ghost free0: seq<nat>)
    returns (ok: bool)
    requires EXTMEM < data < PHYSTOP && i < 4 && MadeOf(km, pd, free0) && Maps(pd.dir, Kmap(data), i) && InUse(km, keep)
    requires forall p: nat :: p in keep ==> InList(free0, p) == 0
    modifies km, pd
    ensures MadeOf(km, pd, free0) && (ok ==> Maps(pd.dir, Kmap(data), i + 1))
    ensures km.Kept(old(km.mem), keep) && InUse(km, keep) && Foreign(km, pd, keep)
  {
    var k := Kmap(data)[i];
    forall v: nat | k.lo <= v < k.lo + k.n
      ensures Lookup(pd.dir, v) == NoPage
    {
      KmapApart(data, i, v);
      assert Lookup(pd.dir, v) == MapOf(Kmap(data), i, v);
    }
    var remap;
    ghost var done;
    ok, remap, done := km.Mappages(pd, k.lo, k.n, k.ppn, k.flags);
  }

  // ---------- copyuvm ----------

  /** The first n pages hold what the parent's did, with the same permissions; above them only the kernel is mapped. */
  ghost predicate Copied(dir: Dir, mem: map<nat, Bytes>, src: Dir, mem0: map<nat, Bytes>, n: nat, data: nat)
    requires n <= USERPAGES
  {
    && (forall v: nat :: v < n ==>
          && Lookup(dir, v).Page? && Lookup(src, v).Page? && Lookup(dir, v).flags == Lookup(src, v).flags
          && Lookup(dir, v).page in mem && Lookup(src, v).page in mem0
             && mem[Lookup(dir, v).page] == mem0[Lookup(src, v).page])
    && (forall v: nat :: n <= v < ENTRIES * ENTRIES ==> Lookup(dir, v) == KernelMap(data, v))
  }

  /** What is mapped below n is memory. */
  ghost predicate InMemory(dir: Dir, mem: map<nat, Bytes>, n: nat)
    requires n <= USERPAGES
  {
    forall v: nat :: v < n && Lookup(dir, v).Page? ==> Lookup(dir, v).page in mem
  }

  lemma CopiedMore(d0: Dir, m0: map<nat, Bytes>, free0: seq<nat>, d1: Dir, m1: map<nat, Bytes>, src: Dir,
                   was: map<nat, Bytes>, n: nat, data: nat, page: nat)
    requires n < USERPAGES && Copied(d0, m0, src, was, n, data) && Lookup(src, n).Page? && Lookup(src, n).page in was
    requires Kmem.Entered(d0, d1, n, 1, page, Lookup(src, n).flags) && page in m1
    requires m1[page] == was[Lookup(src, n).page]
    requires forall u: nat :: u < n && Lookup(d0, u).Page? ==> InList(free0, Lookup(d0, u).page) == 0
    requires forall p :: p in m0 && InList(free0, p) == 0 ==> p in m1 && m1[p] == m0[p]
    ensures Copied(d1, m1, src, was, n + 1, data)
  {
    forall u: nat | u < n + 1
      ensures Lookup(d1, u).Page? && Lookup(src, u).Page? && Lookup(d1, u).flags == Lookup(src, u).flags
      ensures Lookup(d1, u).page in m1 && Lookup(src, u).page in was
      ensures m1[Lookup(d1, u).page] == was[Lookup(src, u).page]
    {
      if u < n {
        assert Lookup(d1, u) == Lookup(d0, u);
      }
    }
    forall u: nat | n + 1 <= u < ENTRIES * ENTRIES
      ensures Lookup(d1, u) == KernelMap(data, u)
    {
      assert Lookup(d1, u) == Lookup(d0, u);
    }
  }

  /**
    One pass of copyuvm's loop; without a page, or without a page table, all that the child owns is
    still the child's.
   */
  method CopyPage(km: Kmem, d: Pgdir, src: Pgdir, v: nat, ghost data: nat, ghost was: map<nat, Bytes>,
                  ghost free0: seq<nat>, ghost keep: set<nat>)
    returns (ok: bool)
    requires d != src && MadeOf(km, d, free0) && v < USERPAGES && Copied(d.dir, km.mem, src.dir, was, v, data)
    requires Lookup(src.dir, v).Page? && Lookup(src.dir, v).page in keep && Lookup(src.dir, v).page in was
    requires InUse(km, keep) && km.Kept(was, keep) && forall p: nat :: p in keep ==> InList(free0, p) == 0
    modifies km, d
    ensures MadeOf(km, d, free0) && InUse(km, keep) && km.Kept(was, keep) && Foreign(km, d, keep)
    ensures ok ==> Copied(d.dir, km.mem, src.dir, was, v + 1, data)
  {
    ghost var d0, m0, f0 := d.dir, km.mem, km.free;
    km.GrownIsOwned(d, 0, v);
    assert Lookup(d.dir, v) == KernelMap(data, v);
    var e := src.dir[v / ENTRIES].ptes[v % ENTRIES];
    ghost var page;
    ok, page := CopyInto(km, d, v, e, free0);
    if ok {
      CopiedMore(d0, m0, f0, d.dir, km.mem, src.dir, was, v, data, page);
    }
  }

  /** kalloc, memmove and mappages for one page; the page goes back if there is no table for it. */
  method CopyInto(km: Kmem, d: Pgdir, v: nat, e: Pte, ghost free0: seq<nat>) returns (ok: bool, ghost page: nat)
    requires MadeOf(km, d, free0) && v < USERPAGES && Lookup(d.dir, v) == NoPage && e.Page? && e.page in km.mem
    requires InList(km.free, e.page) == 0
    modifies km, d
    ensures MadeOf(km, d, free0) && km.Frame(old(km.mem), old(km.free))
    ensures forall q: nat :: InList(km.free, q) <= old(InList(km.free, q))
    ensures ok ==>
        Kmem.Entered(old(d.dir), d.dir, v, 1, page, e.flags) && page in km.mem && km.mem[page] == old(km.mem)[e.page]
  {
    var taken := km.TakePage(d);
    page := taken;
    if taken == 0 {
      return false, 0;
    }
    km.Copy(taken, e.page);
    ok := km.MapOne(d, v, taken, e.flags);
    if !ok {
      km.GiveBack(d, taken);
    }
  }

  lemma MappedInUse(km: Kmem, pd: Pgdir, n: nat, keep: set<nat>)
    requires km.Sound(pd) && n <= USERPAGES && InMemory(pd.dir, km.mem, n)
    requires forall p :: p in km.mem && InList(km.free, p) == 0 ==> p in keep
    ensures forall v: nat :: v < n && Lookup(pd.dir, v).Page? ==> Lookup(pd.dir, v).page in keep
  {
    km.GrownIsOwned(pd, 0, n);
    forall v: nat | v < n && Lookup(pd.dir, v).Page?
      ensures Lookup(pd.dir, v).page in keep
    {
      assert InList(km.free, Lookup(pd.dir, v).page) == 0;
    }
  }

  /**
    copyuvm. A child has the parent's contents and permissions on pages that were free before; without
    memory for all of it every page taken is free again. Pages in use, the parent's among them, are
    not touched, and no page ends up with two owners or none. Its panics need a page below the size
    that is not mapped, and without one they do not happen.
   */
  method Copyuvm(km: Kmem, pd: Pgdir, sz: nat, data: nat) returns (d: Pgdir?, panicked: bool)
    requires km.Sound(pd) && sz <= KERNBASE && EXTMEM < data < PHYSTOP && InMemory(pd.dir, km.mem, RoundUp(sz))
    modifies km
    ensures panicked ==> d == null && !AllPresent(pd.dir, RoundUp(sz))
    ensures pd.dir == old(pd.dir) && km.Valid() && km.Frame(old(km.mem), old(km.free))
    ensures d != null ==> fresh(d) && km.Sound(d) && Copied(d.dir, km.mem, pd.dir, old(km.mem), RoundUp(sz), data)
    ensures d != null ==> forall q: nat :: InList(km.free, q) + Owned(d.page, d.dir, q) == old(InList(km.free, q))
    ensures d == null && !panicked ==> forall q: nat :: InList(km.free, q) == old(InList(km.free, q))
    ensures km.Sound(pd)
  {
    panicked := false;
    ghost var keep := set p | p in km.mem && InList(km.free, p) == 0;
    ghost var free0, was := km.free, km.mem;
    MappedInUse(km, pd, RoundUp(sz), keep);
    OnceOnlyNow(km, pd, free0);
    d := Setupkvm(km, data, keep);
    if d != null {
      var ok;
      ok, panicked := CopyPages(km, d, pd, sz, data, was, free0, keep);
      if !ok {
        d := null;
      }
    }
    SoundAgain(km, pd, free0);
  }

  /** copyuvm's loop into the new directory d, which is freed again without memory for all of it. */
  method CopyPages(km: Kmem, d: Pgdir, pd: Pgdir, sz: nat, data: nat, ghost was: map<nat, Bytes>,
                   ghost free0: seq<nat>, ghost keep: set<nat>)
    returns (ok: bool, panicked: bool)
    requires d != pd && MadeOf(km, d, free0) && sz <= KERNBASE && KernelOnly(d.dir, data)
    requires InMemory(pd.dir, was, RoundUp(sz))
    requires InUse(km, keep) && km.Kept(was, keep) && forall p: nat :: p in keep ==> InList(free0, p) == 0
    requires forall v: nat :: v < RoundUp(sz) && Lookup(pd.dir, v).Page? ==> Lookup(pd.dir, v).page in keep
    modifies km, d
    ensures km.Valid() && km.Kept(was, keep) && (panicked ==> !ok && !AllPresent(pd.dir, RoundUp(sz)))
    ensures ok ==> km.Sound(d) && Copied(d.dir, km.mem, pd.dir, was, RoundUp(sz), data)
    ensures ok ==> forall q: nat :: InList(km.free, q) + Owned(d.page, d.dir, q) == InList(free0, q)
    ensures !ok && !panicked ==> forall q: nat :: InList(km.free, q) == InList(free0, q)
    ensures forall q: nat :: InList(km.free, q) <= InList(free0, q)
  {
    var i := 0;
    while i * PGSIZE < sz
      invariant 0 <= i <= RoundUp(sz) && MadeOf(km, d, free0) && Copied(d.dir, km.mem, pd.dir, was, i, data)
      invariant km.Kept(was, keep) && InUse(km, keep)
      decreases sz - i * PGSIZE
    {
      PageInUser(i, sz, RoundUp(sz));
      if !Present(pd.dir, i) {
        FewerFree(km, d, free0);
        return false, true;
      }
      ok := CopyPage(km, d, pd, i, data, was, free0, keep);
      if !ok {
        Freevm(km, d, keep);
        return false, false;
      }
      i := i + 1;
    }
    FewerFree(km, d, free0);
    return true, false;
  }

  /** walkpgdir finds an entry for page v, and it is present. */
  predicate Present(dir: Dir, v: nat)
    requires v < USERPAGES
    ensures Present(dir, v) <==> Lookup(dir, v).Page?
  {
    dir[v / ENTRIES].HasTable? && dir[v / ENTRIES].ptes[v % ENTRIES].Page?
  }

  ghost predicate AllPresent(dir: Dir, n: nat)
    requires n <= USERPAGES
  {
    forall v: nat :: v < n ==> Lookup(dir, v).Page?
  }

  lemma OnceOnlyNow(km: Kmem, pd: Pgdir, free0: seq<nat>)
    requires km.Sound(pd) && free0 == km.free
    ensures OnceOnly(km, free0, pd.page, pd.dir)
  {
    forall q: nat
      ensures Total(free0, pd.page, pd.dir, q) <= km.Cap(q)
    {
      assert km.TotalOf(pd, q) <= km.Cap(q);
    }
  }

  /** What the new directory owns is no longer free. */
  lemma FewerFree(km: Kmem, d: Pgdir, free0: seq<nat>)
    requires MadeOf(km, d, free0)
    ensures forall q: nat :: InList(km.free, q) + Owned(d.page, d.dir, q) == InList(free0, q)
  {
    forall q: nat
      ensures InList(km.free, q) + Owned(d.page, d.dir, q) == InList(free0, q)
    {
      assert km.TotalOf(d, q) == InList(free0, q);
    }
  }

  ghost predicate OnceOnly(km: Kmem, free: seq<nat>, page: nat, dir: Dir) {
    forall q: nat :: Total(free, page, dir, q) <= km.Cap(q)
  }

  /** With fewer pages free, or as many, the parent's address space is as sound as before. */
  lemma SoundAgain(km: Kmem, pd: Pgdir, free0: seq<nat>)
    requires km.Valid() && (forall q: nat :: InList(km.free, q) <= InList(free0, q))
    requires OnceOnly(km, free0, pd.page, pd.dir)
    ensures km.Sound(pd)
  {
    forall q: nat
      ensures km.TotalOf(pd, q) <= km.Cap(q)
    {
      assert Total(free0, pd.page, pd.dir, q) <= km.Cap(q);
    }
  }
}
