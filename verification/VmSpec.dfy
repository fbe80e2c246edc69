/**
  Two-level page tables of vm.c (32-bit paging, section 4.3 of the Intel SDM, Volume 3A) as values,
  and which physical pages an address space owns.
 */
module VmSpec {

  const PGSIZE: nat := 4096
  const ENTRIES: nat := 1024      // NPDENTRIES, NPTENTRIES
  const USERDIRS: nat := 512      // directory entries below KERNBASE
  const USERPAGES: nat := 524288  // KERNBASE / PGSIZE
  const KERNBASE: nat := 0x8000_0000

  /** A page-table entry: not present, or a physical page with its flags. */
  datatype Pte = NoPage | Page(page: nat, flags: nat)

  type Table = t: seq<Pte> | |t| == ENTRIES witness seq(ENTRIES, _ => NoPage)

  /** A directory entry together with the page table it points to. */
  datatype Pde = NoTable | HasTable(page: nat, ptes: Table)

  type Dir = d: seq<Pde> | |d| == ENTRIES witness seq(ENTRIES, _ => NoTable)

  // ---------- look-up ----------

  function Lookup(dir: Dir, vpn: nat): Pte
    requires vpn < ENTRIES * ENTRIES
  {
    var e := dir[vpn / ENTRIES];
    if e.NoTable? then NoPage else e.ptes[vpn % ENTRIES]
  }

  function SetPte(dir: Dir, vpn: nat, p: Pte): Dir
    requires vpn < ENTRIES * ENTRIES && dir[vpn / ENTRIES].HasTable?
  {
    var e := dir[vpn / ENTRIES];
    dir[vpn / ENTRIES := e.(ptes := e.ptes[vpn % ENTRIES := p])]
  }

  function Blank(n: nat): (r: seq<Pte>)
    ensures |r| == n && forall i :: 0 <= i < n ==> r[i] == NoPage
  {
    if n == 0 then [] else Blank(n - 1) + [NoPage]
  }

  /** walkpgdir's new, empty page table */
  function NewTable(dir: Dir, vpn: nat, page: nat): Dir
    requires vpn < ENTRIES * ENTRIES
  {
    dir[vpn / ENTRIES := HasTable(page, Blank(ENTRIES))]
  }

  lemma SetPteAt(dir: Dir, vpn: nat, p: Pte, v: nat)
    requires vpn < ENTRIES * ENTRIES && v < ENTRIES * ENTRIES && dir[vpn / ENTRIES].HasTable?
    ensures Lookup(SetPte(dir, vpn, p), v) == if v == vpn then p else Lookup(dir, v)
  {
    if v / ENTRIES == vpn / ENTRIES && v % ENTRIES == vpn % ENTRIES {
      assert v == vpn;
    }
  }

  lemma NewTableAt(dir: Dir, vpn: nat, page: nat, v: nat)
    requires vpn < ENTRIES * ENTRIES && v < ENTRIES * ENTRIES && dir[vpn / ENTRIES].NoTable?
    ensures Lookup(NewTable(dir, vpn, page), v) == Lookup(dir, v)
  {
  }

  // ---------- ownership ----------

  function Is(page: nat, q: nat): nat {
    if page == q then 1 else 0
  }

  /** How often a page-table entry refers to physical page q. */
  function PageOf(p: Pte, q: nat): nat {
    if p.NoPage? then 0 else Is(p.page, q)
  }

  function Pages(ptes: seq<Pte>, q: nat): nat {
    if ptes == [] then 0 else Pages(ptes[..|ptes| - 1], q) + PageOf(ptes[|ptes| - 1], q)
  }

  /** A table's own page, and below KERNBASE the pages that it maps. */
  function TablePages(e: Pde, user: bool, q: nat): nat {
    if e.NoTable? then 0 else Is(e.page, q) + if user then Pages(e.ptes, q) else 0
  }

  /** How often the first n directory entries own page q. */
  function DirPages(dir: Dir, n: nat, q: nat): nat
    requires n <= ENTRIES
  {
    if n == 0 then 0 else DirPages(dir, n - 1, q) + TablePages(dir[n - 1], n - 1 < USERDIRS, q)
  }

  /** How often an address space owns page q: as its directory, as a table, as a user page. */
  function Owned(pgdir: nat, dir: Dir, q: nat): nat {
    Is(pgdir, q) + DirPages(dir, ENTRIES, q)
  }

  /** How often page q is on the free list. */
  function InList(free: seq<nat>, q: nat): nat {
    if free == [] then 0 else Is(free[0], q) + InList(free[1..], q)
  }

  lemma {:induction false} PagesUpdate(ptes: seq<Pte>, i: nat, p: Pte, q: nat)
    requires i < |ptes|
    ensures Pages(ptes[i := p], q) + PageOf(ptes[i], q) == Pages(ptes, q) + PageOf(p, q)
  {
    var n := |ptes| - 1;
    if i == n {
      assert ptes[i := p][..n] == ptes[..n];
    } else {
      assert ptes[i := p][..n] == ptes[..n][i := p];
      PagesUpdate(ptes[..n], i, p, q);
    }
  }

  lemma {:induction false} DirUpdate(dir: Dir, i: nat, e: Pde, n: nat, q: nat)
    requires i < ENTRIES && n <= ENTRIES
    ensures var dir' := dir[i := e];
            && (i < n ==>
                  DirPages(dir', n, q) + TablePages(dir[i], i < USERDIRS, q)
                  == DirPages(dir, n, q) + TablePages(e, i < USERDIRS, q))
            && (i >= n ==> DirPages(dir', n, q) == DirPages(dir, n, q))
  {
    if n > 0 {
      DirUpdate(dir, i, e, n - 1, q);
    }
  }

  lemma {:induction false} BlankOwnsNothing(n: nat, q: nat)
    ensures Pages(Blank(n), q) == 0
  {
    if n > 0 {
      BlankOwnsNothing(n - 1, q);
      assert Blank(n)[..n - 1] == Blank(n - 1);
    }
  }

  /** Replacing entry k of table i. */
  lemma TableUpdate(pgdir: nat, dir: Dir, i: nat, k: nat, p: Pte, q: nat)
    requires i < ENTRIES && k < ENTRIES && dir[i].HasTable?
    ensures var dir' := dir[i := dir[i].(ptes := dir[i].ptes[k := p])];
            && (i < USERDIRS ==>
                  Owned(pgdir, dir', q) + PageOf(dir[i].ptes[k], q) == Owned(pgdir, dir, q) + PageOf(p, q))
            && (i >= USERDIRS ==> Owned(pgdir, dir', q) == Owned(pgdir, dir, q))
  {
    var e := dir[i];
    PagesUpdate(e.ptes, k, p, q);
    DirUpdate(dir, i, e.(ptes := e.ptes[k := p]), ENTRIES, q);
  }

  lemma UserDir(vpn: nat)
    ensures vpn < USERPAGES <==> vpn / ENTRIES < USERDIRS
  {
  }

  /**
    Entering a user page makes the address space own it, and no more the page it replaces; a kernel
    mapping owns nothing.
   */
  lemma SetPteOwns(pgdir: nat, dir: Dir, vpn: nat, p: Pte, q: nat)
    requires vpn < ENTRIES * ENTRIES && dir[vpn / ENTRIES].HasTable?
    ensures vpn < USERPAGES ==>
        Owned(pgdir, SetPte(dir, vpn, p), q) + PageOf(Lookup(dir, vpn), q) == Owned(pgdir, dir, q) + PageOf(p, q)
    ensures vpn >= USERPAGES ==> Owned(pgdir, SetPte(dir, vpn, p), q) == Owned(pgdir, dir, q)
  {
    UserDir(vpn);
    TableUpdate(pgdir, dir, vpn / ENTRIES, vpn % ENTRIES, p, q);
  }

  lemma NewTableOwns(pgdir: nat, dir: Dir, vpn: nat, page: nat, q: nat)
    requires vpn < ENTRIES * ENTRIES && dir[vpn / ENTRIES].NoTable?
    ensures Owned(pgdir, NewTable(dir, vpn, page), q) == Owned(pgdir, dir, q) + Is(page, q)
  {
    BlankOwnsNothing(ENTRIES, q);
    DirUpdate(dir, vpn / ENTRIES, HasTable(page, Blank(ENTRIES)), ENTRIES, q);
  }

  /** All the pages: free or owned by the address space; other owners make up a constant. */
  function Total(free: seq<nat>, pgdir: nat, dir: Dir, q: nat): nat {
    InList(free, q) + Owned(pgdir, dir, q)
  }

  // ---------- the effect of the operations on the mappings ----------

  ghost predicate SameMaps(d: Dir, e: Dir) {
    forall v: nat :: v < ENTRIES * ENTRIES ==> Lookup(d, v) == Lookup(e, v)
  }

  /** Outside lo .. hi - 1 nothing changed. */
  ghost predicate SameOutside(d: Dir, e: Dir, lo: nat, hi: nat) {
    forall v: nat :: v < ENTRIES * ENTRIES && !(lo <= v < hi) ==> Lookup(d, v) == Lookup(e, v)
  }

  /** Between lo and hi nothing is mapped. */
  ghost predicate NoneMapped(d: Dir, lo: nat, hi: nat) {
    forall v: nat :: lo <= v < hi && v < ENTRIES * ENTRIES ==> Lookup(d, v) == NoPage
  }

  function RoundUp(a: nat): nat {
    (a + PGSIZE - 1) / PGSIZE
  }

  // ---------- owned means used somewhere ----------

  lemma {:induction false} PagesHas(ptes: seq<Pte>, i: nat, q: nat)
    requires i < |ptes|
    ensures Pages(ptes, q) >= PageOf(ptes[i], q)
  {
    if i < |ptes| - 1 {
      PagesHas(ptes[..|ptes| - 1], i, q);
    }
  }

  lemma {:induction false} DirHas(dir: Dir, i: nat, n: nat, q: nat)
    requires i < n <= ENTRIES
    ensures DirPages(dir, n, q) >= TablePages(dir[i], i < USERDIRS, q)
  {
    if i < n - 1 {
      DirHas(dir, i, n - 1, q);
    }
  }

  /** A mapped user page and every table are owned. */
  lemma LookupOwned(pgdir: nat, dir: Dir, vpn: nat, q: nat)
    requires vpn < USERPAGES
    ensures Owned(pgdir, dir, q) >= PageOf(Lookup(dir, vpn), q)
  {
    UserDir(vpn);
    DirHas(dir, vpn / ENTRIES, ENTRIES, q);
    var e := dir[vpn / ENTRIES];
    if e.HasTable? {
      PagesHas(e.ptes, vpn % ENTRIES, q);
    }
  }

  lemma {:induction false} InListHas(free: seq<nat>, q: nat)
    ensures InList(free, q) >= 1 <==> q in free
  {
    if free != [] {
      InListHas(free[1..], q);
    }
  }

  /** An empty directory owns no tables. */
  function EmptyDir(n: nat): (r: seq<Pde>)
    ensures |r| == n && forall i :: 0 <= i < n ==> r[i] == NoTable
  {
    if n == 0 then [] else EmptyDir(n - 1) + [NoTable]
  }

  lemma {:induction false} EmptyOwnsNothing(dir: Dir, n: nat, q: nat)
    requires n <= ENTRIES && forall i :: 0 <= i < n ==> dir[i] == NoTable
    ensures DirPages(dir, n, q) == 0
  {
    if n > 0 {
      EmptyOwnsNothing(dir, n - 1, q);
    }
  }

  /** Without user mappings only the tables themselves are left. */
  function TablesOnly(dir: Dir, n: nat, q: nat): nat
    requires n <= ENTRIES
  {
    if n == 0 then 0 else TablesOnly(dir, n - 1, q) + if dir[n - 1].HasTable? then Is(dir[n - 1].page, q) else 0
  }

  lemma {:induction false} NoPagesLeft(ptes: seq<Pte>, q: nat)
    requires forall i :: 0 <= i < |ptes| ==> ptes[i] == NoPage
    ensures Pages(ptes, q) == 0
  {
    if ptes != [] {
      NoPagesLeft(ptes[..|ptes| - 1], q);
    }
  }

  lemma NoUserPages(dir: Dir, i: nat, q: nat)
    requires i < USERDIRS && NoneMapped(dir, 0, USERPAGES) && dir[i].HasTable?
    ensures Pages(dir[i].ptes, q) == 0
  {
    forall k | 0 <= k < ENTRIES
      ensures dir[i].ptes[k] == NoPage
    {
      var v := i * ENTRIES + k;
      assert v / ENTRIES == i && v % ENTRIES == k;
      assert Lookup(dir, v) == NoPage;
    }
    NoPagesLeft(dir[i].ptes, q);
  }

  lemma {:induction false} OnlyTables(dir: Dir, n: nat, q: nat)
    requires n <= ENTRIES && NoneMapped(dir, 0, USERPAGES)
    ensures DirPages(dir, n, q) == TablesOnly(dir, n, q)
  {
    if n > 0 {
      OnlyTables(dir, n - 1, q);
      if n - 1 < USERDIRS && dir[n - 1].HasTable? {
        NoUserPages(dir, n - 1, q);
      }
    }
  }
}
