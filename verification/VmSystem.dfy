/**
  All address spaces over one allocator: what any sequence of creating, copying, resizing, writing and
  freeing them keeps.
 */
module VmSystem {
  import opened VmSpec
  import opened Vm
  import opened VmCopy
  import opened VmUser

  // ---------- who owns what, together ----------

  datatype Space = Space(page: nat, dir: Dir)

  function OwnedBy(w: Space, q: nat): nat {
    Owned(w.page, w.dir, q)
  }

  /** How often page q is owned by one of the address spaces. */
  function SumOwned(ws: seq<Space>, q: nat): nat {
    if ws == [] then 0 else SumOwned(ws[..|ws| - 1], q) + OwnedBy(ws[|ws| - 1], q)
  }

  function Minus(ws: seq<Space>, i: nat): seq<Space>
    requires i < |ws|
  {
    ws[..i] + ws[i + 1..]
  }

  lemma {:induction false} SumMinus(ws: seq<Space>, i: nat, q: nat)
    requires i < |ws|
    ensures SumOwned(Minus(ws, i), q) + OwnedBy(ws[i], q) == SumOwned(ws, q)
  {
    var n := |ws| - 1;
    if i == n {
      assert Minus(ws, i) == ws[..n];
    } else {
      var ms := Minus(ws, i);
      assert ms[..|ms| - 1] == Minus(ws[..n], i);
      SumMinus(ws[..n], i, q);
    }
  }

  lemma SumUpdate(ws: seq<Space>, i: nat, w: Space, q: nat)
    requires i < |ws|
    ensures SumOwned(ws[i := w], q) + OwnedBy(ws[i], q) == SumOwned(ws, q) + OwnedBy(w, q)
  {
    assert Minus(ws[i := w], i) == Minus(ws, i);
    SumMinus(ws, i, q);
    SumMinus(ws[i := w], i, q);
  }

  lemma SumTwo(ws: seq<Space>, i: nat, j: nat, q: nat)
    requires i < |ws| && j < |ws| && i != j
    ensures SumOwned(ws, q) >= OwnedBy(ws[i], q) + OwnedBy(ws[j], q)
  {
    SumMinus(ws, i, q);
    SumMinus(Minus(ws, i), if j < i then j else j - 1, q);
  }

  /** The kernel half is the same in all of them, and user code cannot touch it. */
  ghost predicate KernelHalf(dir: Dir, data: nat) {
    forall v: nat :: USERPAGES <= v < ENTRIES * ENTRIES ==> Lookup(dir, v) == KernelMap(data, v)
  }

  lemma KernelHalfHidden(dir: Dir, data: nat)
    requires KernelHalf(dir, data)
    ensures KernelHidden(dir)
  {
  }

  /** What an address space maps holds the same bytes. */
  ghost predicate SameBytes(w: Space, m0: map<nat, Bytes>, m1: map<nat, Bytes>) {
    forall v: nat :: v < USERPAGES && Lookup(w.dir, v).Page? && Lookup(w.dir, v).page in m0 ==>
      Lookup(w.dir, v).page in m1 && m1[Lookup(w.dir, v).page] == m0[Lookup(w.dir, v).page]
  }

  /** Every address space of ws but the i-th holds the same bytes. */
  ghost predicate OthersSame(ws: seq<Space>, i: nat, m0: map<nat, Bytes>, m1: map<nat, Bytes>) {
    forall j: nat :: j < |ws| && j != i ==> SameBytes(ws[j], m0, m1)
  }

  /** A process's pages are below its size, and memory; the kernel half is as it should be. */
  ghost predicate Fine(w: Space, sz: nat, mem: map<nat, Bytes>, data: nat) {
    Sized(w.dir, sz) && Backed(w.dir, mem) && KernelHalf(w.dir, data)
  }

  ghost predicate AllFine(ws: seq<Space>, sizes: seq<nat>, mem: map<nat, Bytes>, data: nat) {
    |ws| == |sizes| && forall i: nat :: i < |ws| ==> Fine(ws[i], sizes[i], mem, data)
  }

  lemma SameBytesBacked(w: Space, m0: map<nat, Bytes>, m1: map<nat, Bytes>)
    requires Backed(w.dir, m0) && SameBytes(w, m0, m1)
    ensures Backed(w.dir, m1)
  {
  }

  /** Every page is free or owned once at most. */
  ghost predicate Once(free: seq<nat>, ws: seq<Space>) {
    forall q: nat :: InList(free, q) + SumOwned(ws, q) <= 1
  }

  /** A page that one address space maps is neither free nor another's. */
  lemma MappedOnce(free: seq<nat>, ws: seq<Space>, j: nat, v: nat, q: nat)
    requires Once(free, ws) && j < |ws| && v < USERPAGES && Lookup(ws[j].dir, v).Page? && Lookup(ws[j].dir, v).page == q
    ensures InList(free, q) == 0 && OwnedBy(ws[j], q) == 1
    ensures forall i: nat :: i < |ws| && i != j ==> OwnedBy(ws[i], q) == 0
  {
    LookupOwned(ws[j].page, ws[j].dir, v, q);
    SumMinus(ws, j, q);
    assert InList(free, q) + SumOwned(ws, q) <= 1;
    forall i: nat | i < |ws| && i != j
      ensures OwnedBy(ws[i], q) == 0
    {
      SumTwo(ws, i, j, q);
    }
  }

  /** No two user pages, of one process or of two, are the same physical page. */
  lemma Isolated(free: seq<nat>, ws: seq<Space>, i: nat, u: nat, j: nat, v: nat)
    requires Once(free, ws) && i < |ws| && j < |ws| && u < USERPAGES && v < USERPAGES && (i != j || u != v)
    requires Lookup(ws[i].dir, u).Page? && Lookup(ws[j].dir, v).Page?
    ensures Lookup(ws[i].dir, u).page != Lookup(ws[j].dir, v).page
  {
    var q := Lookup(ws[j].dir, v).page;
    MappedOnce(free, ws, j, v, q);
    LookupOwned(ws[i].page, ws[i].dir, u, q);
    if i == j {
      MappedTwice(ws[j].page, ws[j].dir, v, u, q);
    }
  }

  /** What is neither free nor the i-th address space's includes all that the others map. */
  lemma TheirsStay(free: seq<nat>, ws: seq<Space>, i: nat, m0: map<nat, Bytes>, m1: map<nat, Bytes>)
    requires Once(free, ws) && i < |ws| && OthersStayed(free, ws[i].page, ws[i].dir, m0, m1)
    ensures OthersSame(ws, i, m0, m1)
  {
    forall j: nat, v: nat | j < |ws| && j != i && v < USERPAGES && Lookup(ws[j].dir, v).Page?
      ensures Total(free, ws[i].page, ws[i].dir, Lookup(ws[j].dir, v).page) == 0
    {
      MappedOnce(free, ws, j, v, Lookup(ws[j].dir, v).page);
    }
  }

  /** Pages in use were not touched. */
  ghost predicate InUseStayed(free: seq<nat>, m0: map<nat, Bytes>, m1: map<nat, Bytes>) {
    forall p: nat :: p in m0 && InList(free, p) == 0 ==> p in m1 && m1[p] == m0[p]
  }

  lemma AllStay(free: seq<nat>, ws: seq<Space>, m0: map<nat, Bytes>, m1: map<nat, Bytes>)
    requires Once(free, ws) && InUseStayed(free, m0, m1)
    ensures OthersSame(ws, |ws|, m0, m1)
  {
    forall j: nat, v: nat | j < |ws| && v < USERPAGES && Lookup(ws[j].dir, v).Page?
      ensures InList(free, Lookup(ws[j].dir, v).page) == 0
    {
      MappedOnce(free, ws, j, v, Lookup(ws[j].dir, v).page);
    }
  }

  lemma FineStays(ws: seq<Space>, sizes: seq<nat>, m0: map<nat, Bytes>, m1: map<nat, Bytes>, data: nat, i: nat, j: nat)
    requires AllFine(ws, sizes, m0, data) && OthersSame(ws, i, m0, m1) && j < |ws| && j != i
    ensures Fine(ws[j], sizes[j], m1, data)
  {
    assert Fine(ws[j], sizes[j], m0, data);
    SameBytesBacked(ws[j], m0, m1);
  }

  lemma FineAfter(ws: seq<Space>, sizes: seq<nat>, m0: map<nat, Bytes>, m1: map<nat, Bytes>, data: nat, i: nat,
                  w: Space, sz: nat)
    requires AllFine(ws, sizes, m0, data) && OthersSame(ws, i, m0, m1) && i < |ws| && Fine(w, sz, m1, data)
    ensures AllFine(ws[i := w], sizes[i := sz], m1, data)
  {
    forall j: nat | j < |ws| && j != i
      ensures Fine(ws[j], sizes[j], m1, data)
    {
      FineStays(ws, sizes, m0, m1, data, i, j);
    }
  }

  lemma FineMore(ws: seq<Space>, sizes: seq<nat>, m0: map<nat, Bytes>, m1: map<nat, Bytes>, data: nat, w: Space,
                 sz: nat)
    requires AllFine(ws, sizes, m0, data) && OthersSame(ws, |ws|, m0, m1) && Fine(w, sz, m1, data)
    ensures AllFine(ws + [w], sizes + [sz], m1, data)
  {
    forall j: nat | j < |ws|
      ensures Fine(ws[j], sizes[j], m1, data)
    {
      FineStays(ws, sizes, m0, m1, data, |ws|, j);
    }
  }

  lemma FineMinus(ws: seq<Space>, sizes: seq<nat>, m0: map<nat, Bytes>, m1: map<nat, Bytes>, data: nat, i: nat)
    requires AllFine(ws, sizes, m0, data) && OthersSame(ws, i, m0, m1) && i < |ws|
    ensures AllFine(Minus(ws, i), sizes[..i] + sizes[i + 1..], m1, data)
  {
    var sizes' := sizes[..i] + sizes[i + 1..];
    forall j: nat | j < |ws| - 1
      ensures Fine(Minus(ws, i)[j], sizes'[j], m1, data)
    {
      FineStays(ws, sizes, m0, m1, data, i, if j < i then j else j + 1);
    }
  }

  /** Every page below a process's size is mapped. */
  ghost predicate Whole(w: Space, sz: nat) {
    RoundUp(sz) <= USERPAGES && AllPresent(w.dir, RoundUp(sz))
  }

  ghost predicate AllWhole(ws: seq<Space>, sizes: seq<nat>) {
    |ws| == |sizes| && forall i: nat :: i < |ws| ==> Whole(ws[i], sizes[i])
  }

  lemma WholeMinus(ws: seq<Space>, sizes: seq<nat>, i: nat)
    requires AllWhole(ws, sizes) && i < |ws|
    ensures AllWhole(Minus(ws, i), sizes[..i] + sizes[i + 1..])
  {
    forall j: nat | j < |ws| - 1
      ensures Whole(Minus(ws, i)[j], (sizes[..i] + sizes[i + 1..])[j])
    {
      assert Whole(ws[if j < i then j else j + 1], sizes[if j < i then j else j + 1]);
    }
  }

  lemma WholeMore(ws: seq<Space>, sizes: seq<nat>, w: Space, sz: nat)
    requires AllWhole(ws, sizes) && Whole(w, sz)
    ensures AllWhole(ws + [w], sizes + [sz])
  {
  }

  lemma WholeAfter(ws: seq<Space>, sizes: seq<nat>, i: nat, w: Space, sz: nat)
    requires AllWhole(ws, sizes) && Whole(w, sz) && i < |ws|
    ensures AllWhole(ws[i := w], sizes[i := sz])
  {
  }

  lemma CopiedWhole(w: Space, mem: map<nat, Bytes>, src: Dir, mem0: map<nat, Bytes>, sz: nat, data: nat)
    requires RoundUp(sz) <= USERPAGES && Copied(w.dir, mem, src, mem0, RoundUp(sz), data)
    ensures Whole(w, sz)
  {
  }

  datatype Op =
    | Create
    | Fork(i: nat)
    | Resize(i: nat, n: int)
    | Write(i: nat, va: nat, buf: seq<int>)
    | Free(i: nat)

  class Machine {
    const km: Kmem
    const data: nat              // where the kernel's data begin
    var spaces: seq<Pgdir>
    var sizes: seq<nat>

    ghost function Views(): (r: seq<Space>)
      reads this, spaces
      ensures |r| == |spaces| && forall i :: 0 <= i < |r| ==> r[i] == Space(spaces[i].page, spaces[i].dir)
    {
      seq(|spaces|, i requires 0 <= i < |spaces| reads this, spaces => Space(spaces[i].page, spaces[i].dir))
    }

    /** How often page q is free or owned. */
    ghost function All(q: nat): nat
      reads this, km, spaces
    {
      InList(km.free, q) + SumOwned(Views(), q)
    }

    ghost predicate Valid()
      reads this, km, spaces
    {
      && km.Valid() && EXTMEM < data < PHYSTOP
      && (forall i, j :: 0 <= i < j < |spaces| ==> spaces[i] != spaces[j])
      && (forall q: nat :: All(q) <= km.Cap(q))
      && AllFine(Views(), sizes, km.mem, data)
    }

    constructor (km: Kmem, data: nat)
      requires km.Valid() && EXTMEM < data < PHYSTOP
      ensures Valid() && this.km == km && spaces == [] && forall q: nat :: All(q) == InList(km.free, q)
    {
      this.km, this.data, spaces, sizes := km, data, [], [];
    }

    lemma AllOnce()
      requires Valid()
      ensures Once(km.free, Views())
    {
      forall q: nat
        ensures InList(km.free, q) + SumOwned(Views(), q) <= 1
      {
        assert All(q) <= km.Cap(q);
      }
    }

    lemma OneIsSound(i: nat)
      requires Valid() && i < |spaces|
      ensures km.Sound(spaces[i])
    {
      forall q: nat
        ensures km.TotalOf(spaces[i], q) <= km.Cap(q)
      {
        SumMinus(Views(), i, q);
        assert All(q) <= km.Cap(q);
      }
    }

    /** growproc of process i */
    method Resize(i: nat, n: int) returns (r: int)
      requires Valid() && i < |spaces| && -0x8000_0000 <= n < 0x8000_0000
      modifies this`sizes, km, spaces[i]
      ensures Valid() && forall q: nat :: All(q) == old(All(q))
      ensures spaces == old(spaces) && Views() == old(Views())[i := Views()[i]]
      ensures OthersSame(old(Views()), i, old(km.mem), km.mem)
      ensures Stayed(old(spaces[i].dir), old(km.mem), spaces[i].dir, km.mem)
      ensures AllWhole(old(Views()), old(sizes)) && !ToZero(old(sizes)[i], n) ==> AllWhole(Views(), sizes)
    {
      ghost var ws, pd, free0, m0 := Views(), spaces[i], km.free, km.mem;
      OneIsSound(i);
      AllOnce();
      assert Fine(ws[i], sizes[i], m0, data);
      var size;
      r, size := Growproc(km, spaces[i], sizes[i], n);
      ghost var w := Space(pd.page, pd.dir);
      assert Views() == ws[i := w];
      forall q: nat
        ensures InList(km.free, q) + OwnedBy(w, q) == InList(free0, q) + OwnedBy(ws[i], q)
      {
        assert km.TotalOf(pd, q) == old(km.TotalOf(pd, q));
      }
      TheirsStay(free0, ws, i, m0, km.mem);
      Settle(i, size, w, free0, ws, m0);
    }

    /** Process i has changed, and takes up the pages it did with the free ones. */
    method Settle(i: nat, size: nat, ghost w: Space, ghost free0: seq<nat>, ghost ws: seq<Space>,
                  ghost m0: map<nat, Bytes>)
      requires i < |ws| && Views() == ws[i := w] && km.Valid() && EXTMEM < data < PHYSTOP
      requires forall i, j :: 0 <= i < j < |spaces| ==> spaces[i] != spaces[j]
      requires forall q: nat :: InList(km.free, q) + OwnedBy(w, q) == InList(free0, q) + OwnedBy(ws[i], q)
      requires forall q: nat :: InList(free0, q) + SumOwned(ws, q) <= km.Cap(q)
      requires AllFine(ws, sizes, m0, data) && OthersSame(ws, i, m0, km.mem) && Fine(w, size, km.mem, data)
      modifies this`sizes
      ensures Valid() && forall q: nat :: All(q) == InList(free0, q) + SumOwned(ws, q)
      ensures AllWhole(ws, old(sizes)) && Whole(w, size) ==> AllWhole(Views(), sizes)
    {
      if AllWhole(ws, sizes) && Whole(w, size) {
        WholeAfter(ws, sizes, i, w, size);
      }
      FineAfter(ws, sizes, m0, km.mem, data, i, w, size);
      ghost var vs := Views();
      sizes := sizes[i := size];
      assert Views() == vs;
      forall q: nat
        ensures All(q) == InList(free0, q) + SumOwned(ws, q)
      {
        SumUpdate(ws, i, w, q);
      }
    }

    /** copyout into process i */
    method Write(i: nat, va: nat, buf: seq<int>) returns (ok: bool, followsNull: bool, ghost n: nat)
      requires Valid() && i < |spaces| && va < ENTRIES * ENTRIES * PGSIZE
      modifies km`mem
      ensures Valid() && forall q: nat :: All(q) == old(All(q))
      ensures OthersSame(Views(), i, old(km.mem), km.mem)
      ensures n <= |buf| && Backed(spaces[i].dir, old(km.mem)) && Backed(spaces[i].dir, km.mem)
      ensures Written(spaces[i].page, spaces[i].dir, old(km.mem), km.mem, va, buf, n)
      ensures AllWhole(old(Views()), old(sizes)) ==> AllWhole(Views(), sizes)
    {
      ghost var ws, m0 := Views(), km.mem;
      OneIsSound(i);
      AllOnce();
      assert Fine(ws[i], sizes[i], m0, data);
      KernelHalfHidden(ws[i].dir, data);
      ok, followsNull, n := Copyout(km, spaces[i], va, buf);
      TheirsStay(km.free, ws, i, m0, km.mem);
      assert Fine(ws[i], sizes[i], km.mem, data);
      FineAfter(ws, sizes, m0, km.mem, data, i, ws[i], sizes[i]);
      assert ws[i := ws[i]] == ws && sizes[i := sizes[i]] == sizes;
    }

    /** setupkvm: one more address space, without user pages, unless memory is out */
    method Create() returns (ok: bool)
      requires Valid()
      modifies this`spaces, this`sizes, km
      ensures fresh(set pd | pd in spaces && pd !in old(spaces))
      ensures Valid() && forall q: nat :: All(q) == old(All(q))
      ensures ok ==> |spaces| == |old(spaces)| + 1 && KernelOnly(spaces[|old(spaces)|].dir, data)
      ensures ok ==> Views() == old(Views()) + [Views()[|old(spaces)|]] && sizes == old(sizes) + [0]
      ensures !ok ==> spaces == old(spaces) && sizes == old(sizes)
      ensures OthersSame(old(Views()), |old(spaces)|, old(km.mem), km.mem)
      ensures AllWhole(old(Views()), old(sizes)) ==> AllWhole(Views(), sizes)
    {
      ghost var ws, free0, m0 := Views(), km.free, km.mem;
      var pd := Fresh(ws);
      ok := pd != null;
      if ok {
        Join(pd, 0, free0, ws, m0);
      } else {
        NoneJoins(free0, ws, m0);
      }
    }

    method Fresh(ghost ws: seq<Space>) returns (pd: Pgdir?)
      requires Valid() && ws == Views()
      modifies km
      ensures km.Valid() && OthersSame(ws, |ws|, old(km.mem), km.mem)
      ensures pd != null ==>
          && fresh(pd) && KernelOnly(pd.dir, data) && Fine(Space(pd.page, pd.dir), 0, km.mem, data)
          && forall q: nat :: InList(km.free, q) + Owned(pd.page, pd.dir, q) == InList(old(km.free), q)
      ensures pd == null ==> forall q: nat :: InList(km.free, q) == InList(old(km.free), q)
    {
      ghost var free0, m0 := km.free, km.mem;
      ghost var keep := set p | p in km.mem && InList(km.free, p) == 0;
      AllOnce();
      pd := Setupkvm(km, data, keep);
      AllStay(free0, ws, m0, km.mem);
      if pd != null {
        FewerFree(km, pd, free0);
      }
    }

    /** copyuvm of process i; a panic leaves the machine as it fell. */
    method Fork(i: nat) returns (ok: bool, panicked: bool)
      requires Valid() && i < |spaces|
      modifies this`spaces, this`sizes, km
      ensures fresh(set pd | pd in spaces && pd !in old(spaces))
      ensures panicked ==> !Whole(old(Views())[i], old(sizes)[i])
      ensures AllWhole(old(Views()), old(sizes)) ==> !panicked && AllWhole(Views(), sizes)
      ensures !panicked ==> Valid() && forall q: nat :: All(q) == old(All(q))
      ensures ok ==> !panicked && |spaces| == |old(spaces)| + 1 && sizes == old(sizes) + [old(sizes)[i]]
      ensures ok ==>
          Views() == old(Views()) + [Views()[|old(spaces)|]]
          && Copied(spaces[|old(spaces)|].dir, km.mem, old(spaces[i].dir), old(km.mem), RoundUp(old(sizes)[i]), data)
      ensures !ok ==> spaces == old(spaces) && sizes == old(sizes)
      ensures OthersSame(old(Views()), |old(spaces)|, old(km.mem), km.mem)
    {
      ghost var ws, free0, m0 := Views(), km.free, km.mem;
      OneIsSound(i);
      AllOnce();
      assert Fine(ws[i], sizes[i], m0, data);
      var pd;
      pd, panicked := Copyuvm(km, spaces[i], sizes[i], data);
      AllStay(free0, ws, m0, km.mem);
      ok := pd != null;
      if ok {
        CopiedWhole(Space(pd.page, pd.dir), km.mem, ws[i].dir, m0, sizes[i], data);
        Join(pd, sizes[i], free0, ws, m0);
      } else if !panicked {
        NoneJoins(free0, ws, m0);
      }
    }

    /** The new address space joins the others. */
    method Join(pd: Pgdir, sz: nat, ghost free0: seq<nat>, ghost ws: seq<Space>, ghost m0: map<nat, Bytes>)
      requires ws == Views() && pd !in spaces && km.Valid() && EXTMEM < data < PHYSTOP
      requires forall i, j :: 0 <= i < j < |spaces| ==> spaces[i] != spaces[j]
      requires forall q: nat :: InList(km.free, q) + Owned(pd.page, pd.dir, q) == InList(free0, q)
      requires forall q: nat :: InList(free0, q) + SumOwned(ws, q) <= km.Cap(q)
      requires AllFine(ws, sizes, m0, data) && OthersSame(ws, |ws|, m0, km.mem)
      requires Fine(Space(pd.page, pd.dir), sz, km.mem, data)
      modifies this`spaces, this`sizes
      ensures Valid() && forall q: nat :: All(q) == InList(free0, q) + SumOwned(ws, q)
      ensures spaces == old(spaces) + [pd] && sizes == old(sizes) + [sz]
      ensures Views() == ws + [Space(pd.page, pd.dir)]
      ensures AllWhole(ws, old(sizes)) && Whole(Space(pd.page, pd.dir), sz) ==> AllWhole(Views(), sizes)
    {
      ghost var w := Space(pd.page, pd.dir);
      if AllWhole(ws, sizes) && Whole(w, sz) {
        WholeMore(ws, sizes, w, sz);
      }
      FineMore(ws, sizes, m0, km.mem, data, w, sz);
      spaces, sizes := spaces + [pd], sizes + [sz];
      assert Views() == ws + [w];
      forall q: nat
        ensures All(q) == InList(free0, q) + SumOwned(ws, q)
      {
        assert (ws + [w])[..|ws|] == ws;
      }
    }

    lemma NoneJoins(free0: seq<nat>, ws: seq<Space>, m0: map<nat, Bytes>)
      requires ws == Views() && km.Valid() && EXTMEM < data < PHYSTOP
      requires forall i, j :: 0 <= i < j < |spaces| ==> spaces[i] != spaces[j]
      requires forall q: nat :: InList(km.free, q) == InList(free0, q)
      requires forall q: nat :: InList(free0, q) + SumOwned(ws, q) <= km.Cap(q)
      requires AllFine(ws, sizes, m0, data) && OthersSame(ws, |ws|, m0, km.mem)
      ensures Valid() && forall q: nat :: All(q) == InList(free0, q) + SumOwned(ws, q)
    {
      forall j: nat | j < |ws|
        ensures Fine(ws[j], sizes[j], km.mem, data)
      {
        FineStays(ws, sizes, m0, km.mem, data, |ws|, j);
      }
    }

    /** freevm of process i, which is gone afterwards */
    method Free(i: nat)
      requires Valid() && i < |spaces|
      modifies this`spaces, this`sizes, km, spaces[i]
      ensures fresh(set pd | pd in spaces && pd !in old(spaces))
      ensures Valid() && forall q: nat :: All(q) == old(All(q))
      ensures Views() == Minus(old(Views()), i) && sizes == old(sizes)[..i] + old(sizes)[i + 1..]
      ensures AllWhole(old(Views()), old(sizes)) ==> AllWhole(Views(), sizes)
      ensures OthersSame(old(Views()), i, old(km.mem), km.mem)
    {
      ghost var ws, free0, m0 := Views(), km.free, km.mem;
      Empty(i, ws);
      Leave(i, free0, ws, m0);
    }

    method Empty(i: nat, ghost ws: seq<Space>)
      requires Valid() && i < |spaces| && ws == Views()
      modifies km, spaces[i]
      ensures km.Valid() && OthersSame(ws, i, old(km.mem), km.mem)
      ensures Views()[..i] == ws[..i] && Views()[i + 1..] == ws[i + 1..]
      ensures forall q: nat :: InList(km.free, q) == InList(old(km.free), q) + OwnedBy(ws[i], q)
    {
      ghost var pd, free0, m0 := spaces[i], km.free, km.mem;
      ghost var keep := set p | p in km.mem && km.TotalOf(pd, p) == 0;
      OneIsSound(i);
      AllOnce();
      Freevm(km, spaces[i], keep);
      TheirsStay(free0, ws, i, m0, km.mem);
    }

    /** Process i leaves, and its pages are free. */
    method Leave(i: nat, ghost free0: seq<nat>, ghost ws: seq<Space>, ghost m0: map<nat, Bytes>)
      requires i < |ws| == |spaces| && Views()[..i] == ws[..i] && Views()[i + 1..] == ws[i + 1..]
      requires km.Valid() && EXTMEM < data < PHYSTOP
      requires forall i, j :: 0 <= i < j < |spaces| ==> spaces[i] != spaces[j]
      requires forall q: nat :: InList(km.free, q) == InList(free0, q) + OwnedBy(ws[i], q)
      requires forall q: nat :: InList(free0, q) + SumOwned(ws, q) <= km.Cap(q)
      requires AllFine(ws, sizes, m0, data) && OthersSame(ws, i, m0, km.mem)
      modifies this`spaces, this`sizes
      ensures spaces == old(spaces)[..i] + old(spaces)[i + 1..]
      ensures Valid() && forall q: nat :: All(q) == InList(free0, q) + SumOwned(ws, q)
      ensures Views() == Minus(ws, i) && sizes == old(sizes)[..i] + old(sizes)[i + 1..]
      ensures AllWhole(ws, old(sizes)) ==> AllWhole(Views(), sizes)
    {
      if AllWhole(ws, sizes) {
        WholeMinus(ws, sizes, i);
      }
      FineMinus(ws, sizes, m0, km.mem, data, i);
      ghost var vs := Views();
      spaces, sizes := spaces[..i] + spaces[i + 1..], sizes[..i] + sizes[i + 1..];
      assert Views() == vs[..i] + vs[i + 1..];
      forall q: nat
        ensures All(q) == InList(free0, q) + SumOwned(ws, q)
      {
        SumMinus(ws, i, q);
      }
    }

    /** The operation shrinks a process to exactly zero. */
    predicate Zeroes(op: Op)
      requires |sizes| >= |spaces|
      reads this
    {
      op.Resize? && op.i < |spaces| && ToZero(sizes[op.i], op.n)
    }

    /** What a process, or a new one, asks for; a number that names no process is passed over. */
    method Do(op: Op) returns (panicked: bool)
      requires Valid()
      modifies this, km, spaces
      ensures fresh(set pd | pd in spaces && pd !in old(spaces))
      ensures !panicked ==> Valid() && forall q: nat :: All(q) == old(All(q))
      ensures AllWhole(old(Views()), old(sizes)) && !old(Zeroes(op)) ==> !panicked && AllWhole(Views(), sizes)
    {
      panicked := false;
      match op
      case Create =>
        var ok := Create();
      case Fork(i) =>
        if i < |spaces| {
          var ok;
          ok, panicked := Fork(i);
        }
      case Resize(i, n) =>
        if i < |spaces| && -0x8000_0000 <= n < 0x8000_0000 {
          var r := Resize(i, n);
        }
      case Write(i, va, buf) =>
        if i < |spaces| && va < ENTRIES * ENTRIES * PGSIZE {
          ghost var n;
          var ok, followsNull;
          ok, followsNull, n := Write(i, va, buf);
        }
      case Free(i) =>
        if i < |spaces| {
          Free(i);
        }
    }

    /**
      Over any sequence of operations on any address spaces no page is lost and none is owned twice,
      up to a panic of copyuvm; and that does not happen as long as no process shrinks itself to
      exactly zero.
     */
    method Run(ops: seq<Op>) returns (panicked: bool, zeroed: bool)
      requires Valid()
      modifies this, km, spaces
      ensures !panicked ==> Valid() && forall q: nat :: All(q) == old(All(q))
      ensures AllWhole(old(Views()), old(sizes)) && !zeroed ==> !panicked && AllWhole(Views(), sizes)
    {
      panicked, zeroed := false, false;
      var i := 0;
      while i < |ops|
        invariant 0 <= i <= |ops| && !panicked && Valid() && forall q: nat :: All(q) == old(All(q))
        invariant fresh(set pd | pd in spaces && pd !in old(spaces))
        invariant AllWhole(old(Views()), old(sizes)) && !zeroed ==> AllWhole(Views(), sizes)
      {
        zeroed := zeroed || Zeroes(ops[i]);
        panicked := Do(ops[i]);
        if panicked {
          return;
        }
        i := i + 1;
      }
    }
  }
}
