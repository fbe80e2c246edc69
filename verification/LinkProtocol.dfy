/**
  Link counts: link, unlink, create and the freeing of inodes by iput, in any number of processes,
  interleaved wherever an inode lock is taken or dropped.
 */
module LinkProtocol {
  import opened Basics

  const DOTDOT: string := ".."

  predicate IsDot(name: string) {
    name == "." || name == DOTDOT
  }

  datatype Kind = Free | File | Directory

  /** `home` is for the proof: the entry that a directory was created under. */
  datatype Inode = Inode(kind: Kind, nlink: int, lock: Option<nat>, home: Option<Edge>)

  /** A directory entry's place. */
  datatype Edge = Edge(dir: nat, name: string)

  datatype Thread =
    | Idle
    | LinkFound(ip: nat)                      // namei(old)
    | LinkCounted(ip: nat)                    // nlink++ done
    | LinkParent(ip: nat, dp: nat, name: string) // nameiparent(new)
    | LinkBad(ip: nat)                        // about to undo nlink++
    | UnlinkParent(dp: nat)                   // nameiparent(path)
    | UnlinkFound(dp: nat, name: string, ip: nat) // dp locked, entry found
    | UnlinkGone(ip: nat)                     // entry cleared, ip locked, nlink-- to come
    | CreateParent(dp: nat)

  /**
    `at` are the directory entries but ".", and of the ".." only those of directories that are
    not unlinked; `names` is the same seen from the inodes. `lost` counts, for the proof, the
    entries naming an inode that went away with a directory when the directory was freed.
   */
  datatype State = State(inodes: seq<Inode>, at: map<Edge, nat>, names: seq<set<Edge>>, lost: seq<nat>,
                         threads: seq<Thread>, panicked: bool)

  datatype Action =
    | BeginLink(t: nat, ip: nat)
    | CountLink(t: nat)
    | FindParent(t: nat, dp: nat, name: string)
    | NoParent(t: nat)
    | AddLink(t: nat)
    | UndoLink(t: nat)
    | BeginUnlink(t: nat, dp: nat)
    | FindEntry(t: nat, name: string)
    | ClearEntry(t: nat)
    | CountUnlink(t: nat)
    | BeginCreate(t: nat, dp: nat)
    | Create(t: nat, name: string, dir: bool, i: nat)
    | FreeInode(i: nat)

  // ---------- what a thread holds ----------

  /** The thread has a reference to inode i, so iput by another cannot free it. */
  predicate Holds(th: Thread, i: nat) {
    match th
    case Idle => false
    case LinkFound(ip) => i == ip
    case LinkCounted(ip) => i == ip
    case LinkParent(ip, dp, _) => i == ip || i == dp
    case LinkBad(ip) => i == ip
    case UnlinkParent(dp) => i == dp
    case UnlinkFound(dp, _, ip) => i == dp || i == ip
    case UnlinkGone(ip) => i == ip
    case CreateParent(dp) => i == dp
  }

  /** The inode whose nlink the thread keeps one above its entries, if any. */
  function Extra(th: Thread): Option<nat> {
    match th
    case LinkCounted(ip) => Some(ip)
    case LinkParent(ip, _, _) => Some(ip)
    case LinkBad(ip) => Some(ip)
    case UnlinkGone(ip) => Some(ip)
    case _ => None
  }

  function One(th: Thread, i: nat): nat {
    if Extra(th) == Some(i) then 1 else 0
  }

  function Pending(ths: seq<Thread>, i: nat): nat {
    if ths == [] then 0 else Pending(ths[..|ths| - 1], i) + One(ths[|ths| - 1], i)
  }

  lemma {:induction false} PendingUpdate(ths: seq<Thread>, t: nat, th: Thread, i: nat)
    requires t < |ths|
    ensures Pending(ths[t := th], i) == Pending(ths, i) - One(ths[t], i) + One(th, i)
    ensures Pending(ths, i) >= One(ths[t], i)
  {
    var n := |ths| - 1;
    if t == n {
      assert ths[t := th][..n] == ths[..n];
    } else {
      assert ths[t := th][..n] == ths[..n][t := th];
      PendingUpdate(ths[..n], t, th, i);
    }
  }

  // ---------- the steps ----------

  predicate Unlocked(s: State, i: nat) {
    i < |s.inodes| && s.inodes[i].lock == None
  }

  predicate IsDir(s: State, i: nat) {
    i < |s.inodes| && s.inodes[i].kind == Directory
  }

  predicate Live(s: State, i: nat) {
    i < |s.inodes| && s.inodes[i].kind != Free
  }

  /** namei and nameiparent deliver an inode that is in use, with a reference; nameiparent's is a directory. */
  predicate Enabled(s: State, e: Action) {
    && !s.panicked
    && match e
       case BeginLink(t, ip) => t < |s.threads| && s.threads[t].Idle? && Live(s, ip)
       case CountLink(t) => t < |s.threads| && s.threads[t].LinkFound? && Unlocked(s, s.threads[t].ip)
       case FindParent(t, dp, name) => t < |s.threads| && s.threads[t].LinkCounted? && IsDir(s, dp)
       case NoParent(t) => t < |s.threads| && s.threads[t].LinkCounted?
       case AddLink(t) =>
           t < |s.threads| && s.threads[t].LinkParent? && Unlocked(s, s.threads[t].dp) && s.threads[t].ip < |s.names|
       case UndoLink(t) => t < |s.threads| && s.threads[t].LinkBad? && Unlocked(s, s.threads[t].ip)
       case BeginUnlink(t, dp) => t < |s.threads| && s.threads[t].Idle? && IsDir(s, dp)
       case FindEntry(t, name) => t < |s.threads| && s.threads[t].UnlinkParent? && Unlocked(s, s.threads[t].dp)
       case ClearEntry(t) => t < |s.threads| && s.threads[t].UnlinkFound? && Unlocked(s, s.threads[t].ip)
                             && s.threads[t].dp < |s.inodes| == |s.names| && s.threads[t].dp != s.threads[t].ip
       case CountUnlink(t) => t < |s.threads| && s.threads[t].UnlinkGone? && s.threads[t].ip < |s.inodes|
       case BeginCreate(t, dp) => t < |s.threads| && s.threads[t].Idle? && IsDir(s, dp)
       case Create(t, name, dir, i) => t < |s.threads| && s.threads[t].CreateParent? && Unlocked(s, s.threads[t].dp)
                                       && i < |s.inodes| == |s.names| && s.inodes[i].kind == Free
                                          && i != s.threads[t].dp
       case FreeInode(i) =>
           Live(s, i) && Unlocked(s, i) && s.inodes[i].nlink == 0 && |s.inodes| == |s.names| == |s.lost|
                            && forall t :: 0 <= t < |s.threads| ==> !Holds(s.threads[t], i)
  }

  function Goto(s: State, t: nat, th: Thread): State
    requires t < |s.threads|
  {
    s.(threads := s.threads[t := th])
  }

  function SetNlink(s: State, i: nat, n: int): State
    requires i < |s.inodes|
  {
    s.(inodes := s.inodes[i := s.inodes[i].(nlink := n)])
  }

  function SetLock(s: State, i: nat, l: Option<nat>): State
    requires i < |s.inodes|
  {
    s.(inodes := s.inodes[i := s.inodes[i].(lock := l)])
  }

  function AddEdge(s: State, e: Edge, i: nat): State
    requires i < |s.names|
  {
    s.(at := s.at[e := i], names := s.names[i := s.names[i] + {e}])
  }

  function DropEdge(s: State, e: Edge, i: nat): State
    requires i < |s.names|
  {
    s.(at := s.at - {e}, names := s.names[i := s.names[i] - {e}])
  }

  /** dirlink */
  function Linked(s: State, t: nat): State
    requires Enabled(s, AddLink(t))
  {
    var th := s.threads[t];
    var e := Edge(th.dp, th.name);
    if e in s.at || IsDot(th.name) then Goto(s, t, LinkBad(th.ip))
    else Goto(AddEdge(s, e, th.ip), t, Idle)
  }

  /** isdirempty */
  ghost predicate NoEntries(s: State, i: nat) {
    forall e: Edge :: e in s.at && e.dir == i ==> e.name == DOTDOT
  }

  /** unlink with both inodes locked, up to iunlockput(dp) */
  ghost function Cleared(s: State, t: nat): State
    requires Enabled(s, ClearEntry(t))
  {
    var th := s.threads[t];
    if s.inodes[th.ip].nlink < 1 then s.(panicked := true)
    else if s.inodes[th.ip].kind == Directory && !NoEntries(s, th.ip) then Goto(SetLock(s, th.dp, None), t, Idle)
    else
      var s1 := DropEdge(s, Edge(th.dp, th.name), th.ip);
      var s2 := if s.inodes[th.ip].kind == Directory
                then SetNlink(DropEdge(s1, Edge(th.ip, DOTDOT), th.dp), th.dp, s.inodes[th.dp].nlink - 1) else s1;
      Goto(SetLock(SetLock(s2, th.dp, None), th.ip, Some(t)), t, UnlinkGone(th.ip))
  }

  /** create for a name that is not there: ialloc, nlink = 1, the dots of a directory, dirlink. */
  function Created(s: State, t: nat, name: string, dir: bool, i: nat): State
    requires Enabled(s, Create(t, name, dir, i))
  {
    var dp := s.threads[t].dp;
    var e := Edge(dp, name);
    if e in s.at || IsDot(name) then Goto(s, t, Idle)
    else
      var made := Inode(if dir then Directory else File, 1, None, if dir then Some(e) else None);
      var s1 := s.(inodes := s.inodes[i := made]);
      var s2 := if dir then AddEdge(SetNlink(s1, dp, s1.inodes[dp].nlink + 1), Edge(i, DOTDOT), dp) else s1;
      Goto(AddEdge(s2, e, i), t, Idle)
  }

  /** iput of the last reference to an inode without links: itrunc and type 0. A directory's entries go with it. */
  function Freed(s: State, i: nat): State
    requires Enabled(s, FreeInode(i))
  {
    s.(inodes := s.inodes[i := Inode(Free, 0, None, None)],
       at := map e | e in s.at && e.dir != i :: s.at[e],
       names := seq(|s.names|, j requires 0 <= j < |s.names| => set e | e in s.names[j] && e.dir != i),
       lost := seq(|s.lost|, j requires 0 <= j < |s.lost| => s.lost[j] + |InDirectory(s.names[j], i)|))
  }

  /** Of the entries, those in directory i. */
  function InDirectory(names: set<Edge>, i: nat): set<Edge> {
    set e | e in names && e.dir == i
  }

  ghost function Step(s: State, a: Action): State
    requires Enabled(s, a)
  {
    match a
    case BeginLink(t, ip) => Goto(s, t, LinkFound(ip))
    case CountLink(t) =>
      var ip := s.threads[t].ip;
      if s.inodes[ip].kind == Directory then Goto(s, t, Idle)
      else Goto(SetNlink(s, ip, s.inodes[ip].nlink + 1), t, LinkCounted(ip))
    case FindParent(t, dp, name) => Goto(s, t, LinkParent(s.threads[t].ip, dp, name))
    case NoParent(t) => Goto(s, t, LinkBad(s.threads[t].ip))
    case AddLink(t) => Linked(s, t)
    case UndoLink(t) => Goto(SetNlink(s, s.threads[t].ip, s.inodes[s.threads[t].ip].nlink - 1), t, Idle)
    case BeginUnlink(t, dp) => Goto(s, t, UnlinkParent(dp))
    case FindEntry(t, name) =>
      var dp := s.threads[t].dp;
      if IsDot(name) || Edge(dp, name) !in s.at then Goto(s, t, Idle)
      else Goto(SetLock(s, dp, Some(t)), t, UnlinkFound(dp, name, s.at[Edge(dp, name)]))
    case ClearEntry(t) => Cleared(s, t)
    case CountUnlink(t) =>
      var ip := s.threads[t].ip;
      Goto(SetLock(SetNlink(s, ip, s.inodes[ip].nlink - 1), ip, None), t, Idle)
    case BeginCreate(t, dp) => Goto(s, t, CreateParent(dp))
    case Create(t, name, dir, i) => Created(s, t, name, dir, i)
    case FreeInode(i) => Freed(s, i)
  }

  // ---------- the invariant ----------

  /** Entries and names are two views of the same thing, and neither end is a free inode. */
  ghost predicate EdgeOk(s: State, e: Edge) {
    e in s.at ==> IsDir(s, e.dir) && Live(s, s.at[e]) && s.at[e] < |s.names| && e in s.names[s.at[e]]
  }

  ghost predicate NameOk(s: State, i: nat, e: Edge)
    requires i < |s.names|
  {
    e in s.names[i] ==> e in s.at && s.at[e] == i
  }

  ghost predicate Names(s: State) {
    && |s.names| == |s.inodes|
    && (forall e: Edge :: e in s.at ==> EdgeOk(s, e))
    && (forall i: nat, e: Edge :: i < |s.names| && e in s.names[i] ==> NameOk(s, i, e))
  }

  /** A directory has one name at most, and while it has it, its ".." is counted for its parent. */
  ghost predicate DirOk(s: State, e: Edge) {
    e in s.at && e.name != DOTDOT && IsDir(s, s.at[e]) ==>
      && s.inodes[s.at[e]].home == Some(e)
      && Edge(s.at[e], DOTDOT) in s.at && s.at[Edge(s.at[e], DOTDOT)] == e.dir
  }

  ghost predicate Tree(s: State) {
    forall e: Edge :: e in s.at ==> DirOk(s, e)
  }

  /** The heart of it: links are entries, half-done links and entries lost with their directory. */
  ghost predicate Counted(s: State, i: nat)
    requires i < |s.inodes| && i < |s.names| && i < |s.lost|
  {
    && s.inodes[i].nlink == |s.names[i]| + Pending(s.threads, i) + s.lost[i]
    && (s.inodes[i].kind == Free ==> s.inodes[i].nlink == 0)
  }

  ghost predicate Counts(s: State) {
    |s.names| == |s.inodes| == |s.lost| && forall i: nat :: i < |s.inodes| ==> Counted(s, i)
  }

  ghost predicate ThreadOk(s: State, t: nat)
    requires t < |s.threads|
  {
    var th := s.threads[t];
    && (forall i: nat :: Holds(th, i) ==> Live(s, i))
    && match th
       case LinkCounted(ip) => !IsDir(s, ip)
       case LinkParent(ip, dp, _) => !IsDir(s, ip) && IsDir(s, dp)
       case UnlinkParent(dp) => IsDir(s, dp)
       case CreateParent(dp) => IsDir(s, dp)
       case UnlinkFound(dp, name, ip) =>
         IsDir(s, dp) && s.inodes[dp].lock == Some(t) && !IsDot(name) && Edge(dp, name) in s.at
         && s.at[Edge(dp, name)] == ip
       case UnlinkGone(ip) => ip < |s.inodes| && s.inodes[ip].lock == Some(t)
       case _ => true
  }

  ghost predicate Threads(s: State) {
    forall t: nat :: t < |s.threads| ==> ThreadOk(s, t)
  }

  ghost predicate Inv(s: State) {
    !s.panicked && Names(s) && Tree(s) && Counts(s) && Threads(s)
  }

  // ---------- entries ----------

  /** The inodes' kinds and homes are the same: only links, locks and threads differ. */
  ghost predicate SameKinds(s: State, s': State) {
    && |s'.inodes| == |s.inodes|
    && forall i: nat :: i < |s.inodes| ==>
       s'.inodes[i].kind == s.inodes[i].kind && s'.inodes[i].home == s.inodes[i].home
  }

  lemma SameNames(s: State, s': State)
    requires Names(s) && SameKinds(s, s') && s'.at == s.at && s'.names == s.names
    ensures Names(s')
  {
    forall e: Edge | e in s'.at
      ensures EdgeOk(s', e)
    {
      assert EdgeOk(s, e);
    }
    forall i: nat, e: Edge | i < |s'.names| && e in s'.names[i]
      ensures NameOk(s', i, e)
    {
      assert NameOk(s, i, e);
    }
  }

  lemma SameTree(s: State, s': State)
    requires Names(s) && Tree(s) && SameKinds(s, s') && s'.at == s.at
    ensures Tree(s')
  {
    forall e: Edge | e in s'.at
      ensures DirOk(s', e)
    {
      assert DirOk(s, e) && EdgeOk(s, e);
    }
  }

  lemma AddEdgeNames(s: State, e: Edge, i: nat)
    requires Names(s) && e !in s.at && IsDir(s, e.dir) && Live(s, i)
    ensures Names(AddEdge(s, e, i))
  {
    var s' := AddEdge(s, e, i);
    forall f: Edge | f in s'.at
      ensures EdgeOk(s', f)
    {
      if f != e {
        assert EdgeOk(s, f);
      }
    }
    forall j: nat, f: Edge | j < |s'.names| && f in s'.names[j]
      ensures NameOk(s', j, f)
    {
      if f in s.names[j] {
        assert NameOk(s, j, f);
      }
    }
  }

  lemma DropEdgeNames(s: State, e: Edge, i: nat)
    requires Names(s) && e in s.at && s.at[e] == i
    ensures i < |s.names| && e in s.names[i] && Names(DropEdge(s, e, i))
  {
    assert EdgeOk(s, e);
    var s' := DropEdge(s, e, i);
    forall f: Edge | f in s'.at
      ensures EdgeOk(s', f)
    {
      assert EdgeOk(s, f);
    }
    forall j: nat, f: Edge | j < |s'.names| && f in s'.names[j]
      ensures NameOk(s', j, f)
    {
      assert f in s.names[j] && NameOk(s, j, f);
    }
  }

  /** A new name for a file, or the first one for a directory. */
  lemma AddEdgeTree(s: State, e: Edge, i: nat)
    requires Names(s) && Tree(s) && e !in s.at && Live(s, i)
    requires e.name == DOTDOT || !IsDir(s, i)
             || (s.inodes[i].home == Some(e) && Edge(i, DOTDOT) in s.at && s.at[Edge(i, DOTDOT)] == e.dir)
    ensures Tree(AddEdge(s, e, i))
  {
    var s' := AddEdge(s, e, i);
    forall f: Edge | f in s'.at
      ensures DirOk(s', f)
    {
      if f != e {
        assert DirOk(s, f) && EdgeOk(s, f);
      }
    }
  }

  // ---------- the steps that only touch threads, links and locks ----------

  /** nlink and the threads change so that inode i still has its share. */
  lemma CountsKept(s: State, s': State, t: nat, th: Thread)
    requires Counts(s) && t < |s.threads| && s'.threads == s.threads[t := th] && s'.names == s.names
    requires |s'.inodes| == |s.inodes| && s'.lost == s.lost
    requires forall i: nat :: i < |s.inodes| ==>
        s'.inodes[i].nlink - One(th, i) == s.inodes[i].nlink - One(s.threads[t], i)
    requires forall i: nat :: i < |s.inodes| ==> s'.inodes[i].kind == s.inodes[i].kind
    requires forall i: nat :: i < |s.inodes| && s.inodes[i].kind == Free ==> s'.inodes[i].nlink == s.inodes[i].nlink
    ensures Counts(s')
  {
    forall i: nat | i < |s'.inodes|
      ensures Counted(s', i)
    {
      assert Counted(s, i);
      PendingUpdate(s.threads, t, th, i);
    }
  }

  /** The other threads do not notice. */
  lemma ThreadsKept(s: State, s': State, t: nat, th: Thread)
    requires Threads(s) && t < |s.threads| && s'.threads == s.threads[t := th] && ThreadOk(s', t)
    requires |s'.inodes| == |s.inodes| && forall i: nat :: i < |s.inodes| ==> s'.inodes[i].kind == s.inodes[i].kind
    requires forall i: nat :: i < |s.inodes| ==>
               s'.inodes[i].lock == s.inodes[i].lock || s.inodes[i].lock == None || s.inodes[i].lock == Some(t)
    requires forall e: Edge ::
        e in s.at && !IsDot(e.name) && e.dir < |s.inodes| && s.inodes[e.dir].lock.Some?
        && s.inodes[e.dir].lock != Some(t) ==>
               e in s'.at && s'.at[e] == s.at[e]
    ensures Threads(s')
  {
    forall u: nat | u < |s'.threads|
      ensures ThreadOk(s', u)
    {
      if u != t {
        assert ThreadOk(s, u);
        forall i: nat | Holds(s'.threads[u], i)
          ensures Live(s', i)
        {
          assert Live(s, i);
        }
      }
    }
  }

  predicate Plain(a: Action) {
    a.BeginLink? || a.CountLink? || a.FindParent? || a.NoParent? || a.UndoLink? || a.BeginUnlink? || a.FindEntry?
    || a.CountUnlink? || a.BeginCreate?
  }

  /** Such a step changes no entry, no kind and no thread but its own, and locks only what was free. */
  ghost predicate PlainStep(s: State, s': State, t: nat) {
    && t < |s.threads| && |s'.threads| == |s.threads| && s'.threads == s.threads[t := s'.threads[t]]
    && s'.at == s.at && s'.names == s.names && s'.lost == s.lost && !s'.panicked && SameKinds(s, s')
    && forall i: nat :: i < |s.inodes| ==> LockKept(s, s', t, i)
  }

  predicate LockKept(s: State, s': State, t: nat, i: nat)
    requires i < |s.inodes| && i < |s'.inodes|
  {
    s'.inodes[i].lock == s.inodes[i].lock || s.inodes[i].lock == None || s.inodes[i].lock == Some(t)
  }

  predicate Counting(a: Action) {
    a.CountLink? || a.UndoLink? || a.CountUnlink?
  }

  lemma CountingIs(s: State, a: Action, s': State)
    requires Inv(s) && Enabled(s, a) && Counting(a) && s' == Step(s, a)
    ensures PlainStep(s, s', a.t)
  {
    assert ThreadOk(s, a.t);
  }

  lemma QuietIs(s: State, a: Action, s': State)
    requires Inv(s) && Enabled(s, a) && Plain(a) && !Counting(a) && s' == Step(s, a)
    ensures PlainStep(s, s', a.t)
  {
    assert ThreadOk(s, a.t);
  }

  /** The steps that change nlink. */
  lemma PlainCounts(s: State, a: Action, s': State)
    requires Inv(s) && Enabled(s, a) && Counting(a) && s' == Step(s, a)
    ensures Counts(s')
  {
    var th := s.threads[a.t];
    assert ThreadOk(s, a.t);
    assert Holds(th, th.ip) && Live(s, th.ip);
    CountsKept(s, s', a.t, s'.threads[a.t]);
  }

  lemma QuietCounts(s: State, a: Action, s': State)
    requires Inv(s) && Enabled(s, a) && Plain(a) && !Counting(a) && s' == Step(s, a)
    ensures Counts(s')
  {
    CountsKept(s, s', a.t, s'.threads[a.t]);
  }

  lemma FoundThread(s: State, a: Action, s': State)
    requires Inv(s) && Enabled(s, a) && a.FindEntry? && s' == Step(s, a)
    ensures ThreadOk(s', a.t)
  {
    assert ThreadOk(s, a.t);
    var e := Edge(s.threads[a.t].dp, a.name);
    if e in s.at {
      assert EdgeOk(s, e);
    }
  }

  lemma PlainThread(s: State, a: Action, s': State)
    requires Inv(s) && Enabled(s, a) && Plain(a) && !a.FindEntry? && s' == Step(s, a)
    ensures ThreadOk(s', a.t)
  {
    assert ThreadOk(s, a.t);
    forall i: nat | Holds(s'.threads[a.t], i)
      ensures Live(s', i)
    {
      if Holds(s.threads[a.t], i) {
        assert Live(s, i);
      }
    }
  }

  lemma PlainKeeps(s: State, a: Action, s': State)
    requires Inv(s) && Enabled(s, a) && Plain(a) && s' == Step(s, a)
    ensures Inv(s')
  {
    if Counting(a) {
      CountingIs(s, a, s');
      PlainCounts(s, a, s');
    } else {
      QuietIs(s, a, s');
      QuietCounts(s, a, s');
    }
    if a.FindEntry? {
      FoundThread(s, a, s');
    } else {
      PlainThread(s, a, s');
    }
    PlainInv(s, s', a.t);
  }

  lemma PlainInv(s: State, s': State, t: nat)
    requires Inv(s) && PlainStep(s, s', t) && Counts(s') && ThreadOk(s', t)
    ensures Inv(s')
  {
    SameNames(s, s');
    SameTree(s, s');
    forall i: nat | i < |s.inodes|
      ensures s'.inodes[i].lock == s.inodes[i].lock || s.inodes[i].lock == None || s.inodes[i].lock == Some(t)
    {
      assert LockKept(s, s', t, i);
    }
    ThreadsKept(s, s', t, s'.threads[t]);
  }

  // ---------- dirlink ----------

  lemma AddEdgeCounts(s: State, s': State, t: nat, th: Thread, e: Edge, i: nat)
    requires Names(s) && Counts(s) && t < |s.threads| && e !in s.at && i < |s.inodes|
    requires s'.inodes == s.inodes && s'.threads == s.threads[t := th] && s'.names == s.names[i := s.names[i] + {e}]
    requires s'.lost == s.lost
    requires Extra(s.threads[t]) == Some(i) && Extra(th) == None
    ensures Counts(s')
  {
    forall j: nat | j < |s'.inodes|
      ensures Counted(s', j)
    {
      assert Counted(s, j);
      PendingUpdate(s.threads, t, th, j);
    }
  }

  lemma AddLinkKeeps(s: State, t: nat, s': State)
    requires Inv(s) && Enabled(s, AddLink(t)) && s' == Step(s, AddLink(t))
    ensures Inv(s')
  {
    var th := s.threads[t];
    assert ThreadOk(s, t);
    assert Holds(th, th.ip);
    var e := Edge(th.dp, th.name);
    if e in s.at || IsDot(th.name) {
      NotAdded(s, t, th, s');
    } else {
      Added(s, t, th, e, s');
    }
  }

  lemma NotAdded(s: State, t: nat, th: Thread, s': State)
    requires Inv(s) && t < |s.threads| && th == s.threads[t] && th.LinkParent? && Live(s, th.ip)
    requires s' == Goto(s, t, LinkBad(th.ip))
    ensures Inv(s')
  {
    CountsKept(s, s', t, LinkBad(th.ip));
    assert ThreadOk(s', t);
    assert PlainStep(s, s', t);
    PlainInv(s, s', t);
  }

  lemma Added(s: State, t: nat, th: Thread, e: Edge, s': State)
    requires Inv(s) && t < |s.threads| && th == s.threads[t] && th.LinkParent? && e == Edge(th.dp, th.name)
    requires e !in s.at && !IsDot(th.name)
    requires Live(s, th.ip) && !IsDir(s, th.ip) && IsDir(s, th.dp) && s' == Goto(AddEdge(s, e, th.ip), t, Idle)
    ensures Inv(s')
  {
    var s1 := AddEdge(s, e, th.ip);
    AddEdgeNames(s, e, th.ip);
    AddEdgeTree(s, e, th.ip);
    SameNames(s1, s');
    SameTree(s1, s');
    AddEdgeCounts(s, s', t, Idle, e, th.ip);
    ThreadsKept(s, s', t, Idle);
  }

  // ---------- unlink ----------

  /** unlink's test of nlink never fails: the entry it found counts. */
  lemma FoundIsLinked(s: State, t: nat)
    requires Inv(s) && t < |s.threads| && s.threads[t].UnlinkFound?
    ensures s.threads[t].ip < |s.inodes| && s.inodes[s.threads[t].ip].nlink >= 1
  {
    var th := s.threads[t];
    assert ThreadOk(s, t);
    var e := Edge(th.dp, th.name);
    assert EdgeOk(s, e) && Counted(s, th.ip);
    assert |s.names[th.ip] - {e}| == |s.names[th.ip]| - 1;
  }

  lemma DropEdgeTree(s: State, e: Edge, i: nat)
    requires Names(s) && Tree(s) && e in s.at && s.at[e] == i
    requires e.name == DOTDOT ==> forall f: Edge :: f in s.at && f.name != DOTDOT ==> s.at[f] != e.dir
    ensures Tree(DropEdge(s, e, i))
  {
    var s' := DropEdge(s, e, i);
    forall f: Edge | f in s'.at
      ensures DirOk(s', f)
    {
      assert DirOk(s, f) && EdgeOk(s, f);
    }
  }

  /** Once its only name is gone, nothing names the directory. */
  lemma OnlyName(s: State, e: Edge, i: nat)
    requires Names(s) && Tree(s) && e in s.at && s.at[e] == i && e.name != DOTDOT && IsDir(s, i)
    ensures forall f: Edge :: f in DropEdge(s, e, i).at && f.name != DOTDOT ==> DropEdge(s, e, i).at[f] != i
    ensures Edge(i, DOTDOT) in s.at && s.at[Edge(i, DOTDOT)] == e.dir
  {
    assert DirOk(s, e) && EdgeOk(s, e);
    var s' := DropEdge(s, e, i);
    forall f: Edge | f in s'.at && f.name != DOTDOT
      ensures s'.at[f] != i
    {
      assert DirOk(s, f);
    }
  }

  /** The entries that unlink removes: the name, and for a directory its "..". */
  ghost function Without(s: State, t: nat): State
    requires Enabled(s, ClearEntry(t))
  {
    var th := s.threads[t];
    var s1 := DropEdge(s, Edge(th.dp, th.name), th.ip);
    if s.inodes[th.ip].kind == Directory then DropEdge(s1, Edge(th.ip, DOTDOT), th.dp) else s1
  }

  lemma WithoutOk(s: State, t: nat)
    requires Inv(s) && Enabled(s, ClearEntry(t))
    ensures Names(Without(s, t)) && Tree(Without(s, t))
    ensures s.inodes[s.threads[t].ip].kind == Directory ==> Edge(s.threads[t].ip, DOTDOT) in s.names[s.threads[t].dp]
    ensures Edge(s.threads[t].dp, s.threads[t].name) in s.names[s.threads[t].ip]
  {
    var th := s.threads[t];
    assert ThreadOk(s, t);
    var e := Edge(th.dp, th.name);
    DropEdgeNames(s, e, th.ip);
    DropEdgeTree(s, e, th.ip);
    if s.inodes[th.ip].kind == Directory {
      OnlyName(s, e, th.ip);
      var s1 := DropEdge(s, e, th.ip);
      var up := Edge(th.ip, DOTDOT);
      assert EdgeOk(s, up);
      DropEdgeNames(s1, up, th.dp);
      DropEdgeTree(s1, up, th.dp);
    }
  }

  lemma OneLess(a: set<Edge>, e: Edge)
    requires e in a
    ensures |a - {e}| == |a| - 1
  {
  }

  /** unlink went through: one name less, the parent's link from ".." too, and the inode's own link still to go. */
  ghost predicate UnlinkedAs(s: State, t: nat, s': State) {
    && Enabled(s, ClearEntry(t)) && |s'.inodes| == |s.inodes| && SameKinds(s, s') && !s'.panicked
    && s'.threads == s.threads[t := UnlinkGone(s.threads[t].ip)]
    && s'.at == Without(s, t).at && s'.names == Without(s, t).names && s'.lost == s.lost
    && (forall i: nat :: i < |s.inodes| ==>
          && s'.inodes[i].nlink
             == s.inodes[i].nlink - (if i == s.threads[t].dp && IsDir(s, s.threads[t].ip) then 1 else 0)
          && s'.inodes[i].lock
             == if i == s.threads[t].ip then Some(t) else if i == s.threads[t].dp then None else s.inodes[i].lock)
  }

  lemma ClearedAs(s: State, t: nat, s': State)
    requires Inv(s) && Enabled(s, ClearEntry(t)) && s' == Cleared(s, t) && s.inodes[s.threads[t].ip].nlink >= 1
    requires !IsDir(s, s.threads[t].ip) || NoEntries(s, s.threads[t].ip)
    ensures UnlinkedAs(s, t, s')
  {
  }

  /** The names of inode i before and after, where the two entries that go are e, of ip, and up, of dp. */
  ghost predicate NamesLess(before: set<Edge>, after: set<Edge>, i: nat, ip: nat, e: Edge, dp: nat, up: Edge,
                            dir: bool)
  {
    if i == ip then e in before && after == before - {e}
    else if i == dp && dir then up in before && after == before - {up}
    else after == before
  }

  lemma WithoutNames(s: State, t: nat, ip: nat, dp: nat, name: string, i: nat)
    requires Enabled(s, ClearEntry(t)) && s.threads[t] == UnlinkFound(dp, name, ip) && i < |s.names|
    requires Edge(dp, name) in s.names[ip] && (IsDir(s, ip) ==> Edge(ip, DOTDOT) in s.names[dp])
    ensures |Without(s, t).names| == |s.names|
    ensures NamesLess(s.names[i], Without(s, t).names[i], i, ip, Edge(dp, name), dp, Edge(ip, DOTDOT), IsDir(s, ip))
  {
  }

  /** What the lengths come to. */
  lemma CountLess(before: set<Edge>, after: set<Edge>, i: nat, ip: nat, e: Edge, dp: nat, up: Edge, dir: bool)
    requires NamesLess(before, after, i, ip, e, dp, up, dir) && ip != dp
    ensures |after| == |before| - (if i == ip || (i == dp && dir) then 1 else 0)
  {
    if i == ip {
      OneLess(before, e);
    } else if i == dp && dir {
      OneLess(before, up);
    }
  }

  lemma ClearNames(s: State, t: nat, s': State, ip: nat, dp: nat, name: string, i: nat)
    requires Names(s) && UnlinkedAs(s, t, s') && i < |s.inodes| && s.threads[t] == UnlinkFound(dp, name, ip)
    requires Edge(dp, name) in s.names[ip] && (IsDir(s, ip) ==> Edge(ip, DOTDOT) in s.names[dp])
    ensures |s'.names| == |s.names|
    ensures |s'.names[i]| == |s.names[i]| - (if i == ip || (i == dp && IsDir(s, ip)) then 1 else 0)
  {
    WithoutNames(s, t, ip, dp, name, i);
    CountLess(s.names[i], s'.names[i], i, ip, Edge(dp, name), dp, Edge(ip, DOTDOT), IsDir(s, ip));
  }

  lemma ClearCounted(s: State, t: nat, s': State, ip: nat, dp: nat, name: string, i: nat)
    requires Names(s) && Counts(s) && UnlinkedAs(s, t, s') && i < |s.inodes|
    requires s.threads[t] == UnlinkFound(dp, name, ip)
    requires Edge(dp, name) in s.names[ip] && (IsDir(s, ip) ==> Edge(ip, DOTDOT) in s.names[dp]) && Live(s, ip)
    requires IsDir(s, dp)
    ensures |s'.names| == |s'.inodes| == |s'.lost| && Counted(s', i)
  {
    assert Counted(s, i);
    PendingUpdate(s.threads, t, UnlinkGone(ip), i);
    ClearNames(s, t, s', ip, dp, name, i);
  }

  lemma ClearCounts(s: State, t: nat, s': State)
    requires Inv(s) && UnlinkedAs(s, t, s')
    ensures Counts(s')
  {
    WithoutOk(s, t);
    assert ThreadOk(s, t);
    var th := s.threads[t];
    assert Holds(th, th.ip) && Holds(th, th.dp);
    ClearCounted(s, t, s', th.ip, th.dp, th.name, th.ip);
    forall i: nat | i < |s'.inodes|
      ensures Counted(s', i)
    {
      ClearCounted(s, t, s', th.ip, th.dp, th.name, i);
    }
  }

  lemma ClearThreads(s: State, t: nat, s': State)
    requires Inv(s) && UnlinkedAs(s, t, s')
    ensures Threads(s')
  {
    assert ThreadOk(s, t);
    assert Holds(s.threads[t], s.threads[t].ip);
    ThreadsKept(s, s', t, UnlinkGone(s.threads[t].ip));
  }

  lemma ClearFails(s: State, t: nat, s': State)
    requires Inv(s) && Enabled(s, ClearEntry(t)) && s' == Goto(SetLock(s, s.threads[t].dp, None), t, Idle)
    ensures Inv(s')
  {
    assert ThreadOk(s, t);
    SameNames(s, s');
    SameTree(s, s');
    CountsKept(s, s', t, Idle);
    ThreadsKept(s, s', t, Idle);
  }

  lemma ClearEntryKeeps(s: State, t: nat, s': State)
    requires Inv(s) && Enabled(s, ClearEntry(t)) && s' == Step(s, ClearEntry(t))
    ensures Inv(s')
  {
    FoundIsLinked(s, t);
    if IsDir(s, s.threads[t].ip) && !NoEntries(s, s.threads[t].ip) {
      ClearFails(s, t, s');
    } else {
      ClearedAs(s, t, s');
      UnlinkedKeeps(s, t, s');
    }
  }

  lemma UnlinkedKeeps(s: State, t: nat, s': State)
    requires Inv(s) && UnlinkedAs(s, t, s')
    ensures Inv(s')
  {
    WithoutOk(s, t);
    SameNames(Without(s, t), s');
    SameTree(Without(s, t), s');
    ClearCounts(s, t, s');
    ClearThreads(s, t, s');
  }

  // ---------- create ----------

  lemma {:induction false} NotHeldNotPending(ths: seq<Thread>, i: nat)
    requires forall t :: 0 <= t < |ths| ==> !Holds(ths[t], i)
    ensures Pending(ths, i) == 0
  {
    if ths != [] {
      NotHeldNotPending(ths[..|ths| - 1], i);
    }
  }

  lemma NamedIsLive(s: State, i: nat, e: Edge)
    requires Names(s) && i < |s.names|
    ensures e in s.names[i] ==> Live(s, i)
  {
    if e in s.names[i] {
      assert NameOk(s, i, e) && EdgeOk(s, e);
    }
  }

  lemma FreeIsNameless(s: State, i: nat)
    requires Inv(s) && i < |s.inodes| && s.inodes[i].kind == Free
    ensures s.names[i] == {} && Pending(s.threads, i) == 0 && forall e: Edge :: e in s.at ==> e.dir != i && s.at[e] != i
  {
    forall e: Edge
      ensures e !in s.names[i]
    {
      NamedIsLive(s, i, e);
    }
    forall e: Edge | e in s.at
      ensures e.dir != i && s.at[e] != i
    {
      assert EdgeOk(s, e);
    }
    forall t: nat | t < |s.threads|
      ensures !Holds(s.threads[t], i)
    {
      assert ThreadOk(s, t);
    }
    NotHeldNotPending(s.threads, i);
  }

  /** ialloc and nlink = 1 */
  function Fresh(s: State, i: nat, dir: bool, e: Edge): State
    requires i < |s.inodes|
  {
    s.(inodes := s.inodes[i := Inode(if dir then Directory else File, 1, None, if dir then Some(e) else None)])
  }

  lemma FreshOk(s: State, i: nat, dir: bool, e: Edge)
    requires Inv(s) && i < |s.inodes| && s.inodes[i].kind == Free
    ensures Names(Fresh(s, i, dir, e)) && Tree(Fresh(s, i, dir, e))
  {
    FreeIsNameless(s, i);
    var s' := Fresh(s, i, dir, e);
    forall f: Edge | f in s'.at
      ensures EdgeOk(s', f) && DirOk(s', f)
    {
      assert EdgeOk(s, f) && DirOk(s, f);
    }
    forall j: nat, f: Edge | j < |s'.names| && f in s'.names[j]
      ensures NameOk(s', j, f)
    {
      assert NameOk(s, j, f);
    }
  }

  /** The entries of a new file or directory. */
  function WithNew(s: State, i: nat, dir: bool, e: Edge): State
    requires i < |s.inodes| == |s.names| && e.dir < |s.names|
  {
    var s1 := Fresh(s, i, dir, e);
    AddEdge(if dir then AddEdge(s1, Edge(i, DOTDOT), e.dir) else s1, e, i)
  }

  lemma WithNewOk(s: State, i: nat, dir: bool, e: Edge)
    requires Inv(s) && i < |s.inodes| && s.inodes[i].kind == Free && e !in s.at && e.name != DOTDOT && IsDir(s, e.dir)
    ensures Names(WithNew(s, i, dir, e)) && Tree(WithNew(s, i, dir, e))
  {
    FreeIsNameless(s, i);
    FreshOk(s, i, dir, e);
    var s1 := Fresh(s, i, dir, e);
    if dir {
      var up := Edge(i, DOTDOT);
      AddEdgeNames(s1, up, e.dir);
      AddEdgeTree(s1, up, e.dir);
      var s2 := AddEdge(s1, up, e.dir);
      AddEdgeNames(s2, e, i);
      AddEdgeTree(s2, e, i);
    } else {
      AddEdgeNames(s1, e, i);
      AddEdgeTree(s1, e, i);
    }
  }

  lemma CreateCounts(s: State, t: nat, name: string, dir: bool, i: nat, s': State)
    requires Inv(s) && Enabled(s, Create(t, name, dir, i)) && s' == Step(s, Create(t, name, dir, i))
    requires !IsDot(name) && Edge(s.threads[t].dp, name) !in s.at
    ensures Counts(s')
  {
    FreeIsNameless(s, i);
    assert ThreadOk(s, t) && Holds(s.threads[t], s.threads[t].dp);
    forall j: nat | j < |s'.inodes|
      ensures Counted(s', j)
    {
      assert Counted(s, j);
      PendingUpdate(s.threads, t, Idle, j);
    }
  }

  /** A thread whose inodes and found entry are left alone is still right. */
  lemma ThreadStays(s: State, s': State, u: nat)
    requires u < |s.threads| && u < |s'.threads| && s'.threads[u] == s.threads[u] && ThreadOk(s, u)
    requires |s'.inodes| == |s.inodes|
    requires forall i: nat :: i < |s.inodes| && Holds(s.threads[u], i) ==>
        s'.inodes[i].kind == s.inodes[i].kind && s'.inodes[i].lock == s.inodes[i].lock
    requires forall e: Edge :: e in s.at && Holds(s.threads[u], e.dir) && !IsDot(e.name) ==>
        e in s'.at && s'.at[e] == s.at[e]
    ensures ThreadOk(s', u)
  {
    var th := s.threads[u];
    forall i: nat | Holds(th, i)
      ensures Live(s', i)
    {
      assert Live(s, i);
    }
    if th.UnlinkFound? {
      assert Holds(th, th.dp);
    }
  }

  lemma CreateThreads(s: State, t: nat, name: string, dir: bool, i: nat, s': State)
    requires Inv(s) && Enabled(s, Create(t, name, dir, i)) && s' == Step(s, Create(t, name, dir, i))
    requires !IsDot(name) && Edge(s.threads[t].dp, name) !in s.at
    ensures Threads(s')
  {
    FreeIsNameless(s, i);
    forall u: nat | u < |s'.threads|
      ensures ThreadOk(s', u)
    {
      if u != t {
        assert ThreadOk(s, u);
        ThreadStays(s, s', u);
      }
    }
  }

  lemma CreateKeeps(s: State, t: nat, name: string, dir: bool, i: nat, s': State)
    requires Inv(s) && Enabled(s, Create(t, name, dir, i)) && s' == Step(s, Create(t, name, dir, i))
    ensures Inv(s')
  {
    assert ThreadOk(s, t);
    var e := Edge(s.threads[t].dp, name);
    if e in s.at || IsDot(name) {
      SameNames(s, s');
      SameTree(s, s');
      CountsKept(s, s', t, Idle);
      ThreadsKept(s, s', t, Idle);
    } else {
      WithNewOk(s, i, dir, e);
      SameNames(WithNew(s, i, dir, e), s');
      SameTree(WithNew(s, i, dir, e), s');
      CreateCounts(s, t, name, dir, i, s');
      CreateThreads(s, t, name, dir, i, s');
    }
  }

  // ---------- iput ----------

  /** An inode without links has no name left: no entry is lost when iput frees it. */
  lemma NoLinksNoNames(s: State, i: nat)
    requires Inv(s) && i < |s.inodes| && s.inodes[i].nlink == 0
    ensures s.names[i] == {} && Pending(s.threads, i) == 0 && s.lost[i] == 0
    ensures forall e: Edge :: e in s.at ==> s.at[e] != i
  {
    assert Counted(s, i);
    forall e: Edge | e in s.at
      ensures s.at[e] != i
    {
      assert EdgeOk(s, e);
    }
  }

  lemma FreedNames(s: State, i: nat, s': State)
    requires Inv(s) && Enabled(s, FreeInode(i)) && s' == Freed(s, i)
    ensures Names(s') && Tree(s')
  {
    NoLinksNoNames(s, i);
    forall e: Edge | e in s'.at
      ensures EdgeOk(s', e) && DirOk(s', e)
    {
      assert EdgeOk(s, e) && DirOk(s, e);
    }
    forall j: nat, e: Edge | j < |s'.names| && e in s'.names[j]
      ensures NameOk(s', j, e)
    {
      assert NameOk(s, j, e);
    }
  }

  lemma SplitNames(names: set<Edge>, i: nat)
    ensures |names| == |set e | e in names && e.dir != i| + |InDirectory(names, i)|
  {
    var rest := set e | e in names && e.dir != i;
    assert names == rest + InDirectory(names, i) && rest !! InDirectory(names, i);
  }

  lemma FreedCounts(s: State, i: nat, s': State)
    requires Inv(s) && Enabled(s, FreeInode(i)) && s' == Freed(s, i)
    ensures Counts(s')
  {
    NoLinksNoNames(s, i);
    forall j: nat | j < |s'.inodes|
      ensures Counted(s', j)
    {
      assert Counted(s, j);
      SplitNames(s.names[j], i);
    }
  }

  lemma FreedThreads(s: State, i: nat, s': State)
    requires Inv(s) && Enabled(s, FreeInode(i)) && s' == Freed(s, i)
    ensures Threads(s')
  {
    forall u: nat | u < |s'.threads|
      ensures ThreadOk(s', u)
    {
      assert ThreadOk(s, u);
      ThreadStays(s, s', u);
    }
  }

  // ---------- whole runs ----------

  lemma StepKeeps(s: State, a: Action)
    requires Inv(s) && Enabled(s, a)
    ensures Inv(Step(s, a))
  {
    var s' := Step(s, a);
    if Plain(a) {
      PlainKeeps(s, a, s');
    } else {
      match a
      case AddLink(t) => AddLinkKeeps(s, t, s');
      case ClearEntry(t) => ClearEntryKeeps(s, t, s');
      case Create(t, name, dir, i) => CreateKeeps(s, t, name, dir, i, s');
      case FreeInode(i) =>
        FreedNames(s, i, s');
        FreedCounts(s, i, s');
        FreedThreads(s, i, s');
      case _ =>
    }
  }

  /** After mkfs: the root directory, whose ".." is itself, and files that it names; nobody at work. */
  ghost predicate Start(s: State, root: nat) {
    && !s.panicked && |s.names| == |s.inodes| == |s.lost| && (forall n :: n in s.lost ==> n == 0) && IsDir(s, root)
       && s.inodes[root].nlink == 1 && s.inodes[root].home == None
    && s.names[root] == {Edge(root, DOTDOT)} && (forall t :: 0 <= t < |s.threads| ==> s.threads[t].Idle?)
    && (forall i :: 0 <= i < |s.inodes| ==> s.inodes[i].lock == None)
    && (forall e: Edge :: e in s.at ==> e.dir == root && s.at[e] < |s.inodes| && e in s.names[s.at[e]])
    && (forall i: nat, e: Edge :: i < |s.names| && e in s.names[i] ==> e in s.at && s.at[e] == i)
    && forall i: nat :: i < |s.inodes| && i != root ==>
         if s.names[i] == {} then s.inodes[i].kind == Free && s.inodes[i].nlink == 0
         else s.inodes[i].kind == File && |s.names[i]| == s.inodes[i].nlink
  }

  ghost predicate RunTo(s: State, root: nat, run: seq<Action>, t: State)
    decreases |run|
  {
    if run == [] then Start(s, root) && t == s
    else
      var a := run[|run| - 1];
      exists m: State :: RunTo(s, root, run[..|run| - 1], m) && Enabled(m, a) && t == Step(m, a)
  }

  lemma {:induction false} NonePending(ths: seq<Thread>, i: nat)
    requires forall t :: 0 <= t < |ths| ==> ths[t].Idle?
    ensures Pending(ths, i) == 0
  {
    if ths != [] {
      NonePending(ths[..|ths| - 1], i);
    }
  }

  lemma StartInv(s: State, root: nat)
    requires Start(s, root)
    ensures Inv(s)
  {
    forall i: nat | i < |s.inodes|
      ensures Counted(s, i)
    {
      NonePending(s.threads, i);
      assert s.lost[i] in s.lost;
    }
    forall e: Edge | e in s.at
      ensures EdgeOk(s, e) && DirOk(s, e)
    {
    }
    forall t: nat | t < |s.threads|
      ensures ThreadOk(s, t)
    {
    }
  }

  lemma {:induction false} RunKeeps(s: State, root: nat, run: seq<Action>, t: State)
    requires RunTo(s, root, run, t)
    ensures Inv(t)
    decreases |run|
  {
    if run == [] {
      StartInv(s, root);
    } else {
      var a := run[|run| - 1];
      var m: State :| RunTo(s, root, run[..|run| - 1], m) && Enabled(m, a) && t == Step(m, a);
      RunKeeps(s, root, run[..|run| - 1], m);
      StepKeeps(m, a);
    }
  }

  // ---------- what the link counts guarantee ----------

  /** The directory entries that name inode i, "." and the ".." of unlinked directories apart. */
  ghost predicate NamesOf(s: State, i: nat, names: set<Edge>) {
    forall e: Edge :: e in names <==> e in s.at && s.at[e] == i
  }

  /**
    At every step an inode's nlink is the number of entries that name it, of links that are half
    done, and of entries that went away when the directory that held them was freed.
   */
  lemma LinksCountEntries(s: State, root: nat, run: seq<Action>, t: State, i: nat, names: set<Edge>)
    requires RunTo(s, root, run, t) && i < |t.inodes| && NamesOf(t, i, names)
    ensures i < |t.lost| && t.inodes[i].nlink == |names| + Pending(t.threads, i) + t.lost[i]
  {
    RunKeeps(s, root, run, t);
    assert Counted(t, i);
    forall e: Edge
      ensures e in names <==> e in t.names[i]
    {
      if e in names {
        assert EdgeOk(t, e);
      }
      if e in t.names[i] {
        assert NameOk(t, i, e);
      }
    }
    assert names == t.names[i];
  }

  /** A link is lost in a step if and only if the step frees a directory with an entry that names the inode. */
  lemma LostWithDirectory(s: State, root: nat, run: seq<Action>, t: State, a: Action, j: nat)
    requires RunTo(s, root, run, t) && Enabled(t, a) && j < |t.inodes|
    ensures j < |t.lost| && j < |Step(t, a).lost|
    ensures Step(t, a).lost[j] != t.lost[j] <==>
        a.FreeInode? && exists e: Edge :: e in t.at && e.dir == a.i && t.at[e] == j
  {
    RunKeeps(s, root, run, t);
    if a.FreeInode? {
      FreedLost(t, a.i, j);
    } else {
      OthersLoseNone(t, a);
    }
  }

  lemma OthersLoseNone(t: State, a: Action)
    requires Enabled(t, a) && !a.FreeInode?
    ensures Step(t, a).lost == t.lost
  {
  }

  lemma FreedLost(t: State, i: nat, j: nat)
    requires Names(t) && Enabled(t, FreeInode(i)) && j < |t.inodes|
    ensures |Freed(t, i).lost| == |t.lost| == |t.inodes|
    ensures Freed(t, i).lost[j] != t.lost[j] <==> exists e: Edge :: e in t.at && e.dir == i && t.at[e] == j
  {
    GoneMeans(t, i, j);
  }

  lemma GoneMeans(t: State, i: nat, j: nat)
    requires Names(t) && j < |t.names|
    ensures |InDirectory(t.names[j], i)| > 0 <==> exists e: Edge :: e in t.at && e.dir == i && t.at[e] == j
  {
    var gone := InDirectory(t.names[j], i);
    if e: Edge :| e in t.at && e.dir == i && t.at[e] == j {
      assert EdgeOk(t, e);
      assert e in gone;
    }
    if gone != {} {
      var e :| e in gone;
      assert NameOk(t, j, e);
    }
  }

  /** iput never frees an inode that an entry still names, nor one that a link in progress counts on. */
  lemma FreedIsUnnamed(s: State, root: nat, run: seq<Action>, t: State, i: nat, e: Edge)
    requires RunTo(s, root, run, t) && Enabled(t, FreeInode(i)) && e in t.at
    ensures t.at[e] != i && Pending(t.threads, i) == 0
  {
    RunKeeps(s, root, run, t);
    NoLinksNoNames(t, i);
  }

  /** unlink's panic on nlink < 1 is unreachable, and every entry leads to an inode in use. */
  lemma UnlinkNeverPanics(s: State, root: nat, run: seq<Action>, t: State, a: Action)
    requires RunTo(s, root, run, t) && Enabled(t, a)
    ensures !Step(t, a).panicked && forall e: Edge :: e in Step(t, a).at ==> Live(Step(t, a), Step(t, a).at[e])
  {
    RunKeeps(s, root, run, t);
    StepKeeps(t, a);
    var t' := Step(t, a);
    forall e: Edge | e in t'.at
      ensures Live(t', t'.at[e])
    {
      assert EdgeOk(t', e);
    }
  }

  // ---------- how a link is lost ----------

  ghost predicate Next(m: State, a: Action, t: State) {
    Enabled(m, a) && t == Step(m, a)
  }

  lemma Then(s: State, root: nat, run: seq<Action>, m: State, a: Action, t: State)
    requires RunTo(s, root, run, m) && Next(m, a, t)
    ensures RunTo(s, root, run + [a], t)
  {
    var r := run + [a];
    assert r[..|r| - 1] == run && RunTo(s, root, r[..|r| - 1], m) && Enabled(m, r[|r| - 1]) && t == Step(m, r[|r| - 1]);
  }

  /** Thread 0 does nothing, thread 1 holds `dp` for create if it is given. */
  ghost predicate AtWork(m: State, dp: Option<nat>) {
    && |m.threads| >= 2 && !m.panicked && |m.inodes| == |m.names| == |m.lost|
    && m.threads[1] == (if dp.Some? then CreateParent(dp.value) else Idle)
    && forall t :: 0 <= t < |m.threads| && t != 1 ==> m.threads[t].Idle?
  }

  ghost predicate Nobody(m: State, i: nat) {
    && i < |m.inodes| == |m.names| && m.inodes[i].kind == Free && m.inodes[i].lock == None && m.names[i] == {}
    && forall e: Edge :: e in m.at ==> e.dir != i && m.at[e] != i
  }

  lemma StartNobody(s: State, root: nat, i: nat)
    requires Start(s, root) && i < |s.inodes| && s.inodes[i].kind == Free
    ensures Nobody(s, i) && i != root
  {
  }

  /** Inode i is a directory named d in the root, with nothing in it; j is free. */
  ghost predicate Made(m: State, root: nat, i: nat, j: nat) {
    && root < |m.inodes| && i < |m.inodes| && root != i && root != j && i != j && Nobody(m, j)
    && IsDir(m, root) && IsDir(m, i) && Unlocked(m, root) && Unlocked(m, i) && m.inodes[i].nlink == 1
    && Edge(root, "d") in m.at && m.at[Edge(root, "d")] == i && NoEntries(m, i)
  }

  /** Inode i is an unlinked directory without entries; j is free. */
  ghost predicate Gone(m: State, i: nat, j: nat) {
    && i < |m.inodes| && i != j && IsDir(m, i) && Unlocked(m, i) && m.inodes[i].nlink == 0 && Nobody(m, j)
    && forall e: Edge :: e in m.at ==> e.dir != i
  }

  lemma MakeOne(s: State, root: nat, i: nat, j: nat, s1: State)
    requires Start(s, root) && AtWork(s, None) && Nobody(s, i) && Nobody(s, j) && i != j && i != root && j != root
    requires Edge(root, "d") !in s.at && s1 == Goto(s, 0, CreateParent(root))
    ensures Next(s, BeginCreate(0, root), s1) && Enabled(s1, Create(0, "d", true, i))
    ensures AtWork(Step(s1, Create(0, "d", true, i)), None)
  {
  }

  lemma MakeTwo(s: State, root: nat, i: nat, j: nat, s1: State, t: State)
    requires Start(s, root) && Nobody(s, i) && Nobody(s, j) && i != j && i != root && j != root && |s.threads| >= 2
    requires Edge(root, "d") !in s.at && s1 == Goto(s, 0, CreateParent(root)) && Enabled(s1, Create(0, "d", true, i))
    requires t == Created(s1, 0, "d", true, i)
    ensures Made(t, root, i, j)
  {
    assert Edge(root, "d") !in s1.at && !IsDot("d");
    assert t.at == s.at[Edge(i, DOTDOT) := root][Edge(root, "d") := i];
  }

  lemma MakeDirectory(s: State, root: nat, i: nat, j: nat) returns (run: seq<Action>, t: State)
    requires Start(s, root) && AtWork(s, None) && i < |s.inodes| && j < |s.inodes| && i != j
    requires s.inodes[i].kind == Free && s.inodes[j].kind == Free && Edge(root, "d") !in s.at
    ensures RunTo(s, root, run, t) && AtWork(t, None) && Made(t, root, i, j)
  {
    StartNobody(s, root, i);
    StartNobody(s, root, j);
    var s1 := Goto(s, 0, CreateParent(root));
    MakeOne(s, root, i, j, s1);
    t := Step(s1, Create(0, "d", true, i));
    MakeTwo(s, root, i, j, s1, t);
    Then(s, root, [], s, BeginCreate(0, root), s1);
    Then(s, root, [] + [BeginCreate(0, root)], s1, Create(0, "d", true, i), t);
    run := [] + [BeginCreate(0, root)] + [Create(0, "d", true, i)];
  }

  /** Entry `name` of directory dp is an empty directory ip, and thread 0 can unlink it. */
  ghost predicate Removable(m: State, dp: nat, name: string, ip: nat) {
    && |m.threads| > 0 && m.threads[0].Idle? && !m.panicked && |m.inodes| == |m.names| == |m.lost| && dp != ip
    && IsDir(m, dp) && IsDir(m, ip) && Unlocked(m, dp) && Unlocked(m, ip) && m.inodes[ip].nlink >= 1
    && !IsDot(name) && Edge(dp, name) in m.at && m.at[Edge(dp, name)] == ip && NoEntries(m, ip)
  }

  /** t is m without that entry and the directory's "..", and their links. */
  ghost predicate Removed(m: State, dp: nat, name: string, ip: nat, t: State)
    requires dp < |m.inodes| && ip < |m.inodes|
  {
    && t.threads == m.threads && !t.panicked && |t.names| == |m.names| && t.lost == m.lost
    && t.at == m.at - {Edge(dp, name)} - {Edge(ip, DOTDOT)}
    && t.inodes == m.inodes[dp := m.inodes[dp].(nlink := m.inodes[dp].nlink - 1)]
                           [ip := m.inodes[ip].(nlink := m.inodes[ip].nlink - 1)]
    && forall k: nat :: k < |m.names| && m.names[k] == {} ==> t.names[k] == {}
  }

  lemma RemoveFind(m: State, dp: nat, name: string, ip: nat, s1: State, s2: State)
    requires Removable(m, dp, name, ip) && s1 == Goto(m, 0, UnlinkParent(dp))
    requires s2 == Goto(SetLock(s1, dp, Some(0)), 0, UnlinkFound(dp, name, ip))
    ensures Next(m, BeginUnlink(0, dp), s1) && Next(s1, FindEntry(0, name), s2)
    ensures Enabled(s2, ClearEntry(0)) && NoEntries(s2, ip)
  {
  }

  lemma RemoveClear(m: State, dp: nat, name: string, ip: nat, s2: State, s3: State)
    requires Removable(m, dp, name, ip) && NoEntries(s2, ip) && Enabled(s2, ClearEntry(0))
    requires s2 == Goto(SetLock(Goto(m, 0, UnlinkParent(dp)), dp, Some(0)), 0, UnlinkFound(dp, name, ip))
    requires s3 == Cleared(s2, 0)
    ensures Enabled(s3, CountUnlink(0)) && Removed(m, dp, name, ip, Step(s3, CountUnlink(0)))
  {
    assert s3.threads == m.threads[0 := UnlinkGone(ip)];
    assert s3.at == m.at - {Edge(dp, name)} - {Edge(ip, DOTDOT)};
  }

  lemma Remove(s: State, root: nat, run: seq<Action>, m: State, dp: nat, name: string, ip: nat)
    returns (run': seq<Action>, t: State)
    requires RunTo(s, root, run, m) && Removable(m, dp, name, ip)
    ensures RunTo(s, root, run', t) && Removed(m, dp, name, ip, t)
  {
    var s1 := Goto(m, 0, UnlinkParent(dp));
    var s2 := Goto(SetLock(s1, dp, Some(0)), 0, UnlinkFound(dp, name, ip));
    RemoveFind(m, dp, name, ip, s1, s2);
    var s3 := Step(s2, ClearEntry(0));
    RemoveClear(m, dp, name, ip, s2, s3);
    t := Step(s3, CountUnlink(0));
    Then(s, root, run, m, BeginUnlink(0, dp), s1);
    Then(s, root, run + [BeginUnlink(0, dp)], s1, FindEntry(0, name), s2);
    Then(s, root, run + [BeginUnlink(0, dp)] + [FindEntry(0, name)], s2, ClearEntry(0), s3);
    run' := run + [BeginUnlink(0, dp)] + [FindEntry(0, name)] + [ClearEntry(0)];
    Then(s, root, run', s3, CountUnlink(0), t);
    run' := run' + [CountUnlink(0)];
  }

  /** Thread 1 finds directory i as its parent, and thread 0 unlinks it. */
  lemma UnlinkDirectory(s: State, root: nat, run: seq<Action>, m: State, i: nat, j: nat)
    returns (run': seq<Action>, t: State)
    requires RunTo(s, root, run, m) && AtWork(m, None) && Made(m, root, i, j)
    ensures RunTo(s, root, run', t) && AtWork(t, Some(i)) && Gone(t, i, j)
  {
    var s1 := Goto(m, 1, CreateParent(i));
    Then(s, root, run, m, BeginCreate(1, i), s1);
    run', t := Remove(s, root, run + [BeginCreate(1, i)], s1, root, "d", i);
  }

  /** A file in a directory that is unlinked but still in use, which then is freed. */
  lemma FreeOne(m: State, i: nat, j: nat, s1: State, t: State)
    requires AtWork(m, Some(i)) && Gone(m, i, j) && Enabled(m, Create(1, "x", false, j))
    requires s1 == Created(m, 1, "x", false, j)
    requires Enabled(s1, FreeInode(i)) && t == Freed(s1, i)
    ensures j < |t.inodes| && t.inodes[j].kind == File && t.inodes[j].nlink == 1 && j < |t.names| && t.names[j] == {}
    ensures forall u :: 0 <= u < |t.threads| ==> t.threads[u].Idle?
    ensures forall e: Edge :: e in t.at ==> t.at[e] != j
  {
    assert s1.at == m.at[Edge(i, "x") := j];
  }

  lemma CreateOne(m: State, i: nat, j: nat, s1: State)
    requires AtWork(m, Some(i)) && Gone(m, i, j)
    requires Enabled(m, Create(1, "x", false, j)) ==> s1 == Created(m, 1, "x", false, j)
    ensures Enabled(m, Create(1, "x", false, j)) && Enabled(s1, FreeInode(i))
  {
    assert Edge(i, "x") !in m.at;
  }

  lemma CreateAndFree(s: State, root: nat, run: seq<Action>, m: State, i: nat, j: nat)
    returns (run': seq<Action>, t: State)
    requires RunTo(s, root, run, m) && AtWork(m, Some(i)) && Gone(m, i, j)
    ensures RunTo(s, root, run', t) && j < |t.inodes| && t.inodes[j].kind == File && t.inodes[j].nlink == 1
    ensures j < |t.names| && t.names[j] == {} && (forall u :: 0 <= u < |t.threads| ==> t.threads[u].Idle?)
    ensures forall e: Edge :: e in t.at ==> t.at[e] != j
  {
    var create, free := Create(1, "x", false, j), FreeInode(i);
    var s1 := if Enabled(m, create) then Created(m, 1, "x", false, j) else m;
    CreateOne(m, i, j, s1);
    t := Freed(s1, i);
    FreeOne(m, i, j, s1, t);
    Then(s, root, run, m, create, s1);
    Then(s, root, run + [create], s1, free, t);
    run' := run + [create] + [free];
  }

  /**
    A file created in a directory that was unlinked meanwhile keeps its link when the directory is
    freed: nlink is 1, no entry names it and nobody is at work, so it is never freed.
   */
  lemma LinkIsLost(s: State, root: nat, i: nat, j: nat) returns (run: seq<Action>, t: State)
    requires Start(s, root) && |s.threads| >= 2 && i < |s.inodes| && j < |s.inodes| && i != j
    requires s.inodes[i].kind == Free && s.inodes[j].kind == Free && Edge(root, "d") !in s.at
    ensures RunTo(s, root, run, t) && j < |t.inodes| && t.inodes[j].kind == File && t.inodes[j].nlink == 1
    ensures NamesOf(t, j, {}) && Pending(t.threads, j) == 0 && j < |t.lost| && t.lost[j] == 1
  {
    var m;
    run, m := MakeDirectory(s, root, i, j);
    run, m := UnlinkDirectory(s, root, run, m, i, j);
    run, t := CreateAndFree(s, root, run, m, i, j);
    NonePending(t.threads, j);
    LinksCountEntries(s, root, run, t, j, {});
  }

  // ---------- where ".." leads ----------

  /** The inode that directory i's ".." names on disk: its parent when it was created. The root's is itself. */
  function Up(s: State, i: nat): nat
    requires i < |s.inodes|
  {
    if s.inodes[i].home.Some? then s.inodes[i].home.value.dir else i
  }

  /** While a directory is not unlinked its ".." leads to a directory in use. */
  ghost predicate UpOk(s: State, i: nat)
    requires i < |s.inodes|
  {
    Edge(i, DOTDOT) in s.at ==> s.at[Edge(i, DOTDOT)] == Up(s, i) && IsDir(s, Up(s, i))
  }

  ghost predicate Ups(s: State) {
    forall i: nat :: i < |s.inodes| ==> UpOk(s, i)
  }

  /** No inode is made or freed, and no ".." is added or changed. */
  ghost predicate DotsKept(s: State, s': State) {
    && SameKinds(s, s')
    && forall i: nat :: Edge(i, DOTDOT) in s'.at ==>
         Edge(i, DOTDOT) in s.at && s'.at[Edge(i, DOTDOT)] == s.at[Edge(i, DOTDOT)]
  }

  lemma PlainDots(s: State, a: Action, s': State)
    requires Inv(s) && Next(s, a, s') && Plain(a)
    ensures DotsKept(s, s')
  {
    if Counting(a) {
      CountingIs(s, a, s');
    } else {
      QuietIs(s, a, s');
    }
  }

  lemma AddLinkDots(s: State, t: nat, s': State)
    requires Enabled(s, AddLink(t)) && s' == Linked(s, t)
    ensures DotsKept(s, s')
  {
  }

  lemma ClearDots(s: State, t: nat, s': State)
    requires Enabled(s, ClearEntry(t)) && s' == Cleared(s, t)
    ensures DotsKept(s, s')
  {
  }

  lemma OtherDots(s: State, a: Action, s': State)
    requires Inv(s) && Next(s, a, s') && !a.Create? && !a.FreeInode?
    ensures DotsKept(s, s')
  {
    if a.AddLink? {
      AddLinkDots(s, a.t, s');
    } else if a.ClearEntry? {
      ClearDots(s, a.t, s');
    } else {
      PlainDots(s, a, s');
    }
  }

  lemma SameUps(s: State, s': State)
    requires DotsKept(s, s') && Ups(s)
    ensures Ups(s')
  {
    forall i: nat | i < |s'.inodes|
      ensures UpOk(s', i)
    {
      assert UpOk(s, i);
    }
  }

  lemma CreateUps(s: State, t: nat, name: string, dir: bool, j: nat, s': State)
    requires Inv(s) && Ups(s) && Enabled(s, Create(t, name, dir, j)) && s' == Created(s, t, name, dir, j)
    ensures Ups(s')
  {
    assert ThreadOk(s, t);
    forall i: nat | i < |s'.inodes|
      ensures UpOk(s', i)
    {
      assert UpOk(s, i);
      if Edge(i, DOTDOT) in s.at {
        assert EdgeOk(s, Edge(i, DOTDOT));
      }
    }
  }

  lemma FreedUps(s: State, j: nat, s': State)
    requires Inv(s) && Ups(s) && Enabled(s, FreeInode(j)) && s' == Freed(s, j)
    ensures Ups(s')
  {
    NoLinksNoNames(s, j);
    forall i: nat | i < |s'.inodes|
      ensures UpOk(s', i)
    {
      assert UpOk(s, i);
    }
  }

  lemma UpsStay(s: State, a: Action, s': State)
    requires Inv(s) && Ups(s) && Next(s, a, s')
    ensures Ups(s')
  {
    if a.Create? {
      CreateUps(s, a.t, a.name, a.dir, a.i, s');
    } else if a.FreeInode? {
      FreedUps(s, a.i, s');
    } else {
      OtherDots(s, a, s');
      SameUps(s, s');
    }
  }

  lemma {:induction false} RunUps(s: State, root: nat, run: seq<Action>, t: State)
    requires RunTo(s, root, run, t)
    ensures Ups(t)
    decreases |run|
  {
    if run == [] {
      StartUps(s, root);
    } else {
      var a := run[|run| - 1];
      var m: State :| RunTo(s, root, run[..|run| - 1], m) && Enabled(m, a) && t == Step(m, a);
      RunKeeps(s, root, run[..|run| - 1], m);
      RunUps(s, root, run[..|run| - 1], m);
      UpsStay(m, a, t);
    }
  }

  lemma StartUps(s: State, root: nat)
    requires Start(s, root)
    ensures Ups(s)
  {
    forall i: nat | i < |s.inodes|
      ensures UpOk(s, i)
    {
      assert Edge(root, DOTDOT) in s.names[root];
    }
  }

  lemma CreateLosesNone(s: State, t: nat, name: string, dir: bool, j: nat, s': State, p: nat)
    requires Enabled(s, Create(t, name, dir, j)) && s' == Created(s, t, name, dir, j) && IsDir(s, p)
    ensures IsDir(s', p)
  {
  }

  lemma FreeingLoses(s: State, j: nat, s': State, p: nat)
    requires Enabled(s, FreeInode(j)) && s' == Freed(s, j) && IsDir(s, p)
    ensures IsDir(s', p) <==> p != j
  {
  }

  /**
    The ".." of a directory leads to a directory in use until the step that frees that one; and no step
    does that while the directory below is linked.
   */
  lemma UpLostExactly(s: State, root: nat, run: seq<Action>, t: State, a: Action, t': State, i: nat)
    requires RunTo(s, root, run, t) && Next(t, a, t') && IsDir(t, i) && IsDir(t, Up(t, i))
    ensures IsDir(t', Up(t, i)) <==> a != FreeInode(Up(t, i))
    ensures Edge(i, DOTDOT) in t.at ==> a != FreeInode(Up(t, i))
  {
    RunKeeps(s, root, run, t);
    RunUps(s, root, run, t);
    assert UpOk(t, i);
    if a.FreeInode? {
      NoLinksNoNames(t, a.i);
      FreeingLoses(t, a.i, t', Up(t, i));
    } else if a.Create? {
      CreateLosesNone(t, a.t, a.name, a.dir, a.i, t', Up(t, i));
    } else {
      OtherDots(t, a, t');
    }
  }

  // ---------- a run in which it leads to a free inode ----------

  /** Directory x in the directory made first, and thread 1 in it. */
  ghost predicate Nested(m: State, root: nat, i: nat, j: nat) {
    && |m.threads| >= 2 && !m.panicked && |m.inodes| == |m.names| == |m.lost| && root != i && root != j && i != j
    && m.threads[1] == CreateParent(j) && (forall t :: 0 <= t < |m.threads| && t != 1 ==> m.threads[t].Idle?)
    && IsDir(m, root) && IsDir(m, i) && IsDir(m, j) && Unlocked(m, root) && Unlocked(m, i) && Unlocked(m, j)
    && m.inodes[j].home == Some(Edge(i, "x")) && m.inodes[j].nlink == 1 && m.inodes[i].nlink == 2
    && Edge(root, "d") in m.at && m.at[Edge(root, "d")] == i && Edge(i, "x") in m.at && m.at[Edge(i, "x")] == j
    && NoEntries(m, j) && forall e: Edge :: e in m.at && e.dir == i ==> e.name == DOTDOT || e.name == "x"
  }

  lemma NestOne(m: State, root: nat, i: nat, j: nat, s1: State, s2: State, t: State)
    requires AtWork(m, None) && Made(m, root, i, j) && s1 == Goto(m, 1, CreateParent(i))
    requires Enabled(s1, Create(1, "x", true, j)) ==> s2 == Created(s1, 1, "x", true, j)
    requires |s2.threads| > 1 && t == Goto(s2, 1, CreateParent(j))
    ensures Next(m, BeginCreate(1, i), s1) && Next(s1, Create(1, "x", true, j), s2) && Next(s2, BeginCreate(1, j), t)
    ensures Nested(t, root, i, j)
  {
    assert Edge(i, "x") !in m.at && !IsDot("x");
    assert s2.at == m.at[Edge(j, DOTDOT) := i][Edge(i, "x") := j];
  }

  lemma Nest(s: State, root: nat, run: seq<Action>, m: State, i: nat, j: nat) returns (run': seq<Action>, t: State)
    requires RunTo(s, root, run, m) && AtWork(m, None) && Made(m, root, i, j)
    ensures RunTo(s, root, run', t) && Nested(t, root, i, j)
  {
    var s1 := Goto(m, 1, CreateParent(i));
    var s2 := if Enabled(s1, Create(1, "x", true, j)) then Created(s1, 1, "x", true, j) else s1;
    t := Goto(s2, 1, CreateParent(j));
    NestOne(m, root, i, j, s1, s2, t);
    Then(s, root, run, m, BeginCreate(1, i), s1);
    Then(s, root, run + [BeginCreate(1, i)], s1, Create(1, "x", true, j), s2);
    run' := run + [BeginCreate(1, i)] + [Create(1, "x", true, j)];
    Then(s, root, run', s2, BeginCreate(1, j), t);
    run' := run' + [BeginCreate(1, j)];
  }

  lemma InnerRemoved(m: State, root: nat, i: nat, j: nat, t: State)
    requires Nested(m, root, i, j) && Removed(m, i, "x", j, t)
    ensures Removable(t, root, "d", i) && t.inodes[i].nlink == 1 && t.inodes[j].nlink == 0
  {
  }

  lemma OuterRemoved(m: State, root: nat, i: nat, j: nat, m1: State, t: State)
    requires Nested(m, root, i, j) && Removed(m, i, "x", j, m1) && Removable(m1, root, "d", i)
    requires Removed(m1, root, "d", i, t)
    ensures Enabled(t, FreeInode(i)) && IsDir(Freed(t, i), j) && Freed(t, i).inodes[j].home == Some(Edge(i, "x"))
    ensures !Live(Freed(t, i), i) && Freed(t, i).threads == m.threads
  {
  }

  /**
    A process is in directory d/x; x and then d are unlinked, and d is freed, since nobody has a reference
    to it. The ".." of x still names its inode, which is free: a lookup of ".." from x locks a free inode,
    which is a panic, or whatever the inode becomes next.
   */
  lemma UpIsFree(s: State, root: nat, i: nat, j: nat) returns (run: seq<Action>, t: State)
    requires Start(s, root) && |s.threads| >= 2 && i < |s.inodes| && j < |s.inodes| && i != j
    requires s.inodes[i].kind == Free && s.inodes[j].kind == Free && Edge(root, "d") !in s.at
    ensures RunTo(s, root, run, t) && |t.threads| >= 2 && Holds(t.threads[1], j)
    ensures IsDir(t, j) && Up(t, j) == i && i < |t.inodes| && t.inodes[i].kind == Free
  {
    var m;
    run, m := MakeDirectory(s, root, i, j);
    run, m := Nest(s, root, run, m, i, j);
    var m1, m2;
    run, m1 := Remove(s, root, run, m, i, "x", j);
    InnerRemoved(m, root, i, j, m1);
    run, m2 := Remove(s, root, run, m1, root, "d", i);
    OuterRemoved(m, root, i, j, m1, m2);
    t := Freed(m2, i);
    Then(s, root, run, m2, FreeInode(i), t);
    run := run + [FreeInode(i)];
  }
}
