/**
  Any number of processes at the buffer cache of bio.c, in any interleaving of the critical sections of
  bread, bwrite, brelse and log_write. A use is one bread with the brelse that ends it; a process may have
  several at a time.
 */
module BioProtocol {
  import opened Blocks
  import opened BioSpec

  datatype Stage =
    | Waiting    // bget has chosen the buffer and taken a reference; at acquiresleep
    | Locked     // bread holds the lock, and has yet to look at B_VALID
    | Holding    // bread has returned
    | Releasing  // brelse has released the lock, and has yet to take bcache.lock

  /** One use, of block k through buffer b. */
  datatype Use = Idle | On(k: nat, b: nat, stage: Stage)

  /**
    `now` is the last data written to each block by a holder of its buffer; `tidy` says that no buffer was
    released with changes that are neither on the disk nor given to the log.
   */
  datatype State = State(buf: seq<Buf>, disk: seq<Block>, uses: seq<Use>, now: seq<Block>, tidy: bool, panicked: bool)

  datatype Action =
    | Lookup(t: nat, k: nat, b: nat)
    | NoBuffers(t: nat, k: nat)
    | Acquire(t: nat)
    | Fetch(t: nat)
    | Change(t: nat, data: Block)
    | Mark(t: nat)
    | Write(t: nat)
    | Unlock(t: nat)
    | Drop(t: nat)

  predicate Stands(s: State, t: nat, stage: Stage) {
    && t < |s.uses| && s.uses[t].On? && s.uses[t].stage == stage
    && s.uses[t].b < |s.buf| && s.uses[t].k < |s.disk| == |s.now|
  }

  ghost predicate Enabled(s: State, e: Action) {
    !s.panicked &&
    match e
    case Lookup(t, k, b) => t < |s.uses| && s.uses[t].Idle? && k < |s.disk| && Picks(s.buf, 1, k, b)
    case NoBuffers(t, k) =>
      t < |s.uses| && s.uses[t].Idle? && k < |s.disk| && Seek(s.buf, 1, k) == |s.buf| && NoneUsable(s.buf)
    case Acquire(t) => Stands(s, t, Waiting) && !s.buf[s.uses[t].b].locked
    case Fetch(t) => Stands(s, t, Locked)
    case Change(t, data) => Stands(s, t, Holding)
    case Mark(t) => Stands(s, t, Holding)
    case Write(t) => Stands(s, t, Holding)
    case Unlock(t) => Stands(s, t, Holding)
    case Drop(t) => Stands(s, t, Releasing) && s.buf[s.uses[t].b].refcnt > 0
  }

  function Goto(s: State, t: nat, stage: Stage, b: Buf): State
    requires t < |s.uses| && s.uses[t].On? && s.uses[t].b < |s.buf|
  {
    s.(uses := s.uses[t := s.uses[t].(stage := stage)], buf := s.buf[s.uses[t].b := b])
  }

  function Step(s: State, e: Action): State
    requires Enabled(s, e)
  {
    match e
    case Lookup(t, k, b) => s.(buf := Looked(s.buf, 1, k, b), uses := s.uses[t := On(k, b, Waiting)])
    case NoBuffers(t, k) => s.(panicked := true)
    case Acquire(t) => Goto(s, t, Locked, s.buf[s.uses[t].b].(locked := true))
    case Fetch(t) =>
      var b := s.buf[s.uses[t].b];
      Goto(s, t, Holding, if b.valid then b else b.(data := s.disk[s.uses[t].k], valid := true))
    case Change(t, data) =>
      Goto(s, t, Holding, s.buf[s.uses[t].b].(data := data)).(now := s.now[s.uses[t].k := data])
    case Mark(t) => Goto(s, t, Holding, s.buf[s.uses[t].b].(dirty := true))
    case Write(t) =>
      var b := s.buf[s.uses[t].b];
      Goto(s, t, Holding, b.(dirty := false)).(disk := s.disk[s.uses[t].k := b.data])
    case Unlock(t) =>
      var b := s.buf[s.uses[t].b];
      Goto(s, t, Releasing, b.(locked := false)).(tidy := s.tidy && Written(b, s.disk))
    case Drop(t) =>
      var b := s.buf[s.uses[t].b];
      s.(uses := s.uses[t := Idle], buf := s.buf[s.uses[t].b := b.(refcnt := b.refcnt - 1)])
  }

  // ---------- who uses a buffer ----------

  predicate Holds(u: Use) {
    u.On? && u.stage in {Locked, Holding}
  }

  function OnBuf(u: Use, b: nat, held: bool): nat {
    if u.On? && u.b == b && (held ==> Holds(u)) then 1 else 0
  }

  /** The uses of buffer b, or those that hold its lock. */
  function Users(us: seq<Use>, b: nat, held: bool): nat {
    if us == [] then 0 else Users(us[..|us| - 1], b, held) + OnBuf(us[|us| - 1], b, held)
  }

  lemma {:induction false} UsersUpdate(us: seq<Use>, t: nat, u: Use, b: nat, held: bool)
    requires t < |us|
    ensures Users(us[t := u], b, held) + OnBuf(us[t], b, held) == Users(us, b, held) + OnBuf(u, b, held)
  {
    var n := |us| - 1;
    if t == n {
      assert us[t := u][..n] == us[..n];
    } else {
      assert us[t := u][..n] == us[..n][t := u];
      UsersUpdate(us[..n], t, u, b, held);
    }
  }

  lemma UsersHas(us: seq<Use>, t: nat, b: nat, held: bool)
    requires t < |us|
    ensures Users(us, b, held) >= OnBuf(us[t], b, held)
  {
    UsersUpdate(us, t, Idle, b, held);
  }

  lemma {:induction false} FewerHold(us: seq<Use>, b: nat)
    ensures Users(us, b, true) <= Users(us, b, false)
  {
    if us != [] {
      FewerHold(us[..|us| - 1], b);
    }
  }

  lemma UsersTwo(us: seq<Use>, t: nat, u: nat, b: nat, held: bool)
    requires t < |us| && u < |us| && t != u
    ensures Users(us, b, held) >= OnBuf(us[t], b, held) + OnBuf(us[u], b, held)
  {
    UsersUpdate(us, t, Idle, b, held);
    UsersHas(us[t := Idle], u, b, held);
  }

  // ---------- the invariant ----------

  function One(b: bool): nat {
    if b then 1 else 0
  }

  ghost predicate BufCounted(s: State, i: nat)
    requires i < |s.buf|
  {
    var b := s.buf[i];
    && b.refcnt == Users(s.uses, i, false) && One(b.locked) == Users(s.uses, i, true)
    && (b.dev == 1 ==> b.blockno < |s.disk|) && (b.dirty ==> b.valid)
  }

  predicate UseOk(s: State, t: nat)
    requires t < |s.uses|
  {
    var u := s.uses[t];
    u.On? ==> u.b < |s.buf| && u.k < |s.disk| && For(s.buf[u.b], 1, u.k) && (u.stage == Holding ==> s.buf[u.b].valid)
  }

  /** A read of block k would show what was last written to it. */
  predicate Shows(s: State, k: nat)
    requires k < |s.disk| == |s.now|
  {
    Contents(s.buf, s.disk, k) == s.now[k]
  }

  ghost predicate Counted(s: State) {
    && |s.now| == |s.disk| && Unique(s.buf)
    && (forall i: nat :: i < |s.buf| ==> BufCounted(s, i))
    && (forall t: nat :: t < |s.uses| ==> UseOk(s, t))
  }

  ghost predicate Tidy(s: State) {
    && |s.now| == |s.disk| && (forall i: nat :: i < |s.buf| ==> Clean(s.buf[i], s.disk))
    && forall k: nat :: k < |s.disk| ==> Shows(s, k)
  }

  ghost predicate Inv(s: State) {
    Counted(s) && (s.tidy ==> Tidy(s))
  }

  /** A buffer in use has a reference, and a lock that is held has one holder. */
  lemma UseCounts(s: State, t: nat)
    requires Counted(s) && t < |s.uses| && s.uses[t].On?
    ensures s.uses[t].b < |s.buf| && s.buf[s.uses[t].b].refcnt > 0
    ensures Holds(s.uses[t]) ==> s.buf[s.uses[t].b].locked
  {
    assert UseOk(s, t);
    assert BufCounted(s, s.uses[t].b);
    UsersHas(s.uses, t, s.uses[t].b, false);
    UsersHas(s.uses, t, s.uses[t].b, true);
  }

  /** Nobody holds a buffer without a reference. */
  lemma UnusedIsUnlocked(s: State, i: nat)
    requires Counted(s) && i < |s.buf| && s.buf[i].refcnt == 0
    ensures !s.buf[i].locked
  {
    assert BufCounted(s, i);
    FewerHold(s.uses, i);
  }

  /** Two uses of the same block are of the same buffer. */
  lemma SameBuffer(s: State, t: nat, u: nat)
    requires Counted(s) && t < |s.uses| && u < |s.uses| && s.uses[t].On? && s.uses[u].On?
    ensures s.uses[t].b == s.uses[u].b <==> s.uses[t].k == s.uses[u].k
  {
    assert UseOk(s, t) && UseOk(s, u);
    var i, j := s.uses[t].b, s.uses[u].b;
    if i < j {
      assert !For(s.buf[j], s.buf[i].dev, s.buf[i].blockno);
    } else if j < i {
      assert !For(s.buf[i], s.buf[j].dev, s.buf[j].blockno);
    }
  }

  lemma HolderAlone(s: State, t: nat, u: nat)
    requires Counted(s) && t < |s.uses| && u < |s.uses| && Holds(s.uses[t]) && Holds(s.uses[u])
    requires s.uses[t].b == s.uses[u].b
    ensures t == u
  {
    assert UseOk(s, t);
    assert BufCounted(s, s.uses[t].b);
    if t != u {
      UsersTwo(s.uses, t, u, s.uses[t].b, true);
    }
  }

  // ---------- every step keeps it ----------

  /** What a step of use t does: to its buffer b, which becomes x, and to its own place. */
  ghost predicate Moves(s: State, s': State, t: nat, b: nat, x: Buf, u: Use) {
    && t < |s.uses| && b < |s.buf| && s'.uses == s.uses[t := u] && s'.buf == s.buf[b := x]
    && |s'.disk| == |s.disk| && |s'.now| == |s.now|
  }

  /** The references and the lock of the buffer change as its uses do, and no other buffer is concerned. */
  ghost predicate Balanced(s: State, t: nat, b: nat, x: Buf, u: Use)
    requires t < |s.uses| && b < |s.buf|
  {
    && x.refcnt + OnBuf(s.uses[t], b, false) == s.buf[b].refcnt + OnBuf(u, b, false)
    && One(x.locked) + OnBuf(s.uses[t], b, true) == One(s.buf[b].locked) + OnBuf(u, b, true)
    && (s.uses[t].On? ==> s.uses[t].b == b) && (u.On? ==> u.b == b)
    && (x.dev == 1 ==> x.blockno < |s.disk|) && (x.dirty ==> x.valid)
  }

  lemma CountedStays(s: State, s': State, t: nat, b: nat, x: Buf, u: Use, i: nat)
    requires Counted(s) && Moves(s, s', t, b, x, u) && Balanced(s, t, b, x, u) && i < |s.buf|
    ensures BufCounted(s', i)
  {
    assert BufCounted(s, i);
    UsersUpdate(s.uses, t, u, i, false);
    UsersUpdate(s.uses, t, u, i, true);
  }

  /** The other uses keep their buffers, which stay with their blocks while they are used. */
  lemma UseStays(s: State, s': State, t: nat, b: nat, x: Buf, u: Use, v: nat)
    requires Counted(s) && Moves(s, s', t, b, x, u) && v < |s.uses| && v != t
    requires s.buf[b].refcnt > 0 ==> x.dev == s.buf[b].dev && x.blockno == s.buf[b].blockno
    requires s.buf[b].refcnt > 0 && s.buf[b].valid ==> x.valid
    ensures UseOk(s', v)
  {
    assert UseOk(s, v);
    if s.uses[v].On? {
      UseCounts(s, v);
    }
  }

  lemma MovesKeeps(s: State, s': State, t: nat, b: nat, x: Buf, u: Use)
    requires Counted(s) && Moves(s, s', t, b, x, u) && Balanced(s, t, b, x, u) && Unique(s'.buf)
    requires s.buf[b].refcnt > 0 ==> x.dev == s.buf[b].dev && x.blockno == s.buf[b].blockno
    requires s.buf[b].refcnt > 0 && s.buf[b].valid ==> x.valid
    requires u.On? ==> u.k < |s.disk| && For(x, 1, u.k) && (u.stage == Holding ==> x.valid)
    ensures Counted(s')
  {
    forall i: nat | i < |s'.buf|
      ensures BufCounted(s', i)
    {
      CountedStays(s, s', t, b, x, u, i);
    }
    forall v: nat | v < |s'.uses|
      ensures UseOk(s', v)
    {
      if v != t {
        UseStays(s, s', t, b, x, u, v);
      }
    }
  }

  /** The buffer, and the use's next place, in a step of one that has its buffer already. */
  lemma OwnStepKeeps(s: State, e: Action)
    requires Counted(s) && Enabled(s, e) && !e.Lookup? && !e.NoBuffers?
    ensures Counted(Step(s, e))
  {
    var t := e.t;
    var b := s.uses[t].b;
    var s' := Step(s, e);
    UseCounts(s, t);
    assert UseOk(s, t) && BufCounted(s, b);
    UniqueStays(s.buf, b, s'.buf[b]);
    MovesKeeps(s, s', t, b, s'.buf[b], s'.uses[t]);
  }

  lemma LookupKeeps(s: State, e: Action)
    requires Counted(s) && Enabled(s, e) && e.Lookup?
    ensures Counted(Step(s, e))
  {
    var s' := Step(s, e);
    assert BufCounted(s, e.b);
    if s.buf[e.b].refcnt == 0 {
      UnusedIsUnlocked(s, e.b);
    }
    if For(s.buf[e.b], 1, e.k) {
      UniqueStays(s.buf, e.b, s'.buf[e.b]);
    } else {
      UniqueRecycled(s.buf, e.b, 1, e.k, s'.buf[e.b]);
    }
    MovesKeeps(s, s', e.t, e.b, s'.buf[e.b], s'.uses[e.t]);
  }

  lemma StepCounted(s: State, e: Action)
    requires Counted(s) && Enabled(s, e)
    ensures Counted(Step(s, e))
  {
    if e.Lookup? {
      LookupKeeps(s, e);
    } else if e.NoBuffers? {
      var s' := Step(s, e);
      assert forall i: nat :: i < |s.buf| ==> (BufCounted(s, i) ==> BufCounted(s', i));
      assert forall t: nat :: t < |s.uses| ==> (UseOk(s, t) ==> UseOk(s', t));
    } else {
      OwnStepKeeps(s, e);
    }
  }

  // ---------- the latest write ----------

  /** bget takes a buffer from block k whose changes are neither on the disk nor given to the log. */
  predicate Drops(s: State, e: Action, k: nat) {
    && e.Lookup? && e.b < |s.buf| && !For(s.buf[e.b], 1, e.k) && For(s.buf[e.b], 1, k)
    && !Written(s.buf[e.b], s.disk)
  }

  lemma LookupShows(s: State, e: Action, k: nat)
    requires Counted(s) && Enabled(s, e) && e.Lookup? && k < |s.disk| && Shows(s, k)
    ensures Shows(Step(s, e), k) <==> !Drops(s, e, k)
  {
    var s' := Step(s, e);
    assert BufCounted(s, e.b);
    if For(s.buf[e.b], 1, e.k) {
      StepContents(s.buf, s.disk, e.b, s'.buf[e.b], s.disk, k);
    } else {
      RecycledContents(s.buf, s.disk, e.b, 1, e.k, s'.buf[e.b], k);
    }
    if For(s.buf[e.b], 1, k) {
      ContentsAt(s.buf, s.disk, e.b);
    }
  }

  lemma OwnStepShows(s: State, e: Action, k: nat)
    requires Counted(s) && Enabled(s, e) && !e.Lookup? && !e.NoBuffers? && k < |s.disk| && Shows(s, k)
    ensures Shows(Step(s, e), k)
  {
    var t := e.t;
    var b := s.uses[t].b;
    var s' := Step(s, e);
    assert UseOk(s, t);
    StepContents(s.buf, s.disk, b, s'.buf[b], s'.disk, k);
    if s.uses[t].k == k {
      ContentsAt(s.buf, s.disk, b);
    }
  }

  /**
    The last write to a block is lost in a step exactly if bget recycles a buffer of that block that was
    changed and neither written nor given to the log.
   */
  lemma LosesExactly(s: State, e: Action, k: nat)
    requires Counted(s) && Enabled(s, e) && k < |s.disk| && Shows(s, k)
    ensures var s' := Step(s, e);
            |s'.disk| == |s'.now| == |s.disk| && (Shows(s', k) <==> !Drops(s, e, k))
  {
    if e.Lookup? {
      LookupShows(s, e, k);
    } else if !e.NoBuffers? {
      OwnStepShows(s, e, k);
    }
  }

  lemma CleanStays(s: State, e: Action, i: nat)
    requires Counted(s) && Tidy(s) && Enabled(s, e) && Step(s, e).tidy && i < |s.buf|
    ensures Clean(Step(s, e).buf[i], Step(s, e).disk)
  {
    assert Clean(s.buf[i], s.disk);
    if e.Write? {
      assert UseOk(s, e.t);
      if s.uses[e.t].b != i {
        OthersBlock(s, s.uses[e.t].b, i);
      }
    } else if !e.Lookup? && !e.NoBuffers? {
      UseCounts(s, e.t);
      assert UseOk(s, e.t);
    }
  }

  lemma OthersBlock(s: State, b: nat, i: nat)
    requires Counted(s) && b < |s.buf| && i < |s.buf| && i != b && s.buf[b].dev == 1
    ensures s.buf[i].dev == 1 ==> s.buf[i].blockno != s.buf[b].blockno
  {
    if i < b && s.buf[i].dev == 1 {
      assert !For(s.buf[b], s.buf[i].dev, s.buf[i].blockno);
    } else if b < i {
      assert !For(s.buf[i], s.buf[b].dev, s.buf[b].blockno);
    }
  }

  lemma TidyStays(s: State, e: Action)
    requires Counted(s) && Tidy(s) && Enabled(s, e) && Step(s, e).tidy
    ensures Tidy(Step(s, e))
  {
    var s' := Step(s, e);
    forall i: nat | i < |s'.buf|
      ensures Clean(s'.buf[i], s'.disk)
    {
      CleanStays(s, e, i);
    }
    forall k: nat | k < |s'.disk|
      ensures Shows(s', k)
    {
      LosesExactly(s, e, k);
      NothingDropped(s, e, k);
    }
  }

  lemma NothingDropped(s: State, e: Action, k: nat)
    requires Counted(s) && Tidy(s) && Enabled(s, e)
    ensures !Drops(s, e, k)
  {
    if e.Lookup? && !For(s.buf[e.b], 1, e.k) {
      UnusedIsUnlocked(s, e.b);
      assert Clean(s.buf[e.b], s.disk);
    }
  }

  lemma StepKeeps(s: State, e: Action)
    requires Inv(s) && Enabled(s, e)
    ensures Inv(Step(s, e))
  {
    StepCounted(s, e);
    if Step(s, e).tidy {
      TidyStays(s, e);
    }
  }

  // ---------- runs ----------

  predicate Start(s: State) {
    && |s.now| == |s.disk| && s.now == s.disk && s.tidy && !s.panicked
    && (forall i :: 0 <= i < |s.buf| ==> s.buf[i].dev == 0 && s.buf[i].refcnt == 0 && !Marked(s.buf[i]))
    && forall t :: 0 <= t < |s.uses| ==> s.uses[t] == Idle
  }

  predicate Marked(b: Buf) {
    b.valid || b.dirty || b.locked
  }

  ghost predicate RunTo(s: State, run: seq<Action>, t: State)
    decreases |run|
  {
    if run == [] then Start(s) && t == s
    else
      var e := run[|run| - 1];
      exists m: State :: RunTo(s, run[..|run| - 1], m) && Enabled(m, e) && t == Step(m, e)
  }

  lemma {:induction false} NobodyUses(us: seq<Use>, b: nat, held: bool)
    requires forall t :: 0 <= t < |us| ==> us[t] == Idle
    ensures Users(us, b, held) == 0
  {
    if us != [] {
      NobodyUses(us[..|us| - 1], b, held);
    }
  }

  lemma StartIsGood(s: State)
    requires Start(s)
    ensures Inv(s)
  {
    forall i: nat | i < |s.buf|
      ensures BufCounted(s, i)
    {
      NobodyUses(s.uses, i, false);
      NobodyUses(s.uses, i, true);
    }
    FreshBufs(s.buf, s.disk);
  }

  lemma {:induction false} RunKeeps(s: State, run: seq<Action>, t: State)
    requires RunTo(s, run, t)
    ensures Inv(t)
    decreases |run|
  {
    if run == [] {
      StartIsGood(s);
    } else {
      var e := run[|run| - 1];
      var m: State :| RunTo(s, run[..|run| - 1], m) && Enabled(m, e) && t == Step(m, e);
      RunKeeps(s, run[..|run| - 1], m);
      StepKeeps(m, e);
    }
  }

  /**
    In every run a block has one buffer, which is not given to another block while someone uses it, and
    which one process at most works on.
   */
  lemma OneBuffer(s: State, run: seq<Action>, t: State, u: nat, v: nat)
    requires RunTo(s, run, t) && u < |t.uses| && v < |t.uses| && t.uses[u].On? && t.uses[v].On?
    ensures t.uses[u].b < |t.buf| && For(t.buf[t.uses[u].b], 1, t.uses[u].k) && t.buf[t.uses[u].b].refcnt > 0
    ensures t.uses[u].b == t.uses[v].b <==> t.uses[u].k == t.uses[v].k
    ensures Holds(t.uses[u]) && Holds(t.uses[v]) && t.uses[u].k == t.uses[v].k ==> u == v
  {
    RunKeeps(s, run, t);
    assert UseOk(t, u);
    UseCounts(t, u);
    SameBuffer(t, u, v);
    if Holds(t.uses[u]) && Holds(t.uses[v]) && t.uses[u].k == t.uses[v].k {
      HolderAlone(t, u, v);
    }
  }

  /**
    What bread returns is what was last written to the block, by whatever process, in every run in which no
    buffer was released with changes that are neither on the disk nor given to the log.
   */
  lemma ReadsLatest(s: State, run: seq<Action>, t: State, u: nat)
    requires RunTo(s, run, t) && t.tidy && u < |t.uses| && t.uses[u].On? && t.uses[u].stage == Holding
    ensures t.uses[u].b < |t.buf| && t.uses[u].k < |t.now| && t.buf[t.uses[u].b].data == t.now[t.uses[u].k]
  {
    RunKeeps(s, run, t);
    assert UseOk(t, u) && Shows(t, t.uses[u].k);
    ContentsAt(t.buf, t.disk, t.uses[u].b);
  }

  /** And once nobody holds a buffer and the log has marked none, that is on the disk. */
  lemma QuietIsWritten(s: State, run: seq<Action>, t: State, k: nat)
    requires RunTo(s, run, t) && t.tidy && k < |t.disk|
    requires forall i :: 0 <= i < |t.buf| ==> !t.buf[i].locked && !t.buf[i].dirty
    ensures k < |t.now| && t.disk[k] == t.now[k]
  {
    RunKeeps(s, run, t);
    assert Shows(t, k);
    var i := Seek(t.buf, 1, k);
    if i < |t.buf| {
      assert Clean(t.buf[i], t.disk);
    }
  }

  // ---------- "bget: no buffers" ----------

  function Dirty(buf: seq<Buf>): nat {
    if buf == [] then 0 else Dirty(buf[..|buf| - 1]) + One(buf[|buf| - 1].dirty)
  }

  /** The uses of the first n buffers. */
  function Busy(us: seq<Use>, n: nat): nat {
    if n == 0 then 0 else Busy(us, n - 1) + Users(us, n - 1, false)
  }

  function InUse(us: seq<Use>): nat {
    if us == [] then 0 else InUse(us[..|us| - 1]) + One(us[|us| - 1].On?)
  }

  function BusyOne(u: Use, n: nat): nat {
    One(u.On? && u.b < n)
  }

  lemma {:induction false} BusyLast(us: seq<Use>, n: nat)
    requires us != []
    ensures Busy(us, n) == Busy(us[..|us| - 1], n) + BusyOne(us[|us| - 1], n)
  {
    if n > 0 {
      BusyLast(us, n - 1);
    }
  }

  lemma {:induction false} NoneBusy(n: nat)
    ensures Busy([], n) == 0
  {
    if n > 0 {
      NoneBusy(n - 1);
    }
  }

  lemma {:induction false} BusyUses(us: seq<Use>, n: nat)
    ensures Busy(us, n) <= InUse(us)
  {
    if us == [] {
      NoneBusy(n);
    } else {
      BusyUses(us[..|us| - 1], n);
      BusyLast(us, n);
    }
  }

  lemma {:induction false} AllTaken(s: State, n: nat)
    requires Counted(s) && n <= |s.buf| && forall i :: 0 <= i < n ==> !Usable(s.buf[i])
    ensures n <= Dirty(s.buf[..n]) + Busy(s.uses, n)
  {
    if n > 0 {
      AllTaken(s, n - 1);
      assert s.buf[..n][..n - 1] == s.buf[..n - 1];
      assert BufCounted(s, n - 1);
    }
  }

  /** With more buffers than the log has marked and processes use, bget always finds one. */
  lemma EnoughBuffers(s: State, run: seq<Action>, t: State, e: Action)
    requires RunTo(s, run, t) && Enabled(t, e) && Dirty(t.buf) + InUse(t.uses) < |t.buf|
    ensures !Step(t, e).panicked
  {
    RunKeeps(s, run, t);
    if e.NoBuffers? {
      AllTaken(t, |t.buf|);
      assert t.buf[..|t.buf|] == t.buf;
      BusyUses(t.uses, |t.buf|);
    }
  }

  // ---------- a run into the panic ----------

  lemma Then(s: State, run: seq<Action>, t: State, e: Action) returns (run': seq<Action>, t': State)
    requires RunTo(s, run, t) && Enabled(t, e)
    ensures RunTo(s, run', t') && t' == Step(t, e)
  {
    run', t' := run + [e], Step(t, e);
    var last := run'[|run'| - 1];
    assert run'[..|run'| - 1] == run;
    assert RunTo(s, run'[..|run'| - 1], t) && Enabled(t, last) && t' == Step(t, last);
  }

  /** The first m buffers hold blocks 0 .. m - 1, logged or in use, and the others none. */
  ghost predicate Taken(t: State, m: nat) {
    && !t.panicked && t.tidy && m <= |t.buf| < |t.disk| == |t.now| && |t.uses| > 0 && t.uses[0] == Idle
    && (forall i: nat :: i < m ==> For(t.buf[i], 1, i) && !Usable(t.buf[i]))
    && forall i: nat :: m <= i < |t.buf| ==> t.buf[i].dev == 0 && t.buf[i].refcnt == 0 && !Marked(t.buf[i])
  }

  /** Uses 1 .. h are at work on one block each, and no other use is. */
  ghost predicate AtWork(t: State, h: nat) {
    forall u: nat :: u < |t.uses| ==> (t.uses[u].On? <==> 1 <= u <= h)
  }

  lemma NotCachedYet(t: State, m: nat)
    requires Taken(t, m)
    ensures Seek(t.buf, 1, m) == |t.buf|
  {
    var i := Seek(t.buf, 1, m);
    assert i < m ==> For(t.buf[i], 1, i);
  }

  /** Use 0 reads block m, gives it to the log and releases it. */
  lemma LogOne(s: State, run: seq<Action>, t: State, m: nat) returns (run': seq<Action>, t': State)
    requires RunTo(s, run, t) && Taken(t, m) && AtWork(t, 0) && m < |t.buf|
    ensures RunTo(s, run', t') && Taken(t', m + 1) && AtWork(t', 0) && |t'.buf| == |t.buf| && |t'.uses| == |t.uses|
    ensures t'.buf[..m] == t.buf[..m] && t'.buf[m].dirty
  {
    run', t' := ReadOne(s, run, t, m);
    run', t' := MarkOne(s, run', t', m, t);
  }

  /** Between the two halves of it. */
  ghost predicate Between(t: State, m: nat, stage: Stage, b: Buf, rest: State)
    requires |rest.uses| > 0 && m < |rest.buf|
  {
    t == rest.(uses := rest.uses[0 := On(m, m, stage)], buf := rest.buf[m := b]) && For(b, 1, m) && b.refcnt == 1
  }

  lemma ReadOne(s: State, run: seq<Action>, t: State, m: nat) returns (run': seq<Action>, t': State)
    requires RunTo(s, run, t) && Taken(t, m) && m < |t.buf|
    ensures RunTo(s, run', t') && exists b: Buf :: b.valid && !b.dirty && Between(t', m, Holding, b, t)
  {
    NotCachedYet(t, m);
    run', t' := Then(s, run, t, Lookup(0, m, m));
    run', t' := Then(s, run', t', Acquire(0));
    run', t' := Then(s, run', t', Fetch(0));
    assert Between(t', m, Holding, t'.buf[m], t);
  }

  lemma MarkOne(s: State, run: seq<Action>, t: State, m: nat, rest: State) returns (run': seq<Action>, t': State)
    requires RunTo(s, run, t) && Taken(rest, m) && m < |rest.buf|
    requires exists b: Buf :: b.valid && !b.dirty && Between(t, m, Holding, b, rest)
    ensures RunTo(s, run', t') && t'.uses == rest.uses && t'.disk == rest.disk && t'.now == rest.now
    ensures t'.tidy && !t'.panicked && |t'.buf| == |rest.buf| && t'.buf == rest.buf[m := t'.buf[m]]
    ensures For(t'.buf[m], 1, m) && t'.buf[m].dirty
  {
    run', t' := Then(s, run, t, Mark(0));
    run', t' := Then(s, run', t', Unlock(0));
    run', t' := Then(s, run', t', Drop(0));
  }

  /** Another use looks up block m. */
  lemma UseOne(s: State, run: seq<Action>, t: State, m: nat, h: nat) returns (run': seq<Action>, t': State)
    requires RunTo(s, run, t) && Taken(t, m) && AtWork(t, h) && m < |t.buf| && h + 1 < |t.uses|
    ensures RunTo(s, run', t') && Taken(t', m + 1) && AtWork(t', h + 1) && |t'.buf| == |t.buf| && |t'.uses| == |t.uses|
    ensures t'.buf[..m] == t.buf[..m] && !t'.buf[m].dirty
  {
    NotCachedYet(t, m);
    run', t' := Then(s, run, t, Lookup(h + 1, m, m));
  }

  lemma {:induction false} LogThem(s: State, m: nat) returns (run: seq<Action>, t: State)
    requires Start(s) && m <= |s.buf| < |s.disk| && |s.uses| > 0
    ensures RunTo(s, run, t) && Taken(t, m) && AtWork(t, 0) && |t.buf| == |s.buf| && |t.uses| == |s.uses|
    ensures Dirty(t.buf[..m]) == m
    decreases m
  {
    if m == 0 {
      run, t := [], s;
    } else {
      run, t := LogThem(s, m - 1);
      var before := t.buf[..m - 1];
      run, t := LogOne(s, run, t, m - 1);
      assert t.buf[..m][..m - 1] == before;
    }
  }

  lemma {:induction false} UseThem(s: State, m: nat, h: nat) returns (run: seq<Action>, t: State)
    requires Start(s) && m + h <= |s.buf| < |s.disk| && h < |s.uses|
    ensures RunTo(s, run, t) && Taken(t, m + h) && AtWork(t, h) && |t.buf| == |s.buf| && |t.uses| == |s.uses|
    ensures Dirty(t.buf[..m + h]) == m
    decreases h
  {
    if h == 0 {
      run, t := LogThem(s, m);
    } else {
      run, t := UseThem(s, m, h - 1);
      var before := t.buf[..m + h - 1];
      run, t := UseOne(s, run, t, m + h - 1, h - 1);
      assert t.buf[..m + h][..m + h - 1] == before;
    }
  }

  lemma {:induction false} AtWorkCount(us: seq<Use>, h: nat)
    requires forall u: nat :: u < |us| ==> (us[u].On? <==> 1 <= u <= h)
    ensures InUse(us) == if |us| == 0 then 0 else if h < |us| then h else |us| - 1
  {
    if us != [] {
      AtWorkCount(us[..|us| - 1], h);
    }
  }

  /**
    EnoughBuffers cannot do with one buffer less: for any number of buffers, m blocks in the log and as many
    processes at work as there are buffers left, the next block that is not cached is a panic. With NBUF
    equal to LOGSIZE a log that is full needs no process at all for it.
   */
  lemma TooFewBuffers(s: State, m: nat) returns (run: seq<Action>, t: State)
    requires Start(s) && m <= |s.buf| < |s.disk| && |s.buf| - m < |s.uses|
    ensures RunTo(s, run, t) && |t.buf| == |s.buf| && t.tidy && Dirty(t.buf) == m && InUse(t.uses) == |s.buf| - m
    ensures Enabled(t, NoBuffers(0, |s.buf|)) && Step(t, NoBuffers(0, |s.buf|)).panicked
  {
    var n := |s.buf|;
    run, t := UseThem(s, m, n - m);
    assert t.buf[..n] == t.buf;
    AtWorkCount(t.uses, n - m);
    NotCachedYet(t, n);
  }
}
