/**
  The log as a protocol: any number of system calls run between begin_op and end_op,
  interleaved at their critical sections; the last one to leave commits, one block write
  per step; the machine may crash before any step, also while recovering.

  `waiting` are the calls asleep in begin_op. `history` lists what the file system did since the machine was
  installed and
  `committed` how much of it is durable. Both exist for the proof only.
 */
module LogProtocol {
  import opened Blocks
  import opened LogSpec

  /** One system call slot; `pending` is the block that log_write has checked room for. */
  datatype Slot = Idle | InOp(added: nat, pending: Pending)
  datatype Pending = NoBlock | Checked(x: Word)

  datatype Phase =
    | Running            // system calls may enter
    | Copying(i: nat)    // write_log, then the header
    | Installing(i: nat) // install_trans, then the empty header
    | Finishing          // commit is done, log.committing still set
    | Down               // crashed, memory lost

  datatype Event = Began(t: nat) | Wrote(t: nat, x: Word, b: Block) | Ended(t: nat)

  datatype State = State(
    area: LogArea, disk: Disk, cache: map<Word, Block>, lh: seq<Word>,
    slots: seq<Slot>, outstanding: int, committing: bool, waiting: set<nat>, phase: Phase, panicked: bool,
    initial: Disk, base: Disk, history: seq<Event>, committed: nat)

  datatype Action =
    | BeginOp(t: nat)
    | WaitOp(t: nat)
    | CheckLog(t: nat, x: Word)
    | AppendLog(t: nat, b: Block)
    | EndOp(t: nat)
    | CommitWrite
    | FinishCommit
    | Crash
    | ReadHead

  // ---------- meaning of a history ----------

  /** The disk that the writes of a history amount to. */
  function Replay(initial: Disk, h: seq<Event>): (r: Disk)
    ensures |r| == |initial|
  {
    if h == [] then initial
    else
      var d := Replay(initial, h[..|h| - 1]);
      match h[|h| - 1]
      case Wrote(_, x, b) => if x < |d| then d[x := b] else d
      case _ => d
  }

  /** The system calls that have begun and not ended. */
  function Open(h: seq<Event>): set<nat> {
    if h == [] then {}
    else
      var s := Open(h[..|h| - 1]);
      match h[|h| - 1]
      case Began(t) => s + {t}
      case Ended(t) => s - {t}
      case _ => s
  }

  function Durable(s: State): Disk
    requires s.committed <= |s.history|
  {
    Replay(s.initial, s.history[..s.committed])
  }

  function Volatile(s: State): Disk {
    Replay(s.initial, s.history)
  }

  // ---------- counting over the slots ----------

  function Active(slots: seq<Slot>): nat {
    if slots == [] then 0
    else Active(slots[..|slots| - 1]) + if slots[|slots| - 1].InOp? then 1 else 0
  }

  /** Log space that the running system calls may still ask for. */
  function Unused(slots: seq<Slot>): int {
    if slots == [] then 0
    else
      Unused(slots[..|slots| - 1]) +
      match slots[|slots| - 1] case Idle => 0 case InOp(added, _) => MAXOPBLOCKS - added
  }

  function Count(slot: Slot): nat {
    if slot.InOp? then 1 else 0
  }

  function Room(slot: Slot): int {
    match slot case Idle => 0 case InOp(added, _) => MAXOPBLOCKS - added
  }

  lemma {:induction false} UpdateSlot(slots: seq<Slot>, t: nat, slot: Slot)
    requires t < |slots|
    ensures Active(slots[t := slot]) == Active(slots) - Count(slots[t]) + Count(slot)
    ensures Unused(slots[t := slot]) == Unused(slots) - Room(slots[t]) + Room(slot)
  {
    var n := |slots| - 1;
    var u := slots[t := slot];
    if t == n {
      assert u[..n] == slots[..n];
    } else {
      assert u[..n] == slots[..n][t := slot];
      UpdateSlot(slots[..n], t, slot);
    }
  }

  lemma {:induction false} NoneActive(slots: seq<Slot>)
    ensures Active(slots) == 0 <==> forall t :: 0 <= t < |slots| ==> slots[t].Idle?
    ensures Active(slots) == 0 ==> Unused(slots) == 0
  {
    if slots != [] {
      NoneActive(slots[..|slots| - 1]);
    }
  }

  /** While every system call keeps to its budget, the reserved space is never negative. */
  lemma {:induction false} UnusedIsNotNegative(slots: seq<Slot>)
    requires forall t :: 0 <= t < |slots| && slots[t].InOp? ==> slots[t].added <= MAXOPBLOCKS
    ensures Unused(slots) >= 0
    ensures forall t :: 0 <= t < |slots| ==> Room(slots[t]) <= Unused(slots)
  {
    if slots != [] {
      UnusedIsNotNegative(slots[..|slots| - 1]);
    }
  }

  // ---------- the steps ----------

  predicate InOp(s: State, t: nat) {
    t < |s.slots| && s.slots[t].InOp?
  }

  function Ops(s: State): Gate {
    Gate(s.outstanding, s.committing)
  }

  /**
    When a step can happen. The budget in AppendLog is the callers' side of the bargain:
    no system call adds more than MAXOPBLOCKS blocks to the log.
   */
  predicate Enabled(s: State, e: Action) {
    && !s.panicked
    && match e
       case BeginOp(t) =>
           s.phase == Running && t < |s.slots| && s.slots[t].Idle? && t !in s.waiting && Admits(Ops(s), |s.lh|)
       case WaitOp(t) =>
           (s.committing || s.phase == Running) && t < |s.slots| && s.slots[t].Idle? && !Admits(Ops(s), |s.lh|)
       case CheckLog(t, x) => InOp(s, t) && s.slots[t].pending.NoBlock? && Home(s.area, s.disk, x)
       case AppendLog(t, b) => InOp(s, t) && s.slots[t].pending.Checked?
                               && (s.slots[t].pending.x in s.lh || s.slots[t].added < MAXOPBLOCKS)
       case EndOp(t) => InOp(s, t) && s.slots[t].pending.NoBlock?
       case CommitWrite => CanWrite(s)
       case FinishCommit => s.phase == Finishing
       case Crash => true
       case ReadHead => s.phase == Down && ValidHead(s.area, s.disk)
  }

  function Append(s: State, t: nat, b: Block): State
    requires InOp(s, t) && s.slots[t].pending.Checked?
  {
    var added := s.slots[t].added;
    var x := s.slots[t].pending.x;
    s.(lh := Absorb(s.lh, x),
       cache := s.cache[x := b],
       slots := s.slots[t := Slot.InOp(added + (if x in s.lh then 0 else 1), NoBlock)],
       history := s.history + [Wrote(t, x, b)])
  }

  function Leave(s: State, t: nat): State
    requires InOp(s, t)
  {
    var g := Departed(Ops(s));
    var s' := s.(slots := s.slots[t := Idle], outstanding := g.outstanding, committing := g.committing,
                 waiting := if Wakes(Ops(s)) then {} else s.waiting, history := s.history + [Ended(t)]);
    if s.committing then s'.(panicked := true)
    else if !Commits(Ops(s)) then s'
    else if s.lh != [] then s'.(phase := Copying(0), base := s.disk)
    else s'.(phase := Finishing, committed := |s'.history|)
  }

  /** The committer has a block to write: the copies and homes it names exist. */
  predicate CanWrite(s: State) {
    && s.area.Fits(s.disk) && s.area.HasSlots(|s.lh|)
    && match s.phase
       case Copying(i) => i <= |s.lh| && (i < |s.lh| ==> s.lh[i] in s.cache)
       case Installing(i) => i <= |s.lh| && (i < |s.lh| ==> s.lh[i] < |s.disk|)
       case _ => false
  }

  /** The next block write of commit() or of recover_from_log(). */
  function WriteNext(s: State): State
    requires CanWrite(s)
  {
    match s.phase
    case Copying(i) =>
      if i < |s.lh| then
        s.(disk := s.disk[s.area.start + i + 1 := s.cache[s.lh[i]]], phase := Copying(i + 1))
      else
        var d := HeadWritten(s.area, s.disk, s.lh);
        s.(disk := d, base := d, phase := Installing(0), committed := |s.history|)
    case Installing(i) =>
      if i < |s.lh| then
        s.(disk := s.disk[s.lh[i] := s.disk[s.area.start + i + 1]], cache := s.cache - {s.lh[i]},
           phase := Installing(i + 1))
      else
        s.(disk := HeadWritten(s.area, s.disk, []), lh := [], phase := Finishing)
  }

  function Lost(s: State): State
    requires s.committed <= |s.history|
  {
    s.(cache := map[], lh := [], slots := seq(|s.slots|, _ => Idle), outstanding := 0, committing := false,
       waiting := {},
       phase := Down, history := s.history[..s.committed])
  }

  ghost predicate Next(s: State, e: Action, s': State) {
    && Enabled(s, e) && s.committed <= |s.history| && s.area.Fits(s.disk)
    && match e
       case BeginOp(t) =>
         s' == s.(outstanding := Admitted(Ops(s)).outstanding, slots := s.slots[t := Slot.InOp(0, NoBlock)],
                  history := s.history + [Began(t)])
       case WaitOp(t) => s' == s.(waiting := s.waiting + {t})
       case CheckLog(t, x) =>
         if TooBig(|s.lh|, s.area.size) || s.outstanding < 1 then s' == s.(panicked := true)
         else s' == s.(slots := s.slots[t := s.slots[t].(pending := Checked(x))])
       case AppendLog(t, b) => s' == Append(s, t, b)
       case EndOp(t) => s' == Leave(s, t)
       case CommitWrite => s' == WriteNext(s)
       case FinishCommit => s' == s.(committing := false, waiting := {}, phase := Running)
       case Crash => s' == Lost(s)
       case ReadHead =>
         s' == s.(lh := HeadBlocks(s.disk[s.area.start]), base := s.disk, phase := Installing(0))
  }

  // ---------- the invariant ----------

  ghost predicate Shape(s: State) {
    && s.area.Fits(s.disk) && s.area.size > LOGSIZE
    && |s.initial| == |s.disk| && s.committed <= |s.history|
  }

  /** Every running system call still has its share of the log. */
  ghost predicate Reserved(s: State) {
    && (forall t :: 0 <= t < |s.slots| && s.slots[t].InOp? ==>
          s.slots[t].added <= MAXOPBLOCKS
          && (s.slots[t].pending.Checked? ==> Home(s.area, s.disk, s.slots[t].pending.x)))
    && s.outstanding == Active(s.slots)
    && |s.lh| + Unused(s.slots) <= LOGSIZE
    && (s.phase != Running ==> s.outstanding == 0)
    && (s.committing ==> s.phase != Running)
  }

  /** The disk holds the durable state, the cache what the system calls made of it since. */
  ghost predicate Buffered(a: LogArea, disk: Disk, lh: seq<Word>, cache: map<Word, Block>, durable: Disk,
                           volatile: Disk)
  {
    && ReadyToCommit(a, disk, lh, cache) && Distinct(lh)
    && SameHome(a, disk, durable) && SameHome(a, Overlay(disk, cache), volatile)
  }

  /** The first i logged blocks are home; the disk `base` had the header but none of them. */
  ghost predicate Moving(a: LogArea, base: Disk, lh: seq<Word>, i: nat, disk: Disk, cache: map<Word, Block>,
                         durable: Disk)
  {
    && StandsFor(a, base, lh, durable) && i <= |lh|
    && HeadCount(base[a.start]) == |lh| && HeadBlocks(base[a.start]) == lh
    && disk == Installed(a, base, lh, i)
    && forall x :: x in cache ==> x in lh[i..]
  }

  ghost predicate Settled(a: LogArea, disk: Disk, durable: Disk) {
    a.Fits(disk) && HeadCount(disk[a.start]) == 0 && SameHome(a, disk, durable)
  }

  ghost predicate Logged(s: State)
    requires Shape(s)
  {
    match s.phase
    case Running =>
      Buffered(s.area, s.disk, s.lh, s.cache, Durable(s), Volatile(s))
    case Copying(i) =>
      && Buffered(s.area, s.base, s.lh, s.cache, Durable(s), Volatile(s)) && i <= |s.lh|
      && s.disk == LogCopied(s.area, s.base, s.lh, s.cache, i)
    case Installing(i) =>
      Moving(s.area, s.base, s.lh, i, s.disk, s.cache, Durable(s)) && s.committed == |s.history|
    case Finishing =>
      s.lh == [] && s.cache == map[] && Settled(s.area, s.disk, Durable(s)) && s.committed == |s.history|
    case Down =>
      && s.lh == [] && s.cache == map[] && Represents(s.area, s.disk, Durable(s)) && s.committed == |s.history|
  }

  /** Nothing becomes durable while the system call that wrote it is still running. */
  ghost predicate WholeOps(s: State)
    requires s.committed <= |s.history|
  {
    && (forall t: nat {:trigger t in Open(s.history)} {:trigger InOp(s, t)} :: t in Open(s.history) <==> InOp(s, t))
    && Open(s.history[..s.committed]) == {}
  }

  ghost predicate Inv(s: State) {
    Shape(s) && Reserved(s) && Logged(s) && WholeOps(s)
  }

  /** At every step the disk stands for exactly the committed part of the history. */
  lemma InvRepresents(s: State)
    requires Inv(s)
    ensures Represents(s.area, s.disk, Durable(s))
  {
    match s.phase
    case Running => RepresentsInPlace(s.area, s.disk, s.disk, Durable(s));
    case Copying(i) =>
      CopiedRepresentsBefore(s.area, s.base, s.lh, s.cache, i);
      LogCopiedAt(s.area, s.base, s.lh, s.cache, i, s.area.start);
      RepresentsInPlace(s.area, s.disk, s.base, Durable(s));
    case Installing(i) => InstalledStandsFor(s.area, s.base, s.lh, Durable(s), i);
    case Finishing => RepresentsInPlace(s.area, s.disk, s.disk, Durable(s));
    case Down =>
  }

  lemma RepresentsInPlace(a: LogArea, disk: Disk, d: Disk, durable: Disk)
    requires a.Fits(disk) && HeadCount(disk[a.start]) == 0
    requires SameHome(a, disk, d) && SameHome(a, d, durable)
    ensures Represents(a, disk, durable)
  {
    forall x: nat | Home(a, disk, x)
      ensures disk[x] == durable[x]
    {
      assert Home(a, d, x);
    }
  }

  // ---------- every step keeps the invariant ----------

  lemma ReplayOne(initial: Disk, h: seq<Event>, e: Event)
    ensures Replay(initial, h + [e])
         == if e.Wrote? && e.x < |initial| then Replay(initial, h)[e.x := e.b] else Replay(initial, h)
    ensures e.Began? ==> Open(h + [e]) == Open(h) + {e.t}
    ensures e.Ended? ==> Open(h + [e]) == Open(h) - {e.t}
    ensures e.Wrote? ==> Open(h + [e]) == Open(h)
  {
    assert (h + [e])[..|h|] == h;
  }

  lemma BeginOpKeeps(s: State, t: nat, s': State)
    requires Inv(s) && Next(s, BeginOp(t), s')
    ensures Inv(s')
  {
    UpdateSlot(s.slots, t, Slot.InOp(0, NoBlock));
    ReplayOne(s.initial, s.history, Began(t));
    NoWrite(s, Began(t));
    ReservationSuffices(s);
  }

  /** begin_op's estimate, which charges every running call in full, covers what is still reserved. */
  lemma ReservationSuffices(s: State)
    requires Inv(s) && s.phase == Running && HasRoom(|s.lh|, s.outstanding)
    ensures |s.lh| + Unused(s.slots) + MAXOPBLOCKS <= LOGSIZE
  {
    UnusedIsAtMostFull(s.slots);
  }

  lemma {:induction false} UnusedIsAtMostFull(slots: seq<Slot>)
    ensures Unused(slots) <= Active(slots) * MAXOPBLOCKS
  {
    if slots != [] {
      UnusedIsAtMostFull(slots[..|slots| - 1]);
    }
  }

  lemma CheckLogKeeps(s: State, t: nat, x: Word, s': State)
    requires Inv(s) && Next(s, CheckLog(t, x), s')
    ensures Inv(s')
  {
    UpdateSlot(s.slots, t, s.slots[t].(pending := Checked(x)));
  }

  lemma AppendKeepsReserved(s: State, t: nat, b: Block, s': State)
    requires Shape(s) && Reserved(s) && Next(s, AppendLog(t, b), s')
    ensures Reserved(s') && s.phase == Running && |s'.lh| <= LOGSIZE
  {
    NoneActive(s.slots);
    UpdateSlot(s.slots, t, s'.slots[t]);
    UnusedIsNotNegative(s'.slots);
  }

  lemma AppendKeepsBuffered(a: LogArea, disk: Disk, lh: seq<Word>, cache: map<Word, Block>,
                            durable: Disk, volatile: Disk, x: Word, b: Block)
    requires Buffered(a, disk, lh, cache, durable, volatile)
    requires Home(a, disk, x) && a.HasSlots(|Absorb(lh, x)|)
    ensures Buffered(a, disk, Absorb(lh, x), cache[x := b], durable, volatile[x := b])
  {
    AbsorbKeepsDistinct(lh, x);
    OverlayUpdate(disk, cache, x, b);
    SameHomeUpdate(a, Overlay(disk, cache), volatile, x, b);
  }

  lemma SameHomeUpdate(a: LogArea, d: Disk, e: Disk, x: nat, b: Block)
    requires SameHome(a, d, e) && x < |d|
    ensures SameHome(a, d[x := b], e[x := b])
  {
    var d', e' := d[x := b], e[x := b];
    forall y: nat | Home(a, d', y)
      ensures d'[y] == e'[y]
    {
      assert Home(a, d, y);
    }
  }

  /** An event that writes nothing leaves both disks of the history as they were. */
  lemma NoWrite(s: State, e: Event)
    requires s.committed <= |s.history| && !e.Wrote?
    ensures Replay(s.initial, s.history + [e]) == Volatile(s)
    ensures Replay(s.initial, (s.history + [e])[..s.committed]) == Durable(s)
    ensures Open((s.history + [e])[..s.committed]) == Open(s.history[..s.committed])
  {
    ReplayOne(s.initial, s.history, e);
    assert (s.history + [e])[..s.committed] == s.history[..s.committed];
  }

  lemma AppendKeepsLogged(s: State, t: nat, b: Block, s': State)
    requires Shape(s) && Reserved(s) && Logged(s) && Next(s, AppendLog(t, b), s') && s.phase == Running
    requires |s'.lh| <= LOGSIZE
    ensures Shape(s') && Logged(s')
  {
    var x := s.slots[t].pending.x;
    AppendKeepsBuffered(s.area, s.disk, s.lh, s.cache, Durable(s), Volatile(s), x, b);
    ReplayOne(s.initial, s.history, Wrote(t, x, b));
    assert s'.history[..s.committed] == s.history[..s.committed];
  }

  lemma AppendKeepsWhole(s: State, t: nat, b: Block, s': State)
    requires WholeOpsAt(s) && Next(s, AppendLog(t, b), s')
    ensures WholeOpsAt(s')
  {
    ReplayOne(s.initial, s.history, Wrote(t, s.slots[t].pending.x, b));
    assert s'.history[..s.committed] == s.history[..s.committed];
    forall u: nat
      ensures u in Open(s'.history) <==> InOp(s', u)
    {
      assert u in Open(s.history) <==> InOp(s, u);
    }
  }

  lemma AppendLogKeeps(s: State, t: nat, b: Block, s': State)
    requires Inv(s) && Next(s, AppendLog(t, b), s')
    ensures Inv(s')
  {
    AppendKeepsReserved(s, t, b, s');
    AppendKeepsLogged(s, t, b, s');
    AppendKeepsWhole(s, t, b, s');
  }

  lemma EndOpKeepsReserved(s: State, t: nat, s': State)
    requires Shape(s) && Reserved(s) && Next(s, EndOp(t), s')
    ensures Reserved(s') && s.phase == Running && !s'.panicked
    ensures s'.outstanding == 0 ==> forall u: nat :: !InOp(s', u)
  {
    NoneActive(s.slots);
    UpdateSlot(s.slots, t, Idle);
    UnusedIsNotNegative(s.slots);
    NoneActive(s'.slots);
  }

  lemma EndOpKeepsLogged(s: State, t: nat, s': State)
    requires Shape(s) && Next(s, EndOp(t), s') && Logged(s) && s.phase == Running && !s'.panicked
    ensures Shape(s') && Logged(s')
  {
    NoWrite(s, Ended(t));
    if s'.phase == Finishing {
      assert Overlay(s.disk, s.cache) == s.disk;
      assert s'.history[..s'.committed] == s'.history;
    }
  }

  lemma EndOpKeepsWhole(s: State, t: nat, s': State)
    requires WholeOpsAt(s) && Next(s, EndOp(t), s') && s.slots[t].InOp? && s'.slots == s.slots[t := Idle]
    requires s'.history == s.history + [Ended(t)]
    requires s'.committed == s.committed || (s'.committed == |s'.history| && forall u: nat :: !InOp(s', u))
    ensures WholeOpsAt(s')
  {
    NoWrite(s, Ended(t));
    ReplayOne(s.initial, s.history, Ended(t));
    assert forall u: nat :: InOp(s', u) <==> InOp(s, u) && u != t;
    if s'.committed == |s'.history| {
      assert s'.history[..s'.committed] == s'.history;
      assert forall u: nat :: u in Open(s'.history) ==> InOp(s', u);
    }
  }

  ghost predicate WholeOpsAt(s: State) {
    s.committed <= |s.history| && WholeOps(s)
  }

  lemma EndOpKeeps(s: State, t: nat, s': State)
    requires Inv(s) && Next(s, EndOp(t), s')
    ensures Inv(s') && !s'.panicked
  {
    EndOpKeepsReserved(s, t, s');
    EndOpKeepsLogged(s, t, s');
    EndOpKeepsWhole(s, t, s');
  }

  lemma StandsForSame(a: LogArea, disk: Disk, h: seq<Word>, d: Disk, e: Disk)
    requires StandsFor(a, disk, h, d) && SameHome(a, d, e)
    ensures StandsFor(a, disk, h, e)
  {
    forall x: nat | Home(a, disk, x)
      ensures Source(a, h, |h|, x) < |disk| && disk[Source(a, h, |h|, x)] == e[x]
    {
      assert Home(a, d, x);
    }
  }

  /** The write of the header is the commit point: what was volatile becomes durable. */
  lemma HeadMakesDurable(a: LogArea, disk: Disk, lh: seq<Word>, cache: map<Word, Block>, durable: Disk, volatile: Disk)
    requires Buffered(a, disk, lh, cache, durable, volatile)
    ensures var d := Committed(a, disk, lh, cache);
            Moving(a, d, lh, 0, d, cache, volatile)
  {
    CommittedStandsForAfter(a, disk, lh, cache);
    StandsForSame(a, Committed(a, disk, lh, cache), lh, Overlay(disk, cache), volatile);
    assert lh[0..] == lh;
  }

  lemma InstallOne(a: LogArea, base: Disk, lh: seq<Word>, i: nat, disk: Disk, cache: map<Word, Block>, durable: Disk)
    requires Moving(a, base, lh, i, disk, cache, durable) && i < |lh|
    ensures Home(a, base, lh[i])
    ensures Moving(a, base, lh, i + 1, disk[lh[i] := disk[a.start + i + 1]], cache - {lh[i]}, durable)
  {
    assert Home(a, base, lh[i]);
    assert lh[i..] == [lh[i]] + lh[i + 1..];
  }

  lemma ClearSettles(a: LogArea, base: Disk, lh: seq<Word>, disk: Disk, cache: map<Word, Block>, durable: Disk)
    requires Moving(a, base, lh, |lh|, disk, cache, durable)
    ensures Settled(a, HeadWritten(a, disk, []), durable) && cache == map[]
  {
    InstalledStandsFor(a, base, lh, durable, |lh|);
    ClearHeadKeeps(a, disk, durable);
  }

  lemma NothingOpen(s: State)
    requires Reserved(s) && s.outstanding == 0 && s.committed <= |s.history| && WholeOps(s)
    ensures Open(s.history) == {}
  {
    NoneActive(s.slots);
    assert forall t: nat :: t in Open(s.history) ==> InOp(s, t);
  }

  lemma CopyKeepsLogged(s: State, s': State)
    requires Shape(s) && Logged(s) && Next(s, CommitWrite, s') && s'.phase.Copying?
    ensures Shape(s') && Logged(s') && s' == s.(disk := s'.disk, phase := s'.phase)
  {
    var i := s.phase.i;
    assert s.disk[s.area.start + i + 1 := s.cache[s.lh[i]]] == LogCopied(s.area, s.base, s.lh, s.cache, i + 1);
  }

  lemma CopyKeeps(s: State, s': State)
    requires Inv(s) && Next(s, CommitWrite, s') && s'.phase.Copying?
    ensures Inv(s')
  {
    CopyKeepsLogged(s, s');
    assert Reserved(s');
    assert WholeOps(s');
  }

  lemma HeadKeepsLogged(s: State, s': State)
    requires Shape(s) && Logged(s) && Next(s, CommitWrite, s') && s.phase.Copying? && s'.phase.Installing?
    ensures Shape(s') && Logged(s') && s'.history == s.history && s'.slots == s.slots && s'.committed == |s.history|
  {
    HeadMakesDurable(s.area, s.base, s.lh, s.cache, Durable(s), Volatile(s));
    assert s'.history[..s'.committed] == s'.history;
  }

  lemma HeadKeeps(s: State, s': State)
    requires Inv(s) && Next(s, CommitWrite, s') && s.phase.Copying? && s'.phase.Installing?
    ensures Inv(s')
  {
    HeadKeepsLogged(s, s');
    assert Reserved(s');
    NothingOpen(s);
    assert s'.history[..s'.committed] == s.history;
    forall t: nat
      ensures t in Open(s'.history) <==> InOp(s', t)
    {
      assert t in Open(s.history) <==> InOp(s, t);
    }
  }

  lemma InstallKeeps(s: State, s': State)
    requires Inv(s) && Next(s, CommitWrite, s') && s.phase.Installing? && s'.phase.Installing?
    ensures Inv(s')
  {
    InstallOne(s.area, s.base, s.lh, s.phase.i, s.disk, s.cache, Durable(s));
  }

  lemma ClearKeeps(s: State, s': State)
    requires Inv(s) && Next(s, CommitWrite, s') && s'.phase.Finishing?
    ensures Inv(s')
  {
    ClearSettles(s.area, s.base, s.lh, s.disk, s.cache, Durable(s));
    NoneActive(s.slots);
  }

  lemma CommitWriteKeeps(s: State, s': State)
    requires Inv(s) && Next(s, CommitWrite, s')
    ensures Inv(s')
  {
    if s'.phase.Copying? {
      CopyKeeps(s, s');
    } else if s'.phase.Finishing? {
      ClearKeeps(s, s');
    } else if s.phase.Copying? {
      HeadKeeps(s, s');
    } else {
      InstallKeeps(s, s');
    }
  }

  lemma CrashKeeps(s: State, s': State)
    requires Inv(s) && Next(s, Crash, s')
    ensures Inv(s')
  {
    InvRepresents(s);
    NoneActive(s'.slots);
    assert s'.history[..s'.committed] == s.history[..s.committed];
    assert s'.history == s.history[..s.committed];
  }

  lemma ReadHeadKeeps(s: State, s': State)
    requires Inv(s) && Next(s, ReadHead, s')
    ensures Inv(s')
  {
    NoneActive(s.slots);
  }

  lemma FinishCommitKeeps(s: State, s': State)
    requires Inv(s) && Next(s, FinishCommit, s')
    ensures Inv(s')
  {
    assert s.history[..s.committed] == s.history;
    assert Overlay(s.disk, s.cache) == s.disk;
    NoneActive(s.slots);
  }

  lemma NextKeeps(s: State, e: Action, s': State)
    requires Inv(s) && Next(s, e, s')
    ensures Inv(s')
  {
    match e
    case BeginOp(t) => BeginOpKeeps(s, t, s');
    case WaitOp(t) =>
    case CheckLog(t, x) => CheckLogKeeps(s, t, x, s');
    case AppendLog(t, b) => AppendLogKeeps(s, t, b, s');
    case EndOp(t) => EndOpKeeps(s, t, s');
    case CommitWrite => CommitWriteKeeps(s, s');
    case FinishCommit => FinishCommitKeeps(s, s');
    case Crash => CrashKeeps(s, s');
    case ReadHead => ReadHeadKeeps(s, s');
  }

  // ---------- runs ----------

  /** A freshly made file system, before initlog: the log is empty. */
  ghost predicate Start(s: State) {
    && s.area.Fits(s.disk) && HeadCount(s.disk[s.area.start]) == 0
    && s.initial == s.disk && s.history == [] && s.committed == 0
    && s.cache == map[] && s.lh == [] && s.phase == Down && !s.panicked && s.waiting == {}
    && s.outstanding == 0 && !s.committing && forall t :: 0 <= t < |s.slots| ==> s.slots[t].Idle?
  }

  ghost predicate Reachable(s: State, run: seq<Action>)
    decreases |run|
  {
    if run == [] then Start(s)
    else
      var before, e := run[..|run| - 1], run[|run| - 1];
      exists p :: Reachable(p, before) && Next(p, e, s)
  }

  lemma StartInv(s: State)
    requires Start(s) && s.area.size > LOGSIZE
    ensures Inv(s)
  {
    NoneActive(s.slots);
    RepresentsInPlace(s.area, s.disk, s.disk, Durable(s));
  }

  lemma {:induction false} ReachableInv(s: State, run: seq<Action>)
    requires Reachable(s, run) && s.area.size > LOGSIZE
    ensures Inv(s)
    decreases |run|
  {
    if run == [] {
      StartInv(s);
    } else {
      var before, e := run[..|run| - 1], run[|run| - 1];
      var p :| Reachable(p, before) && Next(p, e, s);
      ReachableInv(p, before);
      NextKeeps(p, e, s);
    }
  }

  /**
    Crash safety of the whole protocol: stop the machine at any reachable state, let recoveries
    crash as often as they like and finish one. The home blocks are then the replay
    of the committed prefix of the history, and no system call is cut in two by it.
   */
  lemma CrashSafety(s: State, run: seq<Action>, cuts: seq<nat>, final: Disk)
    requires Reachable(s, run) && s.area.size > LOGSIZE
    requires RecoversTo(s.area, s.disk, cuts, final)
    ensures s.committed <= |s.history|
    ensures SameHome(s.area, final, Replay(s.initial, s.history[..s.committed]))
    ensures Open(s.history[..s.committed]) == {}
  {
    ReachableInv(s, run);
    InvRepresents(s);
    RepeatedRecovery(s.area, s.disk, Durable(s), cuts, final);
  }

  /** What became durable stays durable, and becomes so only when no system call is running. */
  lemma DurablePrefixGrows(s: State, run: seq<Action>, e: Action, s': State)
    requires Reachable(s, run) && s.area.size > LOGSIZE && Next(s, e, s')
    ensures s.committed <= s'.committed <= |s'.history|
    ensures s.history[..s.committed] == s'.history[..s.committed]
    ensures s'.committed > s.committed ==> s'.committed == |s'.history| && s'.outstanding == 0
  {
    ReachableInv(s, run);
    if e.EndOp? {
      EndGrows(s, e.t, s');
    } else if e.CommitWrite? {
      CommitGrows(s, s');
    } else {
      OthersGrowNone(s, e, s');
    }
  }

  ghost predicate Grows(s: State, s': State) {
    && s.committed <= s'.committed <= |s'.history| && s.committed <= |s.history|
    && s.history[..s.committed] == s'.history[..s.committed]
    && (s'.committed > s.committed ==> s'.committed == |s'.history| && s'.outstanding == 0)
  }

  lemma EndGrows(s: State, t: nat, s': State)
    requires Inv(s) && Next(s, EndOp(t), s')
    ensures Grows(s, s')
  {
    assert (s.history + [Ended(t)])[..s.committed] == s.history[..s.committed];
  }

  lemma CommitGrows(s: State, s': State)
    requires Inv(s) && Next(s, CommitWrite, s')
    ensures Grows(s, s')
  {
  }

  lemma OthersGrowNone(s: State, e: Action, s': State)
    requires Next(s, e, s') && !e.EndOp? && !e.CommitWrite?
    ensures Grows(s, s') && s'.committed == s.committed
  {
    if |s'.history| > |s.history| {
      assert s'.history[..|s.history|] == s.history;
      assert s'.history[..s.committed] == s.history[..s.committed];
    }
  }

  /** While the machine is up, reads through the cache see every write of the history. */
  lemma ReadsSeeAllWrites(s: State, run: seq<Action>)
    requires Reachable(s, run) && s.area.size > LOGSIZE && s.phase == Running
    ensures SameHome(s.area, Overlay(s.disk, s.cache), Replay(s.initial, s.history))
  {
    ReachableInv(s, run);
  }

  /** A system call within its budget always finds room for one more block, whatever the others do. */
  lemma AppendFits(s: State, run: seq<Action>, t: nat, x: Word, s': State)
    requires Reachable(s, run) && s.area.size > LOGSIZE
    requires InOp(s, t) && s.slots[t].added < MAXOPBLOCKS && x !in s.lh
    requires Next(s, CheckLog(t, x), s')
    ensures !s'.panicked && |s.lh| < LOGSIZE
  {
    ReachableInv(s, run);
    NoneActive(s.slots);
    UnusedIsNotNegative(s.slots);
  }

  /** end_op never finds a commit in progress, and a commit never runs beside a system call. */
  lemma EndOpNeverPanics(s: State, run: seq<Action>, t: nat, s': State)
    requires Reachable(s, run) && s.area.size > LOGSIZE && Next(s, EndOp(t), s')
    ensures !s.committing && !s'.panicked
    ensures s'.committing ==> s'.outstanding == 0
  {
    ReachableInv(s, run);
    EndOpKeeps(s, t, s');
  }

  /** The committer and the recovery can always take their next block write. */
  lemma CommitNeverStuck(s: State, run: seq<Action>)
    requires Reachable(s, run) && s.area.size > LOGSIZE && (s.phase.Copying? || s.phase.Installing?)
    ensures CanWrite(s)
  {
    ReachableInv(s, run);
    if s.phase.Installing? && s.phase.i < |s.lh| {
      assert Home(s.area, s.base, s.lh[s.phase.i]);
    }
  }

  // ---------- begin_op's sleepers ----------

  /** Whoever sleeps in begin_op could not be let in now. */
  ghost predicate Waits(s: State) {
    s.waiting != {} ==> !Admits(Ops(s), |s.lh|) && (s.committing || s.phase == Running)
  }

  lemma NextWaits(s: State, e: Action, s': State)
    requires Waits(s) && Next(s, e, s')
    ensures Waits(s')
  {
  }

  /** No wakeup is lost in begin_op: a call sleeps there only while a commit runs or the log is reserved in full. */
  lemma {:induction false} WaitersHaveReason(s: State, run: seq<Action>)
    requires Reachable(s, run)
    ensures Waits(s)
    decreases |run|
  {
    if run != [] {
      var before, e := run[..|run| - 1], run[|run| - 1];
      var p :| Reachable(p, before) && Next(p, e, s);
      WaitersHaveReason(p, before);
      NextWaits(p, e, s);
    }
  }

  // ---------- what a system call logs, and what it is charged ----------

  /** The blocks that the running call of slot t has logged so far. */
  function WrittenBy(h: seq<Event>, t: nat): set<Word> {
    if h == [] then {}
    else
      var rest := WrittenBy(h[..|h| - 1], t);
      match h[|h| - 1]
      case Began(u) => if u == t then {} else rest
      case Wrote(u, x, _) => if u == t then rest + {x} else rest
      case Ended(u) => if u == t then {} else rest
  }

  lemma WrittenByOne(h: seq<Event>, e: Event, t: nat)
    ensures WrittenBy(h + [e], t)
         == if e.t != t then WrittenBy(h, t) else if e.Wrote? then WrittenBy(h, t) + {e.x} else {}
  {
    assert (h + [e])[..|h|] == h;
  }

  /** A call is charged for distinct blocks only, and until the commit they stay in the log. */
  ghost predicate Charged(s: State, t: nat) {
    InOp(s, t) ==>
      && (forall x :: x in WrittenBy(s.history, t) ==> x in s.lh)
      && s.slots[t].added <= |WrittenBy(s.history, t)|
  }

  lemma AppendCharged(s: State, t: nat, b: Block, s': State, u: nat)
    requires Charged(s, u) && Next(s, AppendLog(t, b), s')
    ensures Charged(s', u)
  {
    var x := s.slots[t].pending.x;
    WrittenByOne(s.history, Wrote(t, x, b), u);
    if u == t && InOp(s, t) {
      MoreOf(WrittenBy(s.history, t), x);
    }
  }

  lemma MoreOf(a: set<Word>, x: Word)
    ensures |a + {x}| == if x in a then |a| else |a| + 1
  {
    if x in a {
      assert a + {x} == a;
    }
  }

  lemma NextCharged(s: State, e: Action, s': State, u: nat)
    requires Inv(s) && Charged(s, u) && Next(s, e, s')
    ensures Charged(s', u)
  {
    match e
    case BeginOp(t) => WrittenByOne(s.history, Began(t), u);
    case EndOp(t) => WrittenByOne(s.history, Ended(t), u);
    case AppendLog(t, b) => AppendCharged(s, t, b, s', u);
    case CommitWrite => NoneActive(s.slots);
    case _ =>
  }

  lemma {:induction false} ReachableCharged(s: State, run: seq<Action>, u: nat)
    requires Reachable(s, run) && s.area.size > LOGSIZE
    ensures Charged(s, u)
    decreases |run|
  {
    if run != [] {
      var before, e := run[..|run| - 1], run[|run| - 1];
      var p :| Reachable(p, before) && Next(p, e, s);
      ReachableInv(p, before);
      ReachableCharged(p, before, u);
      NextCharged(p, e, s, u);
    }
  }

  /**
    A call all of whose writes, this one included, are to at most MAXOPBLOCKS blocks stays within its
    budget and finds room: so FsBudget's bounds are what begin_op's reservation needs.
   */
  lemma FewBlocksFit(s: State, run: seq<Action>, t: nat, x: Word, blocks: set<Word>, s': State)
    requires Reachable(s, run) && s.area.size > LOGSIZE && InOp(s, t) && x !in s.lh && Next(s, CheckLog(t, x), s')
    requires WrittenBy(s.history, t) + {x} <= blocks && |blocks| <= MAXOPBLOCKS
    ensures s.slots[t].added < MAXOPBLOCKS && !s'.panicked && |s.lh| < LOGSIZE
  {
    ReachableCharged(s, run, t);
    MoreOf(WrittenBy(s.history, t), x);
    FewerOf(WrittenBy(s.history, t) + {x}, blocks);
    AppendFits(s, run, t, x, s');
  }

  lemma FewerOf(a: set<Word>, b: set<Word>)
    requires a <= b
    ensures |a| <= |b|
  {
    assert b == a + (b - a) && |a + (b - a)| == |a| + |b - a|;
  }

  // ---------- how large the log has to be ----------

  /** The machine is up and the first n slots hold system calls that have logged nothing. */
  ghost predicate Entered(s0: State, s: State, n: nat) {
    && s.area == s0.area && |s.disk| == |s0.disk| && s.area.Fits(s.disk)
    && s.phase == Running && !s.panicked && !s.committing && s.outstanding == n
    && s.committed <= |s.history| && |s.slots| == |s0.slots| && s.waiting == {}
    && forall u: nat :: u < |s.slots| && u < n ==> s.slots[u].InOp?
  }

  lemma Boot(s0: State) returns (s: State, run: seq<Action>)
    requires Start(s0)
    ensures Reachable(s, run) && Entered(s0, s, 0) && s.lh == []
    ensures s.slots == s0.slots
  {
    var s1 := s0.(lh := HeadBlocks(s0.disk[s0.area.start]), base := s0.disk, phase := Installing(0));
    var s2 := WriteNext(s1);
    s := s2.(committing := false, waiting := {}, phase := Running);
    Then(s0, [], ReadHead, s1);
    Then(s1, [] + [ReadHead], CommitWrite, s2);
    Then(s2, [] + [ReadHead] + [CommitWrite], FinishCommit, s);
    run := [] + [ReadHead] + [CommitWrite] + [FinishCommit];
  }

  lemma {:induction false} Enter(s0: State, n: nat) returns (s: State, run: seq<Action>)
    requires Start(s0) && n <= |s0.slots| && n <= 3
    ensures Reachable(s, run) && Entered(s0, s, n) && s.lh == []
    ensures forall u: nat :: u < |s.slots| ==> s.slots[u] == if u < n then Slot.InOp(0, NoBlock) else Idle
  {
    if n == 0 {
      s, run := Boot(s0);
    } else {
      s, run := Enter(s0, n - 1);
      var s' := s.(outstanding := n, slots := s.slots[n - 1 := Slot.InOp(0, NoBlock)],
                   history := s.history + [Began(n - 1)]);
      Then(s, run, BeginOp(n - 1), s');
      s, run := s', run + [BeginOp(n - 1)];
    }
  }

  /** One more block for system call t: the test, then the locked part. */
  lemma LogOne(s: State, t: nat, x: Word, b: Block) returns (mid: State, s': State)
    requires Entered(s, s, 3) && |s.slots| >= 3 && t < 3
    requires s.slots[t].pending.NoBlock? && s.slots[t].added < MAXOPBLOCKS && Home(s.area, s.disk, x)
    requires x !in s.lh && !TooBig(|s.lh|, s.area.size)
    ensures Next(s, CheckLog(t, x), mid) && Next(mid, AppendLog(t, b), s')
    ensures Entered(s, s', 3) && s'.lh == s.lh + [x]
    ensures s'.slots == s.slots[t := Slot.InOp(s.slots[t].added + 1, NoBlock)]
  {
    mid := s.(slots := s.slots[t := s.slots[t].(pending := Checked(x))]);
    s' := Append(mid, t, b);
  }

  lemma LogOneMore(s: State, run: seq<Action>, t: nat, x: Word, b: Block) returns (s': State, run': seq<Action>)
    requires Reachable(s, run) && Entered(s, s, 3) && |s.slots| >= 3 && t < 3
    requires s.slots[t].pending.NoBlock? && s.slots[t].added < MAXOPBLOCKS && Home(s.area, s.disk, x)
    requires x !in s.lh && !TooBig(|s.lh|, s.area.size)
    ensures Reachable(s', run') && Entered(s, s', 3) && s'.lh == s.lh + [x]
    ensures s'.slots == s.slots[t := Slot.InOp(s.slots[t].added + 1, NoBlock)]
  {
    var mid;
    mid, s' := LogOne(s, t, x, b);
    Then(s, run, CheckLog(t, x), mid);
    Then(mid, run + [CheckLog(t, x)], AppendLog(t, b), s');
    run' := run + [CheckLog(t, x)] + [AppendLog(t, b)];
  }

  /** The calls share the blocks evenly: ten for the first, then ten for the second, and so on. */
  ghost predicate Shared(s: State, n: nat) {
    |s.slots| >= 3 && forall t: nat :: t < 3 ==> s.slots[t] == Slot.InOp(Share(n, t), NoBlock)
  }

  /** A run that boots, enters three system calls and lets them log the blocks xs, ten each. */
  lemma {:induction false} FillLog(s0: State, xs: seq<Word>, b: Block) returns (s: State, run: seq<Action>)
    requires Start(s0) && |s0.slots| >= 3
    requires Distinct(xs) && HomeBlocks(s0.area, s0.disk, xs)
    requires |xs| <= LOGSIZE && |xs| < s0.area.size
    ensures Reachable(s, run) && Entered(s0, s, 3) && s.lh == xs && Shared(s, |xs|)
    decreases |xs|
  {
    if xs == [] {
      s, run := Enter(s0, 3);
    } else {
      var k := |xs| - 1;
      var init := xs[..k];
      LastIsNew(s0.area, s0.disk, xs, init);
      s, run := FillLog(s0, init, b);
      s, run := FillOne(s0, s, run, init, xs[k], b);
    }
  }

  lemma LastIsNew(a: LogArea, disk: Disk, xs: seq<Word>, init: seq<Word>)
    requires Distinct(xs) && HomeBlocks(a, disk, xs) && xs != [] && init == xs[..|xs| - 1]
    ensures Distinct(init) && HomeBlocks(a, disk, init)
    ensures xs[|xs| - 1] !in init && Home(a, disk, xs[|xs| - 1]) && xs == init + [xs[|xs| - 1]]
  {
    DistinctMeans(xs);
    DistinctMeans(init);
  }

  lemma FillOne(s0: State, s: State, run: seq<Action>, lh: seq<Word>, x: Word, b: Block)
    returns (s': State, run': seq<Action>)
    requires Reachable(s, run) && Entered(s0, s, 3) && s.lh == lh && Shared(s, |lh|) && x !in lh
    requires Home(s0.area, s0.disk, x)
    requires |lh| < LOGSIZE && |lh| + 1 < s0.area.size
    ensures Reachable(s', run') && Entered(s0, s', 3) && s'.lh == lh + [x] && Shared(s', |lh| + 1)
  {
    assert Home(s.area, s.disk, x);
    s', run' := LogOneMore(s, run, |lh| / MAXOPBLOCKS, x, b);
  }

  /** How many of the first n blocks the t-th system call logs. */
  function Share(n: nat, t: nat): nat {
    if n <= MAXOPBLOCKS * t then 0
    else if n >= MAXOPBLOCKS * (t + 1) then MAXOPBLOCKS
    else n - MAXOPBLOCKS * t
  }

  lemma Then(s: State, run: seq<Action>, e: Action, s': State)
    requires Reachable(s, run) && Next(s, e, s')
    ensures Reachable(s', run + [e])
  {
    assert (run + [e])[..|run|] == run;
  }

  /**
    mkfs gives the log LOGSIZE blocks, header included. With that, or any smaller size, three
    system calls within their budgets reach log_write's panic while there
    still is a block to add: AppendFits holds exactly when the size exceeds LOGSIZE.
   */
  lemma SmallLogPanics(s0: State, xs: seq<Word>, b: Block) returns (s: State, run: seq<Action>, t: nat, s': State)
    requires Start(s0) && |s0.slots| >= 3 && s0.area.size <= LOGSIZE
    requires Distinct(xs) && HomeBlocks(s0.area, s0.disk, xs) && |xs| == s0.area.size
    ensures Reachable(s, run) && s.area == s0.area
    ensures InOp(s, t) && s.slots[t].added < MAXOPBLOCKS && xs[|xs| - 1] !in s.lh
    ensures Next(s, CheckLog(t, xs[|xs| - 1]), s') && s'.panicked
  {
    var k := |xs| - 1;
    assert HomeBlocks(s0.area, s0.disk, xs[..k]);
    s, run := FillLog(s0, xs[..k], b);
    t := k / MAXOPBLOCKS;
    s' := s.(panicked := true);
    assert Home(s0.area, s0.disk, xs[k]);
  }

  /**
    However large the log, the test comes before absorption: once three system calls have logged
    their ten blocks each, logging one of them again panics although it needs no room.
   */
  lemma FullLogPanicsOnAbsorption(s0: State, xs: seq<Word>, b: Block)
    returns (s: State, run: seq<Action>, s': State)
    requires Start(s0) && |s0.slots| >= 3 && s0.area.size > LOGSIZE
    requires Distinct(xs) && HomeBlocks(s0.area, s0.disk, xs) && |xs| == LOGSIZE
    ensures Reachable(s, run) && InOp(s, 0) && s.slots[0].added <= MAXOPBLOCKS && xs[0] in s.lh
    ensures Next(s, CheckLog(0, xs[0]), s') && s'.panicked
  {
    s, run := FillLog(s0, xs, b);
    s' := s.(panicked := true);
    assert Home(s0.area, s0.disk, xs[0]);
  }
}
