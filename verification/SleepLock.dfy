/**
  sleep() and wakeup() as acquiresleep and releasesleep use them: any number of threads on one
  sleep-lock, interleaved at every acquire and release of its spinlock lk and of ptable.lock.
 */
module SleepLock {
  import opened Basics

  datatype Pc =
    | Out        // neither holds nor wants the sleep-lock
    | WantLk     // acquiresleep: acquire(&lk->lk)
    | Test       // holds lk, at while (lk->locked)
    | WantPt     // sleep(): holds lk, acquire(&ptable.lock)
    | Both       // holds both, release(lk)
    | Commit     // holds ptable.lock, about to set chan and SLEEPING
    | Asleep     // SLEEPING on lk, ptable.lock released by the scheduler
    | Woken      // RUNNABLE again, to return from sched()
    | Inside     // acquiresleep has returned
    | RelWantLk  // releasesleep: acquire(&lk->lk)
    | RelWantPt  // locked is 0; wakeup(): acquire(&ptable.lock)
    | RelWake    // holds both, about to call wakeup1
    | RelDone    // woke the sleepers, release(&lk->lk)

  datatype State = State(pcs: seq<Pc>, lk: Option<nat>, pt: Option<nat>, locked: bool, owner: Option<nat>)

  /** `Spurious` is any other reason to be woken, such as kill. */
  datatype Action = Want(t: nat) | Leave(t: nat) | Go(t: nat) | Spurious(t: nat)

  predicate HoldsLk(p: Pc) {
    p in {Test, WantPt, Both, RelWantPt, RelWake, RelDone}
  }

  predicate HoldsPt(p: Pc) {
    p in {Both, Commit, RelWake}
  }

  /** In sleep(), past the test of `locked` and not yet woken. */
  predicate GoingToSleep(p: Pc) {
    p in {WantPt, Both, Commit, Asleep}
  }

  predicate Enabled(s: State, e: Action) {
    e.t < |s.pcs| &&
    match e
    case Want(t) => s.pcs[t] == Out
    case Leave(t) => s.pcs[t] == Inside
    case Spurious(t) => s.pcs[t] == Asleep && s.pt == None
    case Go(t) =>
      match s.pcs[t]
      case WantLk => s.lk == None
      case RelWantLk => s.lk == None
      case WantPt => s.pt == None
      case RelWantPt => s.pt == None
      case Woken => s.pt == None
      case Out => false
      case Asleep => false
      case Inside => false
      case _ => true
  }

  function Goto(s: State, t: nat, p: Pc): State
    requires t < |s.pcs|
  {
    s.(pcs := s.pcs[t := p])
  }

  /** wakeup1(lk) */
  function WakeAll(pcs: seq<Pc>): (r: seq<Pc>)
    ensures |r| == |pcs| && forall i :: 0 <= i < |pcs| ==> r[i] == if pcs[i] == Asleep then Woken else pcs[i]
  {
    if pcs == [] then []
    else WakeAll(pcs[..|pcs| - 1]) + [if pcs[|pcs| - 1] == Asleep then Woken else pcs[|pcs| - 1]]
  }

  function Step(s: State, e: Action): State
    requires Enabled(s, e)
  {
    match e
    case Want(t) => Goto(s, t, WantLk)
    case Leave(t) => Goto(s, t, RelWantLk)
    case Spurious(t) => Goto(s, t, Woken)
    case Go(t) =>
      match s.pcs[t]
      case WantLk => Goto(s, t, Test).(lk := Some(t))
      case Test =>
        if s.locked then Goto(s, t, WantPt)
        else Goto(s, t, Inside).(locked := true, owner := Some(t), lk := None)
      case WantPt => Goto(s, t, Both).(pt := Some(t))
      case Both => Goto(s, t, Commit).(lk := None)
      case Commit => Goto(s, t, Asleep).(pt := None)
      case Woken => Goto(s, t, WantLk)
      case RelWantLk => Goto(s, t, RelWantPt).(lk := Some(t), locked := false, owner := None)
      case RelWantPt => Goto(s, t, RelWake).(pt := Some(t))
      case RelWake => Goto(s, t, RelDone).(pcs := WakeAll(s.pcs[t := RelDone]), pt := None)
      case RelDone => Goto(s, t, Out).(lk := None)
      case _ => s
  }

  predicate PcOk(s: State, t: nat)
    requires t < |s.pcs|
  {
    var p := s.pcs[t];
    && (HoldsLk(p) <==> s.lk == Some(t)) && (HoldsPt(p) <==> s.pt == Some(t))
    && (p in {Inside, RelWantLk} <==> s.owner == Some(t))
    && (GoingToSleep(p) ==> s.locked || Waking(s))
    && (p in {RelWantPt, RelWake, RelDone} ==> !s.locked)
  }

  /** The lock was released under lk, and the wakeup that follows is still to come. */
  predicate Waking(s: State) {
    s.lk.Some? && s.lk.value < |s.pcs| && s.pcs[s.lk.value] in {RelWantPt, RelWake}
  }

  ghost predicate Inv(s: State) {
    && (forall t: nat :: t < |s.pcs| ==> PcOk(s, t))
    && (s.lk.Some? ==> s.lk.value < |s.pcs|) && (s.pt.Some? ==> s.pt.value < |s.pcs|)
    && (s.locked <==> s.owner.Some?)
  }

  /** The thread that moves. */
  lemma OwnPcOk(s: State, e: Action)
    requires Inv(s) && Enabled(s, e)
    ensures PcOk(Step(s, e), e.t)
  {
    assert PcOk(s, e.t);
    if s.lk.Some? {
      assert PcOk(s, s.lk.value);
    }
  }

  lemma StepPcOk(s: State, e: Action, t: nat)
    requires Inv(s) && Enabled(s, e) && t < |s.pcs|
    ensures PcOk(Step(s, e), t)
  {
    if t == e.t {
      OwnPcOk(s, e);
    } else {
      assert PcOk(s, e.t) && PcOk(s, t);
    }
  }

  lemma StepLocks(s: State, e: Action)
    requires Inv(s) && Enabled(s, e)
    ensures var s' := Step(s, e);
            && |s'.pcs| == |s.pcs| && (s'.locked <==> s'.owner.Some?)
            && (s'.lk.Some? ==> s'.lk.value < |s'.pcs|) && (s'.pt.Some? ==> s'.pt.value < |s'.pcs|)
  {
    assert PcOk(s, e.t);
    assert |Step(s, e).pcs| == |s.pcs|;
  }

  lemma StepKeeps(s: State, e: Action)
    requires Inv(s) && Enabled(s, e)
    ensures Inv(Step(s, e))
  {
    var s' := Step(s, e);
    StepLocks(s, e);
    forall t: nat | t < |s'.pcs|
      ensures PcOk(s', t)
    {
      StepPcOk(s, e, t);
    }
  }

  predicate Start(s: State) {
    s.lk == None && s.pt == None && !s.locked && s.owner == None && forall t :: 0 <= t < |s.pcs| ==> s.pcs[t] == Out
  }

  ghost predicate RunTo(s: State, run: seq<Action>, t: State)
    decreases |run|
  {
    if run == [] then Start(s) && t == s
    else
      var e := run[|run| - 1];
      exists m: State :: RunTo(s, run[..|run| - 1], m) && Enabled(m, e) && t == Step(m, e)
  }

  lemma {:induction false} RunKeeps(s: State, run: seq<Action>, t: State)
    requires RunTo(s, run, t)
    ensures Inv(t)
    decreases |run|
  {
    if run != [] {
      var e := run[|run| - 1];
      var m: State :| RunTo(s, run[..|run| - 1], m) && Enabled(m, e) && t == Step(m, e);
      RunKeeps(s, run[..|run| - 1], m);
      StepKeeps(m, e);
    }
  }

  /** At most one thread holds the sleep-lock, and only then is `locked` set. */
  lemma OneHolder(s: State, run: seq<Action>, t: State, a: nat, b: nat)
    requires RunTo(s, run, t) && a < |t.pcs| && b < |t.pcs| && t.pcs[a] == Inside && t.pcs[b] == Inside
    ensures a == b && t.locked && t.owner == Some(a)
  {
    RunKeeps(s, run, t);
    assert PcOk(t, a) && PcOk(t, b);
  }

  /** Whenever lk is free, a thread that sleeps, or is about to, waits for a lock that is held. */
  lemma SleepersHaveAHolder(s: State, run: seq<Action>, t: State, i: nat)
    requires RunTo(s, run, t) && t.lk == None && i < |t.pcs| && t.pcs[i] in {Commit, Asleep}
    ensures t.locked && t.owner.Some? && t.owner != Some(i)
  {
    RunKeeps(s, run, t);
    assert PcOk(t, i);
  }

  /**
    No lost wakeup: when releasesleep calls wakeup1, every thread past its test of `locked` is
    SLEEPING on the channel - none is between the test and the sleep - and after
    it none sleeps.
   */
  lemma NoLostWakeup(s: State, run: seq<Action>, t: State, r: nat)
    requires RunTo(s, run, t) && r < |t.pcs| && t.pcs[r] == RelWake
    ensures forall i: nat :: i < |t.pcs| && GoingToSleep(t.pcs[i]) ==> t.pcs[i] == Asleep
    ensures var t' := Step(t, Go(r));
            !t'.locked && forall i: nat :: i < |t'.pcs| ==> !GoingToSleep(t'.pcs[i])
  {
    RunKeeps(s, run, t);
    assert PcOk(t, r);
    forall i: nat | i < |t.pcs|
      ensures GoingToSleep(t.pcs[i]) ==> t.pcs[i] == Asleep
    {
      assert PcOk(t, i);
    }
  }
}
