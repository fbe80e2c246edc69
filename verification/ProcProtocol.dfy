/**
  proc.c as a protocol: any number of CPUs and processes, interleaved wherever ptable.lock is not
  held. The lock is handed over in the context switches, from the scheduler to the process it
  starts and from a process in sched() back to the scheduler.
 */
module ProcProtocol {
  import opened Basics
  import opened ProcTable

  /** A CPU's thread: the scheduler, with its place in the table, or the process c->proc. */
  datatype Mode =
    | Idle            // between two scans, ptable.lock released
    | Scan(n: nat)    // the scheduler's loop, about to look at process n
    | Run(n: nat)     // switched to process n
    | Leave(n: nat)   // process n has set its state and calls sched()
    | Back(n: nat)    // back from swtch, c->proc still set

  datatype Cpu = Cpu(mode: Mode, proc: Option<nat>)

  /**
    `owners`, `reaped` and `failed` are for the proof: who got which pid, which pids wait has returned,
    and which a fork left in its slot when it failed.
   */
  datatype State = State(procs: Table, cpus: seq<Cpu>, lock: Option<nat>, nextpid: int, init: nat,
                         owners: map<int, nat>, reaped: set<int>, failed: set<int>, panicked: bool)

  datatype Action =
    | SchedAcquire(c: nat)
    | SchedStep(c: nat)
    | SchedCall(c: nat)
    | SchedBack(c: nat)
    | Resume(c: nat)
    | Acquire(c: nat)
    | Release(c: nat)
    | YieldCall(c: nat)
    | SleepCall(c: nat, id: nat)
    | WakeupCall(c: nat, id: nat)
    | KillCall(c: nat, pid: int)
    | WaitPass(c: nat)
    | ExitCall(c: nat)
    | IntrWakeup(c: nat, id: nat)
    | AllocProc(c: nat)
    | ForkFails(c: nat)
    | ForkParent(c: nat)
    | ForkCommit(c: nat)

  // ---------- the steps ----------

  predicate IsCpu(s: State, c: nat) {
    c < |s.cpus|
  }

  /** CPU c runs a process, in its kernel thread. */
  predicate Running(s: State, c: nat) {
    IsCpu(s, c) && s.cpus[c].mode.Run? && s.cpus[c].proc.Some? && s.cpus[c].proc.value < |s.procs|
  }

  function Me(s: State, c: nat): nat
    requires Running(s, c)
  {
    s.cpus[c].proc.value
  }

  function My(s: State, c: nat): Proc
    requires Running(s, c)
  {
    s.procs[Me(s, c)]
  }

  predicate Holds(s: State, c: nat) {
    Running(s, c) && My(s, c).at == Holding && s.lock == Some(c)
  }

  predicate CanFork(s: State, c: nat) {
    Running(s, c) && My(s, c).at == Outside
  }

  predicate Forking(s: State, c: nat) {
    CanFork(s, c) && My(s, c).child.Some? && My(s, c).child.value < |s.procs|
  }

  /** exit is only called by processes that are not in the middle of a fork. */
  predicate Enabled(s: State, e: Action) {
    && !s.panicked
    && match e
       case SchedAcquire(c) => IsCpu(s, c) && s.cpus[c].mode.Idle? && s.lock == None
       case SchedStep(c) => IsCpu(s, c) && s.cpus[c].mode.Scan? && s.lock == Some(c)
       case SchedCall(c) =>
           IsCpu(s, c) && s.cpus[c].mode.Leave? && s.cpus[c].proc.Some? && s.cpus[c].proc.value < |s.procs|
       case SchedBack(c) =>
           IsCpu(s, c) && s.cpus[c].mode.Back? && s.cpus[c].proc.Some? && s.cpus[c].proc.value < |s.procs|
       case Resume(c) => Running(s, c) && My(s, c).at.Switched?
       case Acquire(c) => Running(s, c) && My(s, c).at == Outside && s.lock == None
       case Release(c) => Holds(s, c)
       case YieldCall(c) => Holds(s, c)
       case SleepCall(c, id) => Holds(s, c)
       case WakeupCall(c, id) => Holds(s, c)
       case KillCall(c, pid) => Holds(s, c)
       case WaitPass(c) => Holds(s, c) && My(s, c).child == None
       case ExitCall(c) => Holds(s, c) && My(s, c).child == None
       case IntrWakeup(c, id) => IsCpu(s, c) && s.lock == None
       case AllocProc(c) => CanFork(s, c) && My(s, c).child == None && s.lock == None
       case ForkFails(c) => Forking(s, c) && s.procs[My(s, c).child.value].parent == None
       case ForkParent(c) => Forking(s, c)
       case ForkCommit(c) => Forking(s, c) && s.procs[My(s, c).child.value].parent == Some(Me(s, c)) && s.lock == None
  }

  /** The process has set its state, and goes on to call sched(). */
  function Away(s: State, c: nat, p: Proc): State
    requires Running(s, c)
  {
    s.(procs := s.procs[Me(s, c) := p], cpus := s.cpus[c := Cpu(Leave(s.cpus[c].mode.n), s.cpus[c].proc)])
  }

  /** sched(): its tests, of those that are not the spinlocks' own, and the switch to the scheduler. */
  function Switch(s: State, c: nat): State
    requires IsCpu(s, c) && s.cpus[c].mode.Leave? && s.cpus[c].proc.Some? && s.cpus[c].proc.value < |s.procs|
  {
    if s.lock != Some(c) then s.(panicked := true)
    else if s.procs[s.cpus[c].proc.value].state == RUNNING then s.(panicked := true)
    else s.(cpus := s.cpus[c := Cpu(Back(s.cpus[c].mode.n), s.cpus[c].proc)])
  }

  function SetMe(s: State, c: nat, p: Proc): State
    requires Running(s, c)
  {
    s.(procs := s.procs[Me(s, c) := p])
  }

  /** The scheduler's loop body: release behind the last process, or run process n if it is RUNNABLE. */
  function Schedule(s: State, c: nat): State
    requires IsCpu(s, c) && s.cpus[c].mode.Scan?
  {
    var n := s.cpus[c].mode.n;
    if n >= |s.procs| then s.(lock := None, cpus := s.cpus[c := Cpu(Idle, None)])
    else if s.procs[n].state != RUNNABLE then s.(cpus := s.cpus[c := Cpu(Scan(n + 1), None)])
    else
      s.(procs := s.procs[n := s.procs[n].(state := RUNNING, cpu := Some(c))],
         cpus := s.cpus[c := Cpu(Run(n), Some(n))])
  }

  function ComeBack(s: State, c: nat): State
    requires IsCpu(s, c) && s.cpus[c].mode.Back? && s.cpus[c].proc.Some? && s.cpus[c].proc.value < |s.procs|
  {
    var i := s.cpus[c].proc.value;
    s.(procs := s.procs[i := s.procs[i].(cpu := None)], cpus := s.cpus[c := Cpu(Scan(s.cpus[c].mode.n + 1), None)])
  }

  /** Back from swtch with ptable.lock held: what follows the call of sched(), or forkret. */
  function Resumed(s: State, c: nat): State
    requires Running(s, c) && My(s, c).at.Switched?
  {
    match My(s, c).at.via
    case Forkret => SetMe(s, c, My(s, c).(at := Outside)).(lock := None)
    case Yield => SetMe(s, c, My(s, c).(at := Outside)).(lock := None)
    case Sleep => SetMe(s, c, My(s, c).(at := Outside, chan := NoChan)).(lock := None)
    case Wait => SetMe(s, c, My(s, c).(at := Holding, chan := NoChan))
    case Exit => s.(panicked := true)
  }

  /** wait found zombie z: free it and return its pid. */
  function WaitReap(s: State, c: nat, z: nat): State
    requires Running(s, c) && z < |s.procs|
  {
    var s' := s.(procs := s.procs[z := Reaped(s.procs[z])], reaped := s.reaped + {s.procs[z].pid});
    s'.(procs := s'.procs[Me(s, c) := s'.procs[Me(s, c)].(at := Outside)], lock := None)
  }

  function Released(s: State, c: nat): State
    requires Running(s, c)
  {
    SetMe(s, c, My(s, c).(at := Outside)).(lock := None)
  }

  function WaitSleep(s: State, c: nat): State
    requires Running(s, c)
  {
    Away(s, c, My(s, c).(state := SLEEPING, chan := OnProc(Me(s, c)), at := Switched(Wait)))
  }

  /** One pass of wait's loop. */
  function Waited(s: State, c: nat): State
    requires Running(s, c)
  {
    var z := FindZombie(s.procs, Me(s, c), 0);
    if z < |s.procs| then WaitReap(s, c, z)
    else if NoChild(s.procs, Me(s, c), 0) || My(s, c).killed then Released(s, c)
    else WaitSleep(s, c)
  }

  /** exit, which init must not call */
  function Exits(s: State, c: nat): State
    requires Running(s, c)
  {
    if Me(s, c) == s.init then s.(panicked := true)
    else
      s.(procs := Exited(s.procs, Me(s, c), s.init), cpus := s.cpus[c := Cpu(Leave(s.cpus[c].mode.n), s.cpus[c].proc)])
  }

  function Allocated(s: State, c: nat): State
    requires Running(s, c)
  {
    var i := FindUnused(s.procs, 0);
    if i >= |s.procs| then s
    else
      var s' := s.(procs := s.procs[i := s.procs[i].(state := EMBRYO, pid := s.nextpid, maker := Some(Me(s, c)))],
                   nextpid := s.nextpid + 1, owners := s.owners[s.nextpid := i]);
      s'.(procs := s'.procs[Me(s, c) := s'.procs[Me(s, c)].(child := Some(i))])
  }

  /** fork ends, and its child becomes p. */
  function ForkEnds(s: State, c: nat, p: Proc): State
    requires Forking(s, c)
  {
    var s' := s.(procs := s.procs[My(s, c).child.value := p]);
    s'.(procs := s'.procs[Me(s, c) := s'.procs[Me(s, c)].(child := None)])
  }

  function Step(s: State, e: Action): State
    requires Enabled(s, e)
  {
    match e
    case SchedAcquire(c) => s.(lock := Some(c), cpus := s.cpus[c := Cpu(Scan(0), None)])
    case SchedStep(c) => Schedule(s, c)
    case SchedCall(c) => Switch(s, c)
    case SchedBack(c) => ComeBack(s, c)
    case Resume(c) => Resumed(s, c)
    case Acquire(c) => SetMe(s, c, My(s, c).(at := Holding)).(lock := Some(c))
    case Release(c) => Released(s, c)
    case YieldCall(c) => Away(s, c, My(s, c).(state := RUNNABLE, at := Switched(Yield)))
    case SleepCall(c, id) => Away(s, c, My(s, c).(state := SLEEPING, chan := OnObject(id), at := Switched(Sleep)))
    case WakeupCall(c, id) => s.(procs := WakeAll(s.procs, OnObject(id)))
    case KillCall(c, pid) => s.(procs := Killed(s.procs, pid))
    case WaitPass(c) => Waited(s, c)
    case ExitCall(c) => Exits(s, c)
    case IntrWakeup(c, id) => s.(procs := WakeAll(s.procs, OnObject(id)))
    case AllocProc(c) => Allocated(s, c)
    case ForkFails(c) =>
      var np := s.procs[My(s, c).child.value];
      ForkEnds(s, c, np.(state := UNUSED, maker := None)).(failed := s.failed + {np.pid})
    case ForkParent(c) =>
      var i := My(s, c).child.value;
      s.(procs := s.procs[i := s.procs[i].(parent := Some(Me(s, c)))])
    case ForkCommit(c) =>
      ForkEnds(s, c, s.procs[My(s, c).child.value].(state := RUNNABLE, at := Switched(Forkret), maker := None))
  }

  // ---------- the invariant ----------

  predicate CpuOk(s: State, c: nat)
    requires c < |s.cpus|
  {
    var k := s.cpus[c];
    match k.mode
    case Idle => k.proc == None && s.lock != Some(c)
    case Scan(n) => k.proc == None && s.lock == Some(c)
    case Run(n) =>
      && Running(s, c) && My(s, c).state == RUNNING && My(s, c).cpu == Some(c)
      && (s.lock == Some(c) <==> My(s, c).at != Outside)
    case Leave(n) => Leaving(s, c)
    case Back(n) => Leaving(s, c)
  }

  /** Between setting its state and the scheduler's c->proc = 0 a process holds ptable.lock for its CPU. */
  predicate Leaving(s: State, c: nat)
    requires c < |s.cpus|
  {
    var k := s.cpus[c];
    && k.proc.Some? && k.proc.value < |s.procs| && s.procs[k.proc.value].cpu == Some(c)
    && s.lock == Some(c) && s.procs[k.proc.value].state in {RUNNABLE, SLEEPING, ZOMBIE}
  }

  predicate ProcOk(s: State, i: nat)
    requires i < |s.procs|
  {
    var p := s.procs[i];
    && (p.cpu.Some? ==> p.cpu.value < |s.cpus| && s.cpus[p.cpu.value].proc == Some(i))
    && match p.state
       case UNUSED => p.at == Outside && p.cpu == None && p.child == None && p.parent == None
       case EMBRYO => p.at == Outside && p.cpu == None && p.child == None
       case RUNNABLE => p.at.Switched? && p.at.via != Exit
       case SLEEPING => (p.at == Switched(Sleep) && p.chan.OnObject?) || (p.at == Switched(Wait) && p.chan == OnProc(i))
       case RUNNING => p.cpu.Some? && p.at != Switched(Exit)
       case ZOMBIE => p.at == Switched(Exit) && p.child == None
  }

  predicate Alive(p: Proc) {
    p.state in {RUNNABLE, RUNNING, SLEEPING}
  }

  /** Every process but init has a parent that can still wait for it. */
  predicate ParentOk(s: State, i: nat)
    requires i < |s.procs|
  {
    var p := s.procs[i];
    && p.parent != Some(i) && p.maker != Some(i) && (i == s.init ==> p.parent == None)
    && (p.state in {RUNNABLE, RUNNING, SLEEPING, ZOMBIE} && i != s.init ==>
          p.parent.Some? && p.parent.value < |s.procs| && Alive(s.procs[p.parent.value]))
    && (p.state == EMBRYO ==> p.maker.Some? && (p.parent == None || p.parent == p.maker)
                              && p.maker.value < |s.procs| && s.procs[p.maker.value].child == Some(i))
    && (p.child.Some? ==>
          p.child.value < |s.procs| && s.procs[p.child.value].state == EMBRYO
          && s.procs[p.child.value].maker == Some(i))
  }

  /** A process asleep in wait has no zombie child. */
  ghost predicate NoneMissed(s: State, i: nat)
    requires i < |s.procs|
  {
    s.procs[i].state == SLEEPING && s.procs[i].at == Switched(Wait) ==> !ZombieChild(s.procs, i, |s.procs|)
  }

  predicate PidOk(s: State, i: nat)
    requires i < |s.procs|
  {
    var p := s.procs[i];
    && (p.pid != 0 ==> 1 <= p.pid < s.nextpid && p.pid !in s.reaped && p.pid in s.owners && s.owners[p.pid] == i)
    && (p.state == UNUSED <==> p.pid == 0 || p.pid in s.failed)
  }

  ghost predicate Sched(s: State) {
    && (forall c: nat :: c < |s.cpus| ==> CpuOk(s, c))
    && (forall i: nat :: i < |s.procs| ==> ProcOk(s, i))
    && (s.lock.Some? ==> s.lock.value < |s.cpus|)
  }

  ghost predicate Family(s: State) {
    && s.init < |s.procs| && Alive(s.procs[s.init])
    && (forall i: nat :: i < |s.procs| ==> ParentOk(s, i))
  }

  ghost predicate Waiters(s: State) {
    forall i: nat :: i < |s.procs| ==> NoneMissed(s, i)
  }

  ghost predicate Pids(s: State) {
    && (forall i: nat :: i < |s.procs| ==> PidOk(s, i))
    && (forall n :: n in s.reaped ==> n < s.nextpid) && (forall n :: n in s.failed ==> n < s.nextpid) && 1 <= s.nextpid
  }

  ghost predicate Inv(s: State) {
    Sched(s) && Family(s) && Waiters(s) && Pids(s)
  }

  // ---------- the scheduler's part of the invariant ----------

  lemma CpuIsOk(s: State, k: Option<nat>)
    requires Sched(s)
    ensures k.Some? && k.value < |s.cpus| ==> CpuOk(s, k.value)
  {
  }

  /**
    While no CPU is switching, a process that is not RUNNING is on none; in particular no CPU
    stands on the kernel stack of a zombie that wait frees.
   */
  lemma NotOnCpu(s: State, i: nat)
    requires Sched(s) && i < |s.procs| && s.procs[i].state != RUNNING
    requires s.lock.Some? ==>
        s.lock.value < |s.cpus| && (s.cpus[s.lock.value].mode.Run? || s.cpus[s.lock.value].mode.Scan?)
    ensures s.procs[i].cpu == None
  {
    assert ProcOk(s, i);
    CpuIsOk(s, s.procs[i].cpu);
  }

  /** What a step may do to a process that is not its own: wake it, mark it, give it a new parent. */
  predicate Undisturbed(p: Proc, q: Proc) {
    && q.cpu == p.cpu && q.at == p.at && q.child == p.child && q.chan == p.chan
    && (q.state == p.state || (p.state == SLEEPING && q.state == RUNNABLE))
    && (p.state == UNUSED ==> q.parent == p.parent)
  }

  /** A step of CPU c that takes or drops ptable.lock itself, if at all, and changes only the processes in `own`. */
  ghost predicate StepOf(s: State, c: nat, s': State, own: set<nat>) {
    && c < |s.cpus| == |s'.cpus| && |s'.procs| == |s.procs|
    && (s'.lock == s.lock || (s.lock in {None, Some(c)} && s'.lock in {None, Some(c)}))
    && (forall x: nat :: x < |s.cpus| && x != c ==> s'.cpus[x] == s.cpus[x])
    && (forall i: nat :: i < |s.procs| && i !in own ==> Undisturbed(s.procs[i], s'.procs[i]))
    && (forall i: nat :: i < |s.procs| && i in own ==> s.procs[i].cpu in {None, Some(c)})
  }

  lemma OtherCpu(s: State, c: nat, s': State, own: set<nat>, x: nat)
    requires Sched(s) && StepOf(s, c, s', own) && x < |s.cpus| && x != c
    ensures CpuOk(s', x)
  {
    assert CpuOk(s, x);
    if s.cpus[x].proc.Some? {
      assert Undisturbed(s.procs[s.cpus[x].proc.value], s'.procs[s.cpus[x].proc.value]);
    }
  }

  lemma OtherProc(s: State, c: nat, s': State, own: set<nat>, i: nat)
    requires Sched(s) && StepOf(s, c, s', own) && i < |s.procs| && i !in own
    requires s.procs[i].cpu == Some(c) ==> s'.cpus[c].proc == Some(i)
    ensures ProcOk(s', i)
  {
    assert ProcOk(s, i) && Undisturbed(s.procs[i], s'.procs[i]);
  }

  /** The other CPUs and processes carry over: what is left to see are the step's own. */
  lemma CarryOver(s: State, c: nat, s': State, own: set<nat>)
    requires Sched(s) && StepOf(s, c, s', own) && CpuOk(s', c)
    requires forall i: nat :: i < |s.procs| && i in own ==> ProcOk(s', i)
    requires forall i: nat :: i < |s.procs| && i !in own && s.procs[i].cpu == Some(c) ==> s'.cpus[c].proc == Some(i)
    ensures Sched(s')
  {
    forall x: nat | x < |s'.cpus|
      ensures CpuOk(s', x)
    {
      if x != c {
        OtherCpu(s, c, s', own, x);
      }
    }
    forall i: nat | i < |s'.procs|
      ensures ProcOk(s', i)
    {
      if i !in own {
        OtherProc(s, c, s', own, i);
      }
    }
  }

  /** On CPU c is at most its c->proc. */
  lemma OnlyProc(s: State, c: nat)
    requires Sched(s)
    ensures forall i: nat :: i < |s.procs| && s.procs[i].cpu == Some(c) ==> c < |s.cpus| && s.cpus[c].proc == Some(i)
  {
    forall i: nat | i < |s.procs| && s.procs[i].cpu == Some(c)
      ensures c < |s.cpus| && s.cpus[c].proc == Some(i)
    {
      assert ProcOk(s, i);
    }
  }

  lemma SchedulerScheds(s: State, e: Action, s': State)
    requires Inv(s) && Enabled(s, e) && (e.SchedAcquire? || e.SchedCall?) && s' == Step(s, e)
    ensures Sched(s') && !s'.panicked
  {
    assert CpuOk(s, e.c);
    OnlyProc(s, e.c);
    CarryOver(s, e.c, s', {});
  }

  lemma SchedStepScheds(s: State, c: nat, s': State)
    requires Inv(s) && Enabled(s, SchedStep(c)) && s' == Step(s, SchedStep(c))
    ensures Sched(s')
  {
    var n := s.cpus[c].mode.n;
    assert CpuOk(s, c);
    OnlyProc(s, c);
    if n < |s.procs| && s.procs[n].state == RUNNABLE {
      NotOnCpu(s, n);
      assert ProcOk(s, n);
      CarryOver(s, c, s', {n});
    } else {
      CarryOver(s, c, s', {});
    }
  }

  lemma SchedBackScheds(s: State, c: nat, s': State)
    requires Inv(s) && Enabled(s, SchedBack(c)) && s' == Step(s, SchedBack(c))
    ensures Sched(s')
  {
    var i := s.cpus[c].proc.value;
    assert CpuOk(s, c) && ProcOk(s, i);
    OnlyProc(s, c);
    CarryOver(s, c, s', {i});
  }

  /** A step of the process that CPU c runs, on itself. */
  lemma OwnScheds(s: State, c: nat, s': State)
    requires Inv(s) && Running(s, c) && StepOf(s, c, s', {Me(s, c)}) && CpuOk(s', c) && ProcOk(s', Me(s, c))
    requires s'.cpus[c].proc == s.cpus[c].proc
    ensures Sched(s')
  {
    OnlyProc(s, c);
    CarryOver(s, c, s', {Me(s, c)});
  }

  lemma ResumeScheds(s: State, c: nat, s': State)
    requires Inv(s) && Enabled(s, Resume(c)) && s' == Step(s, Resume(c))
    ensures Sched(s') && !s'.panicked
  {
    assert CpuOk(s, c) && ProcOk(s, Me(s, c));
    ResumeIsOwn(s, c, s');
    OwnScheds(s, c, s');
  }

  lemma ResumeIsOwn(s: State, c: nat, s': State)
    requires Sched(s) && Enabled(s, Resume(c)) && s' == Step(s, Resume(c)) && My(s, c).at.via != Exit && CpuOk(s, c)
    ensures StepOf(s, c, s', {Me(s, c)})
  {
  }

  lemma AcquireScheds(s: State, e: Action, s': State)
    requires Inv(s) && Enabled(s, e) && (e.Acquire? || e.Release?) && s' == Step(s, e)
    ensures Sched(s')
  {
    assert CpuOk(s, e.c) && ProcOk(s, Me(s, e.c));
    OwnScheds(s, e.c, s');
  }

  lemma LeaveScheds(s: State, e: Action, s': State)
    requires Inv(s) && Enabled(s, e) && (e.YieldCall? || e.SleepCall?) && s' == Step(s, e)
    ensures Sched(s')
  {
    assert CpuOk(s, e.c) && ProcOk(s, Me(s, e.c));
    OwnScheds(s, e.c, s');
  }

  lemma WakerScheds(s: State, e: Action, s': State)
    requires Inv(s) && Enabled(s, e) && (e.WakeupCall? || e.KillCall? || e.IntrWakeup?) && s' == Step(s, e)
    ensures Sched(s')
  {
    assert CpuOk(s, e.c);
    OnlyProc(s, e.c);
    if s.cpus[e.c].proc.Some? {
      assert Undisturbed(s.procs[s.cpus[e.c].proc.value], s'.procs[s.cpus[e.c].proc.value]);
    }
    CarryOver(s, e.c, s', {});
  }

  lemma AllocProcScheds(s: State, c: nat, s': State)
    requires Inv(s) && Enabled(s, AllocProc(c)) && s' == Step(s, AllocProc(c))
    ensures Sched(s')
  {
    var f := FindUnused(s.procs, 0);
    assert CpuOk(s, c) && ProcOk(s, Me(s, c));
    OnlyProc(s, c);
    if f < |s.procs| {
      assert ProcOk(s, f);
    }
    CarryOver(s, c, s', {Me(s, c), f});
  }

  /** fork's process and its child, which is still being made. */
  ghost predicate Pair(s: State, me: nat, np: nat) {
    && me < |s.procs| && np < |s.procs| && me != np && s.procs[me].state == RUNNING && s.procs[me].child == Some(np)
    && s.procs[np].state == EMBRYO && s.procs[np].maker == Some(me) && s.procs[np].child == None
       && s.procs[np].cpu == None
    && s.procs[np].at == Outside
  }

  lemma PairOf(s: State, c: nat)
    requires Inv(s) && Forking(s, c)
    ensures Pair(s, Me(s, c), My(s, c).child.value)
  {
    assert CpuOk(s, c) && ParentOk(s, Me(s, c)) && ProcOk(s, My(s, c).child.value);
  }

  lemma ForkScheds(s: State, e: Action, s': State)
    requires Inv(s) && Enabled(s, e) && (e.ForkFails? || e.ForkParent? || e.ForkCommit?) && s' == Step(s, e)
    ensures Sched(s')
  {
    var me, np := Me(s, e.c), My(s, e.c).child.value;
    PairOf(s, e.c);
    OnlyProc(s, e.c);
    ForkIsOwn(s, e, s', me, np);
    CarryOver(s, e.c, s', {me, np});
  }

  lemma ForkIsOwn(s: State, e: Action, s': State, me: nat, np: nat)
    requires Sched(s) && Enabled(s, e) && (e.ForkFails? || e.ForkParent? || e.ForkCommit?) && s' == Step(s, e)
    requires me == Me(s, e.c) && Pair(s, me, np) && np == My(s, e.c).child.value
    ensures StepOf(s, e.c, s', {me, np}) && CpuOk(s', e.c) && ProcOk(s', me) && ProcOk(s', np)
  {
    assert CpuOk(s, e.c) && ProcOk(s, me) && ProcOk(s, np);
  }

  lemma WaitReapScheds(s: State, c: nat, z: nat, s': State)
    requires Inv(s) && Enabled(s, WaitPass(c)) && z < |s.procs| && s.procs[z].state == ZOMBIE && s' == WaitReap(s, c, z)
    ensures Sched(s')
  {
    assert CpuOk(s, c) && ProcOk(s, Me(s, c)) && ProcOk(s, z);
    NotOnCpu(s, z);
    OnlyProc(s, c);
    CarryOver(s, c, s', {Me(s, c), z});
  }

  lemma WaitPassScheds(s: State, c: nat, s': State)
    requires Inv(s) && Enabled(s, WaitPass(c)) && s' == Waited(s, c)
    ensures Sched(s')
  {
    var z := FindZombie(s.procs, Me(s, c), 0);
    if z < |s.procs| {
      WaitReapScheds(s, c, z, s');
    } else {
      assert CpuOk(s, c) && ProcOk(s, Me(s, c));
      OwnScheds(s, c, s');
    }
  }

  /** What exit leaves as it is. */
  lemma ExitSpares(ps: Table, me: nat, init: nat, i: nat)
    requires me < |ps| && i < |ps|
    ensures var p, q := ps[i], Exited(ps, me, init)[i];
            && q.cpu == p.cpu && q.chan == p.chan && q.child == p.child && q.maker == p.maker && q.pid == p.pid
            && (i != me ==> q.at == p.at && (q.state == p.state || (p.state == SLEEPING && q.state == RUNNABLE)))
            && (i == me ==> q.at == Switched(Exit) && q.state == ZOMBIE)
            && q.parent == if p.parent == Some(me) then Some(init) else p.parent
  {
    ExitedAt(ps, me, init, i);
  }

  lemma ExitCallScheds(s: State, c: nat, s': State)
    requires Inv(s) && Enabled(s, ExitCall(c)) && Me(s, c) != s.init && s' == Step(s, ExitCall(c))
    ensures Sched(s')
  {
    var me := Me(s, c);
    assert CpuOk(s, c) && ProcOk(s, me);
    ExitSpares(s.procs, me, s.init, me);
    forall i: nat | i < |s.procs| && i != me
      ensures Undisturbed(s.procs[i], s'.procs[i])
    {
      assert ProcOk(s, i);
      ExitSpares(s.procs, me, s.init, i);
    }
    OwnScheds(s, c, s');
  }

  // ---------- parents, sleeping waiters and pids ----------

  /** For the family a process is unused, being made, alive or a zombie. */
  predicate SameKind(p: Proc, q: Proc) {
    && (p.state == UNUSED <==> q.state == UNUSED) && (p.state == EMBRYO <==> q.state == EMBRYO)
    && (p.state == ZOMBIE <==> q.state == ZOMBIE)
    && p.parent == q.parent && p.child == q.child && p.maker == q.maker && p.pid == q.pid
  }

  predicate InWait(p: Proc) {
    p.state == SLEEPING && p.at == Switched(Wait)
  }

  /** No process is born, exits, is reaped or changes its parent, and none goes to sleep in wait. */
  ghost predicate Kindred(s: State, s': State) {
    && s'.init == s.init && s'.nextpid == s.nextpid && s'.owners == s.owners && s'.reaped == s.reaped
       && s'.failed == s.failed && |s'.procs| == |s.procs|
    && forall i: nat :: i < |s.procs| ==>
       SameKind(s.procs[i], s'.procs[i]) && (InWait(s'.procs[i]) ==> InWait(s.procs[i]))
  }

  ghost predicate Rest(s: State) {
    Family(s) && Waiters(s) && Pids(s)
  }

  lemma SameZombies(ps: Table, qs: Table, me: nat, n: nat)
    requires n <= |ps| == |qs| && forall i: nat :: i < |ps| ==> SameKind(ps[i], qs[i])
    ensures ZombieChild(ps, me, n) == ZombieChild(qs, me, n)
  {
    assert forall j: nat :: j < n ==> SameKind(ps[j], qs[j]);
  }

  lemma KindredKeeps(s: State, s': State)
    requires Rest(s) && Kindred(s, s')
    ensures Rest(s')
  {
    assert SameKind(s.procs[s.init], s'.procs[s.init]);
    forall i: nat | i < |s'.procs|
      ensures ParentOk(s', i) && NoneMissed(s', i) && PidOk(s', i)
    {
      assert ParentOk(s, i) && NoneMissed(s, i) && PidOk(s, i) && SameKind(s.procs[i], s'.procs[i]);
      if s.procs[i].parent.Some? && s.procs[i].parent.value < |s.procs| {
        assert SameKind(s.procs[s.procs[i].parent.value], s'.procs[s.procs[i].parent.value]);
      }
      if s.procs[i].child.Some? {
        assert SameKind(s.procs[s.procs[i].child.value], s'.procs[s.procs[i].child.value]);
      }
      if s.procs[i].maker.Some? && s.procs[i].maker.value < |s.procs| {
        assert SameKind(s.procs[s.procs[i].maker.value], s'.procs[s.procs[i].maker.value]);
      }
      SameZombies(s.procs, s'.procs, i, |s.procs|);
    }
  }

  /** The steps that leave the family as it is. */
  predicate Quiet(e: Action) {
    !e.AllocProc? && !e.ForkFails? && !e.ForkParent? && !e.ForkCommit? && !e.WaitPass? && !e.ExitCall?
  }

  lemma QuietScheduler(s: State, e: Action, s': State)
    requires Inv(s) && Enabled(s, e) && (e.SchedAcquire? || e.SchedStep? || e.SchedCall? || e.SchedBack?)
    requires s' == Step(s, e)
    ensures Kindred(s, s')
  {
    assert CpuOk(s, e.c);
  }

  lemma QuietCaller(s: State, e: Action, s': State)
    requires Inv(s) && Enabled(s, e) && (e.Acquire? || e.Release?) && s' == Step(s, e)
    ensures Kindred(s, s')
  {
    assert CpuOk(s, e.c);
  }

  lemma QuietLeave(s: State, e: Action, s': State)
    requires Inv(s) && Enabled(s, e) && (e.YieldCall? || e.SleepCall?) && s' == Step(s, e)
    ensures Kindred(s, s')
  {
    assert CpuOk(s, e.c);
  }

  lemma QuietResume(s: State, c: nat, s': State)
    requires Inv(s) && Enabled(s, Resume(c)) && s' == Step(s, Resume(c))
    ensures Kindred(s, s')
  {
    assert CpuOk(s, c) && ProcOk(s, Me(s, c));
  }

  lemma QuietWaker(s: State, e: Action, s': State)
    requires Inv(s) && Enabled(s, e) && (e.WakeupCall? || e.IntrWakeup?) && s' == Step(s, e)
    ensures Kindred(s, s')
  {
  }

  lemma QuietKill(s: State, e: Action, s': State)
    requires Inv(s) && Enabled(s, e) && e.KillCall? && s' == Step(s, e)
    ensures Kindred(s, s')
  {
  }

  lemma QuietStep(s: State, e: Action, s': State)
    requires Inv(s) && Enabled(s, e) && Quiet(e) && s' == Step(s, e)
    ensures Kindred(s, s')
  {
    if e.SchedAcquire? || e.SchedStep? || e.SchedCall? || e.SchedBack? {
      QuietScheduler(s, e, s');
    } else if e.WakeupCall? || e.IntrWakeup? {
      QuietWaker(s, e, s');
    } else if e.KillCall? {
      QuietKill(s, e, s');
    } else if e.Resume? {
      QuietResume(s, e.c, s');
    } else if e.YieldCall? || e.SleepCall? {
      QuietLeave(s, e, s');
    } else {
      QuietCaller(s, e, s');
    }
  }

  lemma SameZombieChildren(ps: Table, qs: Table, me: nat)
    requires |ps| == |qs|
    requires forall i: nat :: i < |ps| && qs[i].state == ZOMBIE ==>
        ps[i].state == ZOMBIE && ps[i].parent == qs[i].parent
    ensures ZombieChild(qs, me, |qs|) ==> ZombieChild(ps, me, |ps|)
  {
  }

  /** A process of which no relative changed but a and b, which live on if they lived. */
  lemma KinOthers(s: State, s': State, a: nat, b: nat, i: nat)
    requires i < |s.procs| == |s'.procs| && a < |s.procs| && b < |s.procs| && i != a && i != b && s'.init == s.init
    requires ParentOk(s, i)
    requires forall j: nat :: j < |s.procs| && j != a && j != b ==> s'.procs[j] == s.procs[j]
    requires (Alive(s.procs[a]) ==> Alive(s'.procs[a])) && (Alive(s.procs[b]) ==> Alive(s'.procs[b]))
    requires s.procs[a].child != Some(i) && s.procs[b].child != Some(i)
    requires s.procs[i].child != Some(a) && s.procs[i].child != Some(b)
    ensures ParentOk(s', i)
  {
  }

  /** Only a process being made is somebody's child that way, and only its maker's. */
  lemma NotChild(s: State, i: nat, a: nat)
    requires i < |s.procs| && a < |s.procs| && ParentOk(s, i)
    requires s.procs[a].state != EMBRYO || s.procs[a].maker != Some(i)
    ensures s.procs[i].child != Some(a)
  {
  }

  lemma AllocProcParent(s: State, c: nat, s': State, i: nat)
    requires Inv(s) && Enabled(s, AllocProc(c)) && s' == Step(s, AllocProc(c)) && i < |s.procs|
    ensures ParentOk(s', i)
  {
    var me, f := Me(s, c), FindUnused(s.procs, 0);
    assert CpuOk(s, c) && ProcOk(s, me) && ParentOk(s, i) && ParentOk(s, me);
    if f < |s.procs| {
      assert ProcOk(s, f) && ParentOk(s, f);
      if i != me && i != f {
        NotChild(s, i, me);
        NotChild(s, i, f);
        KinOthers(s, s', me, f, i);
      } else {
        AllocProcOwn(s, c, s', me, f);
      }
    }
  }

  lemma AllocProcOwn(s: State, c: nat, s': State, me: nat, f: nat)
    requires Inv(s) && Enabled(s, AllocProc(c)) && s' == Step(s, AllocProc(c)) && me == Me(s, c)
    requires f == FindUnused(s.procs, 0) < |s.procs|
    requires CpuOk(s, c) && ParentOk(s, me) && ParentOk(s, f) && ProcOk(s, f)
    ensures ParentOk(s', me) && ParentOk(s', f)
  {
  }

  lemma AllocProcPid(s: State, c: nat, s': State, i: nat)
    requires Inv(s) && Enabled(s, AllocProc(c)) && s' == Step(s, AllocProc(c)) && i < |s.procs|
    ensures PidOk(s', i)
  {
    assert PidOk(s, i);
  }

  lemma AllocProcMisses(s: State, c: nat, s': State, i: nat)
    requires Inv(s) && Enabled(s, AllocProc(c)) && s' == Step(s, AllocProc(c)) && i < |s.procs|
    ensures NoneMissed(s', i)
  {
    assert NoneMissed(s, i);
    SameZombieChildren(s.procs, s'.procs, i);
  }

  lemma AllocProcRest(s: State, c: nat, s': State)
    requires Inv(s) && Enabled(s, AllocProc(c)) && s' == Step(s, AllocProc(c))
    ensures Rest(s')
  {
    forall i: nat | i < |s'.procs|
      ensures ParentOk(s', i) && NoneMissed(s', i) && PidOk(s', i)
    {
      AllocProcParent(s, c, s', i);
      AllocProcPid(s, c, s', i);
      AllocProcMisses(s, c, s', i);
    }
    assert CpuOk(s, c);
  }

  lemma ForkFailsParent(s: State, c: nat, s': State, i: nat)
    requires Inv(s) && Enabled(s, ForkFails(c)) && s' == Step(s, ForkFails(c)) && i < |s.procs|
    ensures ParentOk(s', i)
  {
    var me, np := Me(s, c), My(s, c).child.value;
    PairOf(s, c);
    assert ParentOk(s, i) && ParentOk(s, me) && ParentOk(s, np);
    if i != me && i != np {
      NotChild(s, i, me);
      NotChild(s, i, np);
      KinOthers(s, s', me, np, i);
    }
  }

  lemma ForkFailsPid(s: State, c: nat, s': State, i: nat)
    requires Inv(s) && Enabled(s, ForkFails(c)) && s' == Step(s, ForkFails(c)) && i < |s.procs|
    ensures PidOk(s', i) && NoneMissed(s', i)
  {
    assert ParentOk(s, Me(s, c)) && PidOk(s, i) && NoneMissed(s, i) && PidOk(s, My(s, c).child.value);
    SameZombieChildren(s.procs, s'.procs, i);
  }

  lemma ForkFailsRest(s: State, c: nat, s': State)
    requires Inv(s) && Enabled(s, ForkFails(c)) && s' == Step(s, ForkFails(c))
    ensures Rest(s')
  {
    forall i: nat | i < |s'.procs|
      ensures ParentOk(s', i) && NoneMissed(s', i) && PidOk(s', i)
    {
      ForkFailsParent(s, c, s', i);
      ForkFailsPid(s, c, s', i);
    }
    assert CpuOk(s, c) && ParentOk(s, Me(s, c)) && PidOk(s, My(s, c).child.value);
  }

  lemma ForkParentRest(s: State, c: nat, s': State)
    requires Inv(s) && Enabled(s, ForkParent(c)) && s' == Step(s, ForkParent(c))
    ensures Rest(s')
  {
    PairOf(s, c);
    forall i: nat | i < |s'.procs|
      ensures ParentOk(s', i) && NoneMissed(s', i) && PidOk(s', i)
    {
      ForkParentAt(s, c, s', i, Me(s, c), My(s, c).child.value);
    }
  }

  lemma ForkParentAt(s: State, c: nat, s': State, i: nat, me: nat, np: nat)
    requires Inv(s) && Enabled(s, ForkParent(c)) && s' == Step(s, ForkParent(c)) && i < |s.procs|
    requires me == Me(s, c) && np == My(s, c).child.value && Pair(s, me, np)
    ensures ParentOk(s', i) && NoneMissed(s', i) && PidOk(s', i)
  {
    assert ParentOk(s, i) && NoneMissed(s, i) && PidOk(s, i) && ParentOk(s, np);
    SameZombieChildren(s.procs, s'.procs, i);
  }

  lemma ForkCommitParent(s: State, c: nat, s': State, i: nat)
    requires Inv(s) && Enabled(s, ForkCommit(c)) && s' == Step(s, ForkCommit(c)) && i < |s.procs|
    ensures ParentOk(s', i)
  {
    var me, np := Me(s, c), My(s, c).child.value;
    PairOf(s, c);
    assert ParentOk(s, i) && ParentOk(s, me) && ParentOk(s, np);
    if i != me && i != np {
      NotChild(s, i, me);
      NotChild(s, i, np);
      KinOthers(s, s', me, np, i);
    }
  }

  lemma ForkCommitPid(s: State, c: nat, s': State, i: nat)
    requires Inv(s) && Enabled(s, ForkCommit(c)) && s' == Step(s, ForkCommit(c)) && i < |s.procs|
    ensures PidOk(s', i) && NoneMissed(s', i)
  {
    assert ParentOk(s, Me(s, c)) && PidOk(s, i) && NoneMissed(s, i);
    SameZombieChildren(s.procs, s'.procs, i);
  }

  lemma ForkCommitRest(s: State, c: nat, s': State)
    requires Inv(s) && Enabled(s, ForkCommit(c)) && s' == Step(s, ForkCommit(c))
    ensures Rest(s')
  {
    forall i: nat | i < |s'.procs|
      ensures ParentOk(s', i) && NoneMissed(s', i) && PidOk(s', i)
    {
      ForkCommitParent(s, c, s', i);
      ForkCommitPid(s, c, s', i);
    }
    assert CpuOk(s, c) && ParentOk(s, Me(s, c));
  }

  lemma WaitReapParent(s: State, c: nat, z: nat, s': State, i: nat)
    requires Inv(s) && Enabled(s, WaitPass(c)) && z < |s.procs| && s.procs[z].state == ZOMBIE
    requires s' == WaitReap(s, c, z) && i < |s.procs|
    ensures ParentOk(s', i)
  {
    var me := Me(s, c);
    assert CpuOk(s, c) && ParentOk(s, i) && ParentOk(s, me) && ParentOk(s, z) && ProcOk(s, z);
    if i != me && i != z {
      NotChild(s, i, me);
      NotChild(s, i, z);
      KinOthers(s, s', me, z, i);
    }
  }

  lemma WaitReapPid(s: State, c: nat, z: nat, s': State, i: nat)
    requires Inv(s) && Enabled(s, WaitPass(c)) && z < |s.procs| && s.procs[z].state == ZOMBIE
    requires s' == WaitReap(s, c, z) && i < |s.procs|
    ensures PidOk(s', i)
  {
    assert CpuOk(s, c) && PidOk(s, i) && PidOk(s, z);
  }

  lemma WaitReapMisses(s: State, c: nat, z: nat, s': State, i: nat)
    requires Inv(s) && Enabled(s, WaitPass(c)) && z < |s.procs| && s.procs[z].state == ZOMBIE
    requires s' == WaitReap(s, c, z) && i < |s.procs|
    ensures NoneMissed(s', i)
  {
    assert CpuOk(s, c) && NoneMissed(s, i) && ProcOk(s, i);
    SameZombieChildren(s.procs, s'.procs, i);
  }

  lemma WaitReapRest(s: State, c: nat, z: nat, s': State)
    requires Inv(s) && Enabled(s, WaitPass(c)) && z < |s.procs| && s.procs[z].state == ZOMBIE && s' == WaitReap(s, c, z)
    ensures Rest(s')
  {
    forall i: nat | i < |s'.procs|
      ensures ParentOk(s', i) && NoneMissed(s', i) && PidOk(s', i)
    {
      WaitReapParent(s, c, z, s', i);
      WaitReapPid(s, c, z, s', i);
      WaitReapMisses(s, c, z, s', i);
    }
    assert CpuOk(s, c) && PidOk(s, z);
  }

  lemma WaitNoneRest(s: State, c: nat, s': State)
    requires Inv(s) && Enabled(s, WaitPass(c)) && s' == Released(s, c)
    ensures Rest(s')
  {
    assert CpuOk(s, c) && ProcOk(s, Me(s, c));
    KindredKeeps(s, s');
  }

  lemma WaitSleepRest(s: State, c: nat, s': State)
    requires Inv(s) && Enabled(s, WaitPass(c)) && s' == WaitSleep(s, c)
    requires !ZombieChild(s.procs, Me(s, c), |s.procs|)
    ensures Rest(s')
  {
    assert CpuOk(s, c) && ProcOk(s, Me(s, c));
    forall i: nat | i < |s'.procs|
      ensures ParentOk(s', i) && NoneMissed(s', i) && PidOk(s', i)
    {
      assert ParentOk(s, i) && NoneMissed(s, i) && PidOk(s, i) && ProcOk(s, i);
      SameZombieChildren(s.procs, s'.procs, i);
    }
  }

  lemma WaitPassRest(s: State, c: nat, s': State)
    requires Inv(s) && Enabled(s, WaitPass(c)) && s' == Waited(s, c)
    ensures Rest(s')
  {
    var z := FindZombie(s.procs, Me(s, c), 0);
    if z < |s.procs| {
      WaitReapRest(s, c, z, s');
    } else if NoChild(s.procs, Me(s, c), 0) || My(s, c).killed {
      WaitNoneRest(s, c, s');
    } else {
      WaitSleepRest(s, c, s');
    }
  }

  /** Before it turns into a zombie a process wakes its parent, and init for the zombies it leaves it. */
  lemma ExitWakes(s: State, c: nat, s': State, i: nat, j: nat)
    requires Inv(s) && Enabled(s, ExitCall(c)) && Me(s, c) != s.init && s' == Step(s, ExitCall(c)) && i < |s.procs|
    requires j < |s.procs|
    requires s'.procs[j].parent == Some(i) && s'.procs[j].state == ZOMBIE
    ensures !InWait(s'.procs[i])
  {
    var me := Me(s, c);
    assert NoneMissed(s, i) && ProcOk(s, i) && ParentOk(s, me);
    ExitedAt(s.procs, me, s.init, i);
    ExitSpares(s.procs, me, s.init, j);
    ExitSpares(s.procs, me, s.init, i);
    if j != me && s.procs[j].parent == Some(me) {
      assert ZombieChild(s.procs, me, |s.procs|);
    } else if j != me {
      assert ZombieChild(s.procs, i, |s.procs|);
    }
  }

  lemma ExitMissesNone(s: State, c: nat, s': State, i: nat)
    requires Inv(s) && Enabled(s, ExitCall(c)) && Me(s, c) != s.init && s' == Step(s, ExitCall(c)) && i < |s.procs|
    ensures NoneMissed(s', i)
  {
    if ZombieChild(s'.procs, i, |s'.procs|) {
      var j: nat :| j < |s'.procs| && s'.procs[j].parent == Some(i) && s'.procs[j].state == ZOMBIE;
      ExitWakes(s, c, s', i, j);
    }
  }

  predicate ExitSpared(p: Proc, q: Proc, own: bool, me: nat, init: nat) {
    && q.child == p.child && q.maker == p.maker && q.parent == (if p.parent == Some(me) then Some(init) else p.parent)
    && (if own then q.state == ZOMBIE else q.state == p.state || (p.state == SLEEPING && q.state == RUNNABLE))
  }

  /** A process whose relatives exit spares, or gives to init. */
  lemma KinOfExit(s: State, s': State, me: nat, i: nat)
    requires i < |s.procs| == |s'.procs| && s'.init == s.init && me != s.init && s.init < |s.procs|
    requires Alive(s.procs[s.init])
    requires me < |s.procs| && s.procs[me].state == RUNNING && s.procs[me].child == None && ParentOk(s, i)
    requires forall j: nat :: j < |s.procs| ==> ExitSpared(s.procs[j], s'.procs[j], j == me, me, s.init)
    ensures ParentOk(s', i)
  {
    assert ExitSpared(s.procs[i], s'.procs[i], i == me, me, s.init);
  }

  /** exit leaves no process with a dead parent. */
  lemma ExitParent(s: State, c: nat, s': State, i: nat)
    requires Inv(s) && Enabled(s, ExitCall(c)) && Me(s, c) != s.init && s' == Step(s, ExitCall(c)) && i < |s.procs|
    ensures ParentOk(s', i)
  {
    var me := Me(s, c);
    assert CpuOk(s, c) && ParentOk(s, i);
    forall j: nat | j < |s.procs|
      ensures ExitSpared(s.procs[j], s'.procs[j], j == me, me, s.init)
    {
      ExitSpares(s.procs, me, s.init, j);
    }
    KinOfExit(s, s', me, i);
  }

  lemma ExitPid(s: State, c: nat, s': State, i: nat)
    requires Inv(s) && Enabled(s, ExitCall(c)) && Me(s, c) != s.init && s' == Step(s, ExitCall(c)) && i < |s.procs|
    ensures PidOk(s', i)
  {
    assert CpuOk(s, c) && PidOk(s, i);
    ExitSpares(s.procs, Me(s, c), s.init, i);
  }

  lemma ExitCallRest(s: State, c: nat, s': State)
    requires Inv(s) && Enabled(s, ExitCall(c)) && Me(s, c) != s.init && s' == Step(s, ExitCall(c))
    ensures Rest(s')
  {
    forall i: nat | i < |s'.procs|
      ensures ParentOk(s', i) && NoneMissed(s', i) && PidOk(s', i)
    {
      ExitParent(s, c, s', i);
      ExitPid(s, c, s', i);
      ExitMissesNone(s, c, s', i);
    }
    ExitSpares(s.procs, Me(s, c), s.init, s.init);
  }

  // ---------- whole runs ----------

  /** The one step that panics: init's exit. */
  predicate InitExits(s: State, e: Action)
    requires Enabled(s, e)
  {
    e.ExitCall? && Me(s, e.c) == s.init
  }

  /** The steps of a scheduler, and those that wake or mark processes. */
  predicate OfScheduler(e: Action) {
    e.SchedAcquire? || e.SchedStep? || e.SchedCall? || e.SchedBack? || e.Resume? || e.WakeupCall? || e.KillCall?
    || e.IntrWakeup?
  }

  lemma SchedulersScheds(s: State, e: Action, s': State)
    requires Inv(s) && Enabled(s, e) && OfScheduler(e) && s' == Step(s, e)
    ensures Sched(s') && !s'.panicked
  {
    match e
    case SchedAcquire(_) => SchedulerScheds(s, e, s');
    case SchedStep(c) => SchedStepScheds(s, c, s');
    case SchedCall(_) => SchedulerScheds(s, e, s');
    case SchedBack(c) => SchedBackScheds(s, c, s');
    case Resume(c) => ResumeScheds(s, c, s');
    case _ => WakerScheds(s, e, s');
  }

  lemma StepScheds(s: State, e: Action, s': State)
    requires Inv(s) && Enabled(s, e) && !InitExits(s, e) && s' == Step(s, e)
    ensures Sched(s') && !s'.panicked
  {
    if OfScheduler(e) {
      SchedulersScheds(s, e, s');
    } else {
      match e
      case Acquire(_) => AcquireScheds(s, e, s');
      case Release(_) => AcquireScheds(s, e, s');
      case YieldCall(_) => LeaveScheds(s, e, s');
      case SleepCall(_, _) => LeaveScheds(s, e, s');
      case WaitPass(c) => WaitPassScheds(s, c, s');
      case ExitCall(c) => ExitCallScheds(s, c, s');
      case AllocProc(c) => AllocProcScheds(s, c, s');
      case _ => ForkScheds(s, e, s');
    }
  }

  lemma StepRest(s: State, e: Action, s': State)
    requires Inv(s) && Enabled(s, e) && !InitExits(s, e) && s' == Step(s, e)
    ensures Rest(s')
  {
    if Quiet(e) {
      QuietStep(s, e, s');
      KindredKeeps(s, s');
    } else {
      match e
      case WaitPass(c) => WaitPassRest(s, c, s');
      case ExitCall(c) => ExitCallRest(s, c, s');
      case AllocProc(c) => AllocProcRest(s, c, s');
      case ForkFails(c) => ForkFailsRest(s, c, s');
      case ForkParent(c) => ForkParentRest(s, c, s');
      case ForkCommit(c) => ForkCommitRest(s, c, s');
      case _ =>
    }
  }

  /** A panic changes nothing else. */
  lemma PanicKeeps(s: State)
    requires Inv(s)
    ensures Inv(s.(panicked := true))
  {
    var s' := s.(panicked := true);
    CarryOverAll(s, s');
    forall i: nat | i < |s'.procs|
      ensures SameKind(s.procs[i], s'.procs[i])
    {
    }
    KindredKeeps(s, s');
  }

  lemma CarryOverAll(s: State, s': State)
    requires Sched(s) && s' == s.(panicked := true)
    ensures Sched(s')
  {
    forall c: nat | c < |s'.cpus|
      ensures CpuOk(s', c)
    {
      assert CpuOk(s, c);
    }
    forall i: nat | i < |s'.procs|
      ensures ProcOk(s', i)
    {
      assert ProcOk(s, i);
    }
  }

  lemma StepKeeps(s: State, e: Action)
    requires Inv(s) && Enabled(s, e)
    ensures Inv(Step(s, e))
  {
    var s' := Step(s, e);
    if InitExits(s, e) {
      PanicKeeps(s);
    } else {
      StepScheds(s, e, s');
      StepRest(s, e, s');
    }
  }

  /** After userinit: one process, init, ready to run; every CPU about to enter its scheduler. */
  predicate Start(s: State) {
    && !s.panicked && s.lock == None && s.init < |s.procs| && s.reaped == {} && s.failed == {}
    && (forall c :: 0 <= c < |s.cpus| ==> s.cpus[c] == Cpu(Idle, None))
    && (forall i :: 0 <= i < |s.procs| && i != s.init ==>
          s.procs[i] == Proc(UNUSED, 0, None, NoChan, false, Outside, None, None, None))
    && s.procs[s.init] == Proc(RUNNABLE, 1, None, NoChan, false, Switched(Forkret), None, None, None)
    && s.nextpid == 2 && s.owners == map[1 := s.init]
  }

  /** The states that a run goes through. */
  ghost predicate RunTo(s: State, run: seq<Action>, t: State)
    decreases |run|
  {
    if run == [] then Start(s) && t == s
    else
      var e := run[|run| - 1];
      exists m: State :: RunTo(s, run[..|run| - 1], m) && Enabled(m, e) && t == Step(m, e)
  }

  lemma {:induction false} RunKeeps(s: State, run: seq<Action>, t: State)
    requires RunTo(s, run, t)
    ensures Inv(t)
    decreases |run|
  {
    if run == [] {
      StartInv(s);
    } else {
      var e := run[|run| - 1];
      var m: State :| RunTo(s, run[..|run| - 1], m) && Enabled(m, e) && t == Step(m, e);
      RunKeeps(s, run[..|run| - 1], m);
      StepKeeps(m, e);
    }
  }

  lemma StartInv(s: State)
    requires Start(s)
    ensures Inv(s)
  {
    assert !ZombieChild(s.procs, s.init, |s.procs|);
  }

  // ---------- what the protocol guarantees ----------

  /**
    In every run, whenever ptable.lock is free: a process is RUNNING if and only if it is some CPU's
    c->proc, two CPUs never run the same process, and no zombie is any CPU's c->proc.
   */
  lemma RunningMeansOnOneCpu(s: State, run: seq<Action>, t: State)
    requires RunTo(s, run, t) && t.lock == None
    ensures forall i: nat :: i < |t.procs| ==>
              (t.procs[i].state == RUNNING <==> exists c: nat :: c < |t.cpus| && t.cpus[c].proc == Some(i))
    ensures forall c: nat, d: nat ::
        c < |t.cpus| && d < |t.cpus| && t.cpus[c].proc.Some? && t.cpus[c].proc == t.cpus[d].proc ==> c == d
  {
    RunKeeps(s, run, t);
    forall i: nat | i < |t.procs|
      ensures t.procs[i].state == RUNNING <==> exists c: nat :: c < |t.cpus| && t.cpus[c].proc == Some(i)
    {
      assert ProcOk(t, i);
      if c: nat :| c < |t.cpus| && t.cpus[c].proc == Some(i) {
        assert CpuOk(t, c);
      }
    }
    forall c: nat, d: nat | c < |t.cpus| && d < |t.cpus| && t.cpus[c].proc.Some? && t.cpus[c].proc == t.cpus[d].proc
      ensures c == d
    {
      assert CpuOk(t, c) && CpuOk(t, d);
    }
  }

  /** wait never frees the kernel stack of a process that a CPU still runs on. */
  lemma ReapedIsOffCpu(s: State, run: seq<Action>, t: State, c: nat)
    requires RunTo(s, run, t) && Enabled(t, WaitPass(c))
    ensures var z := FindZombie(t.procs, Me(t, c), 0);
            z < |t.procs| ==> forall d: nat :: d < |t.cpus| ==> t.cpus[d].proc != Some(z)
  {
    RunKeeps(s, run, t);
    assert CpuOk(t, c);
    var z := FindZombie(t.procs, Me(t, c), 0);
    if z < |t.procs| {
      NotOnCpu(t, z);
      forall d: nat | d < |t.cpus|
        ensures t.cpus[d].proc != Some(z)
      {
        assert CpuOk(t, d);
      }
    }
  }

  /** A process asleep in wait has no zombie child, at any moment. */
  lemma NoLostExit(s: State, run: seq<Action>, t: State, i: nat)
    requires RunTo(s, run, t) && i < |t.procs| && t.procs[i].state == SLEEPING && t.procs[i].chan == OnProc(i)
    ensures forall j: nat :: j < |t.procs| && t.procs[j].parent == Some(i) ==> t.procs[j].state != ZOMBIE
  {
    RunKeeps(s, run, t);
    assert ProcOk(t, i) && NoneMissed(t, i);
  }

  /**
    Every process but init that runs, can run, sleeps or is a zombie has a parent that is neither unused
    nor a zombie.
   */
  lemma ParentsAlive(s: State, run: seq<Action>, t: State, i: nat)
    requires RunTo(s, run, t) && i < |t.procs| && i != t.init && t.procs[i].state !in {UNUSED, EMBRYO}
    ensures var p := t.procs[i].parent;
            p.Some? && p.value < |t.procs| && t.procs[p.value].state !in {UNUSED, EMBRYO, ZOMBIE}
  {
    RunKeeps(s, run, t);
    assert ParentOk(t, i);
  }

  /** Each pid is returned by at most one wait, and only to the zombie's current parent. */
  lemma ReapedOnce(s: State, run: seq<Action>, t: State, c: nat)
    requires RunTo(s, run, t) && Enabled(t, WaitPass(c))
    ensures var z := FindZombie(t.procs, Me(t, c), 0);
            z < |t.procs| ==>
              && t.procs[z].pid !in t.reaped && t.procs[z].parent == Some(Me(t, c)) && t.procs[z].state == ZOMBIE
              && Step(t, WaitPass(c)).reaped == t.reaped + {t.procs[z].pid}
              && Step(t, WaitPass(c)).procs[z].state == UNUSED
  {
    RunKeeps(s, run, t);
    var z := FindZombie(t.procs, Me(t, c), 0);
    if z < |t.procs| {
      assert PidOk(t, z) && CpuOk(t, c);
    }
  }

  /**
    The panics: sched() without ptable.lock or by a process that is still RUNNING, and the return of a
    zombie, are never reached; "init exiting" is, by the exit of init and nothing else.
   */
  lemma PanicsExactly(s: State, run: seq<Action>, t: State, e: Action)
    requires RunTo(s, run, t) && Enabled(t, e)
    ensures Step(t, e).panicked <==> InitExits(t, e)
  {
    RunKeeps(s, run, t);
    if !InitExits(t, e) {
      StepScheds(t, e, Step(t, e));
    }
  }

  // ---------- kill ----------

  /**
    In every run kill(pid), when it finds a slot, marks that one and no other. For a pid that was given
    to a process it is the slot of that process; and the slot is unused, so that a kill which
    reports success reaches nobody, if and only if the pid is 0 or that of a fork that failed.
   */
  lemma KillReaches(s: State, run: seq<Action>, t: State, pid: int)
    requires RunTo(s, run, t) && FindPid(t.procs, pid, 0) < |t.procs|
    ensures var z := FindPid(t.procs, pid, 0);
            && (t.procs[z].state == UNUSED <==> pid == 0 || pid in t.failed)
            && (pid != 0 ==>
                  pid in t.owners && z == t.owners[pid]
                  && forall i: nat :: i < |t.procs| && t.procs[i].pid == pid ==> i == z)
            && Killed(t.procs, pid) == t.procs[z := Marked(t.procs[z])]
  {
    RunKeeps(s, run, t);
    assert PidOk(t, FindPid(t.procs, pid, 0));
    forall i: nat | i < |t.procs| && t.procs[i].pid == pid != 0
      ensures i == t.owners[pid]
    {
      assert PidOk(t, i);
    }
  }

  /** Right after boot kill(0) reports success and marks a free slot, so the next process made there is born killed. */
  lemma KillZeroMarksUnused(s: State)
    requires Start(s) && |s.procs| > 1
    ensures var z := FindPid(s.procs, 0, 0);
            z < |s.procs| && s.procs[z].state == UNUSED && Killed(s.procs, 0)[z].killed
            && Killed(s.procs, 0)[z].state == UNUSED
  {
    var other := if s.init == 0 then 1 else 0;
    assert s.procs[other].pid == 0;
  }
}
