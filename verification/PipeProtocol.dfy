/** Readers and writers of one pipe, in any interleaving. */
module PipeProtocol {
  import opened Blocks
  import opened PipeSpec

  /** What a thread is doing with the pipe; i bytes of a writer's src are in. */
  datatype Thread =
    | Idle
    | Writer(src: seq<Byte>, i: nat, asleep: bool)
    | Reader(n: nat, asleep: bool)

  /**
    `written` and `got` are all bytes that ever went in and came out; `dropped` says that a killed
    writer has left a reader asleep on the bytes it put in.
   */
  datatype State = State(p: Pipe, threads: seq<Thread>, killed: seq<bool>, written: seq<Byte>, got: seq<Byte>,
                         dropped: bool)

  datatype Action =
    | BeginWrite(t: nat, src: seq<Byte>)
    | BeginRead(t: nat, n: nat)
    | RunWriter(t: nat)
    | RunReader(t: nat)
    | Close(writable: bool)
    | Kill(t: nat)

  /** wakeup(&p->nread) */
  function WakeReader(th: Thread): Thread {
    if th.Reader? then Reader(th.n, false) else th
  }

  /** wakeup(&p->nwrite) */
  function WakeWriter(th: Thread): Thread {
    if th.Writer? then Writer(th.src, th.i, false) else th
  }

  function Wake(ths: seq<Thread>, readers: bool): (r: seq<Thread>)
    ensures |r| == |ths|
    ensures forall i :: 0 <= i < |ths| ==> r[i] == if readers then WakeReader(ths[i]) else WakeWriter(ths[i])
  {
    if ths == [] then []
    else
      var last := ths[|ths| - 1];
      Wake(ths[..|ths| - 1], readers) + [if readers then WakeReader(last) else WakeWriter(last)]
  }

  predicate Is(s: State, t: nat, writer: bool) {
    && t < |s.threads| == |s.killed|
    && if writer then s.threads[t].Writer? && !s.threads[t].asleep && s.threads[t].i <= |s.threads[t].src|
       else s.threads[t].Reader? && !s.threads[t].asleep
  }

  /** A process inside a read or a write keeps its end of the pipe open. */
  predicate Enabled(s: State, e: Action) {
    match e
    case BeginWrite(t, src) => t < |s.threads| == |s.killed| && s.threads[t].Idle? && s.p.writeopen
    case BeginRead(t, n) => t < |s.threads| == |s.killed| && s.threads[t].Idle? && s.p.readopen
    case RunWriter(t) => Is(s, t, true) && |s.p.data| == PIPESIZE
    case RunReader(t) => Is(s, t, false) && |s.p.data| == PIPESIZE
    case Close(writable) =>
      forall t :: 0 <= t < |s.threads| ==> if writable then !s.threads[t].Writer? else !s.threads[t].Reader?
    case Kill(t) => t < |s.threads| == |s.killed|
  }

  predicate Sleeps(th: Thread) {
    th.Reader? && th.asleep
  }

  /** A killed writer with more bytes than an empty pipe takes leaves a reader asleep. */
  predicate LeavesReader(s: State, t: nat)
    requires Is(s, t, true)
  {
    s.killed[t] && |s.threads[t].src| - s.threads[t].i > PIPESIZE && exists u ::
      0 <= u < |s.threads| && Sleeps(s.threads[u])
  }

  /** pipewrite from taking p->lock to releasing it or sleeping on nwrite. */
  function Wrote(s: State, t: nat): State
    requires Is(s, t, true) && |s.p.data| == PIPESIZE
  {
    var th := s.threads[t];
    var r := Fill(s.p, th.src, th.i);
    var s' := s.(p := r.0, written := s.written + th.src[th.i..r.1]);
    if r.1 == |th.src| then s'.(threads := Wake(s.threads[t := Idle], true))
    else if !s.p.readopen || s.killed[t] then
      s'.(threads := s.threads[t := Idle], dropped := s.dropped || LeavesReader(s, t))
    else s'.(threads := Wake(s.threads[t := Writer(th.src, r.1, true)], true))
  }

  /** piperead from taking p->lock to releasing it or sleeping on nread. */
  function Read(s: State, t: nat): State
    requires Is(s, t, false) && |s.p.data| == PIPESIZE
  {
    var th := s.threads[t];
    if Empty(s.p) && s.p.writeopen then
      if s.killed[t] then s.(threads := s.threads[t := Idle]) else s.(threads := s.threads[t := Reader(th.n, true)])
    else
      var r := Drain(s.p, th.n);
      s.(p := r.0, got := s.got + r.1, threads := Wake(s.threads[t := Idle], false))
  }

  function Step(s: State, e: Action): State
    requires Enabled(s, e)
  {
    match e
    case BeginWrite(t, src) => s.(threads := s.threads[t := Writer(src, 0, false)])
    case BeginRead(t, n) => s.(threads := s.threads[t := Reader(n, false)])
    case RunWriter(t) => Wrote(s, t)
    case RunReader(t) => Read(s, t)
    case Close(writable) =>
      s.(p := Closed(s.p, writable), threads := Wake(s.threads, writable))
    case Kill(t) =>
      s.(killed := s.killed[t := true], threads := s.threads[t := WakeReader(WakeWriter(s.threads[t]))])
  }

  // ---------- the invariant ----------

  /** Who sleeps has reason to, unless a killed writer left without a word. */
  predicate ThreadOk(p: Pipe, dropped: bool, th: Thread) {
    match th
    case Idle => true
    case Writer(src, i, asleep) => i <= |src| && p.writeopen && (asleep ==> Full(p) && p.readopen)
    case Reader(n, asleep) => p.readopen && (asleep && !dropped ==> Empty(p) && p.writeopen)
  }

  ghost predicate Inv(s: State) {
    && Ok(s.p) && |s.threads| == |s.killed| && s.written == s.got + Buffered(s.p)
    && forall t :: 0 <= t < |s.threads| ==> ThreadOk(s.p, s.dropped, s.threads[t])
  }

  /** A reader asleep on an empty pipe is woken, unless the writer was killed and has too many bytes. */
  lemma WroteReader(s: State, t: nat, u: nat)
    requires Inv(s) && Enabled(s, RunWriter(t)) && !s.dropped && u < |s.threads| && Sleeps(s.threads[u])
    ensures var s' := Wrote(s, t);
            && |s'.threads| == |s.threads|
            && (Sleeps(s'.threads[u]) <==> s.killed[t] && |s.threads[t].src| - s.threads[t].i > PIPESIZE)
            && (Sleeps(s'.threads[u]) ==> s'.dropped && !Empty(s'.p))
  {
    assert ThreadOk(s.p, s.dropped, s.threads[u]);
    EmptyTakes(s.p, s.threads[t].src, s.threads[t].i);
  }

  lemma WroteThread(s: State, t: nat, u: nat)
    requires Inv(s) && Enabled(s, RunWriter(t)) && u < |s.threads|
    ensures var s' := Wrote(s, t);
            |s'.threads| == |s.threads| && ThreadOk(s'.p, s'.dropped, s'.threads[u])
  {
    var th := s.threads[t];
    assert ThreadOk(s.p, s.dropped, th) && ThreadOk(s.p, s.dropped, s.threads[u]);
    FillAppends(s.p, th.src, th.i);
    SleepingWriterStays(s, th, u);
    if !s.dropped && Sleeps(s.threads[u]) {
      WroteReader(s, t, u);
    }
  }

  lemma WroteKeeps(s: State, t: nat)
    requires Inv(s) && Enabled(s, RunWriter(t))
    ensures Inv(Wrote(s, t))
  {
    var th := s.threads[t];
    assert ThreadOk(s.p, s.dropped, th);
    FillAppends(s.p, th.src, th.i);
    var r := Fill(s.p, th.src, th.i);
    var s' := Wrote(s, t);
    assert s'.written == s'.got + Buffered(s'.p) by {
      assert s.got + (Buffered(s.p) + th.src[th.i..r.1]) == (s.got + Buffered(s.p)) + th.src[th.i..r.1];
    }
    forall u: nat | u < |s.threads|
      ensures ThreadOk(s'.p, s'.dropped, s'.threads[u])
    {
      WroteThread(s, t, u);
    }
  }

  /** While some writer sleeps the pipe is full, so another one puts nothing in. */
  lemma SleepingWriterStays(s: State, th: Thread, u: nat)
    requires Inv(s) && th.Writer? && th.i <= |th.src| && u < |s.threads|
    ensures s.threads[u].Writer? && s.threads[u].asleep ==> Fill(s.p, th.src, th.i) == (s.p, th.i)
  {
    assert ThreadOk(s.p, s.dropped, s.threads[u]);
  }

  lemma ReadThread(s: State, t: nat, u: nat)
    requires Inv(s) && Enabled(s, RunReader(t)) && u < |s.threads|
    ensures var s' := Read(s, t);
            |s'.threads| == |s.threads| && ThreadOk(s'.p, s'.dropped, s'.threads[u])
  {
    assert ThreadOk(s.p, s.dropped, s.threads[t]) && ThreadOk(s.p, s.dropped, s.threads[u]);
    DrainTakes(s.p, s.threads[t].n);
    DrainEmpty(s.p, s.threads[t].n);
  }

  lemma DrainEmpty(p: Pipe, n: nat)
    requires Ok(p)
    ensures Empty(p) ==> Drain(p, n) == (p, [])
  {
  }

  lemma ReadKeeps(s: State, t: nat)
    requires Inv(s) && Enabled(s, RunReader(t))
    ensures Inv(Read(s, t))
  {
    var n := s.threads[t].n;
    DrainTakes(s.p, n);
    var r := Drain(s.p, n);
    assert s.got + (r.1 + Buffered(r.0)) == (s.got + r.1) + Buffered(r.0);
    forall u: nat | u < |s.threads|
      ensures ThreadOk(Read(s, t).p, Read(s, t).dropped, Read(s, t).threads[u])
    {
      ReadThread(s, t, u);
    }
  }

  lemma OtherKeeps(s: State, e: Action)
    requires Inv(s) && Enabled(s, e) && !e.RunWriter? && !e.RunReader?
    ensures Inv(Step(s, e))
  {
    var s' := Step(s, e);
    assert Buffered(s'.p) == Buffered(s.p);
    forall u | 0 <= u < |s.threads|
      ensures ThreadOk(s'.p, s'.dropped, s'.threads[u])
    {
      assert ThreadOk(s.p, s.dropped, s.threads[u]);
    }
  }

  lemma StepKeeps(s: State, e: Action)
    requires Inv(s) && Enabled(s, e)
    ensures Inv(Step(s, e))
  {
    match e
    case RunWriter(t) => WroteKeeps(s, t);
    case RunReader(t) => ReadKeeps(s, t);
    case _ => OtherKeeps(s, e);
  }

  predicate Start(s: State) {
    && |s.p.data| == PIPESIZE && s.p.nread == 0 && s.p.nwrite == 0 && s.p.readopen && s.p.writeopen
    && |s.threads| == |s.killed| && s.written == [] && s.got == [] && !s.dropped
    && forall t :: 0 <= t < |s.threads| ==> s.threads[t] == Idle && !s.killed[t]
  }

  ghost predicate RunTo(s: State, run: seq<Action>, t: State)
    decreases |run|
  {
    if run == [] then Start(s) && t == s
    else
      var e := run[|run| - 1];
      exists m: State :: RunTo(s, run[..|run| - 1], m) && Enabled(m, e) && t == Step(m, e)
  }

  lemma {:induction false} RunKeeps(s: State, run: seq<Action>, t: State)
    requires RunTo(s, run, t)
    ensures Inv(t)
    decreases |run|
  {
    if run != [] {
      var e := run[|run| - 1];
      var m: State :| RunTo(s, run[..|run| - 1], m) && Enabled(m, e) && t == Step(m, e);
      RunKeeps(s, run[..|run| - 1], m);
      StepKeeps(m, e);
    }
  }

  /** A bounded FIFO: what went in is what came out followed by the at most PIPESIZE bytes inside. */
  lemma BoundedFifo(s: State, run: seq<Action>, t: State)
    requires RunTo(s, run, t)
    ensures Ok(t.p) && t.written == t.got + Buffered(t.p) && |t.written| - |t.got| <= PIPESIZE
  {
    RunKeeps(s, run, t);
  }

  /**
    A sleeping writer finds the pipe full and its reader there; a sleeping reader finds the pipe empty with
    the write end open, unless a killed writer left a reader asleep.
   */
  lemma SleepersHaveReason(s: State, run: seq<Action>, t: State, u: nat)
    requires RunTo(s, run, t) && u < |t.threads|
    ensures t.threads[u].Writer? && t.threads[u].asleep ==> Full(t.p) && t.p.readopen
    ensures Sleeps(t.threads[u]) && !t.dropped ==> Empty(t.p) && t.p.writeopen
  {
    RunKeeps(s, run, t);
    assert ThreadOk(t.p, t.dropped, t.threads[u]);
  }

  /** Some reader sleeps although there are bytes to read or none to come. */
  predicate Forgotten(s: State) {
    exists u :: 0 <= u < |s.threads| && Sleeps(s.threads[u]) && !(Empty(s.p) && s.p.writeopen)
  }

  /**
    Exactly when that goes wrong: in a step that a killed writer with more than PIPESIZE bytes left takes
    while a reader sleeps.
   */
  lemma ForgottenExactly(s: State, run: seq<Action>, m: State, e: Action)
    requires RunTo(s, run, m) && !m.dropped && Enabled(m, e)
    ensures Forgotten(Step(m, e)) <==> e.RunWriter? && LeavesReader(m, e.t)
    ensures Step(m, e).dropped <==> Forgotten(Step(m, e))
  {
    RunKeeps(s, run, m);
    StepKeeps(m, e);
    var t := Step(m, e);
    if Forgotten(t) {
      var u :| 0 <= u < |t.threads| && Sleeps(t.threads[u]) && !(Empty(t.p) && t.p.writeopen);
      assert ThreadOk(t.p, t.dropped, t.threads[u]);
    }
    if e.RunWriter? && LeavesReader(m, e.t) {
      var u :| 0 <= u < |m.threads| && Sleeps(m.threads[u]);
      WroteReader(m, e.t, u);
      assert Sleeps(t.threads[u]);
    }
  }

  /** pipeclose frees the page only when nobody is reading or writing. */
  lemma FreedIsIdle(s: State, run: seq<Action>, t: State, u: nat)
    requires RunTo(s, run, t) && Gone(t.p) && u < |t.threads|
    ensures t.threads[u].Idle?
  {
    RunKeeps(s, run, t);
    assert ThreadOk(t.p, t.dropped, t.threads[u]);
  }

  lemma Then(s: State, run: seq<Action>, m: State, e: Action) returns (run': seq<Action>, t: State)
    requires RunTo(s, run, m) && Enabled(m, e)
    ensures RunTo(s, run', t) && t == Step(m, e)
  {
    run', t := run + [e], Step(m, e);
    var last := run'[|run'| - 1];
    assert run'[..|run'| - 1] == run;
    assert RunTo(s, run'[..|run'| - 1], m) && Enabled(m, last) && t == Step(m, last);
  }

  lemma FillsUp(p: Pipe, src: seq<Byte>)
    requires Ok(p) && |src| > PIPESIZE
    ensures Fill(p, src, 0).1 < |src| && Full(Fill(p, src, 0).0)
  {
    FillAppends(p, src, 0);
    var r := Fill(p, src, 0);
    assert |Buffered(r.0)| == |Buffered(p)| + r.1;
  }

  /**
    The exception is real: a reader sleeps on an empty pipe, a writer with more than PIPESIZE bytes
    is killed, fills the pipe and leaves. Nobody wakes the reader, which
    sleeps on although the pipe is full.
   */
  lemma KilledWriterLeavesSleeper(s: State, src: seq<Byte>) returns (run: seq<Action>, t: State)
    requires Start(s) && |s.threads| >= 2 && |src| > PIPESIZE
    ensures RunTo(s, run, t) && |t.threads| == |s.threads| && t.threads[0].Reader? && t.threads[0].asleep && Full(t.p)
    ensures t.threads[1].Idle?
    ensures Forgotten(t)
  {
    run, t := [], s;
    run, t := Then(s, run, t, BeginRead(0, 1));
    run, t := Then(s, run, t, RunReader(0));
    run, t := Then(s, run, t, BeginWrite(1, src));
    run, t := Then(s, run, t, Kill(1));
    RunKeeps(s, run, t);
    LastStep(t, src);
    run, t := Then(s, run, t, RunWriter(1));
  }

  lemma LastStep(m: State, src: seq<Byte>)
    requires Inv(m) && |m.threads| >= 2 && |src| > PIPESIZE && m.killed[1] && !m.dropped
    requires m.threads[0] == Reader(1, true) && m.threads[1] == Writer(src, 0, false)
    ensures Enabled(m, RunWriter(1))
    ensures var t := Step(m, RunWriter(1));
            |t.threads| == |m.threads| && Sleeps(t.threads[0]) && Full(t.p) && t.threads[1].Idle? && Forgotten(t)
  {
    FillsUp(m.p, src);
    WroteReader(m, 1, 0);
    var t := Step(m, RunWriter(1));
    assert Sleeps(t.threads[0]) && !Empty(t.p);
  }
}
