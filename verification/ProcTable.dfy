/**
  The process table of proc.c as a value, and what the loops over it do: wakeup1, kill, the
  reparenting in exit, the search for a child in wait.
 */
module ProcTable {
  import opened Basics

  datatype ProcState = UNUSED | EMBRYO | SLEEPING | RUNNABLE | RUNNING | ZOMBIE

  /** What a process sleeps on: a process (only wait does that) or any other object. */
  datatype Chan = NoChan | OnProc(i: nat) | OnObject(id: nat)

  /** Where a kernel thread called sched(), or forkret if it has never run. */
  datatype Caller = Forkret | Yield | Sleep | Wait | Exit

  /** Where a process's kernel thread is, as far as ptable.lock goes. */
  datatype At =
    | Outside            // does not hold ptable.lock
    | Holding            // holds it, between acquire and release or sched()
    | Switched(via: Caller) // in sched(), or just back from it

  /**
    struct proc, and what the machine's other parts know about it: `at`, its program counter; `cpu`,
    the CPU whose c->proc it is; `child`, fork's local np; `maker`, the process that is forking it.
   */
  datatype Proc = Proc(state: ProcState, pid: int, parent: Option<nat>, chan: Chan, killed: bool,
                       at: At, cpu: Option<nat>, child: Option<nat>, maker: Option<nat>)

  type Table = seq<Proc>

  // ---------- wakeup1 ----------

  function Wake(p: Proc, ch: Chan): Proc {
    if p.state == SLEEPING && p.chan == ch then p.(state := RUNNABLE) else p
  }

  function WakeAll(ps: Table, ch: Chan): (r: Table)
    ensures |r| == |ps| && forall i :: 0 <= i < |ps| ==> r[i] == Wake(ps[i], ch)
  {
    if ps == [] then [] else WakeAll(ps[..|ps| - 1], ch) + [Wake(ps[|ps| - 1], ch)]
  }

  // ---------- exit ----------

  function ParentChan(p: Proc): Chan {
    if p.parent.Some? then OnProc(p.parent.value) else NoChan
  }

  /** The first n passes of exit's loop: children of `me` go to init, which is woken for each zombie. */
  function Reparented(ps: Table, me: nat, init: nat, n: nat): (r: Table)
    requires n <= |ps|
    ensures |r| == |ps|
  {
    if n == 0 then ps
    else
      var q := Reparented(ps, me, init, n - 1);
      if q[n - 1].parent != Some(me) then q
      else
        var q' := q[n - 1 := q[n - 1].(parent := Some(init))];
        if q[n - 1].state == ZOMBIE then WakeAll(q', OnProc(init)) else q'
  }

  /** exit's critical section up to sched() */
  function Exited(ps: Table, me: nat, init: nat): (r: Table)
    requires me < |ps|
    ensures |r| == |ps|
  {
    var q := Reparented(WakeAll(ps, ParentChan(ps[me])), me, init, |ps|);
    q[me := q[me].(state := ZOMBIE, at := Switched(Exit))]
  }

  function Adopt(p: Proc, me: nat, init: nat): Proc {
    if p.parent == Some(me) then p.(parent := Some(init)) else p
  }

  /** One of the first n processes is a zombie child of `me`. */
  ghost predicate ZombieChild(ps: Table, me: nat, n: nat)
    requires n <= |ps|
  {
    exists j :: 0 <= j < n && ps[j].parent == Some(me) && ps[j].state == ZOMBIE
  }

  /** Pointwise: the first n are adopted, and init is woken if one of them was a zombie. */
  lemma {:induction false} ReparentedAt(ps: Table, me: nat, init: nat, n: nat, i: nat)
    requires n <= |ps| && i < |ps|
    ensures var p := if i < n then Adopt(ps[i], me, init) else ps[i];
            Reparented(ps, me, init, n)[i] == if ZombieChild(ps, me, n) then Wake(p, OnProc(init)) else p
  {
    if n > 0 {
      ReparentedAt(ps, me, init, n - 1, i);
      ReparentedAt(ps, me, init, n - 1, n - 1);
      if ps[n - 1].parent == Some(me) && ps[n - 1].state == ZOMBIE {
        assert ZombieChild(ps, me, n);
      } else {
        assert ZombieChild(ps, me, n) <==> ZombieChild(ps, me, n - 1);
      }
    }
  }

  /** What exit makes of process i. */
  function AfterExit(ps: Table, me: nat, init: nat, wakeInit: bool, i: nat): Proc
    requires me < |ps| && i < |ps|
  {
    var p := Adopt(Wake(ps[i], ParentChan(ps[me])), me, init);
    var q := if wakeInit then Wake(p, OnProc(init)) else p;
    if i == me then q.(state := ZOMBIE, at := Switched(Exit)) else q
  }

  lemma ExitedAt(ps: Table, me: nat, init: nat, i: nat)
    requires me < |ps| && i < |ps|
    ensures Exited(ps, me, init)[i] == AfterExit(ps, me, init, ZombieChild(ps, me, |ps|), i)
  {
    var w := WakeAll(ps, ParentChan(ps[me]));
    ReparentedAt(w, me, init, |ps|, i);
    assert ZombieChild(w, me, |ps|) <==> ZombieChild(ps, me, |ps|) by {
      assert forall j :: 0 <= j < |ps| ==>
        w[j].parent == ps[j].parent && (w[j].state == ZOMBIE <==> ps[j].state == ZOMBIE);
    }
  }

  // ---------- wait, kill, allocproc ----------

  /** The first process from i on with ... : a child of `me` that is a zombie, or |ps| */
  function FindZombie(ps: Table, me: nat, i: nat): (r: nat)
    requires i <= |ps|
    ensures i <= r <= |ps|
    ensures forall j :: i <= j < r ==> !(ps[j].parent == Some(me) && ps[j].state == ZOMBIE)
    ensures r < |ps| ==> ps[r].parent == Some(me) && ps[r].state == ZOMBIE
    decreases |ps| - i
  {
    if i < |ps| && !(ps[i].parent == Some(me) && ps[i].state == ZOMBIE) then FindZombie(ps, me, i + 1) else i
  }

  /** None of the processes from i on is a child of `me`: wait's havekids stays 0. */
  predicate NoChild(ps: Table, me: nat, i: nat)
    requires i <= |ps|
    decreases |ps| - i
  {
    i == |ps| || (ps[i].parent != Some(me) && NoChild(ps, me, i + 1))
  }

  /** wait's clean-up of a zombie */
  function Reaped(p: Proc): Proc {
    p.(pid := 0, parent := None, killed := false, state := UNUSED, at := Outside, chan := NoChan)
  }

  function FindPid(ps: Table, pid: int, i: nat): (r: nat)
    requires i <= |ps|
    ensures i <= r <= |ps| && (r < |ps| ==> ps[r].pid == pid)
    ensures forall j :: i <= j < r ==> ps[j].pid != pid
    decreases |ps| - i
  {
    if i < |ps| && ps[i].pid != pid then FindPid(ps, pid, i + 1) else i
  }

  /** kill's effect on the process it finds: whatever that process's state is, it is marked */
  function Marked(p: Proc): Proc {
    p.(killed := true, state := if p.state == SLEEPING then RUNNABLE else p.state)
  }

  function Killed(ps: Table, pid: int): (r: Table)
    ensures |r| == |ps|
  {
    var i := FindPid(ps, pid, 0);
    if i < |ps| then ps[i := Marked(ps[i])] else ps
  }

  function FindUnused(ps: Table, i: nat): (r: nat)
    requires i <= |ps|
    ensures i <= r <= |ps| && (r < |ps| ==> ps[r].state == UNUSED)
    ensures forall j :: i <= j < r ==> ps[j].state != UNUSED
    decreases |ps| - i
  {
    if i < |ps| && ps[i].state != UNUSED then FindUnused(ps, i + 1) else i
  }
}
