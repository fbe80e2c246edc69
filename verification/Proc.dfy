/**
  The critical sections of proc.c as they run over the array ptable.proc, each proved to do what
  ProcTable says; ProcProtocol interleaves them.
 */
module Proc {
  import opened Basics
  import opened ProcTable

  class Ptable {
    const proc: array<Proc>
    const init: nat
    var nextpid: int

    constructor (n: nat, init: nat)
      ensures fresh(proc) && proc.Length == n && this.init == init && nextpid == 1
    {
      proc := new Proc[n](_ => Proc(UNUSED, 0, None, NoChan, false, Outside, None, None, None));
      this.init := init;
      nextpid := 1;
    }

    method Wakeup1(ch: Chan)
      modifies proc
      ensures proc[..] == WakeAll(old(proc[..]), ch)
    {
      var p := 0;
      while p < proc.Length
        invariant p <= proc.Length
        invariant forall j :: 0 <= j < p ==> proc[j] == Wake(old(proc[j]), ch)
        invariant forall j :: p <= j < proc.Length ==> proc[j] == old(proc[j])
      {
        if proc[p].state == SLEEPING && proc[p].chan == ch {
          proc[p] := proc[p].(state := RUNNABLE);
        }
        p := p + 1;
      }
    }

    method Kill(pid: int) returns (r: int)
      modifies proc
      ensures proc[..] == Killed(old(proc[..]), pid)
      ensures r == if FindPid(old(proc[..]), pid, 0) < proc.Length then 0 else -1
    {
      var p := 0;
      while p < proc.Length
        invariant p <= proc.Length && proc[..] == old(proc[..])
        invariant FindPid(proc[..], pid, 0) == FindPid(proc[..], pid, p)
      {
        if proc[p].pid == pid {
          proc[p] := proc[p].(killed := true);
          if proc[p].state == SLEEPING {
            proc[p] := proc[p].(state := RUNNABLE);
          }
          return 0;
        }
        p := p + 1;
      }
      r := -1;
    }

    /** exit from acquire up to sched(), which switches away and does not return. */
    method ExitLocked(me: nat)
      requires me < proc.Length
      modifies proc
      ensures proc[..] == Exited(old(proc[..]), me, init)
    {
      Wakeup1(ParentChan(proc[me]));
      ghost var w := proc[..];
      var p := 0;
      while p < proc.Length
        invariant p <= proc.Length
        invariant proc[..] == Reparented(w, me, init, p)
      {
        if proc[p].parent == Some(me) {
          var state := proc[p].state;
          proc[p] := proc[p].(parent := Some(init));
          if state == ZOMBIE {
            Wakeup1(OnProc(init));
          }
        }
        p := p + 1;
      }
      proc[me] := proc[me].(state := ZOMBIE, at := Switched(Exit));
    }

    /**
      One pass of wait's loop: a zombie child is freed and its pid returned; otherwise -1, and
      the caller either returns or sleeps.
     */
    method WaitScan(me: nat) returns (pid: int, found: bool, havekids: bool)
      modifies proc
      ensures var ps := old(proc[..]);
              var z := FindZombie(ps, me, 0);
              && found == (z < |ps|)
              && (found ==> pid == ps[z].pid && proc[..] == ps[z := Reaped(ps[z])])
              && (!found ==> pid == -1 && proc[..] == ps && havekids == !NoChild(ps, me, 0))
    {
      havekids, pid, found := false, -1, false;
      var p := 0;
      while p < proc.Length
        invariant p <= proc.Length && proc[..] == old(proc[..]) && pid == -1 && !found
        invariant FindZombie(proc[..], me, 0) == FindZombie(proc[..], me, p)
        invariant NoChild(proc[..], me, 0) == (!havekids && NoChild(proc[..], me, p))
      {
        if proc[p].parent == Some(me) {
          havekids := true;
          if proc[p].state == ZOMBIE {
            pid, found := proc[p].pid, true;
            proc[p] := proc[p].(pid := 0, parent := None, killed := false, state := UNUSED, at := Outside,
                                chan := NoChan);
            return;
          }
        }
        p := p + 1;
      }
    }

    /** allocproc's critical section; `by` is the process that forks. */
    method AllocSlot(maker: nat) returns (i: nat, ok: bool)
      modifies proc, this`nextpid
      ensures var ps := old(proc[..]);
              && i == FindUnused(ps, 0) && ok == (i < |ps|)
              && (ok ==> nextpid == old(nextpid) + 1
                         && proc[..] == ps[i := ps[i].(state := EMBRYO, pid := old(nextpid), maker := Some(maker))])
              && (!ok ==> nextpid == old(nextpid) && proc[..] == ps)
    {
      i := 0;
      while i < proc.Length && proc[i].state != UNUSED
        invariant i <= proc.Length && FindUnused(proc[..], 0) == FindUnused(proc[..], i)
      {
        i := i + 1;
      }
      ok := i < proc.Length;
      if ok {
        proc[i] := proc[i].(state := EMBRYO, pid := nextpid, maker := Some(maker));
        nextpid := nextpid + 1;
      }
    }
  }
}
