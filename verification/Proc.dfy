/** The process table's own code (proc.c), each lock-held region tied to the step it takes. */
module Proc {
  import opened ProcSpec

  datatype Waited = Pid(pid: int) | NoKids | Asleep

  class Ptable {
    var procs: seq<Proc>
    var nextpid: int
    var proc: int  // the current process, NONE between switches
    const initproc: int

    constructor (procs: seq<Proc>, nextpid: int, proc: int, initproc: int)
      ensures this.procs == procs && this.nextpid == nextpid && this.proc == proc && this.initproc == initproc
    {
      this.procs, this.nextpid, this.proc, this.initproc := procs, nextpid, proc, initproc;
    }

    /** The table with a record of forks under way and pids returned. */
    ghost function View(busy: map<int, Making>, reaped: seq<int>): Sys
      reads this
    {
      Sys(procs, nextpid, proc, initproc, busy, reaped)
    }

    /** The scan of wakeup1: sleepers on `chan` become runnable, no one else changes. */
    method Wakeup1(chan: Chan)
      modifies this`procs
      ensures procs == Woken(old(procs), chan)
      ensures |procs| == |old(procs)|
      ensures forall i :: 0 <= i < |procs| && old(procs)[i].state == SLEEPING && old(procs)[i].chan == chan ==>
                procs[i] == old(procs)[i].(state := RUNNABLE)
      ensures forall i :: 0 <= i < |procs| && !(old(procs)[i].state == SLEEPING && old(procs)[i].chan == chan) ==>
                procs[i] == old(procs)[i]
    {
      var i := 0;
      while i < |procs|
        invariant 0 <= i <= |procs| == |old(procs)|
        invariant forall k :: 0 <= k < i ==> procs[k] == Waked(old(procs)[k], chan)
        invariant forall k :: i <= k < |procs| ==> procs[k] == old(procs)[k]
      {
        if procs[i].state == SLEEPING && procs[i].chan == chan {
          procs := procs[i := procs[i].(state := RUNNABLE)];
        }
        i := i + 1;
      }
    }

    /** exit's loop: pass abandoned children to init, waking it for each zombie among them. */
    method PassToInit(p: int)
      requires p != initproc
      modifies this`procs
      ensures procs == Abandoned(old(procs), p, initproc)
    {
      ghost var ps := procs;
      ghost var seen := false;
      var i := 0;
      while i < |procs|
        invariant 0 <= i <= |procs| == |ps|
        invariant seen <==> exists k :: 0 <= k < i && ZombieOf(ps, k, p)
        invariant forall k :: 0 <= k < |ps| ==> procs[k] == Passed(ps[k], k < i, seen, p, initproc)
      {
        ghost var was := seen;
        if procs[i].parent == p {
          procs := procs[i := procs[i].(parent := initproc)];
          if procs[i].state == ZOMBIE {
            assert ZombieOf(ps, i, p);
            ghost var mid := procs;
            Wakeup1(OfProc(initproc));
            seen := true;
            assert forall k :: 0 <= k < |ps| ==> procs[k] == Waked(mid[k], OfProc(initproc));
          }
        }
        i := i + 1;
      }
      PassedAll(ps, procs, seen, p, initproc);
    }

    /** exit, up to the call of sched; true is the panic "init exiting". */
    method Exit() returns (panic: bool)
      requires 0 <= proc < |procs|
      modifies this
      ensures panic <==> old(proc) == initproc
      ensures panic ==> procs == old(procs) && proc == old(proc) && nextpid == old(nextpid)
      ensures !panic ==> |procs| == |old(procs)| && forall i :: 0 <= i < |procs| ==>
        && procs[i].pid == old(procs)[i].pid && procs[i].chan == old(procs)[i].chan
        && procs[i].killed == old(procs)[i].killed
        && procs[i].parent == (if old(procs)[i].parent == old(proc) then initproc else old(procs)[i].parent)
      ensures !panic ==> procs[old(proc)].state == ZOMBIE && forall i :: 0 <= i < |procs| && i != old(proc) ==>
        procs[i].state ==
          if old(procs)[i].state == SLEEPING
             && (|| old(procs)[i].chan == OfProc(old(procs)[old(proc)].parent)
                 || (old(procs)[i].chan == OfProc(initproc) && HasZombie(old(procs), old(proc))))
          then RUNNABLE else old(procs)[i].state
      ensures !panic ==> forall busy, reaped :: old(proc) !in busy ==>
        && Enabled(old(View(busy, reaped)), ProcSpec.Exit)
        && View(busy, reaped) == Do(old(View(busy, reaped)), ProcSpec.Exit)
    {
      if proc == initproc {
        return true;
      }
      ghost var ps, p := procs, proc;
      Wakeup1(OfProc(procs[proc].parent));
      PassToInit(proc);
      procs := procs[proc := procs[proc].(state := ZOMBIE)];
      proc := NONE;
      panic := false;
      forall i | 0 <= i < |ps| {
        ExitedAt(ps, p, initproc, i);
      }
    }

    /** One scan of wait, from taking the lock to returning or sleeping: the first zombie child is reaped. */
    method Wait() returns (r: Waited)
      requires 0 <= proc < |procs|
      modifies this
      ensures nextpid == old(nextpid)
      ensures r.Pid? <==>
        exists i :: 0 <= i < |old(procs)| && old(procs)[i].parent == old(proc) && old(procs)[i].state == ZOMBIE
      ensures r.NoKids? <==>
        && !r.Pid?
        && ((forall i :: 0 <= i < |old(procs)| ==> old(procs)[i].parent != old(proc)) || old(procs)[old(proc)].killed)
      ensures r.Pid? ==> exists c ::
        && 0 <= c < |old(procs)| && old(procs)[c].parent == old(proc) && old(procs)[c].state == ZOMBIE
        && (forall i :: 0 <= i < c ==> !(old(procs)[i].parent == old(proc) && old(procs)[i].state == ZOMBIE))
        && r.pid == old(procs)[c].pid && proc == old(proc)
        && procs == old(procs)[c := old(procs)[c].(state := UNUSED, pid := 0, parent := NONE, killed := false)]
        && (forall busy, reaped :: old(proc) !in busy ==>
              && Enabled(old(View(busy, reaped)), Reap(c))
              && View(busy, reaped + [r.pid]) == Do(old(View(busy, reaped)), Reap(c)))
      ensures r.NoKids? ==> procs == old(procs) && proc == old(proc)
      ensures r.Asleep? ==>
        && proc == NONE
        && procs == old(procs)[old(proc) := old(procs)[old(proc)].(state := SLEEPING, chan := OfProc(old(proc)))]
      ensures !r.Pid? ==> forall busy, reaped :: old(proc) !in busy ==>
        var e := if r.NoKids? then ProcSpec.NoKids else WaitSleep;
        Enabled(old(View(busy, reaped)), e) && View(busy, reaped) == Do(old(View(busy, reaped)), e)
    {
      var havekids := false;
      var i := 0;
      while i < |procs|
        invariant 0 <= i <= |procs| && procs == old(procs) && proc == old(proc) && nextpid == old(nextpid)
        invariant havekids <==> exists k :: 0 <= k < i && procs[k].parent == proc
        invariant forall k :: 0 <= k < i ==> !(procs[k].parent == proc && procs[k].state == ZOMBIE)
      {
        if procs[i].parent == proc {
          havekids := true;
          if procs[i].state == ZOMBIE {
            var pid := procs[i].pid;
            procs := procs[i := Cleared(procs[i])];
            return Pid(pid);
          }
        }
        i := i + 1;
      }
      if !havekids || procs[proc].killed {
        return Waited.NoKids;
      }
      procs := procs[proc := procs[proc].(state := SLEEPING, chan := OfProc(proc))];
      proc := NONE;
      r := Asleep;
    }

    /** Take the first UNUSED slot. */
    method AllocProc() returns (c: int)
      modifies this
      ensures proc == old(proc) && |procs| == |old(procs)|
      ensures c == NONE <==> forall i :: 0 <= i < |procs| ==> !old(procs)[i].state.UNUSED?
      ensures c == NONE ==> procs == old(procs) && nextpid == old(nextpid)
      ensures c != NONE ==>
        && 0 <= c < |procs| && old(procs)[c].state.UNUSED? && (forall i :: 0 <= i < c ==> !old(procs)[i].state.UNUSED?)
        && procs == old(procs)[c := old(procs)[c].(state := EMBRYO, pid := old(nextpid))] && nextpid == old(nextpid) + 1
    {
      c := 0;
      while c < |procs|
        invariant 0 <= c <= |procs|
        invariant forall i :: 0 <= i < c ==> !procs[i].state.UNUSED?
      {
        if procs[c].state == UNUSED {
          procs := procs[c := procs[c].(state := EMBRYO, pid := nextpid)];
          nextpid := nextpid + 1;
          return;
        }
        c := c + 1;
      }
      c := NONE;
    }

    /** Fork, with the outcomes of the page allocations given: the parts between which others may run are the steps
        Alloc, then Fail, or Adopt and Ready. The result is the child's pid or -1. */
    method Fork(memory: bool) returns (pid: int, ghost c: int)
      requires 0 <= proc < |procs| && procs[proc].state.RUNNING? && nextpid < MAXPID
      modifies this
      ensures c == NONE <==> forall i :: 0 <= i < |old(procs)| ==> old(procs)[i].state != UNUSED
      ensures pid == if c != NONE && memory then old(nextpid) else -1
      ensures c != NONE ==>
        && 0 <= c < |old(procs)| && old(procs)[c].state == UNUSED
        && (forall i :: 0 <= i < c ==> old(procs)[i].state != UNUSED)
        && procs == old(procs)[c := if memory then old(procs)[c].(state := RUNNABLE, pid := pid, parent := proc)
                                    else old(procs)[c].(pid := old(nextpid))]
      ensures forall busy, reaped :: old(proc) !in busy ==>
        && (c == NONE ==> View(busy, reaped) == old(View(busy, reaped)) && pid == -1)
        && (c != NONE ==>
              && Enabled(old(View(busy, reaped)), Alloc(c))
              && var a := Do(old(View(busy, reaped)), Alloc(c));
                 if !memory then pid == -1 && Enabled(a, Fail) && View(busy, reaped) == Do(a, Fail)
                 else
                   && pid == old(nextpid) && Enabled(a, Adopt) && Enabled(Do(a, Adopt), Ready)
                   && View(busy, reaped) == Do(Do(a, Adopt), Ready))
    {
      var np := AllocProc();
      c := np;
      if np == NONE {
        return -1, c;
      }
      if !memory {
        procs := procs[np := procs[np].(state := UNUSED)];
        assert forall busy: map<int, Making> :: proc !in busy ==> busy[proc := Making(np, false)] - {proc} == busy;
        return -1, c;
      }
      procs := procs[np := procs[np].(parent := proc)];
      pid := procs[np].pid;
      procs := procs[np := procs[np].(state := RUNNABLE)];
      assert forall busy: map<int, Making> :: proc !in busy ==>
               busy[proc := Making(np, false)][proc := Making(np, true)] - {proc} == busy;
    }

    /** sleep on a channel other than a process slot, up to the call of sched. */
    method Sleep(id: nat)
      requires 0 <= proc < |procs|
      modifies this`procs, this`proc
      ensures proc == NONE
      ensures procs == old(procs)[old(proc) := old(procs)[old(proc)].(state := SLEEPING, chan := OfOther(id))]
      ensures forall busy, reaped :: View(busy, reaped) == Do(old(View(busy, reaped)), SleepOn(id))
    {
      procs := procs[proc := procs[proc].(chan := OfOther(id))];
      procs := procs[proc := procs[proc].(state := SLEEPING)];
      proc := NONE;
    }

    /** yield, up to the call of sched. */
    method Yield()
      requires 0 <= proc < |procs|
      modifies this`procs, this`proc
      ensures proc == NONE && procs == old(procs)[old(proc) := old(procs)[old(proc)].(state := RUNNABLE)]
      ensures forall busy, reaped :: View(busy, reaped) == Do(old(View(busy, reaped)), ProcSpec.Yield)
    {
      procs := procs[proc := procs[proc].(state := RUNNABLE)];
      proc := NONE;
    }

    /** The scheduler's scan from slot `i` on, up to the switch: the first runnable process there runs. A process that
        comes back from sleep clears its channel. */
    method Schedule(i: nat) returns (j: int)
      requires proc == NONE && i <= |procs|
      modifies this`procs, this`proc
      ensures proc == j && (j == NONE <==> forall k :: i <= k < |old(procs)| ==> old(procs)[k].state != RUNNABLE)
      ensures j == NONE ==> procs == old(procs)
      ensures j != NONE ==>
        && i <= j < |old(procs)| && old(procs)[j].state == RUNNABLE
        && (forall k :: i <= k < j ==> old(procs)[k].state != RUNNABLE)
        && procs == old(procs)[j := old(procs)[j].(state := RUNNING, chan := NoChan)]
        && forall busy, reaped ::
             && Enabled(old(View(busy, reaped)), Dispatch(j))
             && View(busy, reaped) == Do(old(View(busy, reaped)), Dispatch(j))
    {
      j := i;
      while j < |procs|
        invariant i <= j <= |procs| && procs == old(procs) && proc == NONE
        invariant forall k :: i <= k < j ==> procs[k].state != RUNNABLE
      {
        if procs[j].state == RUNNABLE {
          proc := j;
          procs := procs[j := procs[j].(state := RUNNING)];
          procs := procs[j := procs[j].(chan := NoChan)];
          return;
        }
        j := j + 1;
      }
      j := NONE;
    }

    /** Kill the first process with the given pid. */
    method Kill(pid: int) returns (r: int)
      modifies this`procs
      ensures r == -1 ==> procs == old(procs) && forall i :: 0 <= i < |procs| ==> procs[i].pid != pid
      ensures r != -1 ==> r == 0 && exists t ::
        && 0 <= t < |old(procs)| && old(procs)[t].pid == pid && (forall i :: 0 <= i < t ==> old(procs)[i].pid != pid)
        && procs == old(procs)[t := old(procs)[t].(killed := true,
                                                   state := if old(procs)[t].state == SLEEPING then RUNNABLE
                                                            else old(procs)[t].state)]
        && forall busy, reaped :: View(busy, reaped) == Do(old(View(busy, reaped)), ProcSpec.Kill(t))
    {
      var t := 0;
      while t < |procs|
        invariant 0 <= t <= |procs| && procs == old(procs)
        invariant forall i :: 0 <= i < t ==> procs[i].pid != pid
      {
        if procs[t].pid == pid {
          procs := procs[t := procs[t].(killed := true)];
          if procs[t].state == SLEEPING {
            procs := procs[t := procs[t].(state := RUNNABLE)];
          }
          assert forall busy, reaped :: View(busy, reaped) == Do(old(View(busy, reaped)), ProcSpec.Kill(t));
          return 0;
        }
        t := t + 1;
      }
      r := -1;
    }
  }

  /** Slot contents in the middle of exit's loop: moved to init if the loop has passed it, woken if a zombie has been
      seen. */
  function Passed(p: Proc, done: bool, seen: bool, from: int, init: int): Proc {
    var q := if done then Moved(p, from, init) else p;
    if seen then Waked(q, OfProc(init)) else q
  }

  lemma PassedAll(ps: seq<Proc>, qs: seq<Proc>, seen: bool, p: int, init: int)
    requires |qs| == |ps| && (seen <==> exists k :: 0 <= k < |ps| && ZombieOf(ps, k, p))
    requires forall k :: 0 <= k < |ps| ==> qs[k] == Passed(ps[k], true, seen, p, init)
    ensures qs == Abandoned(ps, p, init)
  {
    var r := Reparented(ps, p, init);
    assert forall k :: 0 <= k < |ps| ==> r[k] == Moved(ps[k], p, init);
    assert qs == if seen then Woken(r, OfProc(init)) else r;
  }
}
