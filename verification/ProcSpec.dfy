/** The process table (proc.c) as a system of atomic steps, one per lock-held region. */
module ProcSpec {
  const NPROC := 64
  const NONE := -1  // no process
  const MAXPID := 0x7FFF_FFFF

  datatype ProcState = UNUSED | EMBRYO | SLEEPING | RUNNABLE | RUNNING | ZOMBIE

  /** What a process sleeps on: a process slot (only wait does that) or anything else. */
  datatype Chan = NoChan | OfProc(slot: int) | OfOther(id: nat)

  datatype Proc = Proc(state: ProcState, pid: int, parent: int, chan: Chan, killed: bool) {
    predicate Alive() { state.SLEEPING? || state.RUNNABLE? || state.RUNNING? }

    predicate WaitsOn(c: Chan) { state.SLEEPING? && chan == c }
  }

  /** A fork under way: the slot being filled, and whether its parent is recorded yet. */
  datatype Making = Making(child: int, linked: bool)

  /** `busy` and `reaped` record who is inside fork and which pids wait has returned. */
  datatype Sys = Sys(procs: seq<Proc>, nextpid: int, cur: int, init: int, busy: map<int, Making>, reaped: seq<int>)

  // ---------- what the loops over the table compute ----------

  function Waked(p: Proc, c: Chan): Proc {
    if p.WaitsOn(c) then p.(state := RUNNABLE) else p
  }

  /** wakeup1. */
  function Woken(ps: seq<Proc>, c: Chan): (r: seq<Proc>)
    ensures |r| == |ps|
  {
    seq(|ps|, i requires 0 <= i < |ps| => Waked(ps[i], c))
  }

  function Moved(p: Proc, from: int, to: int): Proc {
    if p.parent == from then p.(parent := to) else p
  }

  predicate ZombieOf(ps: seq<Proc>, i: int, p: int) {
    0 <= i < |ps| && ps[i].parent == p && ps[i].state.ZOMBIE?
  }

  predicate HasZombie(ps: seq<Proc>, p: int) { exists i :: 0 <= i < |ps| && ZombieOf(ps, i, p) }

  predicate HasChild(ps: seq<Proc>, p: int) { exists i :: 0 <= i < |ps| && ps[i].parent == p }

  function Reparented(ps: seq<Proc>, p: int, init: int): (r: seq<Proc>)
    ensures |r| == |ps|
  {
    seq(|ps|, i requires 0 <= i < |ps| => Moved(ps[i], p, init))
  }

  /** The loop of exit: children go to init, which is woken if one of them is a zombie. */
  function Abandoned(ps: seq<Proc>, p: int, init: int): (r: seq<Proc>)
    ensures |r| == |ps|
  {
    if HasZombie(ps, p) then Woken(Reparented(ps, p, init), OfProc(init)) else Reparented(ps, p, init)
  }

  function Exited(ps: seq<Proc>, p: int, init: int): (r: seq<Proc>)
    requires 0 <= p < |ps|
    ensures |r| == |ps|
  {
    var qs := Abandoned(Woken(ps, OfProc(ps[p].parent)), p, init);
    qs[p := qs[p].(state := ZOMBIE)]
  }

  function Cleared(p: Proc): Proc {
    p.(state := UNUSED, pid := 0, parent := NONE, killed := false)
  }

  // ---------- the steps ----------

  datatype Step =
    | Alloc(child: int)      // allocproc in fork: a free slot becomes EMBRYO
    | Fail                   // no stack or no memory: the slot is given back
    | Adopt                  // np->parent = proc
    | Ready                  // np->state = RUNNABLE; fork returns
    | Exit
    | Reap(child: int)       // wait finds a zombie child
    | NoKids                 // wait returns -1
    | WaitSleep              // wait sleeps on the caller's own slot
    | SleepOn(id: nat)
    | WakeOn(id: nat)
    | Kill(target: int)      // the slot kill finds
    | Yield
    | Dispatch(slot: int)

  predicate Running(s: Sys) { 0 <= s.cur < |s.procs| }

  predicate Enabled(s: Sys, e: Step) {
    match e
    case Alloc(c) =>
      && Running(s) && s.cur !in s.busy && 0 <= c < |s.procs| && s.procs[c].state.UNUSED?
      && s.nextpid < MAXPID
    case Fail => Running(s) && s.cur in s.busy && !s.busy[s.cur].linked && 0 <= s.busy[s.cur].child < |s.procs|
    case Adopt => Running(s) && s.cur in s.busy && !s.busy[s.cur].linked && 0 <= s.busy[s.cur].child < |s.procs|
    case Ready => Running(s) && s.cur in s.busy && s.busy[s.cur].linked && 0 <= s.busy[s.cur].child < |s.procs|
    case Exit => Running(s) && s.cur !in s.busy && s.cur != s.init
    case Reap(c) => Running(s) && s.cur !in s.busy && ZombieOf(s.procs, c, s.cur)
    case NoKids =>
      && Running(s) && s.cur !in s.busy && !HasZombie(s.procs, s.cur)
      && (!HasChild(s.procs, s.cur) || s.procs[s.cur].killed)
    case WaitSleep =>
      Running(s) && s.cur !in s.busy && !HasZombie(s.procs, s.cur) && HasChild(s.procs, s.cur) && !s.procs[s.cur].killed
    case SleepOn(id) => Running(s)
    case WakeOn(id) => true
    case Kill(t) => 0 <= t < |s.procs|
    case Yield => Running(s)
    case Dispatch(i) => s.cur == NONE && 0 <= i < |s.procs| && s.procs[i].state.RUNNABLE?
  }

  function Do(s: Sys, e: Step): Sys
    requires Enabled(s, e)
  {
    var ps, p := s.procs, s.cur;
    match e
    case Alloc(c) =>
      s.(procs := ps[c := ps[c].(state := EMBRYO, pid := s.nextpid)], nextpid := s.nextpid + 1,
         busy := s.busy[p := Making(c, false)])
    case Fail =>
      var c := s.busy[p].child;
      s.(procs := ps[c := ps[c].(state := UNUSED)], busy := s.busy - {p})
    case Adopt =>
      var c := s.busy[p].child;
      s.(procs := ps[c := ps[c].(parent := p)], busy := s.busy[p := Making(c, true)])
    case Ready =>
      var c := s.busy[p].child;
      s.(procs := ps[c := ps[c].(state := RUNNABLE)], busy := s.busy - {p})
    case Exit => s.(procs := Exited(ps, p, s.init), cur := NONE)
    case Reap(c) => s.(procs := ps[c := Cleared(ps[c])], reaped := s.reaped + [ps[c].pid])
    case NoKids => s
    case WaitSleep => s.(procs := ps[p := ps[p].(state := SLEEPING, chan := OfProc(p))], cur := NONE)
    case SleepOn(id) => s.(procs := ps[p := ps[p].(state := SLEEPING, chan := OfOther(id))], cur := NONE)
    case WakeOn(id) => s.(procs := Woken(ps, OfOther(id)))
    case Kill(t) =>
      s.(procs := ps[t := ps[t].(killed := true, state := if ps[t].state.SLEEPING? then RUNNABLE else ps[t].state)])
    case Yield => s.(procs := ps[p := ps[p].(state := RUNNABLE)], cur := NONE)
    case Dispatch(i) => s.(procs := ps[i := ps[i].(state := RUNNING, chan := NoChan)], cur := i)
  }

  // ---------- the invariant ----------

  ghost predicate Shape(s: Sys) {
    && |s.procs| == NPROC && 0 <= s.init < NPROC && (s.cur == NONE || 0 <= s.cur < NPROC)
    && (forall i :: 0 <= i < NPROC ==> (s.procs[i].state.RUNNING? <==> i == s.cur))
  }

  /** Who has a parent, and that it is neither UNUSED, EMBRYO nor ZOMBIE. */
  ghost predicate Family(s: Sys)
    requires |s.procs| == NPROC && 0 <= s.init < NPROC
  {
    && s.procs[s.init].Alive() && s.procs[s.init].parent == NONE
    && (forall i :: 0 <= i < NPROC && s.procs[i].parent != NONE ==>
          0 <= s.procs[i].parent < NPROC && s.procs[i].parent != i && s.procs[s.procs[i].parent].Alive())
    && (forall i :: 0 <= i < NPROC && s.procs[i].state.UNUSED? ==> s.procs[i].parent == NONE)
    && (forall i :: 0 <= i < NPROC && i != s.init && (s.procs[i].Alive() || s.procs[i].state.ZOMBIE?) ==>
          s.procs[i].parent != NONE)
  }

  ghost predicate Forks(s: Sys)
    requires |s.procs| == NPROC
  {
    && (forall p :: p in s.busy ==> 0 <= p < NPROC && s.procs[p].Alive() && MakingOk(s, p))
    && (forall p, q :: p in s.busy && q in s.busy && p != q ==> s.busy[p].child != s.busy[q].child)
  }

  ghost predicate MakingOk(s: Sys, p: int)
    requires |s.procs| == NPROC && p in s.busy
  {
    var m := s.busy[p];
    && 0 <= m.child < NPROC && m.child != s.init && s.procs[m.child].state.EMBRYO?
    && s.procs[m.child].parent == if m.linked then p else NONE
  }

  /** A process asleep in wait has a child and none of its children is a zombie. */
  ghost predicate Waiting(s: Sys) {
    forall i, j :: 0 <= i < |s.procs| && s.procs[i].WaitsOn(OfProc(j)) ==>
      j == i && HasChild(s.procs, i) && !HasZombie(s.procs, i)
  }

  ghost predicate Pids(s: Sys) {
    && (forall i :: 0 <= i < |s.procs| && !s.procs[i].state.UNUSED? ==> 0 < s.procs[i].pid < s.nextpid)
    && (forall i, j :: 0 <= i < |s.procs| && 0 <= j < |s.procs| && i != j ==>
          s.procs[i].state.UNUSED? || s.procs[j].state.UNUSED? || s.procs[i].pid != s.procs[j].pid)
  }

  /** No pid is returned by wait twice, and none that is still in the table has been. */
  ghost predicate Reaped(s: Sys) {
    && (forall k :: 0 <= k < |s.reaped| ==> s.reaped[k] < s.nextpid)
    && (forall k, m :: 0 <= k < |s.reaped| && 0 <= m < |s.reaped| && k != m ==> s.reaped[k] != s.reaped[m])
    && (forall i, k :: 0 <= i < |s.procs| && 0 <= k < |s.reaped| && !s.procs[i].state.UNUSED? ==>
          s.procs[i].pid != s.reaped[k])
  }

  ghost predicate Inv(s: Sys) {
    && 0 < s.nextpid <= MAXPID && Shape(s) && Family(s) && Forks(s) && Waiting(s) && Pids(s) && Reaped(s)
  }

  /** After userinit: one RUNNABLE process, the rest of the table empty. */
  predicate Boot(s: Sys) {
    && |s.procs| == NPROC && 0 <= s.init < NPROC && s.cur == NONE && s.nextpid == 2 && s.busy == map[] && s.reaped == []
    && s.procs[s.init] == Proc(RUNNABLE, 1, NONE, NoChan, false)
    && (forall i :: 0 <= i < NPROC && i != s.init ==> s.procs[i] == Proc(UNUSED, 0, NONE, NoChan, false))
  }

  lemma BootInv(s: Sys)
    requires Boot(s)
    ensures Inv(s)
  {
  }


  // ---------- every step but exit ----------

  predicate OfFork(e: Step) { e.Alloc? || e.Fail? || e.Adopt? || e.Ready? }

  lemma ShapeKept(s: Sys, e: Step)
    requires Shape(s) && Forks(s) && Enabled(s, e) && !e.Exit?
    ensures Shape(Do(s, e))
  {
    hide HasChild, HasZombie;
  }

  lemma FamilyInFork(s: Sys, e: Step)
    requires Shape(s) && Family(s) && Forks(s) && Enabled(s, e) && OfFork(e)
    ensures |Do(s, e).procs| == NPROC && Family(Do(s, e))
  {
    hide HasChild, HasZombie;
  }

  lemma FamilyKept(s: Sys, e: Step)
    requires Shape(s) && Family(s) && Enabled(s, e) && !e.Exit? && !OfFork(e) && !e.Reap?
    ensures |Do(s, e).procs| == NPROC && Family(Do(s, e))
  {
    hide HasChild, HasZombie, Family;
    SameFamily(s, Do(s, e));
  }

  lemma SameFamily(s: Sys, t: Sys)
    requires |s.procs| == |t.procs| == NPROC && t.init == s.init && 0 <= s.init < NPROC && Family(s)
    requires forall i :: 0 <= i < NPROC ==>
               t.procs[i].parent == s.procs[i].parent && SameKind(s.procs[i].state, t.procs[i].state)
    ensures Family(t)
  {
  }

  /** Alive processes stay alive; UNUSED, EMBRYO and ZOMBIE slots stay so. */
  predicate SameKind(a: ProcState, b: ProcState) {
    a == b || (!a.UNUSED? && !a.EMBRYO? && !a.ZOMBIE? && !b.UNUSED? && !b.EMBRYO? && !b.ZOMBIE?)
  }

  /** A reaped zombie was nobody's parent. */
  lemma FamilyAfterReap(s: Sys, e: Step)
    requires Shape(s) && Family(s) && Enabled(s, e) && e.Reap?
    ensures |Do(s, e).procs| == NPROC && Family(Do(s, e))
  {
    hide HasChild, HasZombie;
  }

  lemma ForksInFork(s: Sys, e: Step)
    requires Shape(s) && Family(s) && Forks(s) && Enabled(s, e) && OfFork(e)
    ensures |Do(s, e).procs| == NPROC && Forks(Do(s, e))
  {
    hide HasChild, HasZombie;
  }

  /** Nobody inside fork dies and no slot being filled is touched. */
  lemma ForksKept(s: Sys, e: Step)
    requires Shape(s) && Forks(s) && Enabled(s, e) && !e.Exit? && !OfFork(e)
    ensures |Do(s, e).procs| == NPROC && Forks(Do(s, e))
  {
    hide HasChild, HasZombie, Woken;
    var t := Do(s, e);
    assert t.busy == s.busy && t.init == s.init;
    forall p | p in s.busy
      ensures t.procs[p].Alive() && MakingOk(t, p)
    {
      assert MakingOk(s, p);
      if e.WakeOn? {
        WokenAt(s.procs, OfOther(e.id), p);
        WokenAt(s.procs, OfOther(e.id), s.busy[p].child);
      }
    }
  }

  lemma WokenAt(ps: seq<Proc>, c: Chan, i: int)
    requires 0 <= i < |ps|
    ensures Woken(ps, c)[i] == Waked(ps[i], c)
  {
  }

  lemma PidsKept(s: Sys, e: Step)
    requires Shape(s) && Forks(s) && Pids(s) && Reaped(s) && Enabled(s, e) && !e.Alloc? && !e.Reap? && !e.Exit?
    ensures Pids(Do(s, e)) && Reaped(Do(s, e))
  {
    hide HasChild, HasZombie, Pids, Reaped;
    SamePids(s, Do(s, e));
  }

  /** Slots in use were in use before, with the same pid. */
  lemma SamePids(s: Sys, t: Sys)
    requires Pids(s) && Reaped(s) && t.nextpid == s.nextpid && t.reaped == s.reaped && |t.procs| == |s.procs|
    requires forall i :: 0 <= i < |s.procs| ==>
               t.procs[i].state.UNUSED? || (!s.procs[i].state.UNUSED? && t.procs[i].pid == s.procs[i].pid)
    ensures Pids(t) && Reaped(t)
  {
  }

  /** allocproc takes a fresh number; wait retires the one it returns. */
  lemma PidsChanged(s: Sys, e: Step)
    requires 0 < s.nextpid && Shape(s) && Pids(s) && Reaped(s) && Enabled(s, e) && (e.Alloc? || e.Reap?)
    ensures Pids(Do(s, e)) && Reaped(Do(s, e))
  {
    hide HasChild, HasZombie;
  }

  /** A step that takes no child from a sleeper in wait, makes no zombie and puts nobody to sleep in wait. */
  ghost predicate Calm(s: Sys, t: Sys) {
    && |t.procs| == |s.procs|
    && (forall i, j :: 0 <= i < |s.procs| && t.procs[i].WaitsOn(OfProc(j)) ==> s.procs[i].WaitsOn(OfProc(j)))
    && (forall c, i :: 0 <= c < |s.procs| && 0 <= i < |s.procs| && t.procs[i].WaitsOn(OfProc(i)) && s.procs[c].parent == i ==>
          t.procs[c].parent == i)
    && (forall c, i :: ZombieOf(t.procs, c, i) ==> ZombieOf(s.procs, c, i))
  }

  lemma CalmKeeps(s: Sys, t: Sys)
    requires Waiting(s) && Calm(s, t)
    ensures Waiting(t)
  {
    forall i, j | 0 <= i < |t.procs| && t.procs[i].WaitsOn(OfProc(j))
      ensures j == i && HasChild(t.procs, i) && !HasZombie(t.procs, i)
    {
      assert s.procs[i].WaitsOn(OfProc(j));
      var c :| 0 <= c < |s.procs| && s.procs[c].parent == i;
      assert t.procs[c].parent == i;
      forall z | 0 <= z < |t.procs|
        ensures !ZombieOf(t.procs, z, i)
      {
        assert !ZombieOf(s.procs, z, i);
      }
    }
  }

  lemma StepsAreCalm(s: Sys, e: Step)
    requires Shape(s) && Forks(s) && Enabled(s, e) && !e.Exit? && !e.WaitSleep?
    ensures Calm(s, Do(s, e))
  {
    hide HasChild, HasZombie;
  }

  lemma WaitSleepKeeps(s: Sys)
    requires Shape(s) && Waiting(s) && Enabled(s, WaitSleep)
    ensures Waiting(Do(s, WaitSleep))
  {
    hide HasChild, HasZombie;
    SameChildren(s.procs, Do(s, WaitSleep).procs);
  }

  /** Parents and zombies decide who has children. */
  lemma SameChildren(ps: seq<Proc>, qs: seq<Proc>)
    requires |qs| == |ps|
    requires forall i :: 0 <= i < |ps| ==> qs[i].parent == ps[i].parent && (qs[i].state.ZOMBIE? <==> ps[i].state.ZOMBIE?)
    ensures forall p :: (HasChild(qs, p) <==> HasChild(ps, p)) && (HasZombie(qs, p) <==> HasZombie(ps, p))
  {
    forall p
      ensures (HasChild(qs, p) <==> HasChild(ps, p)) && (HasZombie(qs, p) <==> HasZombie(ps, p))
    {
      assert forall i :: ZombieOf(qs, i, p) <==> ZombieOf(ps, i, p);
    }
  }

  // ---------- exit ----------

  /** What exit does to slot `i`: whoever waits for the exiting process, or for its zombies, becomes RUNNABLE, and
      its children are init's. */
  lemma ExitedAt(ps: seq<Proc>, p: int, init: int, i: int)
    requires 0 <= p < |ps| && 0 <= i < |ps|
    ensures var q, was := Exited(ps, p, init)[i], ps[i];
            && q.pid == was.pid && q.chan == was.chan && q.killed == was.killed
            && q.parent == (if was.parent == p then init else was.parent)
            && q.state ==
                 if i == p then ZOMBIE
                 else if was.WaitsOn(OfProc(ps[p].parent)) || (HasZombie(ps, p) && was.WaitsOn(OfProc(init))) then RUNNABLE
                 else was.state
  {
    hide HasZombie;
    WokenZombies(ps, OfProc(ps[p].parent), p);
  }

  lemma WokenZombies(ps: seq<Proc>, c: Chan, p: int)
    ensures HasZombie(Woken(ps, c), p) <==> HasZombie(ps, p)
  {
    SameChildren(ps, Woken(ps, c));
  }

  /** The same for all slots, in the terms the invariant needs. */
  ghost predicate ExitEffect(s: Sys, ps: seq<Proc>)
    requires 0 <= s.cur < |s.procs|
  {
    && |ps| == |s.procs|
    && (forall i :: 0 <= i < |ps| ==> ps[i].pid == s.procs[i].pid && ps[i].chan == s.procs[i].chan)
    && (forall i :: 0 <= i < |ps| ==> ps[i].parent == if s.procs[i].parent == s.cur then s.init else s.procs[i].parent)
    && ps[s.cur].state.ZOMBIE?
    && (forall i :: 0 <= i < |ps| && i != s.cur ==>
          ps[i].state == s.procs[i].state || (s.procs[i].state.SLEEPING? && ps[i].state.RUNNABLE?))
  }

  lemma ExitHasEffect(s: Sys)
    requires 0 <= s.cur < |s.procs|
    ensures ExitEffect(s, Exited(s.procs, s.cur, s.init))
  {
    hide HasZombie, Exited;
    forall i | 0 <= i < |s.procs|
      ensures var q, was := Exited(s.procs, s.cur, s.init)[i], s.procs[i];
              && q.pid == was.pid && q.chan == was.chan
              && q.parent == (if was.parent == s.cur then s.init else was.parent)
              && if i == s.cur then q.state.ZOMBIE?
                 else q.state == was.state || (was.state.SLEEPING? && q.state.RUNNABLE?)
    {
      ExitedAt(s.procs, s.cur, s.init, i);
    }
  }

  lemma ExitShape(s: Sys)
    requires Shape(s) && Enabled(s, Exit)
    ensures Shape(Do(s, Exit))
  {
    hide HasZombie, Exited;
    ExitHasEffect(s);
  }

  lemma ExitFamily(s: Sys)
    requires Shape(s) && Family(s) && Enabled(s, Exit)
    ensures |Do(s, Exit).procs| == NPROC && Family(Do(s, Exit))
  {
    hide HasZombie, HasChild, Exited, Family;
    ExitHasEffect(s);
    EffectFamily(s, Exited(s.procs, s.cur, s.init));
  }

  lemma EffectFamily(s: Sys, ps: seq<Proc>)
    requires Shape(s) && Family(s) && Running(s) && s.cur != s.init && ExitEffect(s, ps)
    ensures Family(s.(procs := ps, cur := NONE))
  {
    hide ExitEffect, Proc.Alive;
    EffectAt(s, ps, s.cur);
    EffectAt(s, ps, s.init);
    forall i | 0 <= i < NPROC
      ensures ps[i].parent != NONE ==> 0 <= ps[i].parent < NPROC && ps[i].parent != i && ps[ps[i].parent].Alive()
      ensures ps[i].state.UNUSED? ==> ps[i].parent == NONE
      ensures i != s.init && (ps[i].Alive() || ps[i].state.ZOMBIE?) ==> ps[i].parent != NONE
    {
      EffectAt(s, ps, i);
      if ps[i].parent != NONE && s.procs[i].parent != s.cur {
        EffectAt(s, ps, s.procs[i].parent);
      }
    }
  }

  /** What an exit does to one slot, as far as the family is concerned. */
  lemma EffectAt(s: Sys, ps: seq<Proc>, i: int)
    requires Shape(s) && Running(s) && ExitEffect(s, ps) && 0 <= i < NPROC
    ensures |ps| == NPROC && s.procs[s.cur].Alive() && ps[s.cur].state.ZOMBIE?
    ensures ps[i].parent == if s.procs[i].parent == s.cur then s.init else s.procs[i].parent
    ensures i != s.cur ==>
      && (ps[i].Alive() <==> s.procs[i].Alive()) && (ps[i].state.UNUSED? <==> s.procs[i].state.UNUSED?)
      && (ps[i].state.ZOMBIE? <==> s.procs[i].state.ZOMBIE?)
  {
  }

  lemma NotOwnParent(s: Sys)
    requires Shape(s) && Family(s) && 0 <= s.cur < NPROC
    ensures s.procs[s.cur].parent != s.cur
  {
  }

  lemma ExitForks(s: Sys)
    requires Shape(s) && Forks(s) && Enabled(s, Exit)
    ensures |Do(s, Exit).procs| == NPROC && Forks(Do(s, Exit))
  {
    hide HasZombie, Exited;
    ExitHasEffect(s);
    var t := Do(s, Exit);
    forall p | p in s.busy
      ensures t.procs[p].Alive() && MakingOk(t, p)
    {
      assert MakingOk(s, p);
    }
  }

  lemma ExitPids(s: Sys)
    requires Shape(s) && Pids(s) && Reaped(s) && Enabled(s, Exit)
    ensures Pids(Do(s, Exit)) && Reaped(Do(s, Exit))
  {
    hide HasZombie, Exited, Pids, Reaped;
    ExitHasEffect(s);
    SamePids(s, Do(s, Exit));
  }

  /** Whoever still sleeps in wait after an exit is not the parent of the new zombie, nor init with a zombie passed
      to it. */
  lemma ExitWaiting(s: Sys)
    requires 0 <= s.cur < |s.procs| && s.procs[s.cur].parent != s.cur && Waiting(s) && Enabled(s, Exit)
    ensures Waiting(Do(s, Exit))
  {
    hide HasChild, HasZombie, Exited, ZombieOf;
    var ps, qs, p := s.procs, Do(s, Exit).procs, s.cur;
    forall i, j | 0 <= i < |qs| && qs[i].WaitsOn(OfProc(j))
      ensures j == i && HasChild(qs, i) && !HasZombie(qs, i)
    {
      SleepsThrough(s, i, j);
      StillHasChild(s, i);
      StillNoZombie(s, i);
    }
  }

  lemma SleepsThrough(s: Sys, i: int, j: int)
    requires 0 <= s.cur < |s.procs| && 0 <= i < |s.procs|
    requires Exited(s.procs, s.cur, s.init)[i].WaitsOn(OfProc(j))
    ensures i != s.cur && s.procs[i].WaitsOn(OfProc(j)) && j != s.procs[s.cur].parent
    ensures j == s.init ==> !HasZombie(s.procs, s.cur)
  {
    hide HasZombie, Exited;
    ExitedAt(s.procs, s.cur, s.init, i);
  }

  lemma StillHasChild(s: Sys, i: int)
    requires 0 <= s.cur < |s.procs| && HasChild(s.procs, i) && i != s.cur
    ensures HasChild(Exited(s.procs, s.cur, s.init), i)
  {
    hide Exited;
    ExitHasEffect(s);
    var c :| 0 <= c < |s.procs| && s.procs[c].parent == i;
    assert Exited(s.procs, s.cur, s.init)[c].parent == i;
  }

  lemma StillNoZombie(s: Sys, i: int)
    requires 0 <= s.cur < |s.procs| && !HasZombie(s.procs, i) && i != s.cur && s.procs[s.cur].parent != i
    requires i == s.init ==> !HasZombie(s.procs, s.cur)
    requires s.procs[s.cur].parent != s.cur
    ensures !HasZombie(Exited(s.procs, s.cur, s.init), i)
  {
    hide Exited;
    ExitHasEffect(s);
    var qs := Exited(s.procs, s.cur, s.init);
    forall c | 0 <= c < |qs|
      ensures !ZombieOf(qs, c, i)
    {
      assert !ZombieOf(s.procs, c, i);
      assert i == s.init ==> !ZombieOf(s.procs, c, s.cur);
    }
  }

  // ---------- all runs ----------

  /** Every step keeps the invariant. */
  lemma StepKeeps(s: Sys, e: Step)
    requires Inv(s) && Enabled(s, e)
    ensures Inv(Do(s, e))
  {
    hide HasChild, HasZombie, Family, Forks, Waiting, Pids, Reaped;
    if e.Exit? {
      ExitShape(s);
      ExitFamily(s);
      NotOwnParent(s);
      ExitForks(s);
      ExitPids(s);
      ExitWaiting(s);
    } else {
      ShapeKept(s, e);
      if OfFork(e) {
        FamilyInFork(s, e);
        ForksInFork(s, e);
      } else {
        if e.Reap? { FamilyAfterReap(s, e); } else { FamilyKept(s, e); }
        ForksKept(s, e);
      }
      if e.Alloc? || e.Reap? {
        PidsChanged(s, e);
      } else {
        PidsKept(s, e);
      }
      if e.WaitSleep? {
        WaitSleepKeeps(s);
      } else {
        StepsAreCalm(s, e);
        CalmKeeps(s, Do(s, e));
      }
    }
  }

  ghost predicate Run(run: seq<Sys>, es: seq<Step>) {
    && |run| == |es| + 1 && Boot(run[0])
    && forall k :: 0 <= k < |es| ==> Enabled(run[k], es[k]) && run[k + 1] == Do(run[k], es[k])
  }

  /** In every state of every run: whoever sleeps in wait has a child and no zombie child; every process but init has
      a parent that is alive; pids in use differ; wait has returned no pid twice. */
  lemma {:induction false} RunsSafe(run: seq<Sys>, es: seq<Step>, k: nat)
    requires Run(run, es) && k < |run|
    ensures Inv(run[k])
  {
    hide Inv, Boot, Do, Enabled;
    if k == 0 {
      BootInv(run[0]);
    } else {
      RunsSafe(run, es, k - 1);
      assert Enabled(run[k - 1], es[k - 1]);
      StepKeeps(run[k - 1], es[k - 1]);
    }
  }

  /** What wakes slot `i`: a wakeup on its channel, a kill of it, or an exit that wakes whoever waits for the exiting
      process or for the zombies it leaves. */
  predicate Rouses(s: Sys, e: Step, i: int)
    requires 0 <= i < |s.procs|
  {
    match e
    case WakeOn(id) => s.procs[i].chan == OfOther(id)
    case Kill(t) => t == i
    case Exit =>
      && 0 <= s.cur < |s.procs| && s.procs[i].chan.OfProc?
      && (s.procs[i].chan.slot == s.procs[s.cur].parent || (s.procs[i].chan.slot == s.init && HasZombie(s.procs, s.cur)))
    case _ => false
  }

  /** A sleeper sleeps on until a step that rouses it, and such a step makes it runnable at once, with nothing else of
      it changed but the mark of a kill and a parent that exited. */
  lemma SleeperStep(s: Sys, e: Step, i: int)
    requires Shape(s) && Forks(s) && Enabled(s, e) && 0 <= i < NPROC && s.procs[i].state == SLEEPING
    ensures |Do(s, e).procs| == NPROC
    ensures Do(s, e).procs[i].state == if Rouses(s, e, i) then RUNNABLE else SLEEPING
    ensures Do(s, e).procs[i].chan == s.procs[i].chan && Do(s, e).procs[i].pid == s.procs[i].pid
    ensures Do(s, e).procs[i].killed == (s.procs[i].killed || e == Kill(i))
    ensures Do(s, e).procs[i].parent == if e.Exit? && s.procs[i].parent == s.cur then s.init else s.procs[i].parent
  {
    hide HasChild, HasZombie, Exited, Woken;
    if e.Exit? {
      ExitedAt(s.procs, s.cur, s.init, i);
    } else if e.WakeOn? {
      WokenAt(s.procs, OfOther(e.id), i);
    }
  }

  /** wakeup on a channel: every process asleep on it is runnable afterwards, the same in all else, and no other slot
      changes; so nobody sleeps on the channel afterwards. */
  lemma WakesExactly(s: Sys, id: nat)
    ensures var t := Do(s, WakeOn(id));
            && t == s.(procs := t.procs) && |t.procs| == |s.procs|
            && (forall i :: 0 <= i < |s.procs| && s.procs[i].state == SLEEPING && s.procs[i].chan == OfOther(id) ==>
                  t.procs[i] == Proc(RUNNABLE, s.procs[i].pid, s.procs[i].parent, s.procs[i].chan, s.procs[i].killed))
            && (forall i :: 0 <= i < |s.procs| && !(s.procs[i].state == SLEEPING && s.procs[i].chan == OfOther(id)) ==>
                  t.procs[i] == s.procs[i])
            && (forall i :: 0 <= i < |t.procs| ==> !(t.procs[i].state == SLEEPING && t.procs[i].chan == OfOther(id)))
  {
  }

  /** No wakeup is lost: in every run a process asleep on a channel when a wakeup on it comes, or at any time before,
      has become runnable by the end of that wakeup, and slept on the channel without a break until then. */
  lemma {:induction false} NoWakeupLost(run: seq<Sys>, es: seq<Step>, k: nat, m: nat, i: int, id: nat) returns (j: nat)
    requires Run(run, es) && k <= m < |es| && es[m] == WakeOn(id) && 0 <= i < NPROC && |run[k].procs| == NPROC
    requires run[k].procs[i].state == SLEEPING && run[k].procs[i].chan == OfOther(id)
    ensures k < j <= m + 1
    ensures |run[j].procs| == NPROC && run[j].procs[i].state == RUNNABLE
    ensures run[j].procs[i].pid == run[k].procs[i].pid
    ensures forall h :: k <= h < j ==>
              |run[h].procs| == NPROC && run[h].procs[i].state == SLEEPING && run[h].procs[i].chan == OfOther(id)
    decreases m - k
  {
    hide Family, Forks, Waiting, Pids, Reaped, Boot, Do, Enabled, HasZombie;
    RunsSafe(run, es, k);
    assert Enabled(run[k], es[k]) && run[k + 1] == Do(run[k], es[k]);
    SleeperStep(run[k], es[k], i);
    if Rouses(run[k], es[k], i) {
      j := k + 1;
    } else {
      assert k < m;
      j := NoWakeupLost(run, es, k + 1, m, i, id);
    }
  }

  /** No stranded zombie: its parent is alive and not asleep in wait, so the parent's next wait can reap it. */
  lemma ZombieIsReapable(run: seq<Sys>, es: seq<Step>, k: nat, z: int)
    requires Run(run, es) && k < |run| && 0 <= z < |run[k].procs| && run[k].procs[z].state.ZOMBIE?
    ensures var ps := run[k].procs;
            var q := ps[z].parent;
            0 <= q < |ps| && ps[q].Alive() && !ps[q].WaitsOn(OfProc(q))
  {
    hide Run, Inv, Proc.WaitsOn, Proc.Alive;
    RunsSafe(run, es, k);
    ZombieParent(run[k], z);
  }

  lemma ZombieParent(s: Sys, z: int)
    requires Inv(s) && 0 <= z < |s.procs| && s.procs[z].state.ZOMBIE?
    ensures var q := s.procs[z].parent;
            0 <= q < |s.procs| && s.procs[q].Alive() && !s.procs[q].WaitsOn(OfProc(q))
  {
    hide Forks, Pids, Reaped, HasChild;
    assert ZombieOf(s.procs, z, s.procs[z].parent);
  }
}
