/** A pipe (pipe.c) as a queue with sleepers: one step per lock-held region, over all interleavings. */
module PipeSpec {
  import opened Words

  const PIPESIZE := 512

  /** All bytes ever written and read, the open ends, and who sleeps on which channel. */
  datatype Core = Core(sent: seq<Byte>, got: seq<Byte>, readopen: bool, writeopen: bool,
                       readers: set<int>, writers: set<int>)
  {
    predicate Fifo() { got <= sent && |sent| - |got| <= PIPESIZE }

    function Room(): int { PIPESIZE - (|sent| - |got|) }

    /** A reader sleeps only on an empty pipe with the write end open, a writer only on a full one with the read end
        open. */
    predicate Justified() {
      && (forall p :: p in readers ==> |sent| == |got| && writeopen)
      && (forall p :: p in writers ==> |sent| - |got| == PIPESIZE && readopen)
    }
  }

  datatype Wrote = All | Broken | Blocked
  datatype Read = Bytes(data: seq<Byte>) | Interrupted | Dry

  /** pipewrite with `rest` still to store, up to returning or sleeping: the new state, how much was stored, and how
      it ended. */
  function Write(c: Core, p: int, rest: seq<Byte>): (Core, nat, Wrote)
    requires c.Fifo()
  {
    if |rest| <= c.Room() then (c.(sent := c.sent + rest, readers := {}), |rest|, All)
    else
      var k := c.Room();
      var full := c.(sent := c.sent + rest[..k]);
      if !c.readopen then (full, k, Broken)
      else (full.(readers := {}, writers := c.writers + {p}), k, Blocked)
  }

  /** piperead for up to `n` bytes, up to returning or sleeping. */
  function ReadUp(c: Core, p: int, n: int, killed: bool): (Core, Read)
    requires c.Fifo()
  {
    if |c.sent| == |c.got| && c.writeopen then
      if killed then (c, Interrupted) else (c.(readers := c.readers + {p}), Dry)
    else
      var data := c.sent[|c.got|..|c.got| + Avail(c, n)];
      (c.(got := c.got + data, writers := {}), Bytes(data))
  }

  /** How many bytes a read of `n` gets: no more than asked for, and fewer only if there are no more. */
  function Avail(c: Core, n: int): (k: nat)
    requires c.Fifo()
    ensures k <= |c.sent| - |c.got|
    ensures (k == 0 || k <= n) && (k < n ==> k == |c.sent| - |c.got|)
  {
    if n < 0 then 0 else if n < |c.sent| - |c.got| then n else |c.sent| - |c.got|
  }

  function Close(c: Core, writable: bool): Core {
    if writable then c.(writeopen := false, readers := {}) else c.(readopen := false, writers := {})
  }

  /** pipewrite that finds the read end closed leaves without a wakeup, which is sound only because a sleeping reader
      would have kept that end open. */
  lemma WriteKeeps(c: Core, p: int, rest: seq<Byte>)
    requires c.Fifo() && c.Justified() && (forall r :: r in c.readers ==> c.readopen)
    ensures var (d, k, how) := Write(c, p, rest);
            && d.Fifo() && d.Justified()
            && k <= |rest| && d.sent == c.sent + rest[..k] && d.got == c.got
            && (how.All? ==> k == |rest|)
  {
    assert rest[..|rest|] == rest;
  }

  lemma ReadKeeps(c: Core, p: int, n: int, killed: bool)
    requires c.Fifo() && c.Justified()
    ensures var (d, r) := ReadUp(c, p, n, killed);
            && d.Fifo() && d.Justified() && d.sent == c.sent
            && d.got == c.got + (if r.Bytes? then r.data else [])
  {
  }

  /** How a write region ends: it stores all it has exactly if there is room, wakes the readers and is done; otherwise
      it fills the pipe, and sleeps as a writer or, with the read end closed, fails. */
  lemma WriteExact(c: Core, p: int, rest: seq<Byte>)
    requires c.Fifo()
    ensures var (d, k, how) := Write(c, p, rest);
            && k <= |rest| && d.sent == c.sent + rest[..k] && d.got == c.got
            && d.readopen == c.readopen && d.writeopen == c.writeopen
            && (how.All? <==> |c.sent| + |rest| <= |c.got| + PIPESIZE)
            && (how.All? ==> k == |rest| && d.readers == {} && d.writers == c.writers)
            && (!how.All? ==> k < |rest| && |d.sent| == |d.got| + PIPESIZE)
            && (how.Blocked? ==> c.readopen && d.readers == {} && d.writers == c.writers + {p})
            && (how.Broken? ==> !c.readopen && d.readers == c.readers && d.writers == c.writers)
  {
    assert rest[..|rest|] == rest;
  }

  /** How a read region ends: on an empty pipe with the write end open it sleeps, or fails if killed; otherwise it
      returns the next bytes, at most `n` and fewer only if that empties the pipe, and wakes the writers. So a positive
      read of a pipe with bytes in it is never empty. */
  lemma ReadExact(c: Core, p: int, n: int, killed: bool)
    requires c.Fifo()
    ensures var (d, r) := ReadUp(c, p, n, killed);
            && (r.Bytes? <==> |c.got| < |c.sent| || !c.writeopen)
            && (r.Interrupted? ==> killed && d == c)
            && (r.Dry? ==> !killed && d == c.(readers := c.readers + {p}))
            && (r.Bytes? ==>
                  && d == c.(got := c.got + r.data, writers := {}) && d.got <= d.sent
                  && (r.data == [] || |r.data| <= n) && (|r.data| < n ==> d.got == d.sent)
                  && (0 < n && |c.got| < |c.sent| ==> 0 < |r.data|))
  {
    var k := Avail(c, n);
    assert c.sent == c.sent[..|c.got|] + c.sent[|c.got|..|c.got| + k] + c.sent[|c.got| + k..];
  }

  // ---------- all interleavings ----------

  datatype Op = Writing(rest: seq<Byte>) | Reading(n: int)

  /** The pipe with the system calls under way on it. */
  datatype Sys = Sys(core: Core, ops: map<int, Op>, freed: bool)

  datatype Step =
    | StartWrite(p: int, bytes: seq<Byte>)
    | StartRead(p: int, n: int)
    | RunWrite(p: int)
    | RunRead(p: int, killed: bool)
    | Rouse(p: int)          // kill makes a sleeper runnable
    | CloseEnd(writable: bool)

  /** A system call runs when it is not asleep; it keeps its own end open. */
  predicate Enabled(s: Sys, e: Step) {
    match e
    case StartWrite(p, bytes) => p !in s.ops && s.core.writeopen
    case StartRead(p, n) => p !in s.ops && s.core.readopen
    case RunWrite(p) => p in s.ops && s.ops[p].Writing? && p !in s.core.writers
    case RunRead(p, killed) => p in s.ops && s.ops[p].Reading? && p !in s.core.readers
    case Rouse(p) => true
    case CloseEnd(true) => s.core.writeopen && forall p :: p in s.ops ==> s.ops[p].Reading?
    case CloseEnd(false) => s.core.readopen && forall p :: p in s.ops ==> s.ops[p].Writing?
  }

  function Do(s: Sys, e: Step): Sys
    requires s.core.Fifo() && Enabled(s, e)
  {
    match e
    case StartWrite(p, bytes) => s.(ops := s.ops[p := Writing(bytes)])
    case StartRead(p, n) => s.(ops := s.ops[p := Reading(n)])
    case RunWrite(p) =>
      var rest := s.ops[p].rest;
      var (d, k, how) := Write(s.core, p, rest);
      Sys(d, if how.Blocked? then s.ops[p := Writing(rest[k..])] else s.ops - {p}, s.freed)
    case RunRead(p, killed) =>
      var (d, r) := ReadUp(s.core, p, s.ops[p].n, killed);
      Sys(d, if r.Dry? then s.ops else s.ops - {p}, s.freed)
    case Rouse(p) => s.(core := s.core.(readers := s.core.readers - {p}, writers := s.core.writers - {p}))
    case CloseEnd(w) =>
      var d := Close(s.core, w);
      s.(core := d, freed := !d.readopen && !d.writeopen)
  }

  ghost predicate Owners(s: Sys) {
    && (forall p :: p in s.core.readers ==> p in s.ops && s.ops[p].Reading?)
    && (forall p :: p in s.core.writers ==> p in s.ops && s.ops[p].Writing?)
    && (forall p :: p in s.ops ==> if s.ops[p].Writing? then s.core.writeopen else s.core.readopen)
    && (s.freed <==> !s.core.readopen && !s.core.writeopen)
  }

  ghost predicate Inv(s: Sys) { s.core.Fifo() && s.core.Justified() && Owners(s) }

  /** pipealloc. */
  predicate Boot(s: Sys) { s == Sys(Core([], [], true, true, {}, {}), map[], false) }

  lemma StepKeeps(s: Sys, e: Step)
    requires Inv(s) && Enabled(s, e)
    ensures Inv(Do(s, e))
  {
    match e
    case RunWrite(p) =>
      assert forall r :: r in s.core.readers ==> s.ops[r].Reading?;
      WriteKeeps(s.core, p, s.ops[p].rest);
    case RunRead(p, killed) => ReadKeeps(s.core, p, s.ops[p].n, killed);
    case _ =>
  }

  ghost predicate Run(run: seq<Sys>, es: seq<Step>) {
    && |run| == |es| + 1 && Boot(run[0])
    && forall k :: 0 <= k < |es| ==> run[k].core.Fifo() && Enabled(run[k], es[k]) && run[k + 1] == Do(run[k], es[k])
  }

  /** In every interleaving: what has been read is a prefix of what has been written, readers and writers are never
      both asleep, nobody sleeps without cause, and once the pipe is freed no call is left to touch it. */
  lemma {:induction false} RunsSafe(run: seq<Sys>, es: seq<Step>, k: nat)
    requires Run(run, es) && k < |run|
    ensures Inv(run[k])
    ensures run[k].core.got <= run[k].core.sent
    ensures forall p, q :: p in run[k].core.readers ==> q !in run[k].core.writers
    ensures run[k].freed ==> run[k].ops == map[]
  {
    hide Do, Enabled;
    if k > 0 {
      RunsSafe(run, es, k - 1);
      assert Enabled(run[k - 1], es[k - 1]);
      StepKeeps(run[k - 1], es[k - 1]);
    }
    if run[k].freed {
      assert forall p :: p !in run[k].ops;
    }
  }

  /** What a step hands to a reader. */
  function Given(s: Sys, e: Step): seq<Byte>
    requires s.core.Fifo() && Enabled(s, e)
  {
    if e.RunRead? && ReadUp(s.core, e.p, s.ops[e.p].n, e.killed).1.Bytes? then
      ReadUp(s.core, e.p, s.ops[e.p].n, e.killed).1.data
    else []
  }

  /** What a step stores for the writer `p`. */
  function StoredFor(s: Sys, e: Step, p: int): seq<Byte>
    requires s.core.Fifo() && Enabled(s, e)
  {
    if e == RunWrite(p) then s.ops[p].rest[..WriteCount(s, p)] else []
  }

  function WriteCount(s: Sys, p: int): (k: nat)
    requires s.core.Fifo() && Enabled(s, RunWrite(p))
    ensures k <= |s.ops[p].rest|
  {
    Write(s.core, p, s.ops[p].rest).1
  }

  ghost function AllGiven(run: seq<Sys>, es: seq<Step>, k: nat): seq<Byte>
    requires Run(run, es) && k < |run|
  {
    if k == 0 then [] else AllGiven(run, es, k - 1) + Given(run[k - 1], es[k - 1])
  }

  /** What the steps from `j` on, before the k-th state, have stored for `p`. */
  ghost function AllStored(run: seq<Sys>, es: seq<Step>, p: int, j: nat, k: nat): seq<Byte>
    requires Run(run, es) && j <= k < |run|
    decreases k
  {
    if k == j then [] else AllStored(run, es, p, j, k - 1) + StoredFor(run[k - 1], es[k - 1], p)
  }

  /** In every run the readers together have been given exactly the bytes taken from the pipe, in that order. */
  lemma {:induction false} ReadersGetAll(run: seq<Sys>, es: seq<Step>, k: nat)
    requires Run(run, es) && k < |run|
    ensures AllGiven(run, es, k) == run[k].core.got
  {
    hide Enabled, ReadUp, Write;
    if k > 0 {
      ReadersGetAll(run, es, k - 1);
      var s, e := run[k - 1], es[k - 1];
      assert Enabled(s, e);
      StepTakes(s, e);
    }
  }

  lemma StepTakes(s: Sys, e: Step)
    requires s.core.Fifo() && Enabled(s, e)
    ensures Do(s, e).core.got == s.core.got + Given(s, e)
  {
    hide ReadUp, Write;
    match e
    case RunRead(p, killed) => ReadExact(s.core, p, s.ops[p].n, killed);
    case RunWrite(p) => WriteExact(s.core, p, s.ops[p].rest);
    case _ =>
  }

  /** In every run a read that asks for bytes and finds some takes some of them, is done, and has either all it asked
      for or all there was. */
  lemma ReadAdvances(run: seq<Sys>, es: seq<Step>, k: nat, p: int)
    requires Run(run, es) && k < |es| && es[k].RunRead? && es[k].p == p && p in run[k].ops && run[k].ops[p].Reading?
    requires 0 < run[k].ops[p].n && |run[k].core.got| < |run[k].core.sent|
    ensures var n, before, after := run[k].ops[p].n, run[k].core, run[k + 1].core;
            && before.got < after.got <= after.sent == before.sent && |after.got| <= |before.got| + n
            && (|after.got| < |before.got| + n ==> after.got == after.sent)
    ensures p !in run[k + 1].ops && run[k + 1].core.writers == {}
  {
    hide ReadUp, Write;
    ReadExact(run[k].core, p, run[k].ops[p].n, es[k].killed);
  }

  /** In every run a write still under way has stored a beginning of its bytes, each once, and has the rest to go; when
      it is done, without the read end closed on it, it has stored them all. */
  lemma {:induction false} WriterStoresAll(run: seq<Sys>, es: seq<Step>, p: int, bytes: seq<Byte>, j: nat, k: nat)
    requires Run(run, es) && j < k < |run| && es[j] == StartWrite(p, bytes)
    requires forall h :: j < h < k ==> p in run[h].ops
    ensures p in run[k].ops ==>
              && run[k].ops[p].Writing? && AllStored(run, es, p, j, k) + run[k].ops[p].rest == bytes
    ensures p !in run[k].ops ==>
              && AllStored(run, es, p, j, k) <= bytes
              && (run[k].core.readopen ==> AllStored(run, es, p, j, k) == bytes)
    decreases k
  {
    hide Write, ReadUp, Do;
    var s, e := run[k - 1], es[k - 1];
    assert Enabled(s, e) && run[k] == Do(s, e);
    if k == j + 1 {
      StepStores(s, e, p);
      assert AllStored(run, es, p, j, j) == [];
    } else {
      WriterStoresAll(run, es, p, bytes, j, k - 1);
      StepStores(s, e, p);
    }
  }

  /** One step of a run as the writer `p` sees it. */
  lemma StepStores(s: Sys, e: Step, p: int)
    requires s.core.Fifo() && Enabled(s, e) && (p in s.ops ==> s.ops[p].Writing?)
    requires p !in s.ops ==> e.StartWrite? && e.p == p
    ensures p !in s.ops ==> Do(s, e).ops == s.ops[p := Writing(e.bytes)] && StoredFor(s, e, p) == []
    ensures p in s.ops && p in Do(s, e).ops ==>
              Do(s, e).ops[p].Writing? && StoredFor(s, e, p) + Do(s, e).ops[p].rest == s.ops[p].rest
    ensures p in s.ops && p !in Do(s, e).ops ==>
              && StoredFor(s, e, p) <= s.ops[p].rest
              && (Do(s, e).core.readopen ==> StoredFor(s, e, p) == s.ops[p].rest)
  {
    hide ReadUp, Write;
    match e
    case RunWrite(q) => WriteExact(s.core, q, s.ops[q].rest);
    case _ =>
  }
}
