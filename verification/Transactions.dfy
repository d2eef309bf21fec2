/** Transactions one after the other: the disks between them, and what a crash in the middle leaves. */
module Transactions {
  import opened Words
  import opened FsLayout
  import A = Acts
  import B = Bio
  import L = LogSpec

  /** The log's place on the disk, as initlog reads it from the superblock. */
  function LogAt(sb: Super, d: Disk): L.Geometry
    requires Fits(sb, d)
  {
    L.Geometry(sb.LogStart(), sb.nlog, |d|)
  }

  /** At every moment at most `n` buffers are in use. */
  ghost predicate Lean(acts: seq<A.Act>, n: nat) {
    forall k :: 0 <= k < |acts| ==> A.Peak(acts, k) <= n
  }

  /** A transaction that log_write accepts and the buffers suffice for, from disk `d` to disk `e`. */
  ghost predicate Txn(sb: Super, d: Disk, acts: seq<A.Act>, e: Disk) {
    && Fits(sb, d) && L.Accepted(LogAt(sb, d), A.Writes(acts)) && e == L.Replay(d, A.Writes(acts))
    && A.Orderly(acts) && A.Held(acts) == {} && A.AllBelow(acts, sb.LogStart())
    && Lean(acts, B.NBUF) && |L.LoggedSectors(A.Writes(acts))| < B.NBUF
  }

  /** The disks `hist` between the transactions `txs`. */
  ghost predicate History(sb: Super, hist: seq<Disk>, txs: seq<seq<A.Act>>) {
    |hist| == |txs| + 1 && forall k :: 0 <= k < |txs| ==> Txn(sb, hist[k], txs[k], hist[k + 1])
  }

  /** A finished list of acts in which log_write never panicked is a transaction, if the buffers suffice. */
  lemma TxnOf(sb: Super, d: Disk, acts: seq<A.Act>)
    requires Fits(sb, d) && A.Orderly(acts) && A.Held(acts) == {} && A.AllBelow(acts, sb.LogStart())
    requires L.FirstPanic(A.Writes(acts), sb.nlog, true).Fine? && sb.nlog == L.LOGSIZE && Lean(acts, B.NBUF)
    ensures L.HomeWrites(LogAt(sb, d), A.Writes(acts)) && Txn(sb, d, acts, L.Replay(d, A.Writes(acts)))
  {
    hide A.Orderly, A.Held, A.Writes, Lean, L.LoggedSectors, L.FirstPanic;
    A.WrittenHome(acts, sb.LogStart());
    L.FineIsAccepted(LogAt(sb, d), A.Writes(acts));
    L.FineCount(A.Writes(acts), sb.nlog);
  }

  /** A transaction that keeps only what it logs: nine sectors and ten buffers at most. */
  lemma LeanIfLogged(acts: seq<A.Act>)
    requires A.Kept(acts) <= A.Logged(acts) && L.FirstPanic(A.Writes(acts), L.LOGSIZE, true).Fine?
    ensures Lean(acts, B.NBUF)
  {
    hide A.Kept, A.Logged, A.Writes, A.Peak, L.LoggedSectors, L.FirstPanic;
    L.FineCount(A.Writes(acts), L.LOGSIZE);
    A.LoggedAre(acts);
    L.LoggedDistinct(A.Writes(acts));
    forall k | 0 <= k < |acts|
      ensures A.Peak(acts, k) <= B.NBUF
    {
      A.LoggedPlusOne(acts, k);
    }
  }

  lemma HistoryAt(sb: Super, hist: seq<Disk>, txs: seq<seq<A.Act>>, k: nat)
    requires History(sb, hist, txs) && k < |txs|
    ensures |hist| == |txs| + 1 && Txn(sb, hist[k], txs[k], hist[k + 1]) && Fits(sb, hist[k])
  {
    hide L.Replay, A.Writes, A.Orderly, A.Held, A.AllBelow, Lean, L.LoggedSectors;
  }

  lemma HistoryStart(sb: Super, d: Disk)
    ensures History(sb, [d], [])
  {
  }

  lemma HistoryMore(sb: Super, hist: seq<Disk>, txs: seq<seq<A.Act>>, acts: seq<A.Act>, e: Disk)
    requires History(sb, hist, txs) && Txn(sb, hist[|txs|], acts, e)
    ensures History(sb, hist + [e], txs + [acts])
  {
    hide Txn;
  }

  lemma OneStep(sb: Super, g: L.Geometry, h: Disk, acts: seq<A.Act>, h': Disk, d: Disk, ev: L.Event, d': Disk)
    requires Txn(sb, h, acts, h') && Fits(sb, h) && g == LogAt(sb, h)
    requires L.Step(g, d, ev, d') && ev.ws == A.Writes(acts) && L.SameHome(g, d, h)
    ensures |h'| == |h| && L.SameHome(g, d', if ev.Durable() then h' else h)
  {
    hide L.Recovered, L.Committed, L.CrashImages, L.Reboots;
    L.StepMeans(g, d, ev, d');
    L.ReplayRespectsHome(g, d, h, A.Writes(acts));
  }

  /** The disks of a run of transactions follow the ones of the history. */
  lemma {:induction false} RunFollows(sb: Super, hist: seq<Disk>, txs: seq<seq<A.Act>>, disks: seq<Disk>, evs: seq<L.Event>)
    requires History(sb, hist, txs) && Fits(sb, hist[0])
    requires L.Run(LogAt(sb, hist[0]), disks, evs) && L.SameHome(LogAt(sb, hist[0]), disks[0], hist[0])
    requires |evs| <= |txs| && forall j :: 0 <= j < |evs| ==> evs[j].ws == A.Writes(txs[j]) && evs[j].Durable()
    ensures |hist[|evs|]| == |hist[0]| && L.SameHome(LogAt(sb, hist[0]), disks[|evs|], hist[|evs|])
    decreases |evs|
  {
    hide History, L.Replay, L.SameHome, L.Step, L.Quiet, Txn, Fits;
    if evs != [] {
      var n := |evs| - 1;
      HistoryAt(sb, hist, txs, n);
      RunFollows(sb, hist, txs, disks[..|evs|], evs[..n]);
      OneStep(sb, LogAt(sb, hist[0]), hist[n], txs[n], hist[n + 1], disks[n], evs[n], disks[n + 1]);
    }
  }

  /** Power fails anywhere in one of the transactions, and again in any number of recoveries: the disk that comes up has the
      home sectors of the history before that transaction or after it. */
  lemma CrashLands(sb: Super, hist: seq<Disk>, txs: seq<seq<A.Act>>, disks: seq<Disk>, evs: seq<L.Event>)
    requires History(sb, hist, txs) && Fits(sb, hist[0])
    requires L.Run(LogAt(sb, hist[0]), disks, evs) && L.SameHome(LogAt(sb, hist[0]), disks[0], hist[0])
    requires 0 < |evs| <= |txs| && forall j :: 0 <= j < |evs| ==> evs[j].ws == A.Writes(txs[j])
    requires forall j :: 0 <= j < |evs| - 1 ==> evs[j].Durable()
    ensures var k := if evs[|evs| - 1].Durable() then |evs| else |evs| - 1;
            |hist[k]| == |hist[0]| && L.SameHome(LogAt(sb, hist[0]), disks[|evs|], hist[k])
  {
    hide History, Txn, Fits, L.Replay, L.Quiet, L.SameHome, L.Step;
    var n := |evs| - 1;
    HistoryAt(sb, hist, txs, n);
    RunFollows(sb, hist, txs, disks[..|evs|], evs[..n]);
    OneStep(sb, LogAt(sb, hist[0]), hist[n], txs[n], hist[n + 1], disks[n], evs[n], disks[n + 1]);
  }
}
