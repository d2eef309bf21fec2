/** The layers put together: transactions carried out by the log over the buffer cache, act by act and disk write by disk
    write. */
module Storage {
  import opened Words
  import opened Sets
  import opened FsLayout
  import opened File
  import opened Transactions
  import A = Acts
  import B = Bio
  import L = LogSpec
  import S = Session
  import V = Volume
  import G = Log

  /** Every locked sector's buffer is known and holds the current block. */
  ghost predicate Locked(log: G.Log, at: map<int, nat>, held: set<int>)
    reads log, log.bc
  {
    log.Valid() && forall s :: s in held ==> s in at && log.Geo().IsHome(s) && log.Current(at[s], s)
  }

  /** A process's whole transaction, every bread, log_write and brelse of it, with no other process about. It waits for
      no buffer and nothing panics, the home sectors become the replayed writes, and the disk goes through exactly the
      transaction's crash images. */
  method Perform(log: G.Log, acts: seq<A.Act>)
    requires log.Valid() && !log.busy && log.bc.Held() == {}
    requires A.Orderly(acts) && A.Held(acts) == {} && Lean(acts, B.NBUF)
    requires forall k :: 0 <= k < |acts| ==> log.Geo().IsHome(acts[k].s)
    requires L.Accepted(log.Geo(), A.Writes(acts)) && |L.LoggedSectors(A.Writes(acts))| < B.NBUF
    modifies log, log.bc
    ensures log.Valid() && !log.busy && log.bc.Held() == {} && log.Geo() == old(log.Geo())
    ensures L.HomeWrites(log.Geo(), A.Writes(acts)) && log.base == log.bc.memdisk
    ensures L.SameHome(log.Geo(), log.base, L.Replay(old(log.base), A.Writes(acts)))
    ensures G.Written(log.Geo(), old(log.base), A.Writes(acts), log.bc.images, old(log.mark))
    ensures old(log.mark) == |old(log.bc.images)| && old(log.bc.images) <= log.bc.images
  {
    hide G.Log.Valid, B.Bcache.Valid, B.Bcache.Held, B.Bcache.Pinned, B.Bcache.View, A.Orderly, A.Held, A.Writes, Locked;
    hide L.Accepted, L.LoggedSectors, L.Replay, L.SameHome, G.Written, G.CommitsTo, Members, L.Quiet, Lean;
    ghost var ws := A.Writes(acts);
    LogFacts(log);
    var ok := log.BeginTrans();
    var at: map<int, nat>, i := map[], 0;
    NoneLocked(log, at);
    A.NoActs();
    assert acts[..0] == [];
    while i < |acts|
      invariant 0 <= i <= |acts|
      invariant log.Valid() && log.busy && log.Geo() == old(log.Geo()) && log.base == old(log.base)
      invariant log.bc.Held() == A.Held(acts[..i]) && Locked(log, at, A.Held(acts[..i]))
      invariant log.mark == old(log.mark) && log.ws == A.Writes(acts[..i])
      invariant old(log.bc.images) <= log.bc.images
    {
      at := Step(log, acts, i, at);
      i := i + 1;
    }
    assert acts[..i] == acts;
    LogFacts(log);
    MembersSize(L.LoggedSectors(ws));
    assert {} + log.bc.Pinned() == log.bc.Pinned();
    ok := log.CommitTrans();
    assert ok;
    CommitFacts(log.Geo(), old(log.base), ws, log.bc.memdisk);
  }

  /** One act of the transaction. */
  method Step(log: G.Log, acts: seq<A.Act>, i: nat, at: map<int, nat>) returns (at': map<int, nat>)
    requires log.Valid() && log.busy && i < |acts|
    requires log.bc.Held() == A.Held(acts[..i]) && Locked(log, at, A.Held(acts[..i])) && log.ws == A.Writes(acts[..i])
    requires A.Orderly(acts) && Lean(acts, B.NBUF) && log.Geo().IsHome(acts[i].s) && L.Accepted(log.Geo(), A.Writes(acts))
    modifies log, log.bc
    ensures log.Valid() && log.busy && log.Geo() == old(log.Geo()) && log.base == old(log.base)
    ensures log.bc.Held() == A.Held(acts[..i + 1]) && Locked(log, at', A.Held(acts[..i + 1]))
    ensures log.mark == old(log.mark) && log.ws == A.Writes(acts[..i + 1])
    ensures old(log.bc.images) <= log.bc.images
  {
    hide G.Log.Valid, B.Bcache.Valid, B.Bcache.Held, B.Bcache.Pinned, B.Bcache.View, A.Orderly, A.Held, A.Writes;
    hide L.Accepted, L.LoggedSectors, L.Replay, Members, Lean;
    A.ActAt(acts, i);
    RoomAt(log, acts, i);
    LogFacts(log);
    at' := at;
    match acts[i]
    case Get(s) =>
      var r := log.Lock(s);
      assert r.Got?;
      at' := at[s := r.b];
    case Log(s, data) =>
      ghost var ws, all := log.ws, A.Writes(acts);
      assert all[..|ws|] == ws;
      StillAccepted(log.Geo(), all, |ws|);
      StoreLocked(log, at, A.Held(acts[..i]), s, data);
    case Put(s) =>
      log.Unlock(at[s], s);
  }

  /** log_write of a locked buffer: the others are not disturbed. */
  method StoreLocked(log: G.Log, at: map<int, nat>, ghost held: set<int>, s: int, data: Block)
    requires Locked(log, at, held) && log.busy && s in held && log.bc.Held() == held
    requires log.n < L.LOGSIZE && log.n < log.size - 1 && |log.bc.Held() + log.bc.Pinned()| < B.NBUF
    modifies log, log.bc
    ensures Locked(log, at, held) && log.busy && log.Geo() == old(log.Geo()) && log.base == old(log.base)
    ensures log.mark == old(log.mark) && log.ws == old(log.ws) + [L.Write(s, data)] && log.bc.Held() == held
    ensures old(log.bc.images) <= log.bc.images
  {
    hide G.Log.Valid, B.Bcache.Valid, B.Bcache.Held, B.Bcache.Pinned, B.Bcache.View, L.Replay;
    LogFacts(log);
    ghost var ws := log.ws;
    var r := log.Store(at[s], data);
    assert r.Done?;
    forall t | t in held && t != s
      ensures log.Current(at[t], t)
    {
      L.ReplayOne(log.base, ws, L.Write(s, data), t);
    }
  }

  lemma NoneLocked(log: G.Log, at: map<int, nat>)
    requires log.Valid()
    ensures Locked(log, at, {})
  {
  }

  /** There is a buffer for the next act. */
  lemma RoomAt(log: G.Log, acts: seq<A.Act>, i: nat)
    requires log.Valid() && i < |acts| && Lean(acts, B.NBUF)
    requires log.bc.Held() == A.Held(acts[..i]) && log.ws == A.Writes(acts[..i])
    ensures acts[i].Get? ==> acts[i].s in log.bc.Held() + log.bc.Pinned() || |log.bc.Held() + log.bc.Pinned()| < B.NBUF
    ensures acts[i].Log? ==> |log.bc.Held() + log.bc.Pinned()| < B.NBUF
  {
    hide G.Log.Valid, B.Bcache.Held, B.Bcache.Pinned, A.Held, A.Writes, A.Logged, L.LoggedSectors, Members;
    LogFacts(log);
    A.LoggedAre(acts[..i]);
    assert A.Peak(acts, i) <= B.NBUF;
    var used := A.Held(acts[..i]) + A.Logged(acts[..i]);
    if acts[i].Get? && acts[i].s !in used {
      assert |used + {acts[i].s}| == |used| + 1;
    }
  }

  /** What an open log knows about its header and its pinned buffers. */
  lemma LogFacts(log: G.Log)
    requires log.Valid()
    ensures forall i :: 0 <= i < |log.ws| ==> 0 <= log.ws[i].sector < |log.base|
    ensures |log.base| == |log.bc.memdisk| == log.Geo().disksize && (!log.busy ==> log.ws == [] && log.mark == |log.bc.images|)
    ensures log.n == |L.LoggedSectors(log.ws)| && log.n <= |log.sector|
    ensures log.bc.Pinned() == Members(L.LoggedSectors(log.ws)) == Members(log.sector[..log.n])
  {
    hide B.Bcache.Valid, B.Bcache.Held, B.Bcache.Pinned, B.Bcache.View;
  }

  lemma StillAccepted(g: L.Geometry, ws: seq<L.Write>, k: nat)
    requires L.Accepted(g, ws) && k < |ws|
    ensures |L.LoggedSectors(ws[..k])| < L.LOGSIZE && |L.LoggedSectors(ws[..k])| < g.size - 1
    ensures g.IsHome(ws[k].sector)
  {
  }

  lemma CommitFacts(g: L.Geometry, base: Disk, ws: seq<L.Write>, d: Disk)
    requires G.CommitsTo(g, base, ws, d)
    ensures L.HomeWrites(g, ws) && L.SameHome(g, d, L.Replay(base, ws))
  {
  }

  // ---------- every disk write of a history ----------

  /** Disk `d` comes back from recovery with the home sectors of one of the disks of the history. */
  ghost predicate Lands(g: L.Geometry, hist: seq<Disk>, d: Disk) {
    && L.WellFormed(g, d)
    && exists k :: 0 <= k < |hist| && |hist[k]| == |hist[0]| && L.SameHome(g, L.Recovered(g, d), hist[k])
  }

  lemma SameHomeTwice(g: L.Geometry, a: Disk, b: Disk, c: Disk)
    requires L.SameHome(g, a, b) && L.SameHome(g, b, c)
    ensures L.SameHome(g, a, c)
  {
  }

  lemma Applies(g: L.Geometry, d: Disk, e: Disk, ws: seq<L.Write>)
    requires L.HomeWrites(g, ws) && L.SameHome(g, d, e)
    ensures forall i :: 0 <= i < |ws| ==> 0 <= ws[i].sector < |d| && 0 <= ws[i].sector < |e|
  {
  }

  /** Any crash image of a transaction recovers to the home sectors before it or after it. */
  lemma ImageRecovers(g: L.Geometry, base: Disk, h: Disk, ws: seq<L.Write>, at: nat)
    requires L.Quiet(g, base) && L.Accepted(g, ws) && at < |L.CrashImages(g, base, ws)| && L.SameHome(g, base, h)
    ensures var d := L.CrashImages(g, base, ws)[at];
            && L.WellFormed(g, d) && L.HomeWrites(g, ws)
            && L.SameHome(g, L.Recovered(g, d), if at <= |ws| then h else L.Replay(h, ws))
  {
    hide L.Recovered, L.CrashImages, L.Committed, L.SameHome, L.Replay, L.Quiet, L.WellFormed;
    var d := L.CrashImages(g, base, ws)[at];
    L.CrashImageAt(g, base, ws, at);
    L.CommitEqualsReplay(g, base, ws);
    L.ReplayRespectsHome(g, base, h, ws);
    Applies(g, base, h, ws);
    if at <= |ws| {
      SameHomeTwice(g, L.Recovered(g, d), base, h);
    } else {
      SameHomeTwice(g, L.Recovered(g, d), L.Replay(base, ws), L.Replay(h, ws));
    }
  }

  /** The images of one transaction all land on the history. */
  lemma ImageLands(sb: Super, hist: seq<Disk>, txs: seq<seq<A.Act>>, k: nat, g: L.Geometry, base: Disk, at: nat)
    requires History(sb, hist, txs) && k < |txs| && Fits(sb, hist[0]) && g == LogAt(sb, hist[0])
    requires |hist[k]| == |hist[k + 1]| == |hist[0]| && L.SameHome(g, base, hist[k])
    requires L.Quiet(g, base) && L.Accepted(g, A.Writes(txs[k])) && at < |L.CrashImages(g, base, A.Writes(txs[k]))|
    ensures Lands(g, hist, L.CrashImages(g, base, A.Writes(txs[k]))[at])
  {
    hide History, L.Recovered, L.CrashImages, L.SameHome, L.Replay, L.Quiet, L.WellFormed, L.Accepted, Fits;
    HistoryAt(sb, hist, txs, k);
    ImageRecovers(g, base, hist[k], A.Writes(txs[k]), at);
    var m := if at <= |A.Writes(txs[k])| then k else k + 1;
    assert L.SameHome(g, L.Recovered(g, L.CrashImages(g, base, A.Writes(txs[k]))[at]), hist[m]);
  }

  /** The transactions of a history, carried out one after the other by the log over the cache. Nothing panics, the disk
      ends with the home sectors of the last, and after every single disk write on the way a crash would leave those of
      one of them. */
  method Carry(log: G.Log, txs: seq<seq<A.Act>>, ghost sb: Super, ghost hist: seq<Disk>)
    requires History(sb, hist, txs) && Fits(sb, hist[0])
    requires log.Valid() && !log.busy && log.bc.Held() == {}
    requires log.Geo() == LogAt(sb, hist[0]) && L.SameHome(log.Geo(), log.base, hist[0])
    modifies log, log.bc
    ensures log.Valid() && !log.busy && log.bc.Held() == {} && log.Geo() == old(log.Geo())
    ensures |hist[|txs|]| == |hist[0]| && L.SameHome(log.Geo(), log.base, hist[|txs|])
    ensures old(log.bc.images) <= log.bc.images
    ensures forall m :: |old(log.bc.images)| <= m < |log.bc.images| ==> Lands(log.Geo(), hist, log.bc.images[m])
  {
    hide G.Log.Valid, B.Bcache.Valid, B.Bcache.Held, History, Lands, Fits, Txn;
    hide L.Accepted, L.LoggedSectors, L.Replay, L.SameHome, G.Written, L.Quiet, A.Writes;
    ghost var g, m0 := log.Geo(), |log.bc.images|;
    assert |hist| == |txs| + 1 by { HistoryLength(sb, hist, txs); }
    var k := 0;
    while k < |txs|
      invariant 0 <= k <= |txs| && |hist| == |txs| + 1 && |hist[k]| == |hist[0]|
      invariant log.Valid() && !log.busy && log.bc.Held() == {} && log.Geo() == g
      invariant L.SameHome(g, log.base, hist[k]) && old(log.bc.images) <= log.bc.images
      invariant forall m :: m0 <= m < |log.bc.images| ==> Lands(g, hist, log.bc.images[m])
    {
      ghost var base, was := log.base, log.bc.images;
      HistoryAt(sb, hist, txs, k);
      TxnFacts(sb, hist[0], hist[k], txs[k], hist[k + 1], base);
      Applies(g, base, hist[k], A.Writes(txs[k]));
      Perform(log, txs[k]);
      SameHomeTwice(g, log.base, L.Replay(base, A.Writes(txs[k])), hist[k + 1]);
      AllLand(sb, hist, txs, k, g, base, was, log.bc.images, m0);
      k := k + 1;
    }
  }

  lemma HistoryLength(sb: Super, hist: seq<Disk>, txs: seq<seq<A.Act>>)
    requires History(sb, hist, txs)
    ensures |hist| == |txs| + 1
  {
  }

  lemma TxnFacts(sb: Super, h0: Disk, h: Disk, acts: seq<A.Act>, h': Disk, base: Disk)
    requires Txn(sb, h, acts, h') && Fits(sb, h0) && |h| == |h0| && L.SameHome(LogAt(sb, h0), base, h)
    ensures L.Accepted(LogAt(sb, h0), A.Writes(acts)) && |L.LoggedSectors(A.Writes(acts))| < B.NBUF && |h'| == |h|
    ensures L.HomeWrites(LogAt(sb, h0), A.Writes(acts))
    ensures L.SameHome(LogAt(sb, h0), L.Replay(base, A.Writes(acts)), h')
    ensures A.Orderly(acts) && A.Held(acts) == {} && Lean(acts, B.NBUF)
    ensures forall k :: 0 <= k < |acts| ==> LogAt(sb, h0).IsHome(acts[k].s)
  {
    hide L.LoggedSectors, A.Orderly, A.Held, A.Writes, A.Peak;
    L.ReplayRespectsHome(LogAt(sb, h0), base, h, A.Writes(acts));
  }

  lemma ImageIndex(g: L.Geometry, base: Disk, ws: seq<L.Write>, images: seq<Disk>, mark: nat, m: nat)
    requires G.Written(g, base, ws, images, mark) && mark <= m < |images|
    ensures L.Quiet(g, base) && L.Accepted(g, ws) && m - mark + 1 < |L.CrashImages(g, base, ws)|
    ensures images[m] == L.CrashImages(g, base, ws)[m - mark + 1]
  {
    hide L.Quiet, L.Accepted, L.CrashImages;
    assert ([base] + images[mark..])[m - mark + 1] == images[m];
  }

  /** The disk images of one more transaction land where those before did. */
  lemma AllLand(sb: Super, hist: seq<Disk>, txs: seq<seq<A.Act>>, k: nat, g: L.Geometry, base: Disk,
                was: seq<Disk>, images: seq<Disk>, m0: nat)
    requires History(sb, hist, txs) && k < |txs| && Fits(sb, hist[0]) && g == LogAt(sb, hist[0])
    requires |hist[k]| == |hist[k + 1]| == |hist[0]| && L.SameHome(g, base, hist[k]) && was <= images
    requires G.Written(g, base, A.Writes(txs[k]), images, |was|)
    requires forall m :: m0 <= m < |was| ==> Lands(g, hist, was[m])
    ensures forall m :: m0 <= m < |images| ==> Lands(g, hist, images[m])
  {
    hide History, Lands, Fits, L.SameHome, G.Written, L.Quiet, L.Accepted, L.CrashImages, A.Writes;
    forall m | m0 <= m < |images|
      ensures Lands(g, hist, images[m])
    {
      if m >= |was| {
        ImageIndex(g, base, A.Writes(txs[k]), images, |was|, m);
        ImageLands(sb, hist, txs, k, g, base, m - |was| + 1);
      } else {
        assert images[m] == was[m];
      }
    }
  }

  // ---------- what that means for files ----------

  /** Disk `d` comes back from recovery with the file holding the first `k` chunks of the write, for some `k`, and
      with every other file as on `d0`. */
  ghost predicate Survives(g: L.Geometry, sb: Super, d0: Disk, i: nat, c: seq<Byte>, off: nat, s: seq<Byte>, n: nat, d: Disk)
  {
    && L.WellFormed(g, d)
    && exists k :: 0 <= k <= n && Holds(sb, d0, L.Recovered(g, d), i, After(c, off, s, Cut(k, |s|)))
  }

  lemma LandedChunks(sb: Super, i: nat, hist: seq<Disk>, txs: seq<seq<A.Act>>, c: seq<Byte>, off: nat, s: seq<Byte>, d: Disk)
    requires Trace(sb, i, hist, txs, c, off, s) && Fits(sb, hist[0]) && Lands(LogAt(sb, hist[0]), hist, d)
    ensures Survives(LogAt(sb, hist[0]), sb, hist[0], i, c, off, s, |txs|, d)
  {
    hide Trace, Holds, After, Cut, Fits, L.SameHome, L.WellFormed, L.Recovered;
    var g := LogAt(sb, hist[0]);
    var k :| 0 <= k < |hist| && |hist[k]| == |hist[0]| && L.SameHome(g, L.Recovered(g, d), hist[k]);
    TraceAt(sb, i, hist, txs, c, off, s, 0);
    TraceAt(sb, i, hist, txs, c, off, s, k);
    HoldsSameHome(sb, hist[0], hist[k], L.Recovered(g, d), i, After(c, off, s, Cut(k, |s|)));
  }

  /** The transactions of a filewrite: the disk ends with the whole write, and after every single disk write on the way a
      crash would leave a whole number of chunks. */
  method Persist(log: G.Log, txs: seq<seq<A.Act>>, ghost sb: Super, ghost i: nat, ghost hist: seq<Disk>,
      ghost c: seq<Byte>, ghost off: nat, ghost s: seq<Byte>)
    requires Trace(sb, i, hist, txs, c, off, s) && Fits(sb, hist[0])
    requires log.Valid() && !log.busy && log.bc.Held() == {}
    requires log.Geo() == LogAt(sb, hist[0]) && L.SameHome(log.Geo(), log.base, hist[0])
    modifies log, log.bc
    ensures log.Valid() && !log.busy && log.bc.Held() == {} && log.Geo() == old(log.Geo())
    ensures Holds(sb, hist[0], log.base, i, After(c, off, s, Cut(|txs|, |s|)))
    ensures old(log.bc.images) <= log.bc.images
    ensures forall m :: |old(log.bc.images)| <= m < |log.bc.images| ==>
              Survives(log.Geo(), sb, hist[0], i, c, off, s, |txs|, log.bc.images[m])
  {
    hide G.Log.Valid, B.Bcache.Held, Trace, Survives, Holds, After, Cut, Fits, Lands, History, L.SameHome;
    TraceHistory(sb, i, hist, txs, c, off, s);
    TraceAt(sb, i, hist, txs, c, off, s, |txs|);
    Carry(log, txs, sb, hist);
    HoldsSameHome(sb, hist[0], hist[|txs|], log.base, i, After(c, off, s, Cut(|txs|, |s|)));
    forall m | |old(log.bc.images)| <= m < |log.bc.images|
      ensures Survives(log.Geo(), sb, hist[0], i, c, off, s, |txs|, log.bc.images[m])
    {
      LandedChunks(sb, i, hist, txs, c, off, s, log.bc.images[m]);
    }
  }

  /** Disk `d` comes back from recovery with what some number of whole calls make of the files. */
  ghost predicate SurvivesCalls(g: L.Geometry, sb: Super, files: seq<seq<Byte>>, ops: seq<S.Op>, n: nat, d: Disk)
    requires S.Names(ops, |files|)
  {
    L.WellFormed(g, d) && exists k :: 0 <= k <= n && S.HoldsAfter(sb, L.Recovered(g, d), files, ops, k)
  }

  lemma LandedCalls(sb: Super, hist: seq<Disk>, files: seq<seq<Byte>>, ops: seq<S.Op>, d: Disk)
    requires S.Names(ops, |files|) && S.Steps(sb, hist, files, ops) && hist != [] && Fits(sb, hist[0])
    requires Lands(LogAt(sb, hist[0]), hist, d)
    ensures SurvivesCalls(LogAt(sb, hist[0]), sb, files, ops, |hist| - 1, d)
  {
    hide Fits, L.SameHome, L.WellFormed, L.Recovered, V.Files, V.Sound, V.TotalCost, S.Ran;
    var g := LogAt(sb, hist[0]);
    var k :| 0 <= k < |hist| && |hist[k]| == |hist[0]| && L.SameHome(g, L.Recovered(g, d), hist[k]);
    assert S.HoldsAfter(sb, hist[k], files, ops, k);
    S.SameHomeHolds(sb, hist[0], hist[k], L.Recovered(g, d));
    assert S.HoldsAfter(sb, L.Recovered(g, d), files, ops, k);
  }

  /** The transactions of a session: the disk ends with what all calls make of the files, and after every single disk write
      on the way a crash would leave what some number of whole calls make of them. */
  method PersistCalls(log: G.Log, txs: seq<seq<A.Act>>, ghost sb: Super, ghost hist: seq<Disk>, ghost files: seq<seq<Byte>>,
      ghost ops: seq<S.Op>)
    requires History(sb, hist, txs) && Fits(sb, hist[0])
    requires S.Names(ops, |files|) && S.Steps(sb, hist, files, ops)
    requires log.Valid() && !log.busy && log.bc.Held() == {}
    requires log.Geo() == LogAt(sb, hist[0]) && L.SameHome(log.Geo(), log.base, hist[0])
    modifies log, log.bc
    ensures log.Valid() && !log.busy && log.bc.Held() == {} && log.Geo() == old(log.Geo())
    ensures S.HoldsAfter(sb, log.base, files, ops, |txs|)
    ensures old(log.bc.images) <= log.bc.images
    ensures forall m :: |old(log.bc.images)| <= m < |log.bc.images| ==>
              SurvivesCalls(log.Geo(), sb, files, ops, |txs|, log.bc.images[m])
  {
    hide G.Log.Valid, B.Bcache.Held, Fits, Lands, History, L.SameHome, SurvivesCalls, V.Files, V.Sound, V.TotalCost, S.Ran;
    HistoryLength(sb, hist, txs);
    Carry(log, txs, sb, hist);
    assert S.HoldsAfter(sb, hist[|txs|], files, ops, |txs|);
    S.SameHomeHolds(sb, hist[0], hist[|txs|], log.base);
    forall m | |old(log.bc.images)| <= m < |log.bc.images|
      ensures SurvivesCalls(log.Geo(), sb, files, ops, |txs|, log.bc.images[m])
    {
      LandedCalls(sb, hist, files, ops, log.bc.images[m]);
    }
  }
}
