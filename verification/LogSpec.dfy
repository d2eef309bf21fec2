/** What the redo log means on disk: headers, installation, recovery, crash images.

    Everything here is about values of type `Disk`. The imperative log (module `Log`) is proved to
    produce exactly these disks, one sector write at a time. */
module LogSpec {
  import opened Sets
  import opened Words

  /** `LOGSIZE` in param.h: the number of sector slots in a log header. */
  const LOGSIZE := 10

  /** Where the log lives: the header in sector `start`, log blocks after it. */
  datatype Geometry = Geometry(start: nat, size: nat, disksize: nat) {
    predicate Valid() {
      1 <= size && start + size <= disksize
    }

    predicate InLog(s: int) {
      start <= s < start + size
    }

    /** A sector that a transaction may name: on the disk and outside the log. */
    predicate IsHome(s: int) {
      0 <= s < disksize && !InLog(s)
    }
  }

  predicate Fits(g: Geometry, d: Disk) {
    g.Valid() && |d| == g.disksize
  }

  predicate Distinct(s: seq<int>) {
    forall i, j :: 0 <= i < j < |s| ==> s[i] != s[j]
  }

  /** A list of sectors the header may carry. */
  predicate ValidSectors(g: Geometry, secs: seq<int>) {
    && |secs| <= LOGSIZE && |secs| <= g.size - 1
    && Distinct(secs)
    && (forall i :: 0 <= i < |secs| ==> g.IsHome(secs[i]) && 0 <= secs[i] < 0x1_0000_0000)
  }

  // ---------- the header sector ----------

  function HeaderCount(b: Block): (n: Uint) { GetWord(b, 0) }

  function HeaderSector(b: Block, i: nat): (s: Uint)
    requires i < LOGSIZE
  { GetWord(b, 4 + 4 * i) }

  /** The sector numbers recorded in a header. */
  function HeaderSectors(b: Block): (secs: seq<int>)
    requires HeaderCount(b) <= LOGSIZE
  {
    seq(HeaderCount(b), i requires 0 <= i < HeaderCount(b) => HeaderSector(b, i))
  }

  /** The first `k` slots of the header filled in (the loop in write_head). */
  function WithSlots(b: Block, secs: seq<int>, k: nat): (r: Block)
    requires k <= |secs| <= LOGSIZE
    requires forall i :: 0 <= i < |secs| ==> 0 <= secs[i] < 0x1_0000_0000
  {
    if k == 0 then b else PutWord(WithSlots(b, secs, k - 1), 4 + 4 * (k - 1), secs[k - 1])
  }

  function WithHeader(b: Block, secs: seq<int>): (r: Block)
    requires |secs| <= LOGSIZE
    requires forall i :: 0 <= i < |secs| ==> 0 <= secs[i] < 0x1_0000_0000
  {
    WithSlots(PutWord(b, 0, |secs|), secs, |secs|)
  }

  lemma {:induction false} SlotsReadBack(b: Block, secs: seq<int>, k: nat)
    requires k <= |secs| <= LOGSIZE
    requires forall i :: 0 <= i < |secs| ==> 0 <= secs[i] < 0x1_0000_0000
    ensures HeaderCount(WithSlots(b, secs, k)) == HeaderCount(b)
    ensures forall i :: 0 <= i < k ==> HeaderSector(WithSlots(b, secs, k), i) == secs[i]
  {
    if k > 0 {
      SlotsReadBack(b, secs, k - 1);
      var c := WithSlots(b, secs, k - 1);
      PutWordFrame(c, 4 + 4 * (k - 1), secs[k - 1], 0);
      GetPutWord(c, 4 + 4 * (k - 1), secs[k - 1]);
      forall i | 0 <= i < k - 1
        ensures HeaderSector(WithSlots(b, secs, k), i) == secs[i]
      {
        PutWordFrame(c, 4 + 4 * (k - 1), secs[k - 1], 4 + 4 * i);
      }
    }
  }

  /** What write_head stores, read_head gets back. */
  lemma HeaderRoundTrip(b: Block, secs: seq<int>)
    requires |secs| <= LOGSIZE
    requires forall i :: 0 <= i < |secs| ==> 0 <= secs[i] < 0x1_0000_0000
    ensures HeaderCount(WithHeader(b, secs)) == |secs|
    ensures HeaderSectors(WithHeader(b, secs)) == secs
  {
    GetPutWord(b, 0, |secs|);
    SlotsReadBack(PutWord(b, 0, |secs|), secs, |secs|);
  }

  // ---------- recovery ----------

  /** The on-disk log is one that the kernel can have written. */
  predicate WellFormed(g: Geometry, d: Disk) {
    && Fits(g, d)
    && HeaderCount(d[g.start]) <= LOGSIZE
    && ValidSectors(g, HeaderSectors(d[g.start]))
  }

  /** The log is empty: nothing is waiting to be installed. */
  predicate Quiet(g: Geometry, d: Disk) {
    Fits(g, d) && HeaderCount(d[g.start]) == 0
  }

  /** `d` after the first `k` log blocks have been copied to the sectors `secs` (install_trans). */
  function Installed(g: Geometry, d: Disk, secs: seq<int>, k: nat): (r: Disk)
    requires Fits(g, d) && ValidSectors(g, secs) && k <= |secs|
    ensures Fits(g, r)
  {
    if k == 0 then d
    else Installed(g, d, secs, k - 1)[secs[k - 1] := d[g.start + k]]
  }

  /** `d` with the header's count set to zero. */
  function Erased(g: Geometry, d: Disk): (r: Disk)
    requires Fits(g, d)
    ensures Fits(g, r)
  {
    d[g.start := WithHeader(d[g.start], [])]
  }

  /** The disk that recover_from_log leaves. */
  function Recovered(g: Geometry, d: Disk): (r: Disk)
    requires WellFormed(g, d)
    ensures Fits(g, r)
  {
    var secs := HeaderSectors(d[g.start]);
    Erased(g, Installed(g, d, secs, |secs|))
  }

  /** The disk after each of the first `k` sector writes of install_trans. */
  function InstallImages(g: Geometry, d: Disk, secs: seq<int>, k: nat): (images: seq<Disk>)
    requires Fits(g, d) && ValidSectors(g, secs) && k <= |secs|
    ensures |images| == k
    ensures forall i :: 0 <= i < k ==> images[i] == Installed(g, d, secs, i + 1)
  {
    if k == 0 then [] else InstallImages(g, d, secs, k - 1) + [Installed(g, d, secs, k)]
  }

  /** The disk after each sector write of recovery, in order. */
  function RecoveryImages(g: Geometry, d: Disk): (images: seq<Disk>)
    requires WellFormed(g, d)
  {
    var secs := HeaderSectors(d[g.start]);
    InstallImages(g, d, secs, |secs|) + [Recovered(g, d)]
  }

  /** Pointwise meaning of installation. */
  lemma {:induction false} InstalledAt(g: Geometry, d: Disk, secs: seq<int>, k: nat)
    requires Fits(g, d) && ValidSectors(g, secs) && k <= |secs|
    ensures forall i :: 0 <= i < k ==> Installed(g, d, secs, k)[secs[i]] == d[g.start + 1 + i]
    ensures forall s :: 0 <= s < g.disksize && s !in secs[..k] ==> Installed(g, d, secs, k)[s] == d[s]
    ensures forall s :: g.InLog(s) ==> Installed(g, d, secs, k)[s] == d[s]
  {
    if k > 0 {
      InstalledAt(g, d, secs, k - 1);
      assert secs[..k] == secs[..k - 1] + [secs[k - 1]];
    }
  }

  /** Installing again over a partly installed disk ends in the same place. */
  lemma InstalledTwice(g: Geometry, d: Disk, secs: seq<int>, k: nat)
    requires Fits(g, d) && ValidSectors(g, secs) && k <= |secs|
    ensures Installed(g, Installed(g, d, secs, k), secs, |secs|) == Installed(g, d, secs, |secs|)
  {
    var e := Installed(g, d, secs, k);
    var a, b := Installed(g, e, secs, |secs|), Installed(g, d, secs, |secs|);
    InstalledAt(g, d, secs, k);
    InstalledAt(g, e, secs, |secs|);
    InstalledAt(g, d, secs, |secs|);
    assert secs[..|secs|] == secs;
    forall s | 0 <= s < g.disksize
      ensures a[s] == b[s]
    {
      if s in secs {
        var i :| 0 <= i < |secs| && secs[i] == s;
        assert e[g.start + 1 + i] == d[g.start + 1 + i];
      }
    }
  }

  lemma ErasedIsQuiet(g: Geometry, d: Disk)
    requires Fits(g, d)
    ensures Quiet(g, Erased(g, d)) && WellFormed(g, Erased(g, d))
    ensures Recovered(g, Erased(g, d)) == Erased(g, d)
  {
    var e := Erased(g, d);
    HeaderRoundTrip(d[g.start], []);
    PutGetWord(e[g.start], 0);
    assert HeaderSectors(e[g.start]) == [];
  }

  lemma PartlyInstalled(g: Geometry, d: Disk, k: nat)
    requires WellFormed(g, d) && k <= |HeaderSectors(d[g.start])|
    ensures var e := Installed(g, d, HeaderSectors(d[g.start]), k);
            WellFormed(g, e) && Recovered(g, e) == Recovered(g, d)
  {
    var secs := HeaderSectors(d[g.start]);
    InstalledAt(g, d, secs, k);
    InstalledTwice(g, d, secs, k);
  }

  /** Recovery may be cut short after any of its writes and started again: nothing is lost or added. */
  lemma RecoveryRestarts(g: Geometry, d: Disk, e: Disk)
    requires WellFormed(g, d)
    requires e in RecoveryImages(g, d)
    ensures WellFormed(g, e)
    ensures Recovered(g, e) == Recovered(g, d)
  {
    hide Installed, HeaderSectors, ValidSectors;
    var secs := HeaderSectors(d[g.start]);
    var k :| 0 <= k < |RecoveryImages(g, d)| && e == RecoveryImages(g, d)[k];
    if k == |secs| {
      ErasedIsQuiet(g, Installed(g, d, secs, |secs|));
    } else {
      PartlyInstalled(g, d, k + 1);
    }
  }

  /** The disk a boot starts from, when the boot before it crashed at some write of recovery or before it. */
  predicate CrashedBoot(g: Geometry, d: Disk, e: Disk)
    requires WellFormed(g, d)
  {
    e == d || e in RecoveryImages(g, d)
  }

  /** Boot after boot, each one but the last crashing during recovery. */
  predicate Reboots(g: Geometry, boots: seq<Disk>) {
    && |boots| > 0
    && WellFormed(g, boots[|boots| - 1])
    && (|boots| > 1 ==>
          && Reboots(g, boots[..|boots| - 1])
          && CrashedBoot(g, boots[|boots| - 2], boots[|boots| - 1]))
  }

  /** However often recovery crashes, the boot that completes reaches the same disk, with an empty log. */
  lemma {:induction false} RebootsConverge(g: Geometry, boots: seq<Disk>)
    requires Reboots(g, boots)
    ensures WellFormed(g, boots[0])
    ensures Recovered(g, boots[|boots| - 1]) == Recovered(g, boots[0])
    ensures Quiet(g, Recovered(g, boots[0]))
  {
    hide Installed, HeaderSectors, ValidSectors, RecoveryImages;
    var last := |boots| - 1;
    if last == 0 {
      var secs := HeaderSectors(boots[0][g.start]);
      ErasedIsQuiet(g, Installed(g, boots[0], secs, |secs|));
    } else {
      RebootsConverge(g, boots[..last]);
      if boots[last] != boots[last - 1] {
        RecoveryRestarts(g, boots[last - 1], boots[last]);
      }
    }
  }

  // ---------- one transaction ----------

  datatype Write = Write(sector: int, data: Block)

  /** Every sector named is a home sector. */
  predicate HomeWrites(g: Geometry, ws: seq<Write>) {
    forall i :: 0 <= i < |ws| ==> g.IsHome(ws[i].sector) && ws[i].sector < 0x1_0000_0000
  }

  /** The meaning of a transaction: its writes applied in order, the last one to a sector winning. */
  function Replay(d: Disk, ws: seq<Write>): (r: Disk)
    requires forall i :: 0 <= i < |ws| ==> 0 <= ws[i].sector < |d|
    ensures |r| == |d|
  {
    if ws == [] then d
    else
      var last := ws[|ws| - 1];
      Replay(d, ws[..|ws| - 1])[last.sector := last.data]
  }

  lemma ReplayNext(d: Disk, ws: seq<Write>, w: Write)
    requires forall i :: 0 <= i < |ws| ==> 0 <= ws[i].sector < |d|
    requires 0 <= w.sector < |d|
    ensures forall i :: 0 <= i < |ws + [w]| ==> 0 <= (ws + [w])[i].sector < |d|
    ensures Replay(d, ws + [w]) == Replay(d, ws)[w.sector := w.data]
  {
    assert (ws + [w])[..|ws|] == ws;
  }

  lemma ReplayOne(d: Disk, ws: seq<Write>, w: Write, t: int)
    requires forall i :: 0 <= i < |ws| ==> 0 <= ws[i].sector < |d|
    requires 0 <= w.sector < |d| && 0 <= t < |d|
    ensures Replay(d, ws + [w])[t] == if t == w.sector then w.data else Replay(d, ws)[t]
  {
    assert (ws + [w])[..|ws|] == ws;
  }

  /** The slot log_write uses for sector `s`: the one already holding `s`, else the next free one. */
  function Slot(secs: seq<int>, s: int): (i: nat)
    ensures i <= |secs|
    ensures i < |secs| ==> secs[i] == s
    ensures i == |secs| ==> s !in secs
    ensures s !in secs[..i]
  {
    if secs == [] then 0
    else if secs[0] == s then 0
    else
      var r := 1 + Slot(secs[1..], s);
      assert secs == [secs[0]] + secs[1..];
      assert secs[..r] == [secs[0]] + secs[1..][..r - 1];
      r
  }

  /** The sector list after log_write has recorded `s`. */
  function Recorded(secs: seq<int>, s: int): (r: seq<int>) {
    if s in secs then secs else secs + [s]
  }

  lemma RecordedMembers(secs: seq<int>, s: int)
    ensures Members(Recorded(secs, s)) == Members(secs) + {s}
  {
    if s !in secs {
      assert (secs + [s])[..|secs|] == secs;
    }
  }

  /** The sectors of a transaction in the order of first use. */
  function LoggedSectors(ws: seq<Write>): (secs: seq<int>) {
    if ws == [] then [] else Recorded(LoggedSectors(ws[..|ws| - 1]), ws[|ws| - 1].sector)
  }

  /** A transaction that log_write accepts: the count test runs before each append, absorbed or not. */
  predicate Accepted(g: Geometry, ws: seq<Write>) {
    && HomeWrites(g, ws)
    && forall i :: 0 <= i < |ws| ==>
         |LoggedSectors(ws[..i])| < LOGSIZE && |LoggedSectors(ws[..i])| < g.size - 1
  }

  /** What the two tests at the head of log_write make of a call; all but `Fine` are panics. */
  datatype Verdict = Fine | TooBig | Outside

  function Judge(n: nat, size: int, busy: bool): Verdict {
    if n >= LOGSIZE || n >= size - 1 then TooBig else if !busy then Outside else Fine
  }

  /** The first panic in a list of log_write calls, if any: what happens to the caller. */
  function FirstPanic(ws: seq<Write>, size: int, busy: bool): Verdict {
    if ws == [] then Fine
    else
      var before := FirstPanic(ws[..|ws| - 1], size, busy);
      if before.Fine? then Judge(|LoggedSectors(ws[..|ws| - 1])|, size, busy) else before
  }

  /** Distinct sectors that a transaction in a log of `size` blocks can have. */
  function Limit(size: int): nat { if size <= 1 then 0 else if LOGSIZE < size - 1 then LOGSIZE else size - 1 }

  lemma {:induction false} FineIsAccepted(g: Geometry, ws: seq<Write>)
    requires HomeWrites(g, ws)
    ensures Accepted(g, ws) <==> FirstPanic(ws, g.size, true).Fine?
    decreases |ws|
  {
    if ws != [] {
      var front, w := ws[..|ws| - 1], ws[|ws| - 1];
      assert ws == front + [w] && HomeWrites(g, [w]);
      FineIsAccepted(g, front);
      AcceptedNext(g, front, w);
    }
  }

  /** `l` is the set of sectors logged by the calls. */
  ghost predicate SectorsAre(ws: seq<Write>, l: set<int>) {
    l == Members(LoggedSectors(ws)) && |l| == |LoggedSectors(ws)|
  }

  lemma {:induction false} LoggedDistinct(ws: seq<Write>)
    ensures |Members(LoggedSectors(ws))| == |LoggedSectors(ws)|
  {
    if ws != [] {
      var secs, s := LoggedSectors(ws[..|ws| - 1]), ws[|ws| - 1].sector;
      LoggedDistinct(ws[..|ws| - 1]);
      RecordedMembers(secs, s);
    }
  }

  /** Fewer sectors than the limit: no call is refused. */
  lemma {:induction false} FewAreFine(ws: seq<Write>, size: int)
    requires |LoggedSectors(ws)| < Limit(size)
    ensures FirstPanic(ws, size, true).Fine?
  {
    if ws != [] {
      FewAreFine(ws[..|ws| - 1], size);
    }
  }

  /** If the last call names a new sector, none is refused exactly when the sectors are no more than the limit. */
  lemma FineExactly(ws: seq<Write>, size: int)
    requires ws != [] && ws[|ws| - 1].sector !in LoggedSectors(ws[..|ws| - 1])
    ensures FirstPanic(ws, size, true).Fine? <==> |LoggedSectors(ws)| <= Limit(size)
  {
    if |LoggedSectors(ws[..|ws| - 1])| < Limit(size) {
      FewAreFine(ws[..|ws| - 1], size);
    }
  }

  lemma {:induction false} FineCount(ws: seq<Write>, size: int)
    requires FirstPanic(ws, size, true).Fine?
    ensures |LoggedSectors(ws)| <= Limit(size)
  {
    if ws != [] {
      FineCount(ws[..|ws| - 1], size);
    }
  }

  /** Outside a transaction the first call is refused. */
  lemma OutsideIsRefused(ws: seq<Write>, size: int)
    requires ws != []
    ensures !FirstPanic(ws, size, false).Fine?
  {
  }

  lemma NoCalls(d: Disk, size: int, busy: bool)
    ensures Replay(d, []) == d && LoggedSectors([]) == [] && FirstPanic([], size, busy).Fine?
  {
  }

  lemma OneMoreCall(ws: seq<Write>, w: Write, size: int, busy: bool)
    ensures LoggedSectors(ws + [w]) == Recorded(LoggedSectors(ws), w.sector)
    ensures FirstPanic(ws + [w], size, busy) ==
              var before := FirstPanic(ws, size, busy);
              if before.Fine? then Judge(|LoggedSectors(ws)|, size, busy) else before
  {
    assert (ws + [w])[..|ws|] == ws;
  }

  lemma AcceptedPrefix(g: Geometry, ws: seq<Write>, k: nat)
    requires Accepted(g, ws) && k <= |ws|
    ensures Accepted(g, ws[..k])
  {
    forall i | 0 <= i < k
      ensures |LoggedSectors(ws[..k][..i])| < LOGSIZE && |LoggedSectors(ws[..k][..i])| < g.size - 1
    {
      assert ws[..k][..i] == ws[..i];
    }
  }

  /** One more log_write is accepted exactly while fewer than `LOGSIZE` and fewer than `size - 1` sectors are logged,
      whether or not it would be absorbed: with a log of ten blocks a transaction ends at nine distinct sectors. */
  lemma AcceptedNext(g: Geometry, ws: seq<Write>, w: Write)
    ensures Accepted(g, ws + [w]) <==>
            && Accepted(g, ws) && HomeWrites(g, [w])
            && |LoggedSectors(ws)| < LOGSIZE && |LoggedSectors(ws)| < g.size - 1
  {
    var all := ws + [w];
    assert all[..|ws|] == ws;
    assert forall i :: 0 <= i <= |ws| ==> all[..i] == ws[..i];
    assert forall i :: 0 <= i < |ws| ==> all[i] == ws[i];
    if Accepted(g, all) {
      AcceptedPrefix(g, all, |ws|);
      assert all[|ws|] == w;
    }
  }

  lemma {:induction false} LoggedSectorsValid(g: Geometry, ws: seq<Write>)
    requires g.Valid() && Accepted(g, ws)
    ensures ValidSectors(g, LoggedSectors(ws))
  {
    if ws != [] {
      AcceptedPrefix(g, ws, |ws| - 1);
      LoggedSectorsValid(g, ws[..|ws| - 1]);
    }
  }

  /** Absorption loses no sector and invents none. */
  lemma {:induction false} LoggedSectorsExact(ws: seq<Write>)
    ensures (set s | s in LoggedSectors(ws)) == (set w | w in ws :: w.sector)
  {
    if ws != [] {
      var front, last := ws[..|ws| - 1], ws[|ws| - 1];
      LoggedSectorsExact(front);
      assert (set w | w in ws :: w.sector) == (set w | w in front :: w.sector) + {last.sector} by {
        assert ws == front + [last];
      }
      assert (set s | s in LoggedSectors(ws)) == (set s | s in LoggedSectors(front)) + {last.sector};
    }
  }

  /** Slots are given out in order of first use: slot `k` is that of some write before which exactly the slots below `k`
      were taken, none of them for its sector. */
  lemma {:induction false} SlotsInOrder(ws: seq<Write>, k: nat) returns (i: nat)
    requires k < |LoggedSectors(ws)|
    ensures i < |ws| && ws[i].sector == LoggedSectors(ws)[k]
    ensures LoggedSectors(ws[..i]) == LoggedSectors(ws)[..k] && ws[i].sector !in LoggedSectors(ws)[..k]
    decreases |ws|
  {
    var front := ws[..|ws| - 1];
    if k < |LoggedSectors(front)| {
      i := SlotsInOrder(front, k);
      assert front[..i] == ws[..i];
    } else {
      i := |ws| - 1;
    }
  }

  /** The disk once `ws` has been appended to the log but not committed. */
  function Appended(g: Geometry, d: Disk, ws: seq<Write>): (r: Disk)
    requires Fits(g, d) && Accepted(g, ws)
    ensures Fits(g, r)
  {
    if ws == [] then d
    else
      var front, last := ws[..|ws| - 1], ws[|ws| - 1];
      AcceptedPrefix(g, ws, |ws| - 1);
      Appended(g, d, front)[g.start + 1 + Slot(LoggedSectors(front), last.sector) := last.data]
  }

  /** The disk just after the header sector naming the logged sectors has been written. */
  function Committed(g: Geometry, d: Disk, ws: seq<Write>): (r: Disk)
    requires Fits(g, d) && Accepted(g, ws)
    ensures Fits(g, r)
  {
    var a := Appended(g, d, ws);
    LoggedSectorsValid(g, ws);
    a[g.start := WithHeader(a[g.start], LoggedSectors(ws))]
  }

  /** The log blocks of `a` hold what `r` has in the sectors `secs`, slot by slot. */
  predicate Mirrors(g: Geometry, a: Disk, secs: seq<int>, r: Disk) {
    && Fits(g, a) && Fits(g, r) && ValidSectors(g, secs)
    && forall i :: 0 <= i < |secs| ==> a[g.start + 1 + i] == r[secs[i]]
  }

  lemma MirrorStep(g: Geometry, a: Disk, secs: seq<int>, r: Disk, w: Write)
    requires Mirrors(g, a, secs, r) && ValidSectors(g, Recorded(secs, w.sector))
    ensures g.IsHome(w.sector)
    ensures Mirrors(g, a[g.start + 1 + Slot(secs, w.sector) := w.data], Recorded(secs, w.sector), r[w.sector := w.data])
  {
    var i := Slot(secs, w.sector);
    assert Recorded(secs, w.sector)[i] == w.sector;
    if i < |secs| {
      assert forall j :: 0 <= j < |secs| && j != i ==> secs[j] != w.sector;
    }
  }

  /** Nothing outside the log's own blocks has moved, and sectors not logged replay unchanged. */
  lemma {:induction false} AppendedFrame(g: Geometry, d: Disk, ws: seq<Write>)
    requires Fits(g, d) && Accepted(g, ws)
    ensures Appended(g, d, ws)[g.start] == d[g.start]
    ensures forall s :: g.IsHome(s) ==> Appended(g, d, ws)[s] == d[s]
    ensures forall s :: 0 <= s < |d| && s !in LoggedSectors(ws) ==> Replay(d, ws)[s] == d[s]
  {
    if ws != [] {
      AcceptedPrefix(g, ws, |ws| - 1);
      AppendedFrame(g, d, ws[..|ws| - 1]);
    }
  }

  /** The log blocks hold the replayed contents. */
  lemma {:induction false} AppendedMirrors(g: Geometry, d: Disk, ws: seq<Write>)
    requires Fits(g, d) && Accepted(g, ws)
    ensures Mirrors(g, Appended(g, d, ws), LoggedSectors(ws), Replay(d, ws))
  {
    LoggedSectorsValid(g, ws);
    if ws != [] {
      var front, last := ws[..|ws| - 1], ws[|ws| - 1];
      AcceptedPrefix(g, ws, |ws| - 1);
      AppendedMirrors(g, d, front);
      MirrorStep(g, Appended(g, d, front), LoggedSectors(front), Replay(d, front), last);
    }
  }

  ghost predicate SameHome(g: Geometry, d: Disk, e: Disk) {
    Fits(g, d) && Fits(g, e) && forall s :: g.IsHome(s) ==> d[s] == e[s]
  }

  /** The disk after each log append. */
  function AppendImages(g: Geometry, d: Disk, ws: seq<Write>): (images: seq<Disk>)
    requires Fits(g, d) && Accepted(g, ws)
    ensures |images| == |ws|
  {
    if ws == [] then []
    else
      AcceptedPrefix(g, ws, |ws| - 1);
      AppendImages(g, d, ws[..|ws| - 1]) + [Appended(g, d, ws)]
  }

  lemma {:induction false} AppendImageAt(g: Geometry, d: Disk, ws: seq<Write>, k: nat)
    requires Fits(g, d) && Accepted(g, ws) && 0 < k <= |ws|
    ensures Accepted(g, ws[..k]) && AppendImages(g, d, ws)[k - 1] == Appended(g, d, ws[..k])
  {
    AcceptedPrefix(g, ws, k);
    if k < |ws| {
      var front := ws[..|ws| - 1];
      AcceptedPrefix(g, ws, |ws| - 1);
      AppendImageAt(g, d, front, k);
      assert front[..k] == ws[..k];
    } else {
      assert ws[..k] == ws;
    }
  }

  /** The disk after each sector write of commit_trans; none if nothing was logged. */
  function CommitImages(g: Geometry, d: Disk, ws: seq<Write>): (images: seq<Disk>)
    requires Quiet(g, d) && Accepted(g, ws)
  {
    CommittedWellFormed(g, d, ws);
    if ws == [] then [] else [Committed(g, d, ws)] + RecoveryImages(g, Committed(g, d, ws))
  }

  /** Every disk that a power failure during the transaction `ws` can leave behind, in order: the one it
      began with, one per log append, the one with the header written, one per write of the installation. */
  function CrashImages(g: Geometry, d: Disk, ws: seq<Write>): (images: seq<Disk>)
    requires Quiet(g, d) && Accepted(g, ws)
  {
    [d] + AppendImages(g, d, ws) + CommitImages(g, d, ws)
  }

  lemma CommittedWellFormed(g: Geometry, d: Disk, ws: seq<Write>)
    requires Quiet(g, d) && Accepted(g, ws)
    ensures WellFormed(g, Committed(g, d, ws))
    ensures HeaderSectors(Committed(g, d, ws)[g.start]) == LoggedSectors(ws)
  {
    LoggedSectorsValid(g, ws);
    HeaderRoundTrip(Appended(g, d, ws)[g.start], LoggedSectors(ws));
  }

  /** An uncommitted transaction leaves no trace after recovery. */
  lemma UncommittedVanishes(g: Geometry, d: Disk, ws: seq<Write>)
    requires Quiet(g, d) && Accepted(g, ws)
    ensures Quiet(g, Appended(g, d, ws)) && WellFormed(g, Appended(g, d, ws))
    ensures SameHome(g, Recovered(g, Appended(g, d, ws)), d)
  {
    AppendedFrame(g, d, ws);
    assert HeaderSectors(d[g.start]) == [];
  }

  /** Installing a mirrored log yields what it mirrors. */
  lemma InstalledMirror(g: Geometry, c: Disk, secs: seq<int>, r: Disk)
    requires Mirrors(g, c, secs, r)
    requires forall s :: g.IsHome(s) && s !in secs ==> r[s] == c[s]
    ensures SameHome(g, Erased(g, Installed(g, c, secs, |secs|)), r)
  {
    InstalledAt(g, c, secs, |secs|);
    assert secs[..|secs|] == secs;
    forall s | g.IsHome(s)
      ensures Installed(g, c, secs, |secs|)[s] == r[s]
    {
      if s in secs {
        var i :| 0 <= i < |secs| && secs[i] == s;
      }
    }
  }

  /** A committed transaction is recovered as its writes replayed in order. */
  lemma CommitEqualsReplay(g: Geometry, d: Disk, ws: seq<Write>)
    requires Quiet(g, d) && Accepted(g, ws)
    ensures WellFormed(g, Committed(g, d, ws))
    ensures SameHome(g, Recovered(g, Committed(g, d, ws)), Replay(d, ws))
  {
    CommittedWellFormed(g, d, ws);
    AppendedFrame(g, d, ws);
    AppendedMirrors(g, d, ws);
    InstalledMirror(g, Committed(g, d, ws), LoggedSectors(ws), Replay(d, ws));
  }

  /** What one crash image is, by position. */
  lemma CrashImageAt(g: Geometry, d: Disk, ws: seq<Write>, at: nat)
    requires Quiet(g, d) && Accepted(g, ws)
    requires at < |CrashImages(g, d, ws)|
    ensures WellFormed(g, CrashImages(g, d, ws)[at])
    ensures WellFormed(g, Committed(g, d, ws))
    ensures at <= |ws| ==> SameHome(g, Recovered(g, CrashImages(g, d, ws)[at]), d)
    ensures at > |ws| ==> Recovered(g, CrashImages(g, d, ws)[at]) == Recovered(g, Committed(g, d, ws))
  {
    hide Committed, RecoveryImages, Recovered, WellFormed, Accepted, Appended, AppendImages;
    CommittedWellFormed(g, d, ws);
    if at <= |ws| {
      AcceptedPrefix(g, ws, at);
      UncommittedVanishes(g, d, ws[..at]);
      if at == 0 {
        AppendedNone(g, d, ws);
      } else {
        AppendImageAt(g, d, ws, at);
      }
    } else if at > |ws| + 1 {
      var c := Committed(g, d, ws);
      assert CrashImages(g, d, ws)[at] == RecoveryImages(g, c)[at - |ws| - 2];
      RecoveryRestarts(g, c, CrashImages(g, d, ws)[at]);
    }
  }

  lemma AppendedNone(g: Geometry, d: Disk, ws: seq<Write>)
    requires Fits(g, d) && Accepted(g, ws)
    ensures ws[..0] == [] && Accepted(g, []) && Appended(g, d, []) == d
  {
  }

  /** All or nothing: crash at any write of the transaction, then crash at any write of any number of
      recoveries; the boot that completes finds the old home sectors if the header had not been
      written, the replayed ones if it had. */
  lemma CrashAtomicity(g: Geometry, d: Disk, ws: seq<Write>, at: nat, boots: seq<Disk>)
    requires Quiet(g, d) && Accepted(g, ws)
    requires at < |CrashImages(g, d, ws)|
    requires Reboots(g, boots) && boots[0] == CrashImages(g, d, ws)[at]
    ensures WellFormed(g, boots[|boots| - 1])
    ensures Quiet(g, Recovered(g, boots[|boots| - 1]))
    ensures SameHome(g, Recovered(g, boots[|boots| - 1]), if at <= |ws| then d else Replay(d, ws))
  {
    RebootsConverge(g, boots);
    CrashImageAt(g, d, ws, at);
    CommitEqualsReplay(g, d, ws);
  }

  // ---------- whole runs ----------

  /** What the machine does between two quiet disks: run a transaction to its end, or crash in it at
      write `at` and reboot until a recovery completes. */
  datatype Event =
    | Completed(ws: seq<Write>)
    | Crashed(ws: seq<Write>, at: nat, boots: seq<Disk>)
  {
    /** The transaction's header reached the disk. */
    predicate Durable() { Completed? || at > |ws| }
  }

  ghost predicate Step(g: Geometry, d: Disk, ev: Event, e: Disk) {
    && Quiet(g, d) && Accepted(g, ev.ws)
    && match ev
       case Completed(ws) =>
         WellFormed(g, Committed(g, d, ws)) && e == Recovered(g, Committed(g, d, ws))
       case Crashed(ws, at, boots) =>
         && at < |CrashImages(g, d, ws)|
         && Reboots(g, boots) && boots[0] == CrashImages(g, d, ws)[at]
         && e == Recovered(g, boots[|boots| - 1])
  }

  ghost predicate Run(g: Geometry, disks: seq<Disk>, evs: seq<Event>) {
    && |disks| == |evs| + 1
    && Quiet(g, disks[0])
    && (evs != [] ==>
          && Run(g, disks[..|evs|], evs[..|evs| - 1])
          && Step(g, disks[|evs| - 1], evs[|evs| - 1], disks[|evs|]))
  }

  /** The writes of the transactions that reached their header, in order. */
  function DurableWrites(evs: seq<Event>): (ws: seq<Write>) {
    if evs == [] then []
    else
      var last := evs[|evs| - 1];
      DurableWrites(evs[..|evs| - 1]) + if last.Durable() then last.ws else []
  }

  lemma {:induction false} ReplayConcat(d: Disk, v: seq<Write>, w: seq<Write>)
    requires forall i :: 0 <= i < |v| ==> 0 <= v[i].sector < |d|
    requires forall i :: 0 <= i < |w| ==> 0 <= w[i].sector < |d|
    ensures Replay(d, v + w) == Replay(Replay(d, v), w)
  {
    if w == [] {
      assert v + w == v;
    } else {
      ReplayConcat(d, v, w[..|w| - 1]);
      assert (v + w)[..|v + w| - 1] == v + w[..|w| - 1];
    }
  }

  lemma {:induction false} ReplayRespectsHome(g: Geometry, d: Disk, e: Disk, ws: seq<Write>)
    requires SameHome(g, d, e) && HomeWrites(g, ws)
    ensures SameHome(g, Replay(d, ws), Replay(e, ws))
  {
    if ws != [] {
      ReplayRespectsHome(g, d, e, ws[..|ws| - 1]);
    }
  }

  lemma StepMeans(g: Geometry, d: Disk, ev: Event, e: Disk)
    requires Step(g, d, ev, e)
    ensures Quiet(g, e)
    ensures SameHome(g, e, if ev.Durable() then Replay(d, ev.ws) else d)
  {
    match ev
    case Completed(ws) =>
      var c := Committed(g, d, ws);
      CommitEqualsReplay(g, d, ws);
      RebootsConverge(g, [c]);
    case Crashed(ws, at, boots) =>
      CrashAtomicity(g, d, ws, at, boots);
  }

  /** Over any run of transactions, crashes and reboots, the home sectors are those of a serial
      execution of exactly the durable transactions, and the log is empty. */
  lemma {:induction false} RunIsSerial(g: Geometry, disks: seq<Disk>, evs: seq<Event>)
    requires Run(g, disks, evs)
    ensures Quiet(g, disks[|evs|])
    ensures HomeWrites(g, DurableWrites(evs))
    ensures SameHome(g, disks[|evs|], Replay(disks[0], DurableWrites(evs)))
  {
    if evs != [] {
      var n := |evs| - 1;
      var before, last := DurableWrites(evs[..n]), evs[n];
      RunIsSerial(g, disks[..|evs|], evs[..n]);
      StepMeans(g, disks[n], last, disks[n + 1]);
      if last.Durable() {
        ReplayConcat(disks[0], before, last.ws);
        ReplayRespectsHome(g, disks[n], Replay(disks[0], before), last.ws);
      } else {
        assert DurableWrites(evs) == before;
      }
    }
  }
}
