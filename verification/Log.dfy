/** The redo log (log.c) run over the buffer cache. Each method is proved to write exactly the
    disks that `LogSpec` describes, in order, so every crash image is accounted for. */
module Log {
  import opened Words
  import opened Sets
  import opened Bio
  import opened LogSpec

  ghost predicate OutsideLog(g: Geometry, s: set<int>) {
    forall x :: x in s ==> !g.InLog(x)
  }

  /** The disk is `base` with `ws` appended to the log, `secs` is the header in memory and `pinned`
      the set of sectors it names. */
  ghost predicate Logged(g: Geometry, base: Disk, ws: seq<Write>, disk: Disk, secs: seq<int>, pinned: set<int>) {
    && Quiet(g, base) && Accepted(g, ws)
    && disk == Appended(g, base, ws)
    && secs == LoggedSectors(ws)
    && pinned == Members(secs)
  }

  /** Every disk write since position `mark` was an append of this transaction. */
  ghost predicate Tracked(g: Geometry, base: Disk, ws: seq<Write>, images: seq<Disk>, mark: nat) {
    && Quiet(g, base) && Accepted(g, ws)
    && mark <= |images| && images[mark..] == AppendImages(g, base, ws)
  }

  /** The same once the transaction has been committed: nothing was written but its crash images. */
  ghost predicate Written(g: Geometry, base: Disk, ws: seq<Write>, images: seq<Disk>, mark: nat) {
    && Quiet(g, base) && Accepted(g, ws)
    && mark <= |images| && [base] + images[mark..] == CrashImages(g, base, ws)
  }

  /** How log_write ends: the panics "too big a transaction", "write outside of trans" and "bget: no buffers". */
  datatype LogResult = Done | TooBig | Outside | NoBuffer

  class Log {
    const bc: Bcache
    const start: nat
    const size: nat
    var n: nat             // lh.n
    var sector: seq<int>   // lh.sector
    var busy: bool
    ghost var base: Disk       // the disk when the transaction began
    ghost var ws: seq<Write>   // what has been passed to log_write since
    ghost var mark: nat        // the number of disk writes before it began

    ghost function Geo(): Geometry reads bc { Geometry(start, size, |bc.memdisk|) }

    ghost predicate Placed()
      reads this, bc
    {
      bc.Valid() && Geo().Valid() && |bc.memdisk| < 0x1_0000_0000 && |sector| == LOGSIZE && n <= LOGSIZE
    }

    /** Nobody but the log itself touches the log's own sectors. */
    ghost predicate LogFree()
      reads this, bc
    {
      OutsideLog(Geo(), bc.Held())
    }

    /** initlog, up to the call of recover_from_log. */
    constructor (bc: Bcache, start: nat, size: nat)
      ensures this.bc == bc && this.start == start && this.size == size
      ensures n == 0 && |sector| == LOGSIZE && !busy && ws == [] && base == bc.memdisk && mark == |bc.images|
    {
      this.bc, this.start, this.size := bc, start, size;
      n, sector, busy := 0, seq(LOGSIZE, _ => 0), false;
      base, ws, mark := bc.memdisk, [], |bc.images|;
    }

    /** The count and the sector numbers laid over a header block. */
    method HeaderOver(h: Block, ghost secs: seq<int>) returns (hb: Block)
      requires n <= |sector| && secs == sector[..n] && ValidSectors(Geo(), secs)
      ensures hb == WithHeader(h, secs)
    {
      hide PutWord;
      hb := PutWord(h, 0, n);
      var i := 0;
      while i < n
        invariant 0 <= i <= n
        invariant hb == WithSlots(PutWord(h, 0, n), secs, i)
      {
        hb := PutWord(hb, 4 + 4 * i, sector[i]);
        i := i + 1;
      }
    }

    /** write_head: one sector write, of the header block with the logged sectors in it; false is the panic "bget: no
        buffers". */
    method WriteHead(ghost secs: seq<int>) returns (ok: bool)
      requires Placed() && LogFree()
      requires secs == sector[..n] && ValidSectors(Geo(), secs)
      modifies bc
      ensures bc.Valid() && (|old(bc.Held()) + old(bc.Pinned())| < NBUF ==> ok)
      ensures start !in old(bc.Pinned()) && ok ==> |old(bc.Held()) + old(bc.Pinned())| < NBUF
      ensures !ok ==> bc.buf == old(bc.buf) && bc.memdisk == old(bc.memdisk) && bc.images == old(bc.images)
      ensures ok ==>
        && bc.Held() == old(bc.Held()) && bc.Pinned() == old(bc.Pinned()) - {start}
        && bc.memdisk == old(bc.memdisk)[start := WithHeader(old(bc.View(start)), secs)]
        && bc.images == old(bc.images) + [bc.memdisk]
    {
      hide Bcache.Valid, Bcache.Held, Bcache.Pinned, Bcache.View, Granted, Cached;
      hide WithHeader, ValidSectors;
      var r := bc.Bread(start);
      if r.NoBuffers? {
        return false;
      }
      var b := r.b;
      var hb := HeaderOver(bc.buf[b].data, secs);
      bc.Fill(b, hb);
      bc.Bwrite(b);
      bc.Brelse(b);
      ok := true;
    }

    /** read_head: count and sectors as the header block has them. */
    method ReadHead()
      requires Placed() && LogFree() && start !in bc.Pinned()
      requires |bc.Held() + bc.Pinned()| < NBUF
      requires HeaderCount(bc.memdisk[start]) <= LOGSIZE
      modifies bc, this`n, this`sector
      ensures bc.Valid() && bc.Held() == old(bc.Held()) && bc.Pinned() == old(bc.Pinned())
      ensures bc.memdisk == old(bc.memdisk) && bc.images == old(bc.images)
      ensures n == HeaderCount(bc.memdisk[start]) && |sector| == LOGSIZE
      ensures sector[..n] == HeaderSectors(bc.memdisk[start])
    {
      hide Bcache.Valid, Bcache.Held, Bcache.Pinned, Bcache.View, Granted, Cached;
      bc.CleanView(start);
      var r := bc.Bread(start);
      var b := r.b;
      var lh := bc.buf[b].data;
      n := GetWord(lh, 0);
      var i := 0;
      while i < n
        invariant 0 <= i <= n && |sector| == LOGSIZE
        invariant forall j :: 0 <= j < i ==> sector[j] == HeaderSector(lh, j)
        modifies this`sector
      {
        sector := sector[i := GetWord(lh, 4 + 4 * i)];
        i := i + 1;
      }
      bc.Brelse(b);
    }

    /** The two reads of an install_trans round: a log block and its home. */
    method ReadPair(ls: nat, ds: nat) returns (lbuf: nat, dbuf: nat)
      requires bc.Valid() && ls < |bc.memdisk| && ds < |bc.memdisk| && ls != ds
      requires ls !in bc.Held() && ds !in bc.Held() && ls !in bc.Pinned()
      requires |bc.Held() + bc.Pinned()| < NBUF
      requires ds in bc.Pinned() || |bc.Held() + bc.Pinned()| + 1 < NBUF
      modifies bc
      ensures bc.Valid() && bc.memdisk == old(bc.memdisk) && bc.images == old(bc.images)
      ensures bc.Owns(lbuf, ls) && bc.Owns(dbuf, ds) && bc.buf[lbuf].data == bc.memdisk[ls]
      ensures bc.Held() == old(bc.Held()) + {ls, ds} && bc.Pinned() == old(bc.Pinned())
    {
      hide Bcache.Valid, Bcache.Held, Bcache.Pinned, Bcache.View, Granted, Cached;
      bc.CleanView(ls);
      var r := bc.Bread(ls);
      lbuf := r.b;
      assert bc.Held() + bc.Pinned() == (old(bc.Held()) + old(bc.Pinned())) + {ls};
      r := bc.Bread(ds);
      dbuf := r.b;
    }

    /** One round of install_trans: copy log block `tail` to its home. */
    method InstallOne(tail: nat)
      requires Placed() && LogFree()
      requires tail < n && tail + 1 < size
      requires Geo().IsHome(sector[tail]) && sector[tail] !in bc.Held()
      requires OutsideLog(Geo(), bc.Pinned())
      requires |bc.Held() + bc.Pinned()| < NBUF
      requires sector[tail] in bc.Pinned() || |bc.Held() + bc.Pinned()| + 1 < NBUF
      modifies bc
      ensures bc.Valid() && bc.Held() == old(bc.Held()) && bc.Pinned() == old(bc.Pinned()) - {sector[tail]}
      ensures bc.memdisk == old(bc.memdisk)[sector[tail] := old(bc.memdisk)[start + tail + 1]]
      ensures bc.images == old(bc.images) + [bc.memdisk]
    {
      hide Bcache.Valid, Bcache.Held, Bcache.Pinned, Bcache.View, Granted, Cached;
      var ls, ds := start + tail + 1, sector[tail];
      var lbuf, dbuf := ReadPair(ls, ds);
      bc.Fill(dbuf, bc.buf[lbuf].data);
      bc.Bwrite(dbuf);
      bc.Brelse(lbuf);
      bc.Brelse(dbuf);
    }

    /** install_trans: every logged block is written to its home, in order. */
    method InstallTrans(ghost secs: seq<int>)
      requires Placed() && LogFree()
      requires secs == sector[..n] && ValidSectors(Geo(), secs)
      requires Members(secs) !! bc.Held()
      requires OutsideLog(Geo(), bc.Pinned())
      requires |bc.Held() + bc.Pinned()| < NBUF
      requires Members(secs) <= bc.Pinned() || |bc.Held() + bc.Pinned()| + 1 < NBUF
      modifies bc
      ensures bc.Valid() && bc.Held() == old(bc.Held()) && bc.Pinned() == old(bc.Pinned()) - Members(secs)
      ensures |bc.memdisk| == old(|bc.memdisk|)
      ensures bc.memdisk == Installed(Geo(), old(bc.memdisk), secs, |secs|)
      ensures bc.images == old(bc.images) + InstallImages(Geo(), old(bc.memdisk), secs, |secs|)
    {
      hide Bcache.Valid, Bcache.Held, Bcache.Pinned, Bcache.View;
      hide Installed, InstallImages, Members, ValidSectors, OutsideLog;
      ghost var g, d := Geo(), bc.memdisk;
      InstallStart(g, d, secs);
      var tail := 0;
      while tail < n
        invariant 0 <= tail <= n
        invariant bc.Valid() && bc.Held() == old(bc.Held()) && bc.Pinned() == old(bc.Pinned()) - Members(secs[..tail])
        invariant |bc.memdisk| == |d| && bc.memdisk == Installed(g, d, secs, tail)
        invariant bc.images == old(bc.images) + InstallImages(g, d, secs, tail)
      {
        InstallRoom(g, old(bc.Held()), old(bc.Pinned()), secs, tail);
        InstallStep(g, d, secs, tail);
        InstallOne(tail);
        tail := tail + 1;
      }
      assert secs[..n] == secs;
    }

    /** install_trans, then a header that names nothing. */
    method InstallAndErase(ghost secs: seq<int>)
      requires Placed() && LogFree() && secs == sector[..n] && ValidSectors(Geo(), secs)
      requires Members(secs) !! bc.Held() && OutsideLog(Geo(), bc.Pinned()) && |bc.Held() + bc.Pinned()| < NBUF
      requires Members(secs) <= bc.Pinned() || |bc.Held() + bc.Pinned()| + 1 < NBUF
      modifies bc, this`n
      ensures Placed() && n == 0 && |bc.memdisk| == old(|bc.memdisk|)
      ensures bc.Held() == old(bc.Held()) && bc.Pinned() == old(bc.Pinned()) - Members(secs)
      ensures bc.memdisk == Erased(Geo(), Installed(Geo(), old(bc.memdisk), secs, |secs|))
      ensures bc.images == old(bc.images) + InstallImages(Geo(), old(bc.memdisk), secs, |secs|) + [bc.memdisk]
    {
      hide Bcache.Valid, Bcache.Held, Bcache.Pinned, Bcache.View;
      hide Installed, InstallImages, Members, ValidSectors, WithHeader;
      ghost var h, p := bc.Held(), bc.Pinned();
      InstallTrans(secs);
      n := 0;
      SubsetSize(bc.Held() + bc.Pinned(), h + p);
      EmptyIsValid(Geo());
      bc.CleanView(start);
      var ok := WriteHead([]);
      assert ok;
    }

    /** Recover at boot. */
    method RecoverFromLog()
      requires Placed() && LogFree() && bc.Pinned() == {} && |bc.Held()| + 1 < NBUF && !busy
      requires WellFormed(Geo(), bc.memdisk)
      requires Members(HeaderSectors(bc.memdisk[start])) !! bc.Held()
      modifies bc, this`n, this`sector, this`base, this`ws, this`mark
      ensures Valid() && bc.Held() == old(bc.Held()) && base == bc.memdisk && mark == |bc.images|
      ensures |bc.memdisk| == old(|bc.memdisk|)
      ensures bc.memdisk == Recovered(Geo(), old(bc.memdisk))
      ensures bc.images == old(bc.images) + RecoveryImages(Geo(), old(bc.memdisk))
    {
      hide Bcache.Valid, Bcache.Held, Bcache.Pinned, Bcache.View;
      hide Installed, InstallImages, Members, ValidSectors, HeaderSectors, WithHeader, Logged, Tracked;
      ghost var d := bc.memdisk;
      assert bc.Held() + bc.Pinned() == bc.Held();
      ReadHead();
      ghost var secs := sector[..n];
      InstallAndErase(secs);
      base, ws, mark := bc.memdisk, [], |bc.images|;
      ErasedIsQuiet(Geo(), Installed(Geo(), d, secs, |secs|));
      IdleIsValid();
    }

    /** Between calls: the disk is the transaction's start with its writes appended to the log, the
        pinned buffers are exactly the logged sectors, and every sector nobody holds reads as the
        writes so far would leave it. */
    ghost predicate Valid()
      reads this, bc
    {
      && Placed() && LogFree()
      && Logged(Geo(), base, ws, bc.memdisk, sector[..n], bc.Pinned())
      && |base| == |bc.memdisk| && HomeWrites(Geo(), ws)
      && (forall s :: Geo().IsHome(s) && s !in bc.Held() ==> bc.View(s) == Replay(base, ws)[s])
      && (!busy ==> ws == [])
      && Tracked(Geo(), base, ws, bc.images, mark)
    }

    /** An empty log, nothing pinned. */
    lemma IdleIsValid()
      requires Placed() && LogFree() && !busy && n == 0 && ws == []
      requires base == bc.memdisk && bc.Pinned() == {} && Quiet(Geo(), base) && mark == |bc.images|
      ensures Valid()
    {
      hide Bcache.Valid, Bcache.Held, Bcache.Pinned, Bcache.View;
      IdleIsLogged(Geo(), base);
      bc.CleanViews();
      assert sector[..n] == [];
      assert Replay(base, ws) == base;
    }

    /** Locked buffers other than `b` and the sectors outside the log are as they were. */
    ghost predicate OthersSame(b: nat, bufs: seq<Buf>, disk: Disk)
      reads this, bc
    {
      && |bc.buf| == |bufs| == NBUF && |bc.memdisk| == |disk| == Geo().disksize
      && (forall c :: 0 <= c < NBUF && c != b && bufs[c].busy ==> bc.buf[c] == bufs[c])
      && (forall t :: Geo().IsHome(t) ==> bc.memdisk[t] == disk[t])
    }

    /** A locked buffer with the current block of its sector, fit to be released. */
    ghost predicate Current(b: nat, s: int)
      reads this, bc
      requires Valid() && Geo().IsHome(s)
    {
      && bc.Owns(b, s)
      && bc.buf[b].data == Replay(base, ws)[s]
      && (bc.buf[b].dirty || bc.buf[b].data == bc.memdisk[s])
    }

    /** One pass of begin_trans; false is going to sleep, because another transaction is active. */
    method BeginTrans() returns (ok: bool)
      requires Valid()
      modifies this`busy
      ensures Valid() && busy && (ok <==> !old(busy))
    {
      hide Bcache.Valid, Bcache.Held, Bcache.Pinned, Bcache.View, Logged, Replay, Tracked, HomeWrites;
      ok := !busy;
      busy := true;
    }

    /** The search of log_write: the slot holding `s`, or the first free one. */
    method FindSlot(s: int) returns (i: nat)
      requires |sector| == LOGSIZE && n <= LOGSIZE
      ensures i == Slot(sector[..n], s)
    {
      i := 0;
      while i < n
        invariant i <= n && s !in sector[..i]
      {
        if sector[i] == s {
          break;
        }
        i := i + 1;
      }
      SlotIsFirst(sector[..n], s, i);
    }

    /** Copy a block into log block `i`. */
    method AppendBlock(i: nat, data: Block) returns (ok: bool)
      requires Placed() && LogFree() && i + 1 < size && start + i + 1 !in bc.Pinned()
      modifies bc
      ensures bc.Valid() && |bc.memdisk| == old(|bc.memdisk|)
      ensures ok <==> |old(bc.Held()) + old(bc.Pinned())| < NBUF
      ensures !ok ==> bc.memdisk == old(bc.memdisk) && bc.images == old(bc.images)
      ensures ok ==>
        && bc.Held() == old(bc.Held()) && bc.Pinned() == old(bc.Pinned())
        && bc.memdisk == old(bc.memdisk)[start + i + 1 := data]
        && bc.images == old(bc.images) + [bc.memdisk]
        && |bc.buf| == NBUF && (forall b :: 0 <= b < NBUF && old(bc.buf)[b].busy ==> bc.buf[b] == old(bc.buf)[b])
        && (forall t :: Geo().IsHome(t) ==> bc.View(t) == old(bc.View(t)))
    {
      hide Bcache.Valid, Bcache.Held, Bcache.Pinned, Bcache.View, Granted, Cached;
      var ls := start + i + 1;
      var r := bc.Bread(ls);
      if r.NoBuffers? {
        return false;
      }
      var lbuf := r.b;
      bc.Fill(lbuf, data);
      bc.Bwrite(lbuf);
      bc.Brelse(lbuf);
      ok := true;
    }

    /** log_write past its two tests: absorb or append the block. `ok` is false for the panic "bget: no buffers". */
    method LogBlock(b: nat) returns (ok: bool)
      requires Valid() && busy
      requires b < NBUF && bc.Owns(b, bc.buf[b].sector) && Geo().IsHome(bc.buf[b].sector)
      requires n < LOGSIZE && n < size - 1
      modifies bc, this`n, this`sector, this`ws
      ensures ok <==> |old(bc.Held()) + old(bc.Pinned())| < NBUF
      ensures !ok ==> bc.memdisk == old(bc.memdisk) && bc.images == old(bc.images)
      ensures ok ==>
        && Valid() && busy
        && ws == old(ws) + [Write(old(bc.buf[b].sector), old(bc.buf[b].data))]
        && bc.images == old(bc.images) + [bc.memdisk]
        && bc.Held() == old(bc.Held())
        && bc.Owns(b, old(bc.buf[b].sector)) && bc.buf[b] == old(bc.buf[b]).(dirty := true)
        && Replay(base, ws)[old(bc.buf[b].sector)] == old(bc.buf[b].data)
        && (forall t :: Geo().IsHome(t) ==> bc.View(t) == old(bc.View(t)))
        && OthersSame(b, old(bc.buf), old(bc.memdisk))
    {
      hide Bcache.Valid, Bcache.Held, Bcache.Pinned, Bcache.View;
      hide LoggedSectors, Accepted, Replay, Logged, Recorded, Tracked, HomeWrites, Slot;
      var s, data := bc.buf[b].sector, bc.buf[b].data;
      ghost var g, secs, w := Geo(), sector[..n], Write(s, data);
      bc.OwnedIsHeld(b, s);
      var i := FindSlot(s);
      LoggedStep(g, base, ws, bc.memdisk, secs, bc.Pinned(), w);
      sector := sector[i := s];
      ok := AppendBlock(i, data);
      if !ok {
        return;
      }
      if i == n {
        n := n + 1;
      }
      bc.Pin(b);
      ws := ws + [w];
      RecordedAt(secs, s, sector, n);
      TrackedStep(g, base, old(ws), w, old(bc.images), mark, bc.memdisk, sector[..n], bc.Pinned());
    }

    /** Append the block a caller has modified to the log; every outcome but `Done` is a panic. */
    method LogWrite(b: nat) returns (r: LogResult)
      requires Valid()
      requires b < NBUF && bc.Owns(b, bc.buf[b].sector) && Geo().IsHome(bc.buf[b].sector)
      modifies bc, this`n, this`sector, this`ws
      ensures r.TooBig? <==> old(n) >= LOGSIZE || old(n) >= size - 1
      ensures r.Outside? <==> old(n) < LOGSIZE && old(n) < size - 1 && !busy
      ensures r.Done? <==> old(n) < LOGSIZE && old(n) < size - 1 && busy && |old(bc.Held()) + old(bc.Pinned())| < NBUF
      ensures !r.Done? ==> bc.memdisk == old(bc.memdisk) && bc.images == old(bc.images)
      ensures r.Done? ==>
        && Valid()
        && ws == old(ws) + [Write(old(bc.buf[b].sector), old(bc.buf[b].data))]
        && bc.images == old(bc.images) + [bc.memdisk]
        && bc.Held() == old(bc.Held())
        && bc.Owns(b, old(bc.buf[b].sector)) && bc.buf[b] == old(bc.buf[b]).(dirty := true)
        && Replay(base, ws)[old(bc.buf[b].sector)] == old(bc.buf[b].data)
        && (forall t :: Geo().IsHome(t) ==> bc.View(t) == old(bc.View(t)))
        && OthersSame(b, old(bc.buf), old(bc.memdisk))
    {
      hide Bcache.Valid, Bcache.Held, Bcache.Pinned, Bcache.View, Logged, Replay, Tracked, HomeWrites;
      if n >= LOGSIZE || n >= size - 1 {
        return LogResult.TooBig;
      }
      if !busy {
        return LogResult.Outside;
      }
      var ok := LogBlock(b);
      r := if ok then Done else NoBuffer;
    }

    /** bread of a sector nobody holds. */
    method Lock(s: nat) returns (r: Lookup)
      requires Valid() && Geo().IsHome(s) && s !in bc.Held()
      modifies bc
      ensures Valid() && !r.Asleep? && bc.memdisk == old(bc.memdisk) && bc.images == old(bc.images)
      ensures r.NoBuffers? ==> |old(bc.Held()) + old(bc.Pinned())| >= NBUF && s !in old(bc.Pinned())
      ensures r.Got? ==>
        && Current(r.b, s) && bc.Held() == old(bc.Held()) + {s as int}
        && OthersSame(r.b, old(bc.buf), old(bc.memdisk)) && !old(bc.buf)[r.b].busy
    {
      hide Bcache.Valid, Bcache.Held, Bcache.Pinned, Bcache.View, Granted, Cached, Logged, Replay, Tracked, HomeWrites;
      bc.CleanViews();
      bc.Sized();
      r := bc.Bread(s);
    }

    /** The holder of a buffer changes it and passes it to log_write. */
    method Store(b: nat, data: Block) returns (r: LogResult)
      requires Valid() && b < NBUF && bc.Owns(b, bc.buf[b].sector) && Geo().IsHome(bc.buf[b].sector)
      modifies bc, this`n, this`sector, this`ws
      ensures r.Done? <==> old(n) < LOGSIZE && old(n) < size - 1 && busy && |old(bc.Held()) + old(bc.Pinned())| < NBUF
      ensures r.Done? ==>
        && Valid() && ws == old(ws) + [Write(old(bc.buf[b].sector), data)] && bc.Held() == old(bc.Held())
        && bc.images == old(bc.images) + [bc.memdisk]
        && Current(b, old(bc.buf[b].sector)) && OthersSame(b, old(bc.buf), old(bc.memdisk))
    {
      hide Bcache.Valid, Bcache.Held, Bcache.Pinned, Bcache.View, Logged, Replay, Tracked, HomeWrites;
      bc.OwnedIsHeld(b, bc.buf[b].sector);
      bc.Sized();
      bc.Fill(b, data);
      r := LogWrite(b);
    }

    /** brelse of a buffer whose changes have been logged. */
    method Unlock(b: nat, s: int)
      requires Valid() && Geo().IsHome(s) && Current(b, s)
      modifies bc
      ensures Valid() && bc.memdisk == old(bc.memdisk) && bc.images == old(bc.images)
      ensures bc.Held() == old(bc.Held()) - {s} && OthersSame(b, old(bc.buf), old(bc.memdisk))
    {
      hide Bcache.Valid, Bcache.Held, Bcache.Pinned, Bcache.View, Logged, Replay, Tracked, HomeWrites;
      bc.OwnedView(b, s);
      bc.Sized();
      bc.Brelse(b);
    }

    /** bread and brelse of a sector nobody holds: the caller sees every write so far, logged or committed. */
    method ReadBlock(s: nat) returns (r: Lookup, data: Block)
      requires Valid() && Geo().IsHome(s) && s !in bc.Held()
      modifies bc
      ensures r.Got? || r.NoBuffers?
      ensures r.NoBuffers? <==> s !in old(bc.Pinned()) && |old(bc.Held()) + old(bc.Pinned())| >= NBUF
      ensures Valid() && bc.Held() == old(bc.Held())
      ensures bc.memdisk == old(bc.memdisk) && bc.images == old(bc.images)
      ensures r.Got? ==> data == Replay(base, ws)[s]
    {
      hide Bcache.Valid, Bcache.Held, Bcache.Pinned, Bcache.View, Granted, Cached, Logged, Replay, Tracked, HomeWrites;
      data := ZeroBlock();
      bc.CleanViews();
      r := bc.Bread(s);
      if r.Got? {
        data := bc.buf[r.b].data;
        bc.Brelse(r.b);
      }
    }

    /** The documented use of the log: bread, modify, log_write, brelse. Beside log_write's own tests it panics
        exactly when the sectors held or pinned, this one included, are as many as the buffers. */
    method WriteBlock(s: nat, data: Block) returns (r: LogResult)
      requires Valid() && Geo().IsHome(s) && s !in bc.Held()
      modifies bc, this`n, this`sector, this`ws
      ensures r.Done? <==>
        old(n) < LOGSIZE && old(n) < size - 1 && busy && |old(bc.Held()) + old(bc.Pinned()) + {s}| < NBUF
      ensures !r.Done? ==> bc.memdisk == old(bc.memdisk) && bc.images == old(bc.images)
      ensures r.Done? ==>
        && Valid()
        && ws == old(ws) + [Write(s, data)]
        && bc.Held() == old(bc.Held())
        && bc.images == old(bc.images) + [bc.memdisk]
    {
      hide Bcache.Valid, Bcache.Held, Bcache.Pinned, Bcache.View, Granted, Cached, Logged, Replay, Tracked, HomeWrites;
      ghost var h, p := bc.Held(), bc.Pinned();
      SubsetSize(h + p, h + p + {s});
      var l := bc.Bread(s);
      if l.NoBuffers? {
        return NoBuffer;
      }
      assert h + p + {s} == bc.Held() + bc.Pinned();
      bc.Fill(l.b, data);
      r := LogWrite(l.b);
      if r.Done? {
        bc.Brelse(l.b);
      }
    }

    /** The body of commit_trans when something was logged: write the header, install, erase the header. */
    method Publish(ghost secs: seq<int>) returns (ok: bool)
      requires Placed() && LogFree()
      requires secs == sector[..n] && ValidSectors(Geo(), secs)
      requires Members(secs) !! bc.Held() && bc.Pinned() == Members(secs) && OutsideLog(Geo(), bc.Pinned())
      modifies bc, this`n
      ensures ok <==> |old(bc.Held()) + old(bc.Pinned())| < NBUF
      ensures !ok ==> bc.memdisk == old(bc.memdisk) && bc.images == old(bc.images)
      ensures ok ==>
        && Placed() && bc.Held() == old(bc.Held()) && bc.Pinned() == {}
        && n == 0 && |bc.memdisk| == old(|bc.memdisk|)
        && bc.memdisk == PublishedDisk(Geo(), old(bc.memdisk), secs)
        && bc.images == old(bc.images) + PublishedImages(Geo(), old(bc.memdisk), secs)
    {
      hide Bcache.Valid, Bcache.Held, Bcache.Pinned, Bcache.View;
      hide ValidSectors, WithHeader, Installed, InstallImages, Members;
      ghost var g, d := Geo(), bc.memdisk;
      bc.CleanView(start);
      ok := WriteHead(secs);
      if !ok {
        return;
      }
      assert bc.memdisk == WithHeaderAt(g, d, secs);
      assert bc.Pinned() == Members(secs);
      InstallAndErase(secs);
    }

    /** Commit and become idle. False is the panic "bget: no buffers": it comes before the first write or not at all. */
    method CommitTrans() returns (ok: bool)
      requires Valid() && busy && Members(sector[..n]) !! bc.Held()
      modifies bc, this`n, this`busy, this`base, this`ws, this`mark
      ensures ok <==> old(n) == 0 || |old(bc.Held()) + old(bc.Pinned())| < NBUF
      ensures !ok ==> bc.memdisk == old(bc.memdisk) && bc.images == old(bc.images)
      ensures ok ==>
        && Valid() && !busy && base == bc.memdisk && mark == |bc.images|
        && bc.Held() == old(bc.Held()) && bc.Pinned() == {}
        && Geo() == old(Geo()) && CommitsTo(Geo(), old(base), old(ws), bc.memdisk)
        && Written(Geo(), old(base), old(ws), bc.images, old(mark)) && old(bc.images) <= bc.images
    {
      hide Bcache.Valid, Bcache.Held, Bcache.Pinned, Bcache.View;
      hide Logged, ValidSectors, PublishedDisk, PublishedImages, Members, Accepted, CommitsTo;
      hide CommitImages, Tracked, Written, Quiet;
      ghost var g, d, secs := Geo(), bc.memdisk, sector[..n];
      PlanSectors(g, base, ws, d, secs, bc.Pinned());
      PlanDisk(g, base, ws, d, secs, bc.Pinned());
      ok := true;
      if n > 0 {
        ok := Publish(secs);
        if !ok {
          return;
        }
      }
      TrackedCommit(g, base, ws, old(bc.images), mark, bc.images);
      base, ws, mark := bc.memdisk, [], |bc.images|;
      busy := false;
      IdleIsValid();
    }
  }

  /** The disk a transaction leaves, and what it means. */
  ghost predicate CommitsTo(g: Geometry, base: Disk, ws: seq<Write>, disk: Disk) {
    && Quiet(g, base) && Accepted(g, ws)
    && WellFormed(g, Committed(g, base, ws))
    && disk == Recovered(g, Committed(g, base, ws))
    && Quiet(g, disk)
    && SameHome(g, disk, Replay(base, ws))
  }

  lemma RecordedAt(secs: seq<int>, s: int, sector: seq<int>, n: nat)
    requires var i := Slot(secs, s);
             && n == (if i == |secs| then |secs| + 1 else |secs|) && n <= |sector|
             && |secs| <= |sector| && sector[i] == s
             && forall j :: 0 <= j < |secs| && j != i ==> sector[j] == secs[j]
    ensures sector[..n] == Recorded(secs, s)
  {
  }

  lemma SlotIsFirst(secs: seq<int>, s: int, i: nat)
    requires i <= |secs| && s !in secs[..i] && (i < |secs| ==> secs[i] == s)
    ensures i == Slot(secs, s)
  {
    var j := Slot(secs, s);
    assert forall k :: 0 <= k < j ==> secs[k] in secs[..j];
    assert forall k :: 0 <= k < i ==> secs[k] in secs[..i];
  }

  /** One more accepted write, seen from each of the functions of the write list. */
  lemma AppendOne(g: Geometry, base: Disk, ws: seq<Write>, w: Write)
    requires Fits(g, base) && Accepted(g, ws)
    requires g.IsHome(w.sector) && w.sector < 0x1_0000_0000
    requires |LoggedSectors(ws)| < LOGSIZE && |LoggedSectors(ws)| < g.size - 1
    ensures Accepted(g, ws + [w])
    ensures LoggedSectors(ws + [w]) == Recorded(LoggedSectors(ws), w.sector)
    ensures Appended(g, base, ws + [w]) ==
            Appended(g, base, ws)[g.start + 1 + Slot(LoggedSectors(ws), w.sector) := w.data]
    ensures Replay(base, ws + [w]) == Replay(base, ws)[w.sector := w.data]
  {
    var ws' := ws + [w];
    assert ws'[..|ws|] == ws;
    assert Accepted(g, ws') by {
      forall i | 0 <= i < |ws'|
        ensures |LoggedSectors(ws'[..i])| < LOGSIZE && |LoggedSectors(ws'[..i])| < g.size - 1
      {
        if i < |ws| { assert ws'[..i] == ws[..i]; }
      }
    }
  }

  lemma AcceptedHome(g: Geometry, ws: seq<Write>)
    requires Accepted(g, ws)
    ensures HomeWrites(g, ws)
  {
  }

  lemma TrackedStep(g: Geometry, base: Disk, ws: seq<Write>, w: Write, images: seq<Disk>, mark: nat, disk: Disk,
                    secs: seq<int>, pinned: set<int>)
    requires Tracked(g, base, ws, images, mark)
    requires Logged(g, base, ws + [w], disk, secs, pinned)
    ensures Tracked(g, base, ws + [w], images + [disk], mark)
  {
    hide Accepted, Appended;
    assert (ws + [w])[..|ws|] == ws;
    assert (images + [disk])[mark..] == images[mark..] + [disk];
  }

  lemma TrackedCommit(g: Geometry, base: Disk, ws: seq<Write>, images: seq<Disk>, mark: nat, after: seq<Disk>)
    requires Tracked(g, base, ws, images, mark)
    requires after == images + CommitImages(g, base, ws)
    ensures Written(g, base, ws, after, mark)
  {
    hide Accepted, CommitImages, AppendImages;
    assert after[mark..] == images[mark..] + CommitImages(g, base, ws);
    assert [base] + after[mark..] == CrashImages(g, base, ws);
  }

  lemma LogNotPinned(g: Geometry, ws: seq<Write>, s: int)
    requires g.Valid() && Accepted(g, ws) && g.InLog(s)
    ensures s !in Members(LoggedSectors(ws))
  {
    hide Members, LoggedSectors, Accepted;
    LoggedSectorsValid(g, ws);
  }

  lemma LoggedStep(g: Geometry, base: Disk, ws: seq<Write>, disk: Disk, secs: seq<int>, pinned: set<int>, w: Write)
    requires Logged(g, base, ws, disk, secs, pinned)
    requires g.IsHome(w.sector) && w.sector < 0x1_0000_0000
    requires |secs| < LOGSIZE && |secs| < g.size - 1
    ensures var i := g.start + 1 + Slot(secs, w.sector);
            && g.InLog(i) && i !in pinned
            && Logged(g, base, ws + [w], disk[i := w.data], Recorded(secs, w.sector), pinned + {w.sector})
    ensures |base| == |disk| && HomeWrites(g, ws + [w])
    ensures Replay(base, ws + [w]) == Replay(base, ws)[w.sector := w.data]
  {
    hide LoggedSectors, Replay, Accepted, Appended, Members, Slot, Recorded, HomeWrites;
    AppendOne(g, base, ws, w);
    AcceptedHome(g, ws + [w]);
    RecordedMembers(secs, w.sector);
    LogNotPinned(g, ws, g.start + 1 + Slot(secs, w.sector));
  }

  function WithHeaderAt(g: Geometry, d: Disk, secs: seq<int>): (c: Disk)
    requires Fits(g, d) && ValidSectors(g, secs)
    ensures Fits(g, c)
  {
    d[g.start := WithHeader(d[g.start], secs)]
  }

  /** The disk once a header naming `secs` has been written, installed and erased. */
  function PublishedDisk(g: Geometry, d: Disk, secs: seq<int>): (f: Disk)
    requires Fits(g, d) && ValidSectors(g, secs)
    ensures Fits(g, f)
  {
    Erased(g, Installed(g, WithHeaderAt(g, d, secs), secs, |secs|))
  }

  function PublishedImages(g: Geometry, d: Disk, secs: seq<int>): (images: seq<Disk>)
    requires Fits(g, d) && ValidSectors(g, secs)
  {
    var c := WithHeaderAt(g, d, secs);
    [c] + InstallImages(g, c, secs, |secs|) + [PublishedDisk(g, d, secs)]
  }

  lemma PlanSectors(g: Geometry, base: Disk, ws: seq<Write>, disk: Disk, secs: seq<int>, pinned: set<int>)
    requires Logged(g, base, ws, disk, secs, pinned)
    ensures Fits(g, disk) && ValidSectors(g, secs)
    ensures pinned == Members(secs) && OutsideLog(g, pinned)
    ensures (secs == [] <==> ws == []) && (secs == [] ==> pinned == {})
  {
    LoggedSectorsValid(g, ws);
  }

  lemma PlanDisk(g: Geometry, base: Disk, ws: seq<Write>, disk: Disk, secs: seq<int>, pinned: set<int>)
    requires Logged(g, base, ws, disk, secs, pinned)
    requires Fits(g, disk) && ValidSectors(g, secs) && (secs == [] <==> ws == [])
    ensures Quiet(g, base) && Accepted(g, ws)
    ensures var f := PublishedDisk(g, disk, secs);
            && (secs == [] ==> f == disk)
            && CommitsTo(g, base, ws, f)
            && CommitImages(g, base, ws) == (if secs == [] then [] else PublishedImages(g, disk, secs))
            && Quiet(g, f)
  {
    hide Installed, InstallImages, HeaderSectors, WithHeader, ValidSectors, Members, Appended, Accepted, LoggedSectors;
    CommittedWellFormed(g, base, ws);
    CommitEqualsReplay(g, base, ws);
    var c := WithHeaderAt(g, disk, secs);
    assert c == Committed(g, base, ws);
    var f := Erased(g, Installed(g, c, secs, |secs|));
    ErasedIsQuiet(g, Installed(g, c, secs, |secs|));
    if secs == [] {
      EmptyCommit(g, base, disk);
    }
  }

  lemma IdleIsLogged(g: Geometry, d: Disk)
    requires Quiet(g, d)
    ensures Logged(g, d, [], d, [], {})
  {
  }

  /** Committing nothing writes back what was there. */
  lemma EmptyCommit(g: Geometry, base: Disk, d: Disk)
    requires Quiet(g, base) && Accepted(g, []) && d == Appended(g, base, []) && ValidSectors(g, [])
    ensures Erased(g, Installed(g, WithHeaderAt(g, d, []), [], 0)) == d
  {
    PutGetWord(d[g.start], 0);
  }

  /** Installing frees buffers, so the room there was at the start is still there. */
  lemma InstallRoom(g: Geometry, held: set<int>, pinned: set<int>, secs: seq<int>, tail: nat)
    requires tail < |secs| && ValidSectors(g, secs)
    requires |held + pinned| < NBUF
    requires Members(secs) <= pinned || |held + pinned| + 1 < NBUF
    requires Members(secs) !! held && OutsideLog(g, pinned)
    ensures var left := pinned - Members(secs[..tail]);
            && |held + left| < NBUF
            && (secs[tail] in left || |held + left| + 1 < NBUF)
            && OutsideLog(g, left)
            && left - {secs[tail]} == pinned - Members(secs[..tail + 1])
    ensures secs[tail] !in held
  {
    MemberStep(g, secs, tail);
    hide Members, ValidSectors;
    var left := pinned - Members(secs[..tail]);
    assert left - {secs[tail]} == pinned - Members(secs[..tail + 1]);
    SubsetSize(held + left, held + pinned);
  }

  lemma MemberStep(g: Geometry, secs: seq<int>, tail: nat)
    requires tail < |secs| && ValidSectors(g, secs)
    ensures secs[tail] in Members(secs) && secs[tail] !in Members(secs[..tail])
    ensures Members(secs[..tail + 1]) == Members(secs[..tail]) + {secs[tail]}
  {
    assert secs[..tail + 1][..tail] == secs[..tail];
    assert secs[tail] !in secs[..tail];
  }

  lemma EmptyIsValid(g: Geometry)
    requires g.Valid()
    ensures ValidSectors(g, [])
  {
  }

  lemma InstallStart(g: Geometry, d: Disk, secs: seq<int>)
    requires Fits(g, d) && ValidSectors(g, secs)
    ensures Installed(g, d, secs, 0) == d && InstallImages(g, d, secs, 0) == []
    ensures secs[..0] == [] && secs[..|secs|] == secs && Members([]) == {}
  {
  }

  lemma InstallStep(g: Geometry, d: Disk, secs: seq<int>, tail: nat)
    requires Fits(g, d) && ValidSectors(g, secs) && tail < |secs|
    ensures g.IsHome(secs[tail]) && tail + 1 < g.size
    ensures var e := Installed(g, d, secs, tail);
            && Installed(g, d, secs, tail + 1) == e[secs[tail] := e[g.start + tail + 1]]
            && InstallImages(g, d, secs, tail + 1) == InstallImages(g, d, secs, tail) + [Installed(g, d, secs, tail + 1)]
  {
    hide InstallImages;
    InstalledAt(g, d, secs, tail);
    InstallImagesStep(g, d, secs, tail);
  }

  lemma InstallImagesStep(g: Geometry, d: Disk, secs: seq<int>, tail: nat)
    requires Fits(g, d) && ValidSectors(g, secs) && tail < |secs|
    ensures InstallImages(g, d, secs, tail + 1) == InstallImages(g, d, secs, tail) + [Installed(g, d, secs, tail + 1)]
  {
    hide Installed, ValidSectors;
  }
}
