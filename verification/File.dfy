/** filewrite (file.c): a write split into transactions that fit the log, and what a crash leaves of it. */
module File {
  import opened Words
  import opened Sets
  import opened FsLayout
  import opened FsSpec
  import opened FileSpec
  import opened FsSteps
  import opened Transactions
  import opened Volume
  import F = Fs
  import A = Acts
  import L = LogSpec

  /** `((LOGSIZE - 1 - 1 - 2) / 2) * 512`. */
  const MAXCHUNK := 1536

  /** `Failed` is the return value -1; `OutOfBlocks` stands for a balloc that found no block outside the log. */
  datatype Outcome = Done(n: nat) | Failed | OutOfBlocks

  /** An open file backed by an inode. */
  class OpenFile {
    const ip: F.Inode
    const writable: bool
    var off: Uint

    constructor (ip: F.Inode, writable: bool, off: Uint)
      ensures this.ip == ip && this.writable == writable && this.off == off
    {
      this.ip, this.writable, this.off := ip, writable, off;
    }
  }

  // ---------- the log budget ----------

  /** Sectors that a run of log_write calls with all sectors in `S` can put in the log. */
  lemma {:induction false} LoggedWithin(ws: seq<L.Write>, S: set<int>)
    requires forall i :: 0 <= i < |ws| ==> ws[i].sector in S
    ensures |L.LoggedSectors(ws)| <= |S|
    ensures forall s :: s in L.LoggedSectors(ws) ==> s in S
    ensures L.Distinct(L.LoggedSectors(ws))
    decreases |ws|
  {
    hide L.Distinct;
    if ws == [] {
      NoneTwice([]);
    } else {
      var front, last := ws[..|ws| - 1], ws[|ws| - 1].sector;
      LoggedWithin(front, S);
      var secs := L.LoggedSectors(front);
      if last !in secs {
        forall i | 0 <= i < |front|
          ensures front[i].sector in Members(secs) && front[i].sector in S - {last}
        {
          LoggedHas(front, i);
        }
        LoggedWithin(front, S - {last});
        OneMoreDistinct(secs, last);
      }
    }
  }

  lemma NoneTwice(s: seq<int>)
    requires s == []
    ensures L.Distinct(s)
  {
  }

  lemma OneMoreDistinct(s: seq<int>, x: int)
    requires L.Distinct(s) && x !in s
    ensures L.Distinct(s + [x])
  {
  }

  lemma {:induction false} LoggedHas(ws: seq<L.Write>, i: nat)
    requires i < |ws|
    ensures ws[i].sector in L.LoggedSectors(ws)
  {
    if i < |ws| - 1 {
      LoggedHas(ws[..|ws| - 1], i);
    }
  }

  lemma OneMore(S: set<int>, T: set<int>, x: int, n: nat)
    requires |S| <= n && T <= S + {x}
    ensures |T| <= n + 1
  {
    SubsetSize(T, S + {x});
  }

  ghost function BlockAt(st: State, bn: nat): int
    requires st.Shape()
  {
    if bn < MAXFILE then st.At(st.me, SlotOf(bn)) else 0
  }

  lemma WithinFour(st: State, lo: nat, hi: nat)
    requires st.Shape() && lo <= hi <= lo + MAXCHUNK && hi <= MAXSIZE
    ensures var q := lo / BSIZE;
            DataBlocks(st, lo, hi) <= {BlockAt(st, q), BlockAt(st, q + 1), BlockAt(st, q + 2), BlockAt(st, q + 3)}
  {
    assert Blocks(hi) <= lo / BSIZE + 4;
    hide State.At, Blocks;
  }

  /** 1536 bytes lie in at most four blocks, whatever the offset. */
  lemma FourBlocks(st: State, lo: nat, hi: nat)
    requires st.Shape() && lo <= hi <= lo + MAXCHUNK && hi <= MAXSIZE
    ensures |DataBlocks(st, lo, hi)| <= 4
  {
    WithinFour(st, lo, hi);
    hide BlockAt, DataBlocks;
    var q := lo / BSIZE;
    var a, b, c, d := BlockAt(st, q), BlockAt(st, q + 1), BlockAt(st, q + 2), BlockAt(st, q + 3);
    OneMore({}, {a}, a, 0);
    OneMore({a}, {a, b}, b, 1);
    OneMore({a, b}, {a, b, c}, c, 2);
    OneMore({a, b, c}, DataBlocks(st, lo, hi), d, 3);
  }

  lemma OneBitmapBlock(sb: Super)
    requires sb.size <= BPB
    ensures |BitmapBlocks(sb)| <= 1
  {
    assert BitmapBlocks(sb) <= {sb.BBlock(0) as int};
    SubsetSize(BitmapBlocks(sb), {sb.BBlock(0) as int});
  }

  /** The sectors of one chunk: four of data, one of bitmap, the indirect block, the inode's. */
  lemma SevenSectors(st: State, lo: nat, hi: nat, x: int)
    requires st.Shape() && lo <= hi <= lo + MAXCHUNK && hi <= MAXSIZE && st.sb.size <= BPB
    ensures |Touched(st, lo, hi) + {x}| <= 7
  {
    FourBlocks(st, lo, hi);
    OneBitmapBlock(st.sb);
    var D, B, P := DataBlocks(st, lo, hi), BitmapBlocks(st.sb), IndirectOf(st.mine);
    hide DataBlocks, BitmapBlocks;
    Union(D, B);
    Union(D + B, P);
    assert Touched(st, lo, hi) == D + B + P;
    Union(D + B + P, {x});
  }

  /** At most seven sectors: log_write never finds the log full. */
  lemma FitsTheLog(g: L.Geometry, ws: seq<L.Write>, S: set<int>)
    requires L.HomeWrites(g, ws) && g.size == L.LOGSIZE && |S| <= 7
    requires forall i :: 0 <= i < |ws| ==> ws[i].sector in S
    ensures L.Accepted(g, ws) && |L.LoggedSectors(ws)| <= 7
  {
    LoggedWithin(ws, S);
    forall i | 0 <= i < |ws|
      ensures |L.LoggedSectors(ws[..i])| <= 7
    {
      LoggedWithin(ws[..i], S);
    }
  }

  // ---------- what the disk holds between transactions ----------

  /** On disk `d` inode `i` is a sound file without holes and with bytes `c`, and every other inode is as on `d0`. */
  ghost predicate Holds(sb: Super, d0: Disk, d: Disk, i: nat, c: seq<Byte>) {
    && Fits(sb, d0) && Fits(sb, d) && i < sb.ninodes && OnDisk(sb, d, i).Ok()
    && NoHoles(OnDisk(sb, d, i), i, InodeOf(sb, d, i).size)
    && Content(OnDisk(sb, d, i), i, InodeOf(sb, d, i).size) == c
    && OthersKept(OnDisk(sb, d0, i), OnDisk(sb, d, i))
  }

  /** `c` with `s` at `off`; nothing happens beyond the end. */
  function Put(c: seq<Byte>, off: nat, s: seq<Byte>): seq<Byte> {
    if off <= |c| then Overlay(c, off, s) else c
  }

  lemma PutTwice(c: seq<Byte>, off: nat, s: seq<Byte>, t: seq<Byte>)
    requires off <= |c|
    ensures Put(Put(c, off, s), off + |s|, t) == Put(c, off, s + t)
  {
  }

  /** The file once the first `i` bytes of `s` are stored. */
  function After(c: seq<Byte>, off: nat, s: seq<Byte>, i: nat): seq<Byte>
    requires i <= |s|
  {
    Put(c, off, s[..i])
  }

  /** Bytes covered by the first `k` chunks of `n`. */
  function Cut(k: nat, n: nat): (r: nat)
    ensures r <= n
  {
    if MAXCHUNK * k < n then MAXCHUNK * k else n
  }

  /** One committed chunk: a transaction of at most seven sectors and eight buffers. */
  ghost predicate Chunk(sb: Super, d: Disk, acts: seq<A.Act>, e: Disk) {
    Txn(sb, d, acts, e) && |L.LoggedSectors(A.Writes(acts))| <= 7 && Lean(acts, 8)
  }

  /** The disks `hist` between the transactions `txs` of writing `s` to inode `i`, whose bytes were `c`, at `off`. */
  ghost predicate Trace(sb: Super, i: nat, hist: seq<Disk>, txs: seq<seq<A.Act>>, c: seq<Byte>, off: nat,
      s: seq<Byte>)
  {
    && |hist| == |txs| + 1
    && (forall k :: 0 <= k < |txs| ==> Chunk(sb, hist[k], txs[k], hist[k + 1]))
    && (forall k :: 0 <= k < |hist| ==> Holds(sb, hist[0], hist[k], i, After(c, off, s, Cut(k, |s|))))
  }

  lemma TraceExtends(sb: Super, i: nat, hist: seq<Disk>, txs: seq<seq<A.Act>>, c: seq<Byte>, off: nat, s: seq<Byte>,
      acts: seq<A.Act>, e: Disk)
    requires Trace(sb, i, hist, txs, c, off, s)
    requires Chunk(sb, hist[|txs|], acts, e) && Holds(sb, hist[0], e, i, After(c, off, s, Cut(|txs| + 1, |s|)))
    ensures Trace(sb, i, hist + [e], txs + [acts], c, off, s)
  {
    hide Chunk, Holds, After, Cut;
  }

  // ---------- filewrite ----------

  /** The length of the chunk that starts after `i` bytes of `n`. */
  function ChunkLen(n: nat, i: nat): (n1: nat)
    requires i < n
    ensures 0 < n1 <= MAXCHUNK && i + n1 <= n
  {
    if n - i > MAXCHUNK then MAXCHUNK else n - i
  }

  function Piece(s: seq<Byte>, i: nat, n: nat): (p: seq<Byte>)
    requires i + n <= |s|
    ensures |p| == n
  {
    s[i..i + n]
  }

  /** One round of filewrite's loop: a transaction around writei. */
  method WriteChunk(fs: F.Fs, f: OpenFile, piece: seq<Byte>) returns (r: F.WriteResult, ghost acts: seq<A.Act>)
    requires fs.Logging() && fs.Idle() && fs.FileOk(f.ip) && f.ip.typ != F.T_DEV
    requires fs.sb.size <= BPB && fs.sb.nlog == L.LOGSIZE && 0 < |piece| <= MAXCHUNK
    modifies fs, f`off, f.ip`addrs, f.ip`size
    ensures fs.Logging()
    ensures r.Reject? <==> old(f.off) > old(f.ip.size) || old(f.off) + |piece| > MAXSIZE
    ensures r.Reject? ==> fs.disk == old(fs.disk) && fs.Idle() && f.off == old(f.off) && f.ip.Copy() == old(f.ip.Copy())
    ensures !r.Reject? ==>
      (r.Wrote? <==> Room(old(fs.St(f.ip))) >= Need(old(f.ip.size), old(f.off) + |piece|))
    ensures r.Halt? ==> Packed(fs.St(f.ip))
    ensures !r.Panic?
    ensures r.Wrote? ==>
      && r.n == |piece| && f.off == old(f.off) + |piece| && fs.FileOk(f.ip) && fs.Idle()
      && f.ip.size == Max(old(f.ip.size), old(f.off) + |piece|)
      && Room(fs.St(f.ip)) == Room(old(fs.St(f.ip))) - Need(old(f.ip.size), old(f.off) + |piece|)
      && old(f.off) <= |old(fs.Bytes(f.ip))|
      && fs.Bytes(f.ip) == Overlay(old(fs.Bytes(f.ip)), old(f.off), piece)
      && OthersKept(old(fs.St(f.ip)), fs.St(f.ip)) && Accounted(old(fs.St(f.ip)), fs.St(f.ip))
      && Chunk(fs.sb, old(fs.disk), acts, fs.disk)
  {
    hide State.Marked, State.Apart, State.MetaMarked;
    hide State.Ok, NoHoles, Content, Overlay, InodeOf, Accounted, OthersKept, Packed, L.Replay, Room, Cost;
    hide A.Orderly, A.Held, A.Writes, Touched, F.Fs.Journal, Txn, LogCount, L.LoggedSectors, L.FirstPanic, BlocksIn;
    OkShape(fs.St(f.ip));
    ghost var off: nat := f.off;
    ChunkCount(f.ip.size, off, |piece|);
    fs.BeginTrans();
    r := fs.Writei(f.ip, piece, f.off);
    acts := fs.acts;
    if r.Wrote? {
      OkShape(fs.St(f.ip));
      fs.Record();
      ChunkAccepted(fs.sb, fs.base, fs.St(f.ip), off, off + |piece|, acts);
      f.off := f.off + r.n;
    }
    if !r.Halt? {
      fs.CommitTrans();
    }
  }

  /** 1536 bytes lie in at most four blocks, so a chunk logs at most seven sectors, fewer than the log takes. */
  lemma ChunkCount(size: nat, off: nat, n: nat)
    requires 0 < n <= MAXCHUNK
    ensures LogCount(size, off, off + n) <= 7 < L.Limit(L.LOGSIZE)
  {
  }

  /** The write stays inside the largest file and starts no later than its end; nothing to write always does. */
  predicate InRange(off: nat, size: nat, n: int) {
    n == 0 || (n > 0 && off <= size && off + n <= MAXSIZE)
  }

  /** What a failing call has stored: the whole chunks that fit. */
  function Kept(off: nat, size: nat, writable: bool, n: int): int {
    if !writable || n <= 0 || off > size then 0 else (MAXSIZE - off) / MAXCHUNK * MAXCHUNK
  }

  /** How far into its bytes the call can get. */
  function Reach(off: nat, size: nat, n: int): (k: nat)
    requires size <= MAXSIZE
    ensures off > size ==> k == 0
  {
    if InRange(off, size, n) then n else Kept(off, size, true, n)
  }

  /** The size the file would have then. */
  function Furthest(off: nat, size: nat, n: int): (k: nat)
    requires size <= MAXSIZE
    ensures k >= size
  {
    if off <= size then Max(size, off + Reach(off, size, n)) else size
  }

  /** On disk `d` filewrite has stored the first `i` bytes of `s`, in the transactions `txs`. */
  ghost predicate Progress(sb: Super, d: Disk, ino: nat, c: seq<Byte>, off: nat, s: seq<Byte>, hist: seq<Disk>,
      txs: seq<seq<A.Act>>, i: nat)
  {
    && i <= |s| && i == Cut(|txs|, |s|) && (i > 0 ==> off <= |c|)
    && Trace(sb, ino, hist, txs, c, off, s) && hist[|txs|] == d
    && Holds(sb, hist[0], d, ino, After(c, off, s, i))
  }

  /** The bytes a call with count `n` is to write. */
  function Taken(src: seq<Byte>, n: int): (s: seq<Byte>)
    requires n <= |src|
    ensures |s| == if n < 0 then 0 else n
  {
    if n < 0 then [] else src[..n]
  }

  /** A round of the loop, seen from the whole write. */
  method NextChunk(fs: F.Fs, f: OpenFile, s: seq<Byte>, i: nat, ghost c: seq<Byte>, ghost off: nat,
      ghost hist: seq<Disk>, ghost txs: seq<seq<A.Act>>) returns (w: F.WriteResult, ghost acts: seq<A.Act>)
    requires fs.Logging() && fs.Idle() && fs.FileOk(f.ip) && f.ip.typ != F.T_DEV
    requires fs.sb.size <= BPB && fs.sb.nlog == L.LOGSIZE && i < |s| && f.off == off + i
    requires Progress(fs.sb, fs.disk, f.ip.inum, c, off, s, hist, txs, i)
    modifies fs, f`off, f.ip`addrs, f.ip`size
    ensures fs.Logging() && !w.Panic?
    ensures w.Halt? ==> Packed(fs.St(f.ip))
    ensures w.Halt? ==>
      off <= |c| <= MAXSIZE && Room(old(fs.St(f.ip))) + Cost(old(f.ip.size)) < Cost(Furthest(off, |c|, |s|))
    ensures w.Reject? ==>
      && fs.FileOk(f.ip) && fs.Idle() && f.off == off + i && Progress(fs.sb, fs.disk, f.ip.inum, c, off, s, hist, txs, i)
      && !InRange(off, |c|, |s|) && i == Kept(off, |c|, true, |s|) && fs.St(f.ip) == old(fs.St(f.ip))
    ensures w.Wrote? ==>
      && OthersKept(old(fs.St(f.ip)), fs.St(f.ip))
      && w.n > 0 && i + w.n <= |s| && fs.FileOk(f.ip) && fs.Idle() && f.off == off + i + w.n
      && Room(fs.St(f.ip)) + Cost(f.ip.size) == Room(old(fs.St(f.ip))) + Cost(old(f.ip.size))
      && Progress(fs.sb, fs.disk, f.ip.inum, c, off, s, hist + [fs.disk], txs + [acts], i + w.n)
  {
    hide State.Marked, State.Apart, State.MetaMarked;
    hide Progress, Trace, F.Fs.Journal, State.Ok, NoHoles, InodeOf, Content, Put, Packed, OthersKept, Accounted, Chunk;
    hide Overlay, Fits, Holds, InRange, Kept, Cut, Max, After, Piece, ChunkLen, Room, Cost, Furthest;
    OkShape(fs.St(f.ip));
    ghost var sb, ino := fs.sb, f.ip.inum;
    ProgressFacts(sb, fs.disk, ino, c, off, s, hist, txs, i);
    BytesNow(fs, f.ip, hist[0], After(c, off, s, i));
    ghost var st1 := fs.St(f.ip);
    var n1 := ChunkLen(|s|, i);
    ghost var d1, size1 := fs.disk, f.ip.size;
    w, acts := WriteChunk(fs, f, Piece(s, i, n1));
    if w.Reject? {
      StopsHere(off, |c|, |s|, |txs|, i, n1, size1);
    } else {
      WithinReach(off, |c|, |s|, |txs|, i, n1, size1);
    }
    if w.Wrote? {
      HoldsNext(fs, f.ip, hist[0], st1);
      ProgressStep(sb, d1, fs.disk, ino, c, off, s, hist, txs, i, n1, acts);
    }
  }

  /** The loop of filewrite: `i` bytes of `s` are stored, all of them unless a chunk was rejected. */
  method WriteChunks(fs: F.Fs, f: OpenFile, s: seq<Byte>)
      returns (i: nat, halted: bool, ghost hist: seq<Disk>, ghost txs: seq<seq<A.Act>>)
    requires fs.Logging() && fs.Idle() && fs.FileOk(f.ip) && f.ip.typ != F.T_DEV
    requires fs.sb.size <= BPB && fs.sb.nlog == L.LOGSIZE
    modifies fs, f`off, f.ip`addrs, f.ip`size
    ensures fs.Logging() && hist != [] && hist[0] == old(fs.disk)
    ensures halted <==>
      && old(f.off) <= old(f.ip.size)
      && Room(old(fs.St(f.ip))) + Cost(old(f.ip.size)) < Cost(Furthest(old(f.off), old(f.ip.size), |s|))
    ensures halted ==>
      Packed(fs.St(f.ip)) && Trace(fs.sb, f.ip.inum, hist, txs, old(fs.Bytes(f.ip)), old(f.off), s)
    ensures !halted ==>
      && fs.FileOk(f.ip) && fs.Idle() && f.off == old(f.off) + i
      && Progress(fs.sb, fs.disk, f.ip.inum, old(fs.Bytes(f.ip)), old(f.off), s, hist, txs, i)
      && (i != |s| ==>
            !InRange(old(f.off), old(f.ip.size), |s|) && i == Kept(old(f.off), old(f.ip.size), true, |s|))
      && OthersKept(old(fs.St(f.ip)), fs.St(f.ip))
      && Room(fs.St(f.ip)) + Cost(f.ip.size) == Room(old(fs.St(f.ip))) + Cost(old(f.ip.size))
  {
    hide State.Marked, State.Apart, State.MetaMarked;
    hide Progress, Trace, F.Fs.Journal, State.Ok, NoHoles, InodeOf, Content, Packed;
    hide OthersKept, Fits, Holds, InRange, Kept, Cut, After, Max, Room, Cost, Furthest;
    OkShape(fs.St(f.ip));
    ghost var c, off0, sb, ino := fs.Bytes(f.ip), f.off, fs.sb, f.ip.inum;
    ghost var st0 := fs.St(f.ip);
    OthersSame(st0);
    HoldsNow(fs, f.ip);
    ProgressStart(sb, fs.disk, ino, c, off0, s);
    i, halted, hist, txs := 0, false, [fs.disk], [];
    while i < |s|
      invariant i <= |s| && f.off == off0 + i && fs.Logging() && fs.Idle() && fs.FileOk(f.ip) && !halted
      invariant Progress(sb, fs.disk, ino, c, off0, s, hist, txs, i) && hist != [] && hist[0] == old(fs.disk)
      invariant OthersKept(st0, fs.St(f.ip))
      invariant fs.St(f.ip).Shape() && Room(fs.St(f.ip)) + Cost(f.ip.size) == Room(st0) + Cost(|c|)
    {
      ProgressFacts(sb, fs.disk, ino, c, off0, s, hist, txs, i);
      ghost var st1 := fs.St(f.ip);
      var w, acts := NextChunk(fs, f, s, i, c, off0, hist, txs);
      if w.Halt? {
        halted := true;
        return;
      }
      if w.Reject? {
        ProgressFacts(sb, fs.disk, ino, c, off0, s, hist, txs, i);
        BytesNow(fs, f.ip, hist[0], After(c, off0, s, i));
        GotThere(off0, |c|, |s|, i, f.ip.size);
        return;
      }
      OthersTwice(st0, st1, fs.St(f.ip));
      OkShape(fs.St(f.ip));
      hist, txs := hist + [fs.disk], txs + [acts];
      i := i + w.n;
    }
    ProgressFacts(sb, fs.disk, ino, c, off0, s, hist, txs, i);
    BytesNow(fs, f.ip, hist[0], After(c, off0, s, i));
    AllStored(off0, |c|, |s|, i, f.ip.size);
    GotThere(off0, |c|, |s|, i, f.ip.size);
  }

  /** filewrite, chunk by chunk. A call that returns `n` has stored all `n` bytes at the file's offset and moved
      the offset past them; one that returns -1 has stored the whole chunks that fit. No transaction overflows the
      log, and no writei comes back short. */
  method FileWrite(fs: F.Fs, f: OpenFile, src: seq<Byte>, n: int)
      returns (r: Outcome, ghost hist: seq<Disk>, ghost txs: seq<seq<A.Act>>)
    requires n <= |src|
    requires fs.Logging() && fs.Idle() && fs.FileOk(f.ip) && f.ip.typ != F.T_DEV
    requires fs.sb.size <= BPB && fs.sb.nlog == L.LOGSIZE
    modifies fs, f`off, f.ip`addrs, f.ip`size
    ensures fs.Logging()
    ensures r.OutOfBlocks? <==>
      && f.writable && old(f.off) <= old(f.ip.size)
      && Room(old(fs.St(f.ip))) < Need(old(f.ip.size), old(f.off) + Reach(old(f.off), old(f.ip.size), n))
    ensures r.OutOfBlocks? ==> Packed(fs.St(f.ip))
    ensures r.Done? <==>
      && f.writable && InRange(old(f.off), old(f.ip.size), n)
      && (n > 0 ==> Room(old(fs.St(f.ip))) >= Need(old(f.ip.size), old(f.off) + n))
    ensures r.Done? ==> r.n == n == f.off - old(f.off)
    ensures r.Failed? ==> f.off - old(f.off) == Kept(old(f.off), old(f.ip.size), f.writable, n)
    ensures !r.OutOfBlocks? ==>
      && fs.FileOk(f.ip) && fs.Idle() && 0 <= f.off - old(f.off) <= |Taken(src, n)|
      && fs.Bytes(f.ip) == After(old(fs.Bytes(f.ip)), old(f.off), Taken(src, n), f.off - old(f.off))
      && |hist| == |txs| + 1 && hist[|txs|] == fs.disk
      && OthersKept(old(fs.St(f.ip)), fs.St(f.ip))
      && Room(fs.St(f.ip)) + Cost(f.ip.size) == Room(old(fs.St(f.ip))) + Cost(old(f.ip.size))
    ensures Trace(fs.sb, f.ip.inum, hist, txs, old(fs.Bytes(f.ip)), old(f.off), Taken(src, n))
    ensures hist != [] && hist[0] == old(fs.disk)
  {
    hide State.Marked, State.Apart, State.MetaMarked;
    hide Taken, Progress, Trace, F.Fs.Journal, State.Ok, NoHoles, InodeOf, Content, Put, Packed;
    hide Fits, Holds, Cut, InRange, Kept, After, OthersKept, Room, Cost, Furthest, Reach, Max;
    OkShape(fs.St(f.ip));
    ghost var c, off0 := fs.Bytes(f.ip), f.off;
    ghost var sb, ino, size0 := fs.sb, f.ip.inum, f.ip.size;
    var s := Taken(src, n);
    HoldsNow(fs, f.ip);
    RangeFacts(off0, size0, f.writable, n);
    ReachFacts(off0, size0, n);
    OthersSame(fs.St(f.ip));
    if !f.writable {
      hist, txs := [fs.disk], [];
      ProgressStart(sb, fs.disk, ino, c, off0, s);
      ProgressFacts(sb, fs.disk, ino, c, off0, s, hist, txs, 0);
      BytesNow(fs, f.ip, hist[0], After(c, off0, s, 0));
      return Failed, hist, txs;
    }
    var i, halted;
    i, halted, hist, txs := WriteChunks(fs, f, s);
    if halted {
      return OutOfBlocks, hist, txs;
    }
    ProgressFacts(sb, fs.disk, ino, c, off0, s, hist, txs, i);
    BytesNow(fs, f.ip, hist[0], After(c, off0, s, i));
    AllStored(off0, |c|, n, i, f.ip.size);
    r := if i == n then Done(n) else Failed;
  }

  lemma ProgressStart(sb: Super, d: Disk, ino: nat, c: seq<Byte>, off: nat, s: seq<Byte>)
    requires Holds(sb, d, d, ino, c)
    ensures Progress(sb, d, ino, c, off, s, [d], [], 0)
  {
    hide Holds;
    assert s[..0] == [] && Put(c, off, []) == c;
  }

  lemma ProgressFacts(sb: Super, d: Disk, ino: nat, c: seq<Byte>, off: nat, s: seq<Byte>, hist: seq<Disk>,
      txs: seq<seq<A.Act>>, i: nat)
    requires Progress(sb, d, ino, c, off, s, hist, txs, i)
    ensures i <= |s| && i == Cut(|txs|, |s|) && (i > 0 ==> off <= |c|)
    ensures |hist| == |txs| + 1 && hist[|txs|] == d
    ensures Holds(sb, hist[0], d, ino, After(c, off, s, i)) && Trace(sb, ino, hist, txs, c, off, s)
    ensures off <= |c| ==> |After(c, off, s, i)| == Max(|c|, off + i)
    ensures off > |c| ==> After(c, off, s, i) == c
  {
    hide Holds, Chunk;
  }

  lemma ProgressStep(sb: Super, d: Disk, e: Disk, ino: nat, c: seq<Byte>, off: nat, s: seq<Byte>, hist: seq<Disk>,
      txs: seq<seq<A.Act>>, i: nat, n1: nat, acts: seq<A.Act>)
    requires Progress(sb, d, ino, c, off, s, hist, txs, i) && Chunk(sb, d, acts, e)
    requires i < |s| && n1 == ChunkLen(|s|, i)
    requires off + i <= |After(c, off, s, i)| && hist != []
    requires Holds(sb, hist[0], e, ino, Overlay(After(c, off, s, i), off + i, Piece(s, i, n1)))
    ensures Progress(sb, e, ino, c, off, s, hist + [e], txs + [acts], i + n1)
  {
    hide Holds, Chunk, Trace, Overlay, Cut;
    ProgressFacts(sb, d, ino, c, off, s, hist, txs, i);
    StepBytes(c, off, s, i, n1);
    StepCut(|txs|, |s|, i, n1);
    TraceExtends(sb, ino, hist, txs, c, off, s, acts, e);
  }

  lemma StepBytes(c: seq<Byte>, off: nat, s: seq<Byte>, i: nat, n1: nat)
    requires i + n1 <= |s| && 0 < n1 && off + i <= |After(c, off, s, i)|
    ensures off <= |c| && Overlay(After(c, off, s, i), off + i, Piece(s, i, n1)) == After(c, off, s, i + n1)
  {
    assert off <= |c|;
    PutTwice(c, off, s[..i], s[i..i + n1]);
    assert s[..i] + s[i..i + n1] == s[..i + n1];
  }

  lemma StepCut(k: nat, n: nat, i: nat, n1: nat)
    requires i == Cut(k, n) < n && n1 == ChunkLen(n, i)
    ensures i + n1 == Cut(k + 1, n)
  {
  }

  lemma RangeFacts(off: nat, size: nat, writable: bool, n: int)
    ensures InRange(off, size, 0)
    ensures !writable || n <= 0 ==> Kept(off, size, writable, n) == 0
    ensures n < 0 ==> !InRange(off, size, n)
  {
  }

  lemma ReachFacts(off: nat, size: nat, n: int)
    requires size <= MAXSIZE
    ensures n <= 0 ==> Reach(off, size, n) == Reach(off, size, 0) == 0
    ensures InRange(off, size, n) ==> Reach(off, size, n) == n && (n > 0 ==> off <= size)
    ensures off <= size ==> Furthest(off, size, n) == Max(size, off + Reach(off, size, n))
    ensures off <= size ==> Furthest(off, size, 0) == size && Max(size, off) == size
  {
  }

  /** A chunk that writei rejects ends the call with exactly the whole chunks that fit. */
  lemma StopsHere(off: nat, size: nat, n: int, k: nat, i: nat, n1: nat, size1: nat)
    requires n >= 0 && i == Cut(k, n) < n && n1 == ChunkLen(n, i)
    requires size1 <= MAXSIZE && size1 == if off <= size then Max(size, off + i) else size
    requires i > 0 ==> off <= size
    requires off + i > size1 || off + i + n1 > MAXSIZE
    ensures !InRange(off, size, n) && i == Kept(off, size, true, n)
  {
  }

  /** A chunk that writei does not reject lies within reach. */
  lemma WithinReach(off: nat, size: nat, n: int, k: nat, i: nat, n1: nat, size1: nat)
    requires n >= 0 && i == Cut(k, n) < n && n1 == ChunkLen(n, i) && size1 <= MAXSIZE
    requires size1 == if off <= size then Max(size, off + i) else size
    requires i > 0 ==> off <= size
    requires off + i <= size1 && off + i + n1 <= MAXSIZE
    ensures off <= size <= MAXSIZE && i + n1 <= Reach(off, size, n)
    ensures Max(size1, off + i + n1) <= Furthest(off, size, n) && Cost(Max(size1, off + i + n1)) <= Cost(Furthest(off, size, n))
  {
    hide Cost;
    if off + n > MAXSIZE {
      ReachStep(off, n, k, i, n1);
    }
    CostGrows(Max(size1, off + i + n1), Furthest(off, size, n));
  }

  lemma ReachStep(off: nat, n: nat, k: nat, i: nat, n1: nat)
    requires i == Cut(k, n) < n && n1 == ChunkLen(n, i) && off + i + n1 <= MAXSIZE && off + n > MAXSIZE
    ensures i + n1 <= (MAXSIZE - off) / MAXCHUNK * MAXCHUNK
  {
  }

  /** With everything within reach stored, the file is as large as it can get. */
  lemma GotThere(off: nat, size: nat, n: nat, i: nat, size1: nat)
    requires size <= MAXSIZE && size1 == if off <= size then Max(size, off + i) else size
    requires if InRange(off, size, n) then i == n else i == Kept(off, size, true, n)
    ensures off <= size ==> Furthest(off, size, n) == size1
  {
  }

  lemma AllStored(off: nat, size: nat, n: int, i: nat, size1: nat)
    requires size1 <= MAXSIZE && size1 == if off <= size then Max(size, off + i) else size
    requires i > 0 ==> off <= size
    ensures i == n ==> InRange(off, size, n)
  {
  }

  /** The bytes of a file are determined by the disk. */
  lemma BytesNow(fs: F.Fs, ip: F.Inode, d0: Disk, c: seq<Byte>)
    requires fs.FileOk(ip) && Holds(fs.sb, d0, fs.disk, ip.inum, c)
    ensures fs.Bytes(ip) == c && ip.size == |c|
    ensures Fits(fs.sb, d0) && OthersKept(OnDisk(fs.sb, d0, ip.inum), fs.St(ip))
  {
    hide State.Marked, State.Apart, State.MetaMarked, NoHoles, Content, OthersKept;
    assert OnDisk(fs.sb, fs.disk, ip.inum) == fs.St(ip);
  }

  lemma HoldsNow(fs: F.Fs, ip: F.Inode)
    requires fs.FileOk(ip)
    ensures Holds(fs.sb, fs.disk, fs.disk, ip.inum, fs.Bytes(ip))
  {
    hide State.Marked, State.Apart, State.MetaMarked, NoHoles, Content, OthersKept;
    OthersSame(fs.St(ip));
    assert OnDisk(fs.sb, fs.disk, ip.inum) == fs.St(ip);
  }

  /** Two steps after `d0`, with only this file changed. */
  lemma HoldsNext(fs: F.Fs, ip: F.Inode, d0: Disk, st: State)
    requires fs.FileOk(ip) && Fits(fs.sb, d0) && OthersKept(OnDisk(fs.sb, d0, ip.inum), st) && OthersKept(st, fs.St(ip))
    ensures Holds(fs.sb, d0, fs.disk, ip.inum, fs.Bytes(ip))
  {
    hide State.Marked, State.Apart, State.MetaMarked, NoHoles, Content, OthersKept;
    OthersTwice(OnDisk(fs.sb, d0, ip.inum), st, fs.St(ip));
    assert OnDisk(fs.sb, fs.disk, ip.inum) == fs.St(ip);
  }

  lemma ChunkAccepted(sb: Super, d: Disk, st: State, lo: nat, hi: nat, acts: seq<A.Act>)
    requires Fits(sb, d) && st.Shape() && st.sb == sb && |st.d| == |d|
    requires lo <= hi <= lo + MAXCHUNK && hi <= MAXSIZE && sb.size <= BPB && sb.nlog == L.LOGSIZE
    requires A.Orderly(acts) && A.Held(acts) == {} && A.AllBelow(acts, sb.LogStart())
    requires forall i :: 0 <= i < |acts| ==> A.Within(acts[i], Touched(st, lo, hi) + {sb.IBlock(st.me) as int})
    ensures L.HomeWrites(LogAt(sb, d), A.Writes(acts)) && Chunk(sb, d, acts, L.Replay(d, A.Writes(acts)))
  {
    hide Touched, A.Orderly, A.Held, A.Writes, A.Peak, L.LoggedSectors;
    var S := Touched(st, lo, hi) + {sb.IBlock(st.me) as int};
    SevenSectors(st, lo, hi, sb.IBlock(st.me));
    A.WrittenWithin(acts, S);
    A.WrittenHome(acts, sb.LogStart());
    FitsTheLog(LogAt(sb, d), A.Writes(acts), S);
    forall k | 0 <= k < |acts|
      ensures A.Peak(acts, k) <= 8
    {
      A.BuffersEnough(acts, S, k);
    }
  }

  // ---------- a crash in the middle of filewrite ----------

  /** Files live below the log: a disk that agrees there holds the same ones. */
  lemma HoldsAtHome(sb: Super, d0: Disk, d: Disk, e: Disk, i: nat, c: seq<Byte>)
    requires Holds(sb, d0, d, i, c) && |e| == |d|
    requires forall x :: 0 <= x < sb.LogStart() ==> e[x] == d[x]
    ensures Holds(sb, d0, e, i, c)
  {
    hide Content, NoHoles, OthersKept, State.Marked, State.Apart, State.MetaMarked;
    IBlockBelow(sb, d, i);
    assert InodeOf(sb, e, i) == InodeOf(sb, d, i);
    var st, after := OnDisk(sb, d, i), OnDisk(sb, e, i);
    HomeKeeps(st, after);
    HomeContent(st, after, i, InodeOf(sb, d, i).size);
    HomeOthers(OnDisk(sb, d0, i), st, after);
  }

  lemma TraceAt(sb: Super, i: nat, hist: seq<Disk>, txs: seq<seq<A.Act>>, c: seq<Byte>, off: nat, s: seq<Byte>,
      k: nat)
    requires Trace(sb, i, hist, txs, c, off, s) && k <= |txs|
    ensures |hist| == |txs| + 1 && Fits(sb, hist[k]) && Holds(sb, hist[0], hist[k], i, After(c, off, s, Cut(k, |s|)))
    ensures k < |txs| ==> Chunk(sb, hist[k], txs[k], hist[k + 1])
  {
    hide Chunk, After, Cut;
  }

  lemma TraceHistory(sb: Super, i: nat, hist: seq<Disk>, txs: seq<seq<A.Act>>, c: seq<Byte>, off: nat, s: seq<Byte>)
    requires Trace(sb, i, hist, txs, c, off, s)
    ensures History(sb, hist, txs)
  {
    hide Txn, Holds, After, Cut, Lean, L.LoggedSectors;
  }

  lemma HoldsSameHome(sb: Super, h0: Disk, h: Disk, d: Disk, i: nat, c: seq<Byte>)
    requires Holds(sb, h0, h, i, c) && Fits(sb, h0) && |h| == |h0| && L.SameHome(LogAt(sb, h0), d, h)
    ensures Holds(sb, h0, d, i, c)
  {
    hide Holds;
    assert forall x :: 0 <= x < sb.LogStart() ==> LogAt(sb, h0).IsHome(x);
    HoldsAtHome(sb, h0, h, d, i, c);
  }

  /** Power fails anywhere in the transactions of a filewrite, and again in any number of recoveries: the disk that
      comes up holds the file with some whole number of chunks written, every earlier one included. */
  lemma CrashKeepsWholeChunks(sb: Super, i: nat, hist: seq<Disk>, txs: seq<seq<A.Act>>, c: seq<Byte>, off: nat,
      s: seq<Byte>, disks: seq<Disk>, evs: seq<L.Event>)
    requires Trace(sb, i, hist, txs, c, off, s) && Fits(sb, hist[0])
    requires L.Run(LogAt(sb, hist[0]), disks, evs) && L.SameHome(LogAt(sb, hist[0]), disks[0], hist[0])
    requires 0 < |evs| <= |txs| && forall j :: 0 <= j < |evs| ==> evs[j].ws == A.Writes(txs[j])
    requires forall j :: 0 <= j < |evs| - 1 ==> evs[j].Durable()
    ensures var k := if evs[|evs| - 1].Durable() then |evs| else |evs| - 1;
            Holds(sb, hist[0], disks[|evs|], i, After(c, off, s, Cut(k, |s|)))
  {
    hide Trace, Holds, After, Cut, Chunk, Fits, L.Replay, L.Quiet, L.SameHome, L.Step, History;
    var k := if evs[|evs| - 1].Durable() then |evs| else |evs| - 1;
    TraceHistory(sb, i, hist, txs, c, off, s);
    TraceAt(sb, i, hist, txs, c, off, s, k);
    CrashLands(sb, hist, txs, disks, evs);
    HoldsSameHome(sb, hist[0], hist[k], disks[|evs|], i, After(c, off, s, Cut(k, |s|)));
  }
}
