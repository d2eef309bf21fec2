/** What the steps of the inode layer do to disk, slots and bytes, and which sectors they log. */
module FsSteps {
  import opened Words
  import opened Sets
  import opened FsLayout
  import opened FsSpec
  import opened FileSpec
  import opened Acts
  import L = LogSpec

  /** The source's test for 32-bit overflow of `off + n`. */
  predicate Wraps(off: Uint, n: Uint) { (off + n) % 0x1_0000_0000 < off }

  lemma WrapsExactly(off: Uint, n: Uint)
    ensures Wraps(off, n) <==> off + n >= 0x1_0000_0000
  {
  }

  /** No block below the log is free. */
  ghost predicate Packed(st: State) {
    st.Shape() && forall b :: 0 <= b < st.sb.LogStart() ==> st.InUse(b)
  }

  /** The inode's copy on disk is brought up to date; nothing else can be told apart. */
  ghost predicate SyncedWith(st: State, after: State) {
    && st.Ok() && after.Ok() && after.sb == st.sb && after.me == st.me && after.mine == st.mine && |after.d| == |st.d|
    && SameBytes(st, after)
    && (forall i, t :: st.Key(i, t) ==> after.At(i, t) == st.At(i, t))
    && (forall b :: after.InUse(b) <==> st.InUse(b))
    && (forall i :: 0 <= i < st.sb.ninodes && i != st.me ==> InodeOf(st.sb, after.d, i) == InodeOf(st.sb, st.d, i))
  }

  lemma SyncedState(st: State, di: Dinode, off: nat)
    requires st.Ok() && di.Ok() && di.addrs == st.mine && NoHoles(st, st.me, off)
    ensures var after := st.(d := WithInode(st.sb, st.d, st.me, di));
            && SyncedWith(st, after) && after.Ok() && NoHoles(after, st.me, off)
            && InodeOf(st.sb, after.d, st.me) == di
  {
    SyncKeeps(st, di);
    SyncSameBytes(st, di);
    var after := st.(d := WithInode(st.sb, st.d, st.me, di));
    forall b | 0 <= b < MAXFILE
      ensures after.At(st.me, SlotOf(b)) == st.At(st.me, SlotOf(b))
    {
      assert st.Key(st.me, SlotOf(b));
    }
    assert st.Key(st.me, NDIRECT);
  }

  lemma WrittenOthers(st0: State, st: State, off: nat, src: seq<Byte>)
    requires Written(st0, st, off, src)
    ensures OthersKept(st0, st) && st.Ok() && Accounted(st0, st)
    ensures InodeOf(st0.sb, st.d, st0.me) == InodeOf(st0.sb, st0.d, st0.me)
  {
    hide ByteAt, State.At, InodeOf;
  }

  lemma SyncedOthers(st0: State, st: State, after: State)
    requires OthersKept(st0, st) && SyncedWith(st, after)
    ensures OthersKept(st0, after) && (forall b :: after.InUse(b) <==> st.InUse(b)) && Room(after) == Room(st)
  {
    hide ByteAt, State.At, InodeOf;
    RoomSame(st, after);
  }

  lemma SyncedFacts(st0: State, st: State, after: State, lo: nat, hi: nat)
    requires OthersKept(st0, st) && Accounted(st0, st) && SyncedWith(st, after) && hi <= MAXSIZE
    ensures OthersKept(st0, after) && Accounted(st0, after)
    ensures Content(after, st.me, hi) == Content(st, st.me, hi)
    ensures Touched(after, lo, hi) == Touched(st, lo, hi) && Room(after) == Room(st)
  {
    hide ByteAt, State.At, InodeOf, BitmapBlocks;
    forall bn | 0 <= bn < MAXFILE
      ensures after.At(st.me, SlotOf(bn)) == st.At(st.me, SlotOf(bn))
    {
      assert st.Key(st.me, SlotOf(bn));
    }
    assert forall t :: 0 <= t < NSLOT ==> st.Key(st.me, t);
    AccountedSame(st0, st, after);
    RoomSame(st, after);
  }

  /** The blocks of the locked inode that bytes `lo` up to `hi` lie in. */
  ghost function DataBlocks(st: State, lo: nat, hi: nat): set<int>
    requires st.Shape()
  {
    set bn | lo / BSIZE <= bn < Blocks(hi) && bn < MAXFILE :: st.At(st.me, SlotOf(bn)) as int
  }

  /** The sectors a write of bytes `lo` up to `hi` may log, the inode's own block aside. */
  ghost function Touched(st: State, lo: nat, hi: nat): set<int>
    requires st.Shape()
  {
    BitmapBlocks(st.sb) + IndirectOf(st.mine) + DataBlocks(st, lo, hi)
  }

  lemma WrittenOk(st0: State, st: State, off0: nat, src: seq<Byte>)
    requires Written(st0, st, off0, src)
    ensures st.Ok() && st.Shape() && st.me == st0.me
  {
  }

  lemma MappedBelow(st: State, size: nat, off: nat)
    requires st.Shape() && NoHoles(st, st.me, Max(size, off)) && off < MAXSIZE
    ensures off < size ==> st.At(st.me, SlotOf(off / BSIZE)) != 0
  {
    BlocksStep(size, off, 1);
  }

  lemma DataOnDisk(st: State, b: nat)
    requires st.Shape() && st.IsData(b)
    ensures b < |st.d|
  {
  }

  lemma MappedData(st: State, bn: nat)
    requires st.Ok() && bn < MAXFILE && st.At(st.me, SlotOf(bn)) != 0
    ensures st.IsData(st.At(st.me, SlotOf(bn)))
  {
    assert st.Key(st.me, SlotOf(bn));
  }

  /** What was touched before a round stays touched, and the round touches its own block. */
  lemma TouchedRound(st: State, mid: State, size: nat, off0: nat, off: nat, m: nat)
    requires off0 <= off < off + m <= MAXSIZE && off % BSIZE + m <= BSIZE && off / BSIZE < MAXFILE
    requires st.Shape() && NoHoles(st, st.me, Max(size, off)) && size <= MAXSIZE
    requires Extended(st, mid, SlotsFor(off / BSIZE))
    ensures Touched(st, off0, off) <= Touched(mid, off0, off + m)
    ensures BitmapBlocks(st.sb) + {mid.At(st.me, SlotOf(off / BSIZE)) as int} + IndirectOf(mid.mine) <= Touched(mid, off0, off + m)
  {
    IndirectSlot(st, st.me);
    IndirectSlot(mid, st.me);
    BlocksStep(0, off, m);
    forall bn | off0 / BSIZE <= bn < Blocks(off) && bn < MAXFILE
      ensures mid.At(st.me, SlotOf(bn)) == st.At(st.me, SlotOf(bn)) && bn < Blocks(off + m)
    {
      assert st.Key(st.me, SlotOf(bn));
      assert Blocks(off) <= Blocks(Max(size, off));
    }
  }

  /** Storing into a mapped data block changes neither holes nor touched blocks. */
  lemma DataWriteNoHoles(st: State, bn: nat, blk: Block, size: nat, lo: nat, hi: nat)
    requires st.Ok() && bn < MAXFILE && st.At(st.me, SlotOf(bn)) != 0 && NoHoles(st, st.me, size)
    ensures st.At(st.me, SlotOf(bn)) < |st.d|
    ensures var after := st.(d := st.d[st.At(st.me, SlotOf(bn)) := blk]);
            && after.Shape() && NoHoles(after, st.me, size) && Touched(after, lo, hi) == Touched(st, lo, hi)
            && Room(after) == Room(st) && DataBlocks(after, lo, hi) == DataBlocks(st, lo, hi)
  {
    hide State.Apart, State.MetaMarked;
    DataWrite(st, SlotOf(bn), blk);
    DataWriteRoom(st, bn, blk);
    var after := st.(d := st.d[st.At(st.me, SlotOf(bn)) := blk]);
    forall b | 0 <= b < MAXFILE
      ensures after.At(st.me, SlotOf(b)) == st.At(st.me, SlotOf(b))
    {
      assert st.Key(st.me, SlotOf(b));
    }
    assert st.Key(st.me, NDIRECT);
  }

  lemma DataWriteRoom(st: State, bn: nat, blk: Block)
    requires st.Ok() && bn < MAXFILE && st.At(st.me, SlotOf(bn)) != 0
    ensures st.At(st.me, SlotOf(bn)) < |st.d|
    ensures var after := st.(d := st.d[st.At(st.me, SlotOf(bn)) := blk]);
            after.Shape() && Room(after) == Room(st)
  {
    hide State.Apart, State.MetaMarked, Room;
    var x := st.At(st.me, SlotOf(bn));
    assert st.Key(st.me, SlotOf(bn));
    SameMarks(st, x, blk);
    RoomSame(st, st.(d := st.d[x := blk]));
  }

  lemma BlockSlice(st: State, size: nat, off: nat, m: nat)
    requires st.Ok() && size <= MAXSIZE && off + m <= size && 0 < m && off % BSIZE + m <= BSIZE && off / BSIZE < MAXFILE
    requires 0 < st.At(st.me, SlotOf(off / BSIZE)) < |st.d|
    ensures var a := st.At(st.me, SlotOf(off / BSIZE));
            st.d[a][off % BSIZE..off % BSIZE + m] == Content(st, st.me, size)[off..off + m]
  {
    var a, c := st.At(st.me, SlotOf(off / BSIZE)), Content(st, st.me, size);
    hide State.Marked, State.Apart, State.MetaMarked;
    hide State.Ok;
    var x, y := st.d[a][off % BSIZE..off % BSIZE + m], c[off..off + m];
    forall k | 0 <= k < m
      ensures x[k] == y[k]
    {
      assert (off + k) / BSIZE == off / BSIZE && (off + k) % BSIZE == off % BSIZE + k;
    }
  }

  lemma OkShape(st: State)
    requires st.Ok()
    ensures st.Shape()
  {
  }

  lemma ExtendedOk(st: State, after: State, S: set<int>)
    requires Extended(st, after, S)
    ensures st.Shape() && after.Ok() && after.Shape()
  {
  }

  lemma DirectSlot(st: State, s: nat)
    requires st.Shape() && s < NDIRECT
    ensures st.Key(st.me, s) && st.At(st.me, s) == st.mine[s]
  {
  }

  /** Giving the inode an indirect block maps no entry of it. */
  lemma EntryKept(st: State, after: State, bn: nat)
    requires Extended(st, after, {NDIRECT}) && NDIRECT <= bn < MAXFILE
    ensures st.Shape() && after.Shape() && after.me == st.me
    ensures after.At(st.me, SlotOf(bn)) == st.At(st.me, SlotOf(bn))
  {
    hide State.At;
    assert st.Key(st.me, SlotOf(bn));
  }

  lemma IndirectKept(st: State, after: State, S: set<int>)
    requires Extended(st, after, S) && NDIRECT !in S
    ensures st.Shape() && after.Shape() && after.mine[NDIRECT] == st.mine[NDIRECT]
  {
    IndirectSlot(st, st.me);
    IndirectSlot(after, st.me);
  }

  /** The slots that mapping block `bn` may fill. */
  function SlotsFor(bn: nat): set<int> {
    if bn < NDIRECT then {bn as int} else {NDIRECT, bn + 1}
  }

  /** The indirect block, if there is one. */
  ghost function IndirectOf(addrs: seq<Uint>): set<int>
    requires |addrs| == NDIRECT + 1
  {
    if addrs[NDIRECT] == 0 then {} else {addrs[NDIRECT] as int}
  }

  ghost function BitmapBlocks(sb: Super): set<int> {
    set c | 0 <= c < sb.size :: sb.BBlock(c)
  }

  lemma BitmapBlock(sb: Super, b: nat)
    requires b < sb.size
    ensures sb.BBlock(b) in BitmapBlocks(sb)
  {
  }

  lemma FreeIsData(st: State, b: nat)
    requires st.Ok() && b < st.sb.size && !st.InUse(b)
    ensures b >= st.sb.DataStart() && st.sb.BBlock(b) < b && SUPER < st.sb.BBlock(b)
  {
    hide State.Marked, State.Apart;
    BBlockBelow(st.sb, st.d, b);
  }

  lemma IndirectInUse(st: State)
    requires st.Ok() && st.mine[NDIRECT] != 0
    ensures st.IsData(st.mine[NDIRECT]) && st.InUse(st.mine[NDIRECT])
  {
    IndirectSlot(st, st.me);
  }

  /** Blocks of files are neither the superblock nor part of the bitmap. */
  lemma DataApart(st: State, held: set<int>)
    requires st.Shape() && forall x :: x in held ==> st.IsData(x)
    ensures SUPER !in held && held !! BitmapBlocks(st.sb)
  {
    forall c | 0 <= c < st.sb.size
      ensures st.sb.BBlock(c) !in held
    {
      BBlockBelow(st.sb, st.d, c);
    }
  }

  lemma IndirectBelowLog(st: State)
    requires st.Ok() && st.mine[NDIRECT] != 0
    ensures st.mine[NDIRECT] < st.sb.LogStart()
  {
    IndirectSlot(st, st.me);
  }

  /** Bit `bi` of the bitmap block that starts with bit `b` is block `b + bi`. */
  lemma BitPlace(sb: Super, b: nat, bi: nat)
    requires b % BPB == 0 && bi < BPB
    ensures sb.BBlock(b + bi) == sb.BBlock(b) && (b + bi) % BPB == bi && (b + bi) % 8 == bi % 8
  {
    var q := b / BPB;
    assert b == BPB * q;
    assert (b + bi) / BPB == q && (b + bi) % BPB == bi;
    ModOf8(512 * q, bi);
  }

  lemma ModOf8(k: nat, x: nat)
    ensures (8 * k + x) % 8 == x % 8
  {
  }

  // ---------- reading ----------

  /** Where a read of `n` bytes at `off` ends. */
  function Clip(size: nat, off: nat, n: nat): nat { if off + n > size then size else off + n }

  /** Every block of bytes `lo` up to `hi` of the locked inode is mapped. */
  ghost predicate AllMapped(st: State, lo: nat, hi: nat)
    requires st.Shape()
  {
    forall bn :: lo / BSIZE <= bn < Blocks(hi) && bn < MAXFILE && lo < hi ==> st.At(st.me, SlotOf(bn)) != 0
  }

  lemma NoneMapped(st: State, lo: nat)
    requires st.Shape()
    ensures AllMapped(st, lo, lo)
  {
  }

  /** One block further. */
  lemma MappedNext(st: State, lo: nat, cur: nat, m: nat)
    requires st.Shape() && lo <= cur && 0 < m && cur % BSIZE + m <= BSIZE && cur + m <= MAXSIZE
    requires cur == lo || cur % BSIZE == 0
    ensures cur / BSIZE < MAXFILE
    ensures AllMapped(st, lo, cur + m) <==> AllMapped(st, lo, cur) && st.At(st.me, SlotOf(cur / BSIZE)) != 0
  {
    hide State.At;
    BlockCases(0, cur, m);
    var bn := cur / BSIZE;
    assert lo / BSIZE <= bn < MAXFILE;
    if AllMapped(st, lo, cur + m) {
      assert st.At(st.me, SlotOf(bn)) != 0;
    }
  }

  lemma MappedLess(st: State, lo: nat, mid: nat, hi: nat)
    requires st.Shape() && lo <= mid <= hi
    ensures AllMapped(st, lo, hi) ==> AllMapped(st, lo, mid)
  {
    hide State.At;
  }

  /** Bytes `lo` up to `hi` of the locked inode. */
  ghost function Slice(st: State, size: nat, lo: nat, hi: nat): seq<Byte>
    requires st.Shape() && lo <= hi <= size <= MAXSIZE
  {
    Content(st, st.me, size)[lo..hi]
  }

  lemma SliceNext(st: State, after: State, S: set<int>, size: nat, lo: nat, cur: nat, m: nat)
    requires Extended(st, after, S) && lo <= cur <= cur + m <= size <= MAXSIZE
    ensures st.Shape() && after.Shape() && after.me == st.me
    ensures Slice(st, size, lo, cur) + Content(after, st.me, size)[cur..cur + m] == Slice(st, size, lo, cur + m)
  {
    hide ByteAt, State.At;
    assert Content(after, st.me, size) == Content(st, st.me, size);
  }

  lemma ExtendedFacts(st: State, after: State, S: set<int>)
    requires Extended(st, after, S)
    ensures st.Shape() && after.Ok() && after.Shape() && after.sb == st.sb && after.me == st.me
    ensures SameBytes(st, after) && Accounted(st, after)
  {
  }

  /** Free blocks are a matter of the disk alone. */
  lemma RoomOfDisk(st: State, after: State)
    requires st.Shape() && after.Shape() && after.sb == st.sb
    ensures after.d == st.d ==> Room(after) == Room(st)
  {
    if after.d == st.d {
      RoomSame(st, after);
    }
  }

  // ---------- the record of a transaction ----------

  /** `disk` is `base` with the writes applied, all of them below sector `n`. */
  ghost predicate Replayed(base: Disk, disk: Disk, ws: seq<L.Write>, n: int) {
    (forall i :: 0 <= i < |ws| ==> 0 <= ws[i].sector < |base| && ws[i].sector < n) && disk == L.Replay(base, ws)
  }

  lemma ReplayedNext(base: Disk, disk: Disk, ws: seq<L.Write>, n: int, w: L.Write)
    requires Replayed(base, disk, ws, n) && 0 <= w.sector < n && w.sector < |base|
    ensures w.sector < |disk| && Replayed(base, disk[w.sector := w.data], ws + [w], n)
  {
    L.ReplayNext(base, ws, w);
  }

  // ---------- the sectors a write logs ----------

  /** The blocks of the bytes stored so far. */
  ghost function Stored(st: State, lo: nat, hi: nat): set<int>
    requires st.Shape()
  {
    if hi == lo then {} else DataBlocks(st, lo, hi)
  }

  /** The indirect block, if a write that ends at `hi` gives it new entries. */
  ghost function NewIndirect(st: State, size: nat, hi: nat): set<int>
    requires st.Shape()
  {
    if Blocks(hi) > Max(NDIRECT, Blocks(size)) then {st.mine[NDIRECT] as int} else {}
  }

  /** Some bitmap block is among `l`. */
  ghost predicate HasBitmap(sb: Super, l: set<int>) { exists c :: 0 <= c < sb.size && sb.BBlock(c) in l }

  /** `l` is `l0` and the sectors logged for bytes `lo` up to `hi`, the file having had `size` bytes: the blocks of the
      bytes, the indirect block if it gets entries, and bitmap blocks exactly if there are new blocks. */
  ghost predicate LogsOf(l0: set<int>, l: set<int>, st: State, size: nat, lo: nat, hi: nat)
    requires st.Shape()
  {
    var sure := l0 + Stored(st, lo, hi) + NewIndirect(st, size, hi);
    && sure <= l <= sure + (if Blocks(hi) > Blocks(size) then BitmapBlocks(st.sb) else {})
    && (Blocks(hi) > Blocks(size) ==> HasBitmap(st.sb, l))
  }

  /** The sectors logged for one round, its block being new or not. */
  ghost predicate RoundLogs(l: set<int>, l1: set<int>, st: State, bn: nat, isNew: bool)
    requires st.Shape() && bn < MAXFILE
  {
    var a := st.At(st.me, SlotOf(bn));
    if isNew then
      var sure := l + {a as int} + if bn < NDIRECT then {} else {st.mine[NDIRECT] as int};
      sure + {st.sb.BBlock(a) as int} <= l1 <= sure + BitmapBlocks(st.sb)
    else
      l1 == l + {a as int}
  }

  /** What a new block, and before it perhaps a new indirect block, make of the sectors logged. */
  lemma RoundOf(l0: set<int>, l: set<int>, l1: set<int>, st: State, bn: nat)
    requires st.Ok() && bn < MAXFILE && st.At(st.me, SlotOf(bn)) != 0
    requires l0 <= l <= l0 + BitmapBlocks(st.sb) + if bn < NDIRECT then {} else {st.mine[NDIRECT] as int}
    requires var a := st.At(st.me, SlotOf(bn));
             l1 == l + {st.sb.BBlock(a) as int, a as int} + if bn < NDIRECT then {} else {st.mine[NDIRECT] as int}
    ensures RoundLogs(l0, l1, st, bn, true)
  {
    hide State.Marked, State.Apart, State.MetaMarked, BitmapBlocks;
    MappedData(st, bn);
    BitmapBlock(st.sb, st.At(st.me, SlotOf(bn)));
  }

  /** Giving the inode an indirect block, if that is what happened, has logged bitmap blocks and that block. */
  lemma IndirectLogs(st: State, l0: set<int>, l: set<int>)
    requires st.Ok() && st.mine[NDIRECT] != 0
    requires l == l0 || l == l0 + {st.sb.BBlock(st.mine[NDIRECT]) as int, st.mine[NDIRECT] as int}
    ensures l0 <= l <= l0 + BitmapBlocks(st.sb) + {st.mine[NDIRECT] as int}
  {
    hide State.Marked, State.Apart, State.MetaMarked, BitmapBlocks;
    IndirectInUse(st);
    BitmapBlock(st.sb, st.mine[NDIRECT]);
  }

  /** Logging the block's new contents logs no further sector if the block is new, and the block otherwise. */
  lemma RoundAgain(l: set<int>, l1: set<int>, st: State, bn: nat, isNew: bool)
    requires st.Shape() && bn < MAXFILE && (if isNew then RoundLogs(l, l1, st, bn, true) else l1 == l)
    ensures RoundLogs(l, l1 + {st.At(st.me, SlotOf(bn)) as int}, st, bn, isNew) && l <= l1
  {
    hide BitmapBlocks, State.At;
  }

  /** One further call of log_write, for sector `s`. */
  ghost predicate OneLogged(w0: seq<L.Write>, w: seq<L.Write>, s: int) {
    |w| == |w0| + 1 && w[..|w0|] == w0 && w[|w0|].sector == s
  }

  /** The last call of log_write names a sector that none before it does. */
  ghost predicate EndsNew(ws: seq<L.Write>) {
    ws != [] && ws[|ws| - 1].sector !in L.LoggedSectors(ws[..|ws| - 1])
  }

  lemma NowNew(w0: seq<L.Write>, w: seq<L.Write>, l0: set<int>, s: int)
    requires OneLogged(w0, w, s) && L.SectorsAre(w0, l0) && s !in l0
    ensures EndsNew(w)
  {
  }

  lemma LogsNone(l: set<int>, st: State, size: nat, lo: nat)
    requires st.Shape() && lo <= size
    ensures LogsOf(l, l, st, size, lo, lo)
  {
  }

  lemma BlockCases(size: nat, off: nat, m: nat)
    requires 0 < m && off % BSIZE + m <= BSIZE
    ensures var bn := off / BSIZE;
            && Blocks(off + m) == bn + 1 && bn <= Blocks(off) <= bn + 1 && Blocks(off) <= Blocks(Max(size, off))
            && (bn >= Blocks(Max(size, off)) ==> Blocks(off) == bn >= Blocks(size))
            && (bn < Blocks(Max(size, off)) && bn >= Blocks(size) ==> Blocks(off) == bn + 1)
  {
  }

  lemma StoredStep(st: State, mid: State, size: nat, lo: nat, off: nat, m: nat)
    requires lo <= off < off + m <= MAXSIZE && off % BSIZE + m <= BSIZE && off / BSIZE < MAXFILE && size <= MAXSIZE
    requires st.Shape() && NoHoles(st, st.me, Max(size, off)) && Extended(st, mid, SlotsFor(off / BSIZE))
    ensures Stored(mid, lo, off + m) == Stored(st, lo, off) + {mid.At(st.me, SlotOf(off / BSIZE)) as int}
  {
    hide State.Marked, State.Apart, State.MetaMarked, SameBytes, Accounted, State.At, Blocks;
    BlockCases(size, off, m);
    var bn := off / BSIZE;
    assert lo / BSIZE <= bn;
    forall b | 0 <= b < Blocks(off) && b < MAXFILE
      ensures mid.At(st.me, SlotOf(b)) == st.At(st.me, SlotOf(b))
    {
      assert st.Key(st.me, SlotOf(b));
    }
    var s, t := Stored(mid, lo, off + m), Stored(st, lo, off);
    forall x | x in t
      ensures x in s
    {
      var b :| lo / BSIZE <= b < Blocks(off) && b < MAXFILE && x == st.At(st.me, SlotOf(b));
      assert x == mid.At(st.me, SlotOf(b));
    }
    forall x | x in s && x != mid.At(st.me, SlotOf(bn))
      ensures x in t
    {
      var b :| lo / BSIZE <= b < Blocks(off + m) && b < MAXFILE && x == mid.At(st.me, SlotOf(b));
      assert b < bn;
      assert x == st.At(st.me, SlotOf(b));
    }
  }

  lemma LogsStep(l0: set<int>, l: set<int>, l1: set<int>, st: State, mid: State, size: nat, lo: nat, off: nat, m: nat)
    requires lo <= off < off + m <= MAXSIZE && off % BSIZE + m <= BSIZE && off / BSIZE < MAXFILE && lo <= size <= MAXSIZE
    requires st.Shape() && NoHoles(st, st.me, Max(size, off)) && Extended(st, mid, SlotsFor(off / BSIZE))
    requires mid.At(st.me, SlotOf(off / BSIZE)) != 0
    requires LogsOf(l0, l, st, size, lo, off)
    requires RoundLogs(l, l1, mid, off / BSIZE, st.At(st.me, SlotOf(off / BSIZE)) == 0)
    ensures LogsOf(l0, l1, mid, size, lo, off + m)
  {
    hide State.Marked, State.Apart, State.MetaMarked, BitmapBlocks, SameBytes, Accounted, State.At;
    IndirectSlot(st, st.me);
    IndirectSlot(mid, st.me);
    hide Blocks, Stored;
    BlockCases(size, off, m);
    var bn := off / BSIZE;
    StoredStep(st, mid, size, lo, off, m);
    MappedData(mid, bn);
    assert st.Key(st.me, NDIRECT) && st.Key(st.me, SlotOf(bn));
  }

  /** Storing bytes and writing the inode back leave the account of logged sectors as it is. */
  lemma LogsSame(l0: set<int>, l: set<int>, st: State, after: State, size: nat, lo: nat, hi: nat)
    requires st.Shape() && after.Shape() && after.sb == st.sb && after.mine == st.mine
    requires DataBlocks(after, lo, hi) == DataBlocks(st, lo, hi)
    ensures LogsOf(l0, l, after, size, lo, hi) <==> LogsOf(l0, l, st, size, lo, hi)
  {
    hide DataBlocks, BitmapBlocks;
  }

  /** The second half of a round: with its block mapped, storing the piece keeps everything that holds of the write. */
  lemma StoredRound(st0: State, st: State, mid: State, off0: nat, done: seq<Byte>, piece: seq<Byte>, size: nat,
      l0: set<int>, l: set<int>, off: nat)
    requires off == off0 + |done| && off + |piece| <= MAXSIZE && size <= MAXSIZE
    requires off % BSIZE + |piece| <= BSIZE && off / BSIZE < MAXFILE
    requires st.Shape() && mid.Ok() && mid.me == st.me == st0.me && mid.At(mid.me, SlotOf(off / BSIZE)) != 0
    requires Written(st0, st, off0, done) && Extended(st, mid, SlotsFor(off / BSIZE))
    requires NoHoles(mid, mid.me, Max(size, off + |piece|)) && LogsOf(l0, l, mid, size, off0, off + |piece|)
    ensures mid.At(mid.me, SlotOf(off / BSIZE)) < |mid.d|
    ensures var after := StoredIn(mid, off, piece);
            && Written(st0, after, off0, done + piece) && after.Shape() && Room(after) == Room(mid)
            && NoHoles(after, mid.me, Max(size, off + |piece|))
            && Touched(after, off0, off + |piece|) == Touched(mid, off0, off + |piece|)
            && LogsOf(l0, l, after, size, off0, off + |piece|)
  {
    hide State.Marked, State.Apart, State.MetaMarked, State.Ok, State.At, Splice, NoHoles, LogsOf, Touched, DataBlocks, Room;
    hide Accounted, SameBytes, ByteAt, Blocks, Written, Extended;
    var bn := off / BSIZE;
    OkShape(mid);
    MappedData(mid, bn);
    WrittenThenExtended(st0, st, mid, off0, done, SlotsFor(bn));
    WrittenStep(st0, mid, off0, done, piece, bn);
    var a := mid.At(mid.me, SlotOf(bn));
    DataOnDisk(mid, a);
    var after := StoredIn(mid, off, piece);
    DataWriteNoHoles(mid, bn, after.d[a], Max(size, off + |piece|), off0, off + |piece|);
    LogsSame(l0, l, mid, after, size, off0, off + |piece|);
  }

  /** A whole round on values: bmap has gone from `st` to `mid` and logged `l1` on top of `l`, then the piece is stored. */
  lemma RoundDone(st0: State, st: State, mid: State, off0: nat, done: seq<Byte>, piece: seq<Byte>, size: nat,
      l0: set<int>, l: set<int>, l1: set<int>, off: nat)
    requires off == off0 + |done| && off + |piece| <= MAXSIZE && off0 <= size <= MAXSIZE && 0 < |piece|
    requires off % BSIZE + |piece| <= BSIZE && off / BSIZE < MAXFILE
    requires st.Shape() && NoHoles(st, st.me, Max(size, off)) && LogsOf(l0, l, st, size, off0, off)
    requires mid.Ok() && mid.me == st.me == st0.me && mid.sb == st.sb && mid.At(mid.me, SlotOf(off / BSIZE)) != 0
    requires off / BSIZE >= NDIRECT ==> mid.mine[NDIRECT] != 0
    requires Written(st0, st, off0, done) && Extended(st, mid, SlotsFor(off / BSIZE))
    requires if st.At(st.me, SlotOf(off / BSIZE)) == 0 then RoundLogs(l, l1, mid, off / BSIZE, true) else l1 == l
    ensures mid.IsData(mid.At(mid.me, SlotOf(off / BSIZE))) && mid.At(mid.me, SlotOf(off / BSIZE)) < |mid.d| && l <= l1
    ensures var after, a := StoredIn(mid, off, piece), mid.At(mid.me, SlotOf(off / BSIZE)) as int;
            && Written(st0, after, off0, done + piece) && after.Shape() && Room(after) == Room(mid)
            && NoHoles(after, mid.me, Max(size, off + |piece|))
            && LogsOf(l0, l1 + {a}, after, size, off0, off + |piece|)
            && Touched(st, off0, off) <= Touched(after, off0, off + |piece|)
            && BitmapBlocks(st.sb) + {a} + IndirectOf(mid.mine) <= Touched(after, off0, off + |piece|)
  {
    hide State.Marked, State.Apart, State.MetaMarked, State.Ok, State.At, Splice, NoHoles, LogsOf, Touched, DataBlocks, Room;
    hide Accounted, SameBytes, ByteAt, Blocks, Written, Extended, RoundLogs, BitmapBlocks, StoredIn;
    var bn := off / BSIZE;
    OkShape(mid);
    IndirectSlot(mid, mid.me);
    MappedData(mid, bn);
    DataOnDisk(mid, mid.At(mid.me, SlotOf(bn)));
    MappedStep(st, mid, size, off, |piece|);
    TouchedRound(st, mid, size, off0, off, |piece|);
    RoundAgain(l, l1, mid, bn, st.At(st.me, SlotOf(bn)) == 0);
    var a := mid.At(mid.me, SlotOf(bn)) as int;
    LogsStep(l0, l, l1 + {a}, st, mid, size, off0, off, |piece|);
    StoredRound(st0, st, mid, off0, done, piece, size, l0, l1 + {a}, off);
  }

  /** `st` with a piece stored in the mapped block at `off`. */
  ghost function StoredIn(st: State, off: nat, piece: seq<Byte>): State
    requires st.Shape() && off / BSIZE < MAXFILE && off % BSIZE + |piece| <= BSIZE
    requires st.At(st.me, SlotOf(off / BSIZE)) < |st.d|
  {
    var a := st.At(st.me, SlotOf(off / BSIZE));
    st.(d := st.d[a := Splice(st.d[a], off % BSIZE, piece)])
  }

  /** What log_write makes of a write that stops for want of blocks: it would have logged more, had there been any. */
  lemma HaltVerdict(ws: seq<L.Write>, l: set<int>, sb: Super, d: Disk, i: nat, size: nat, lo: nat, hi: nat)
    requires Fits(sb, d) && i < sb.ninodes && L.SectorsAre(ws, l) && lo <= size
    requires |l| <= |BitmapBlocks(sb)| + BlocksIn(lo, hi) && Need(size, hi) > 0
    ensures sb.size <= BPB && LogCount(size, lo, hi) <= L.Limit(sb.nlog) ==> L.FirstPanic(ws, sb.nlog, true).Fine?
  {
    hide L.FirstPanic, L.LoggedSectors, BitmapBlocks;
    if sb.size <= BPB {
      assert Blocks(hi) > Blocks(size) && hi > size;
      OneBitmap(sb, d, i);
      if |l| < L.Limit(sb.nlog) {
        L.FewAreFine(ws, sb.nlog);
      }
    }
  }

  /** What log_write makes of a write that completes as a transaction of its own. */
  lemma DoneVerdict(w1: seq<L.Write>, w: seq<L.Write>, l1: set<int>, l: set<int>, st: State, size: nat, lo: nat, hi: nat)
    requires st.Ok() && lo <= hi <= MAXSIZE && lo <= size <= MAXSIZE && st.sb.size <= BPB
    requires NoHoles(st, st.me, Max(size, hi)) && LogsOf({}, l1, st, size, lo, hi)
    requires L.SectorsAre(w1, l1) && L.SectorsAre(w, l)
    requires lo == hi ==> w1 == []
    requires if lo < hi && hi > size then OneLogged(w1, w, st.sb.IBlock(st.me)) && l == l1 + {st.sb.IBlock(st.me) as int}
             else w == w1 && l == l1 && (lo < hi ==> EndsNew(w))
    ensures |l| == LogCount(size, lo, hi)
    ensures L.FirstPanic(w, st.sb.nlog, true).Fine? <==> LogCount(size, lo, hi) <= L.Limit(st.sb.nlog)
  {
    hide State.Marked, State.Apart, State.MetaMarked, State.Ok, State.At, NoHoles, LogsOf, L.FirstPanic, L.LoggedSectors;
    if lo < hi {
      LogsCount(l1, st, size, lo, hi);
      if hi > size {
        NowNew(w1, w, l1, st.sb.IBlock(st.me));
      }
      L.FineExactly(w, st.sb.nlog);
    } else {
      L.NoCalls(st.d, st.sb.nlog, true);
    }
  }

  /** What log_write makes of a truncation that is a transaction of its own. */
  lemma TruncVerdict(w1: seq<L.Write>, w: seq<L.Write>, l1: set<int>, l: set<int>, st: State)
    requires st.Shape() && st.sb.size <= BPB && l1 <= BitmapBlocks(st.sb) && l == l1 + {st.sb.IBlock(st.me) as int}
    requires L.SectorsAre(w1, l1) && L.SectorsAre(w, l) && OneLogged(w1, w, st.sb.IBlock(st.me))
    ensures L.Limit(st.sb.nlog) >= 2 ==> L.FirstPanic(w, st.sb.nlog, true).Fine?
  {
    hide L.FirstPanic, L.LoggedSectors, BitmapBlocks;
    OneBitmap(st.sb, st.d, st.me);
    SubsetSize(l1, BitmapBlocks(st.sb));
    NowNew(w1, w, l1, st.sb.IBlock(st.me));
    L.FineExactly(w, st.sb.nlog);
  }

  ghost function BlockSet(st: State, a: nat, b: nat): set<int>
    requires st.Shape()
  {
    set bn | a <= bn < b && bn < MAXFILE :: st.At(st.me, SlotOf(bn)) as int
  }

  lemma {:induction false} BlockSetSize(st: State, a: nat, b: nat)
    requires st.Ok() && a <= b <= MAXFILE && forall bn :: a <= bn < b ==> st.At(st.me, SlotOf(bn)) != 0
    ensures |BlockSet(st, a, b)| == b - a
    decreases b
  {
    hide State.At, State.MetaMarked, State.Marked;
    if a < b {
      BlockSetSize(st, a, b - 1);
      var x := st.At(st.me, SlotOf(b - 1)) as int;
      assert st.Key(st.me, SlotOf(b - 1));
      forall bn | a <= bn < b - 1
        ensures st.At(st.me, SlotOf(bn)) != x
      {
        assert st.Key(st.me, SlotOf(bn));
      }
      assert BlockSet(st, a, b) == BlockSet(st, a, b - 1) + {x};
    } else {
      assert BlockSet(st, a, b) == {};
    }
  }

  /** The blocks of bytes `lo` up to `hi` are as many as they look. */
  lemma StoredSize(st: State, size: nat, lo: nat, hi: nat)
    requires st.Ok() && lo < hi <= size <= MAXSIZE && NoHoles(st, st.me, size)
    ensures |Stored(st, lo, hi)| == BlocksIn(lo, hi)
    ensures forall x :: x in Stored(st, lo, hi) ==> st.IsData(x)
  {
    hide State.At, State.MetaMarked, State.Apart;
    var a, b := lo / BSIZE, Blocks(hi);
    assert a <= b <= Blocks(size) <= MAXFILE;
    assert Stored(st, lo, hi) == BlockSet(st, a, b);
    BlockSetSize(st, a, b);
    forall bn | a <= bn < b
      ensures st.IsData(st.At(st.me, SlotOf(bn)))
    {
      MappedData(st, bn);
    }
  }

  /** The length of the next piece: what is left, or what goes into the block. */
  function PieceLen(cur: nat, left: nat): (m: nat)
    requires left > 0
    ensures 0 < m <= left && cur % BSIZE + m <= BSIZE && (m == left || (cur + m) % BSIZE == 0)
  {
    if left < BSIZE - cur % BSIZE then left else BSIZE - cur % BSIZE
  }

  /** The number of blocks that bytes `lo` up to `hi` lie in. */
  function BlocksIn(lo: nat, hi: nat): int { Blocks(hi) - lo / BSIZE }

  /** Distinct sectors that a write of bytes `lo` up to `hi` to a file of `size` bytes logs: its blocks, the bitmap block
      if some are new, the indirect block if it gets entries, and the block of the inode if the file grows. */
  function LogCount(size: nat, lo: nat, hi: nat): int {
    if hi <= lo then 0
    else
      BlocksIn(lo, hi)
      + (if Blocks(hi) > Blocks(size) then 1 else 0)
      + (if Blocks(hi) > Max(NDIRECT, Blocks(size)) then 1 else 0)
      + if hi > size then 1 else 0
  }

  /** A write that the range tests of writei let through fits a log of LOGSIZE blocks. */
  predicate FitsLog(size: nat, lo: nat, n: nat) {
    lo <= size <= MAXSIZE && lo + n <= MAXSIZE ==> LogCount(size, lo, lo + n) <= L.Limit(L.LOGSIZE)
  }

  /** Up to 2561 bytes fit the log wherever they are written; of more bytes that is not so, unless they hardly fit a file. */
  lemma SafeLength(n: nat)
    requires n <= MAXSIZE - 6655
    ensures n <= 2561 <==> forall size: nat, lo: nat :: FitsLog(size, lo, n)
  {
    if n <= 2561 {
      forall size: nat, lo: nat
        ensures FitsLog(size, lo, n)
      {
        assert n > 0 ==> BlocksIn(lo, lo + n) <= 6;
      }
    } else {
      assert Blocks(6655 + n) >= 19;
      assert !FitsLog(6655, 6655, n);
    }
  }

  lemma IndirectApart(st: State, size: nat, lo: nat, hi: nat)
    requires st.Ok() && lo < hi <= MAXSIZE && size <= MAXSIZE && NoHoles(st, st.me, Max(size, hi))
    ensures Stored(st, lo, hi) !! NewIndirect(st, size, hi)
    ensures forall x :: x in NewIndirect(st, size, hi) ==> st.IsData(x)
  {
    hide State.At, State.MetaMarked;
    if Blocks(hi) > Max(NDIRECT, Blocks(size)) {
      assert Blocks(Max(size, hi)) > NDIRECT;
      IndirectSlot(st, st.me);
      assert st.Key(st.me, NDIRECT);
      forall bn | 0 <= bn < MAXFILE
        ensures st.At(st.me, SlotOf(bn)) != st.At(st.me, NDIRECT)
      {
        assert st.Key(st.me, SlotOf(bn));
      }
    }
  }

  lemma OneBitmap(sb: Super, d: Disk, i: nat)
    requires Fits(sb, d) && sb.size <= BPB && i < sb.ninodes
    ensures BitmapBlocks(sb) == {sb.BBlock(0) as int} && sb.IBlock(i) < sb.BBlock(0) < sb.DataStart()
    ensures forall c :: 0 <= c < sb.size ==> sb.BBlock(c) == sb.BBlock(0)
  {
    IBlockBelow(sb, d, i);
    BBlockBelow(sb, d, 0);
    assert sb.BBlock(0) in BitmapBlocks(sb);
  }

  lemma LogsCount(l: set<int>, st: State, size: nat, lo: nat, hi: nat)
    requires st.Ok() && lo < hi <= MAXSIZE && lo <= size <= MAXSIZE && st.sb.size <= BPB
    requires NoHoles(st, st.me, Max(size, hi)) && LogsOf({}, l, st, size, lo, hi)
    ensures |l| == LogCount(size, lo, hi) - if hi > size then 1 else 0
    ensures st.sb.IBlock(st.me) !in l
  {
    hide State.Marked, State.Apart, State.MetaMarked, State.Ok, State.At, Blocks, DataBlocks, NoHoles, BitmapBlocks, Stored;
    OkShape(st);
    var D, I := Stored(st, lo, hi), NewIndirect(st, size, hi);
    StoredSize(st, Max(size, hi), lo, hi);
    IndirectApart(st, size, lo, hi);
    OneBitmap(st.sb, st.d, st.me);
    var b := st.sb.BBlock(0);
    var B := if Blocks(hi) > Blocks(size) then {b as int} else {};
    assert l == D + I + B;
    assert |D + I| == |D| + |I|;
    assert |D + I + B| == |D + I| + |B|;
  }

  /** Inside the file every round logs a sector it has not logged before. */
  lemma NextIsNew(l: set<int>, st: State, size: nat, lo: nat, off: nat)
    requires st.Ok() && lo <= off < size <= MAXSIZE && NoHoles(st, st.me, size) && (off == lo || off % BSIZE == 0)
    requires off / BSIZE < MAXFILE && LogsOf({}, l, st, size, lo, off)
    ensures st.At(st.me, SlotOf(off / BSIZE)) !in l
  {
    hide State.At, State.Marked, State.MetaMarked, BitmapBlocks;
    var bn := off / BSIZE;
    assert Blocks(off) <= Blocks(size) && bn < Blocks(size);
    assert l == Stored(st, lo, off);
    assert st.Key(st.me, SlotOf(bn));
    forall b | 0 <= b < bn
      ensures st.At(st.me, SlotOf(b)) != st.At(st.me, SlotOf(bn))
    {
      assert st.Key(st.me, SlotOf(b));
    }
  }

  /** A write that stops for want of blocks has logged no more than the blocks stored, bitmap blocks and the indirect one. */
  lemma StopBound(l0: set<int>, l: set<int>, l1: set<int>, st: State, mine: seq<Uint>, size: nat, lo: nat, off: nat, hi: nat)
    requires st.Ok() && lo <= off <= hi <= MAXSIZE && lo <= size <= MAXSIZE && NoHoles(st, st.me, Max(size, off))
    requires LogsOf(l0, l, st, size, lo, off) && |mine| == NDIRECT + 1 && lo < hi
    requires IndirectOf(st.mine) <= IndirectOf(mine) && l1 <= l + BitmapBlocks(st.sb) + IndirectOf(mine)
    requires off < hi && off / BSIZE < MAXFILE && st.At(st.me, SlotOf(off / BSIZE)) == 0
    ensures |l1| <= |l0| + |BitmapBlocks(st.sb)| + BlocksIn(lo, hi)
  {
    hide State.Marked, State.Apart, State.MetaMarked, State.Ok, State.At, DataBlocks, NoHoles, BitmapBlocks;
    OkShape(st);
    var D, I, B := Stored(st, lo, off), IndirectOf(mine), BitmapBlocks(st.sb);
    UnmappedEnd(st, size, off);
    if lo < off {
      StoredSize(st, Max(size, off), lo, off);
    }
    assert |D| <= BlocksIn(lo, hi) - 1;
    NewIsIndirect(st, size, off);
    assert l1 <= l0 + B + I + D;
    SubsetSize(l1, l0 + B + I + D);
    Union(l0 + B + I, D);
    Union(l0 + B, I);
    Union(l0, B);
  }

  lemma UnmappedEnd(st: State, size: nat, off: nat)
    requires st.Shape() && NoHoles(st, st.me, Max(size, off)) && off / BSIZE < MAXFILE
    requires st.At(st.me, SlotOf(off / BSIZE)) == 0
    ensures Blocks(off) <= off / BSIZE
  {
    hide State.At;
    assert Blocks(off) <= Blocks(Max(size, off));
  }

  lemma NewIsIndirect(st: State, size: nat, off: nat)
    requires st.Shape() && NoHoles(st, st.me, Max(size, off))
    ensures NewIndirect(st, size, off) <= IndirectOf(st.mine)
  {
    IndirectSlot(st, st.me);
    assert Blocks(off) <= Blocks(Max(size, off));
  }
}
