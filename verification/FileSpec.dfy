/** A file as a byte sequence: how blocks, slots and sizes make up contents. */
module FileSpec {
  import opened Words
  import opened FsLayout
  import opened FsSpec

  const MAXSIZE := MAXFILE * BSIZE

  /** The slot that maps block `bn` of a file. */
  function SlotOf(bn: nat): (s: nat)
    ensures s != NDIRECT
    ensures bn < MAXFILE ==> s < NSLOT
  {
    if bn < NDIRECT then bn else bn + 1
  }

  /** Blocks that a file of this size occupies. */
  function Blocks(size: nat): nat { (size + BSIZE - 1) / BSIZE }

  /** Byte `p` of inode `i`; bytes of unmapped blocks read as zero. */
  function ByteAt(st: State, i: nat, p: nat): (b: Byte)
    requires st.Shape() && i < st.sb.ninodes && p < MAXSIZE
  {
    var a := st.At(i, SlotOf(p / BSIZE));
    if a == 0 || a >= |st.d| then 0 else st.d[a][p % BSIZE]
  }

  function Content(st: State, i: nat, size: nat): (c: seq<Byte>)
    requires st.Shape() && i < st.sb.ninodes && size <= MAXSIZE
    ensures |c| == size
  {
    seq<Byte>(size, p requires 0 <= p < size => ByteAt(st, i, p))
  }

  /** Exactly the blocks below the size are mapped. */
  ghost predicate NoHoles(st: State, i: nat, size: nat)
    requires st.Shape() && i < st.sb.ninodes
  {
    && size <= MAXSIZE
    && (forall bn :: 0 <= bn < MAXFILE ==> (st.At(i, SlotOf(bn)) != 0 <==> bn < Blocks(size)))
    && (st.At(i, NDIRECT) != 0 <==> Blocks(size) > NDIRECT)
  }

  ghost predicate SameBytes(st: State, after: State)
    requires st.Shape() && after.Shape() && after.sb == st.sb
  {
    forall i, p :: 0 <= i < st.sb.ninodes && 0 <= p < MAXSIZE ==> ByteAt(after, i, p) == ByteAt(st, i, p)
  }

  /** Nothing of any other inode has changed: not its copy on disk, its slots or its bytes. */
  ghost predicate OthersKept(st0: State, st: State) {
    && st0.Shape() && st.Shape() && st.sb == st0.sb && st.me == st0.me
    && (forall i :: 0 <= i < st0.sb.ninodes && i != st0.me ==> InodeOf(st0.sb, st.d, i) == InodeOf(st0.sb, st0.d, i))
    && (forall i, t :: st0.Key(i, t) && i != st0.me ==> st.At(i, t) == st0.At(i, t))
    && (forall i, p :: 0 <= i < st0.sb.ninodes && i != st0.me && 0 <= p < MAXSIZE ==>
          ByteAt(st, i, p) == ByteAt(st0, i, p))
  }

  /** The state with inode `i` locked and freshly read from disk. */
  ghost function OnDisk(sb: Super, d: Disk, i: nat): (st: State)
    requires Fits(sb, d) && i < sb.ninodes
    ensures st.Shape()
  {
    State(sb, d, i, InodeOf(sb, d, i).addrs)
  }

  lemma OthersSame(st: State)
    requires st.Ok()
    ensures OthersKept(st, st)
  {
  }

  lemma OthersTwice(a: State, b: State, c: State)
    requires OthersKept(a, b) && OthersKept(b, c)
    ensures OthersKept(a, c)
  {
    hide ByteAt, State.At, InodeOf;
  }

  /** `c` with `s` written at `off`, growing it if need be. */
  function Overlay(c: seq<Byte>, off: nat, s: seq<Byte>): (r: seq<Byte>)
    requires off <= |c|
    ensures |r| == if off + |s| > |c| then off + |s| else |c|
  {
    c[..off] + s + if off + |s| < |c| then c[off + |s|..] else []
  }

  /** A freshly reserved block reads as zeros, so mapping it changes no byte of any file. */
  lemma ReserveSameBytes(st: State, r: nat)
    requires st.Ok() && st.IsData(r) && !st.InUse(r)
    ensures SameBytes(st, Reserved(st, r))
  {
    ReserveKeeps(st, r);
    var after := Reserved(st, r);
    forall i, p | 0 <= i < st.sb.ninodes && 0 <= p < MAXSIZE
      ensures ByteAt(after, i, p) == ByteAt(st, i, p)
    {
      assert st.Key(i, SlotOf(p / BSIZE));
    }
  }

  lemma AttachSameBytes(st: State, s: nat, r: Uint)
    requires st.Ok() && s < NSLOT && Attachable(st, s, r) && st.Unowned(r) && st.d[r] == ZeroBlock()
    ensures SameBytes(st, Attached(st, s, r))
  {
    AttachKeeps(st, s, r);
    var after := Attached(st, s, r);
    IndirectSlot(st, st.me);
    forall i, p | 0 <= i < st.sb.ninodes && 0 <= p < MAXSIZE
      ensures ByteAt(after, i, p) == ByteAt(st, i, p)
    {
      var t := SlotOf(p / BSIZE);
      assert st.Key(i, t);
    }
  }

  lemma SyncSameBytes(st: State, di: Dinode)
    requires st.Ok() && di.Ok() && di.addrs == st.mine
    ensures SameBytes(st, st.(d := WithInode(st.sb, st.d, st.me, di)))
  {
    SyncKeeps(st, di);
    var after := st.(d := WithInode(st.sb, st.d, st.me, di));
    forall i, p | 0 <= i < st.sb.ninodes && 0 <= p < MAXSIZE
      ensures ByteAt(after, i, p) == ByteAt(st, i, p)
    {
      assert st.Key(i, SlotOf(p / BSIZE));
    }
  }

  /** Writing a mapped block changes that block's bytes of that file and nothing else. */
  lemma BlockWritten(st: State, bn: nat, blk: Block)
    requires st.Ok() && bn < MAXFILE && st.At(st.me, SlotOf(bn)) != 0
    ensures st.At(st.me, SlotOf(bn)) < |st.d|
    ensures var after := st.(d := st.d[st.At(st.me, SlotOf(bn)) := blk]);
            forall i, p :: 0 <= i < st.sb.ninodes && 0 <= p < MAXSIZE ==>
              ByteAt(after, i, p) == if i == st.me && p / BSIZE == bn then blk[p % BSIZE] else ByteAt(st, i, p)
  {
    DataWrite(st, SlotOf(bn), blk);
    var a := st.At(st.me, SlotOf(bn));
    var after := st.(d := st.d[a := blk]);
    assert st.Key(st.me, SlotOf(bn));
    forall i, p | 0 <= i < st.sb.ninodes && 0 <= p < MAXSIZE
      ensures ByteAt(after, i, p) == if i == st.me && p / BSIZE == bn then blk[p % BSIZE] else ByteAt(st, i, p)
    {
      assert st.Key(i, SlotOf(p / BSIZE));
    }
  }

  /** Block `b` is in a slot of the locked inode that was empty before. */
  ghost predicate Gained(st: State, after: State, b: int)
    requires st.Shape() && after.Shape() && after.sb == st.sb && after.me == st.me
  {
    exists t :: 0 <= t < NSLOT && st.At(st.me, t) == 0 && after.At(st.me, t) == b
  }

  /** Conservation: the blocks marked since are exactly those the locked inode gained. */
  ghost predicate Accounted(st: State, after: State)
    requires st.Shape() && after.Shape() && after.sb == st.sb && after.me == st.me
  {
    forall b :: after.InUse(b) <==> st.InUse(b) || Gained(st, after, b)
  }

  /** The locked inode's slots only fill up. */
  ghost predicate Grows(st: State, after: State)
    requires st.Shape() && after.Shape() && after.sb == st.sb && after.me == st.me
  {
    forall t :: 0 <= t < NSLOT && st.At(st.me, t) != 0 ==> after.At(st.me, t) == st.At(st.me, t)
  }

  lemma GainedTwice(a: State, b: State, c: State, x: int)
    requires a.Shape() && b.Shape() && c.Shape() && a.sb == b.sb == c.sb && a.me == b.me == c.me
    requires Grows(a, b) && Grows(b, c) && x != 0
    ensures Gained(a, c, x) <==> Gained(a, b, x) || Gained(b, c, x)
  {
    hide State.At, Fits;
  }

  lemma AccountedTwice(a: State, b: State, c: State)
    requires a.Ok() && b.Shape() && c.Shape() && a.sb == b.sb == c.sb && a.me == b.me == c.me
    requires Grows(a, b) && Grows(b, c) && Accounted(a, b) && Accounted(b, c)
    ensures Accounted(a, c)
  {
    hide Gained, Grows;
    ZeroInUse(a);
    hide State.Marked, State.Apart, State.MetaMarked;
    hide State.InUse, State.Ok;
    forall x
      ensures c.InUse(x) <==> a.InUse(x) || Gained(a, c, x)
    {
      if x != 0 {
        GainedTwice(a, b, c, x);
      }
    }
  }

  /** Block 0 holds the boot record and is always marked. */
  lemma ZeroInUse(st: State)
    requires st.Ok()
    ensures st.InUse(0)
  {
  }

  /** Slots and marks unchanged: the account stays balanced. */
  lemma AccountedSame(st: State, mid: State, after: State)
    requires st.Shape() && mid.Shape() && after.Shape() && st.sb == mid.sb == after.sb && st.me == mid.me == after.me
    requires Accounted(st, mid)
    requires forall t :: 0 <= t < NSLOT ==> after.At(st.me, t) == mid.At(st.me, t)
    requires forall b :: after.InUse(b) <==> mid.InUse(b)
    ensures Accounted(st, after)
  {
    hide State.At, State.InUse;
  }

  // ---------- room on the disk ----------

  /** The blocks a file can still be given: unmarked and below the log. */
  ghost function FreeBelow(st: State): set<int>
    requires st.Shape()
  {
    set b | 0 <= b < st.sb.LogStart() && !st.InUse(b)
  }

  ghost function Room(st: State): nat
    requires st.Shape()
  {
    |FreeBelow(st)|
  }

  /** The blocks a file of this size takes, its indirect block included. */
  function Cost(size: nat): nat { Blocks(size) + if Blocks(size) > NDIRECT then 1 else 0 }

  /** The blocks a file of `size` bytes lacks to reach `end`. */
  function Need(size: nat, end: nat): (n: nat)
    ensures n == Cost(Max(size, end)) - Cost(size)
  {
    CostGrows(size, Max(size, end));
    Cost(Max(size, end)) - Cost(size)
  }

  lemma CostGrows(a: nat, b: nat)
    requires a <= b
    ensures Cost(a) <= Cost(b)
  {
  }

  lemma RoomIff(st: State)
    requires st.Shape()
    ensures Room(st) >= 1 <==> exists b :: 0 <= b < st.sb.LogStart() && !st.InUse(b)
  {
    hide State.InUse;
    if b :| 0 <= b < st.sb.LogStart() && !st.InUse(b) {
      assert b in FreeBelow(st);
    } else {
      assert FreeBelow(st) == {};
    }
  }

  lemma RoomTaken(st: State, after: State, r: int)
    requires st.Shape() && after.Shape() && after.sb == st.sb && 0 <= r < st.sb.LogStart() && !st.InUse(r)
    requires forall b :: after.InUse(b) <==> b == r || st.InUse(b)
    ensures Room(after) == Room(st) - 1
  {
    hide State.InUse;
    assert r in FreeBelow(st);
    assert FreeBelow(after) == FreeBelow(st) - {r};
  }

  lemma RoomSame(st: State, after: State)
    requires st.Shape() && after.Shape() && after.sb == st.sb && forall b :: after.InUse(b) <==> st.InUse(b)
    ensures Room(after) == Room(st)
  {
    hide State.InUse;
    assert FreeBelow(after) == FreeBelow(st);
  }

  /** Blocks that mapping block `bn` of the locked inode still has to allocate. */
  ghost function Missing(st: State, bn: nat): nat
    requires st.Shape() && bn < MAXFILE
  {
    (if bn >= NDIRECT && st.mine[NDIRECT] == 0 then 1 else 0) + if st.At(st.me, SlotOf(bn)) == 0 then 1 else 0
  }

  /** Without holes the blocks to allocate for the next piece are what the file lacks to reach its end. */
  lemma MissingIsNeed(st: State, size: nat, off: nat, m: nat)
    requires 0 < m && off + m <= MAXSIZE && off % BSIZE + m <= BSIZE && off / BSIZE < MAXFILE && size <= MAXSIZE
    requires st.Shape() && NoHoles(st, st.me, Max(size, off))
    ensures Missing(st, off / BSIZE) == Cost(Max(size, off + m)) - Cost(Max(size, off))
  {
    hide State.At;
    BlocksStep(size, off, m);
    IndirectSlot(st, st.me);
  }

  /** Some of the locked inode's empty slots in `S` have been given blocks; no byte of any file has changed. */
  ghost predicate Extended(st: State, after: State, S: set<int>) {
    && st.Ok() && after.Ok() && after.sb == st.sb && after.me == st.me && |after.d| == |st.d|
    && SameBytes(st, after)
    && (forall i :: 0 <= i < st.sb.ninodes ==> InodeOf(st.sb, after.d, i) == InodeOf(st.sb, st.d, i))
    && (forall i, t :: st.Key(i, t) ==>
          after.At(i, t) == st.At(i, t) || (i == st.me && t in S && st.At(i, t) == 0))
    && Accounted(st, after)
  }

  lemma ExtendedTwice(a: State, b: State, c: State, S: set<int>, T: set<int>)
    requires Extended(a, b, S) && Extended(b, c, T)
    ensures Extended(a, c, S + T)
  {
    ExtendedGrows(a, b, S);
    ExtendedGrows(b, c, T);
    AccountedTwice(a, b, c);
    hide Accounted;
  }

  lemma ExtendedGrows(st: State, after: State, S: set<int>)
    requires Extended(st, after, S)
    ensures Grows(st, after)
  {
    hide Accounted, SameBytes;
    forall t | 0 <= t < NSLOT && st.At(st.me, t) != 0
      ensures after.At(st.me, t) == st.At(st.me, t)
    {
      assert st.Key(st.me, t);
    }
  }

  lemma AccountedNone(st: State)
    requires st.Ok()
    ensures Accounted(st, st)
  {
    ZeroInUse(st);
    hide State.InUse, State.At;
    assert forall b :: Gained(st, st, b) ==> b == 0;
  }

  lemma ExtendedNone(st: State, S: set<int>)
    requires st.Ok()
    ensures Extended(st, st, S)
  {
    AccountedNone(st);
    hide Accounted;
  }

  /** balloc followed by recording the block in slot `s`. */
  lemma AllocExtends(st: State, s: nat, r: Uint)
    requires st.Ok() && s < NSLOT && st.IsData(r) && !st.InUse(r) && st.At(st.me, s) == 0
    requires s > NDIRECT ==> st.mine[NDIRECT] != 0
    ensures var mid := Reserved(st, r);
            && (s > NDIRECT ==> 0 < mid.mine[NDIRECT] < |mid.d|)
            && Extended(st, Attached(mid, s, r), {s})
            && Attached(mid, s, r).At(st.me, s) == r
  {
    hide Accounted, ByteAt, State.Apart, State.MetaMarked, InodeOf, Used;
    var mid := Reserved(st, r);
    ReserveKeeps(st, r);
    ReserveSameBytes(st, r);
    IndirectSlot(st, st.me);
    assert st.Key(st.me, s);
    assert mid.Unowned(r);
    assert Attachable(mid, s, r);
    AttachKeeps(mid, s, r);
    AttachSameBytes(mid, s, r);
    AllocAccounted(st, Attached(mid, s, r), s, r);
  }

  lemma AllocRoom(st: State, s: nat, r: Uint)
    requires st.Ok() && s < NSLOT && st.IsData(r) && !st.InUse(r) && st.At(st.me, s) == 0
    requires s > NDIRECT ==> st.mine[NDIRECT] != 0
    ensures var mid := Reserved(st, r);
            && (s > NDIRECT ==> 0 < mid.mine[NDIRECT] < |mid.d|)
            && Room(Attached(mid, s, r)) == Room(st) - 1
  {
    hide Room, State.Apart;
    var mid := Reserved(st, r);
    ReserveKeeps(st, r);
    IndirectSlot(st, st.me);
    assert st.Key(st.me, s);
    assert mid.Unowned(r);
    AttachKeeps(mid, s, r);
    RoomTaken(st, Attached(mid, s, r), r);
  }

  lemma AllocAccounted(st: State, after: State, s: nat, r: Uint)
    requires st.Ok() && after.Ok() && after.sb == st.sb && after.me == st.me && s < NSLOT && st.At(st.me, s) == 0
    requires forall b :: after.InUse(b) <==> b == r || st.InUse(b)
    requires forall i, t :: st.Key(i, t) ==> after.At(i, t) == if i == st.me && t == s then r else st.At(i, t)
    ensures Accounted(st, after)
  {
    ZeroInUse(st);
    hide State.Marked, State.Apart, State.MetaMarked;
    hide State.InUse, State.At, State.Ok;
    forall b
      ensures after.InUse(b) <==> st.InUse(b) || Gained(st, after, b)
    {
      assert st.Key(st.me, s) && after.At(st.me, s) == r;
      assert forall t :: 0 <= t < NSLOT ==> st.Key(st.me, t);
    }
  }

  // ---------- writing ----------

  function Max(a: nat, b: nat): nat { if a < b then b else a }

  function Least(a: nat, b: nat): nat { if a < b then a else b }

  /** `blk` with `s` copied in at `o`. */
  function Splice(blk: Block, o: nat, s: seq<Byte>): (r: Block)
    requires o + |s| <= BSIZE
  {
    blk[..o] + s + blk[o + |s|..]
  }

  /** `st` is `st0` with `src` written to the locked inode at `off0`: every byte of every file accounted for,
      no block taken from any slot, and other inodes' slots and all inodes on disk as they were. */
  ghost predicate Written(st0: State, st: State, off0: nat, src: seq<Byte>) {
    && st0.Ok() && st.Ok() && st.sb == st0.sb && st.me == st0.me && |st.d| == |st0.d|
    && off0 + |src| <= MAXSIZE
    && (forall i :: 0 <= i < st0.sb.ninodes ==> InodeOf(st0.sb, st.d, i) == InodeOf(st0.sb, st0.d, i))
    && (forall i, p :: 0 <= i < st0.sb.ninodes && 0 <= p < MAXSIZE ==>
          ByteAt(st, i, p) == if i == st0.me && off0 <= p < off0 + |src| then src[p - off0] else ByteAt(st0, i, p))
    && (forall i, t :: st0.Key(i, t) ==>
          st.At(i, t) == st0.At(i, t) || (i == st0.me && st0.At(i, t) == 0))
    && Accounted(st0, st)
  }

  lemma WrittenNone(st: State, off0: nat)
    requires st.Ok() && off0 <= MAXSIZE
    ensures Written(st, st, off0, [])
  {
    AccountedNone(st);
    hide Accounted;
  }

  lemma WrittenGrows(st0: State, st: State, off0: nat, src: seq<Byte>)
    requires Written(st0, st, off0, src)
    ensures Grows(st0, st)
  {
    hide Accounted, ByteAt;
    forall t | 0 <= t < NSLOT && st0.At(st0.me, t) != 0
      ensures st.At(st0.me, t) == st0.At(st0.me, t)
    {
      assert st0.Key(st0.me, t);
    }
  }

  lemma WrittenThenExtended(st0: State, st: State, mid: State, off0: nat, src: seq<Byte>, S: set<int>)
    requires Written(st0, st, off0, src) && Extended(st, mid, S)
    ensures Written(st0, mid, off0, src)
  {
    WrittenGrows(st0, st, off0, src);
    ExtendedGrows(st, mid, S);
    AccountedTwice(st0, st, mid);
    hide Accounted, ByteAt;
  }

  /** Splicing a piece into a mapped block changes exactly the piece's bytes of that file. */
  lemma SplicedBytes(st: State, off: nat, piece: seq<Byte>)
    requires st.Ok() && off + |piece| <= MAXSIZE && off / BSIZE < MAXFILE && off % BSIZE + |piece| <= BSIZE
    requires st.At(st.me, SlotOf(off / BSIZE)) != 0
    ensures st.At(st.me, SlotOf(off / BSIZE)) < |st.d|
    ensures var a := st.At(st.me, SlotOf(off / BSIZE));
            var after := st.(d := st.d[a := Splice(st.d[a], off % BSIZE, piece)]);
            forall i, p :: 0 <= i < st.sb.ninodes && 0 <= p < MAXSIZE ==>
              ByteAt(after, i, p) == if i == st.me && off <= p < off + |piece| then piece[p - off] else ByteAt(st, i, p)
  {
    var bn := off / BSIZE;
    var a := st.At(st.me, SlotOf(bn));
    DataWrite(st, SlotOf(bn), ZeroBlock());
    var blk := Splice(st.d[a], off % BSIZE, piece);
    BlockWritten(st, bn, blk);
    hide State.Marked, State.Apart, State.MetaMarked;
    hide State.Ok;
    var after := st.(d := st.d[a := blk]);
    forall i, p | 0 <= i < st.sb.ninodes && 0 <= p < MAXSIZE
      ensures ByteAt(after, i, p) == if i == st.me && off <= p < off + |piece| then piece[p - off] else ByteAt(st, i, p)
    {
      PieceByte(off, piece, p);
    }
  }

  /** One round of writei's loop: the next piece of the source goes into one mapped block. */
  lemma WrittenStep(st0: State, st: State, off0: nat, src: seq<Byte>, piece: seq<Byte>, bn: nat)
    requires Written(st0, st, off0, src) && off0 + |src| + |piece| <= MAXSIZE
    requires bn == (off0 + |src|) / BSIZE && bn < MAXFILE && (off0 + |src|) % BSIZE + |piece| <= BSIZE
    requires st.At(st.me, SlotOf(bn)) != 0
    ensures var a := st.At(st.me, SlotOf(bn));
            && a < |st.d|
            && Written(st0, st.(d := st.d[a := Splice(st.d[a], (off0 + |src|) % BSIZE, piece)]), off0, src + piece)
  {
    hide Accounted, ByteAt, State.Marked, State.Apart, State.MetaMarked, Splice, State.At, InodeOf, Fits;
    var off := off0 + |src|;
    var a := st.At(st.me, SlotOf(bn));
    SplicedBytes(st, off, piece);
    var blk := Splice(st.d[a], off % BSIZE, piece);
    DataWrite(st, SlotOf(bn), blk);
    DataWriteAccounted(st0, st, bn, blk);
    DataWriteInodes(st, bn, blk);
  }

  lemma DataWriteInodes(st: State, bn: nat, blk: Block)
    requires st.Ok() && bn < MAXFILE && st.At(st.me, SlotOf(bn)) != 0
    ensures st.At(st.me, SlotOf(bn)) < |st.d|
    ensures forall i :: 0 <= i < st.sb.ninodes ==>
              InodeOf(st.sb, st.d[st.At(st.me, SlotOf(bn)) := blk], i) == InodeOf(st.sb, st.d, i)
  {
    var x := st.At(st.me, SlotOf(bn));
    assert st.Key(st.me, SlotOf(bn));
    forall i | 0 <= i < st.sb.ninodes
      ensures InodeOf(st.sb, st.d[x := blk], i) == InodeOf(st.sb, st.d, i)
    {
      InodeOfFrame(st.sb, st.d, x, blk, i);
    }
  }

  lemma DataWriteAccounted(st0: State, st: State, bn: nat, blk: Block)
    requires st0.Shape() && st.Ok() && st.sb == st0.sb && st.me == st0.me && Accounted(st0, st)
    requires bn < MAXFILE && st.At(st.me, SlotOf(bn)) != 0
    ensures st.At(st.me, SlotOf(bn)) < |st.d|
    ensures Accounted(st0, st.(d := st.d[st.At(st.me, SlotOf(bn)) := blk]))
  {
    DataWrite(st, SlotOf(bn), blk);
    var x := st.At(st.me, SlotOf(bn));
    var after := st.(d := st.d[x := blk]);
    assert st.Key(st.me, SlotOf(bn));
    SameMarks(st, x, blk);
    assert forall t :: 0 <= t < NSLOT ==> st.Key(st.me, t);
    AccountedSame(st0, st, after);
  }

  /** Where a byte of the block written comes from. */
  lemma PieceByte(off: nat, piece: seq<Byte>, p: nat)
    requires off % BSIZE + |piece| <= BSIZE
    ensures off <= p < off + |piece| <==>
            p / BSIZE == off / BSIZE && off % BSIZE <= p % BSIZE < off % BSIZE + |piece|
    ensures off <= p < off + |piece| ==> p % BSIZE - off % BSIZE == p - off
  {
  }

  lemma BlocksStep(size: nat, off: nat, m: nat)
    requires 0 < m && off % BSIZE + m <= BSIZE
    ensures var h, bn := Max(size, off), off / BSIZE;
            && bn <= Blocks(h)
            && Blocks(Max(size, off + m)) == Max(Blocks(h), bn + 1)
    ensures off < size ==> off / BSIZE < Blocks(size)
  {
  }

  /** Mapping the block at the write position keeps the file free of holes. */
  lemma MappedStep(st: State, mid: State, size: nat, off: nat, m: nat)
    requires off + m <= MAXSIZE && 0 < m && off % BSIZE + m <= BSIZE && off / BSIZE < MAXFILE
    requires st.Shape() && NoHoles(st, st.me, Max(size, off)) && size <= MAXSIZE
    requires Extended(st, mid, if off / BSIZE < NDIRECT then {off / BSIZE} else {NDIRECT, off / BSIZE + 1})
    requires mid.At(st.me, SlotOf(off / BSIZE)) != 0
    requires off / BSIZE >= NDIRECT ==> mid.At(st.me, NDIRECT) != 0
    ensures NoHoles(mid, st.me, Max(size, off + m))
  {
    BlocksStep(size, off, m);
    hide Blocks;
    var bn := off / BSIZE;
    forall b | 0 <= b < MAXFILE
      ensures mid.At(st.me, SlotOf(b)) != 0 <==> b < Blocks(Max(size, off + m))
    {
      assert st.Key(st.me, SlotOf(b));
    }
    assert st.Key(st.me, NDIRECT);
  }

  lemma OverlayContent(st0: State, st: State, off0: nat, src: seq<Byte>, size: nat)
    requires Written(st0, st, off0, src) && off0 <= size <= MAXSIZE
    ensures Content(st, st0.me, Max(size, off0 + |src|)) == Overlay(Content(st0, st0.me, size), off0, src)
  {
    hide ByteAt;
    var c, o := Content(st, st0.me, Max(size, off0 + |src|)), Overlay(Content(st0, st0.me, size), off0, src);
    forall p | 0 <= p < |c|
      ensures c[p] == o[p]
    {
    }
  }
}
