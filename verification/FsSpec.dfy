/** Block ownership and file contents: what the inode layer keeps true of the disk. */
module FsSpec {
  import opened Words
  import opened FsLayout

  /** An inode's block numbers: 12 direct, the indirect block itself, 128 entries in it. */
  const NSLOT := 141

  function Slot(d: Disk, addrs: seq<Uint>, s: nat): (a: Uint)
    requires |addrs| == NDIRECT + 1 && s < NSLOT
  {
    if s <= NDIRECT then addrs[s]
    else if addrs[NDIRECT] == 0 || addrs[NDIRECT] >= |d| then 0
    else GetWord(d[addrs[NDIRECT]], 4 * (s - NDIRECT - 1))
  }

  /** The disk, with the in-memory block list of one locked inode. */
  datatype State = State(sb: Super, d: Disk, me: nat, mine: seq<Uint>) {
    predicate Shape() {
      Fits(sb, d) && me < sb.ninodes && |mine| == NDIRECT + 1
    }

    predicate Key(i: int, s: int) { 0 <= i < sb.ninodes && 0 <= s < NSLOT }

    function AddrsOf(i: nat): (a: seq<Uint>)
      requires Shape() && i < sb.ninodes
      ensures |a| == NDIRECT + 1
    {
      if i == me then mine else InodeOf(sb, d, i).addrs
    }

    /** The block that slot `s` of inode `i` names, 0 if none. */
    function At(i: nat, s: nat): (a: Uint)
      requires Shape() && Key(i, s)
    {
      Slot(d, AddrsOf(i), s)
    }

    predicate InUse(b: int)
      requires Shape()
    {
      0 <= b < sb.size && Used(sb, d, b)
    }

    predicate IsData(b: int) { sb.DataStart() <= b < sb.LogStart() }

    /** Every named block is a data block marked in the bitmap. */
    ghost predicate Marked()
      requires Shape()
    {
      forall i, s :: Key(i, s) ==> At(i, s) == 0 || (IsData(At(i, s)) && InUse(At(i, s)))
    }

    /** No block is named twice. */
    ghost predicate Apart()
      requires Shape()
    {
      forall i, s, j, t :: Key(i, s) && Key(j, t) && At(i, s) == At(j, t) != 0 ==> i == j && s == t
    }

    ghost predicate MetaMarked()
      requires Shape()
    {
      forall b :: 0 <= b < sb.DataStart() ==> InUse(b)
    }

    ghost predicate Ok() {
      Shape() && Marked() && Apart() && MetaMarked()
    }

    ghost predicate Unowned(b: int)
      requires Shape()
    {
      forall i, s :: Key(i, s) ==> At(i, s) != b
    }
  }

  /** The slots of an inode depend only on its block list and its indirect block. */
  lemma SlotFrame(d: Disk, d': Disk, addrs: seq<Uint>, s: nat)
    requires |addrs| == NDIRECT + 1 && s < NSLOT && |d| == |d'|
    requires 0 < addrs[NDIRECT] < |d| ==> d'[addrs[NDIRECT]] == d[addrs[NDIRECT]]
    ensures Slot(d', addrs, s) == Slot(d, addrs, s)
  {
  }

  /** The indirect slot is the last entry of the block list. */
  lemma IndirectSlot(st: State, i: nat)
    requires st.Shape() && i < st.sb.ninodes
    ensures st.Key(i, NDIRECT) && st.At(i, NDIRECT) == st.AddrsOf(i)[NDIRECT]
  {
  }

  /** Overwriting a file's data block changes no ownership. */
  lemma DataWrite(st: State, s: nat, blk: Block)
    requires st.Ok() && s < NSLOT && s != NDIRECT && st.At(st.me, s) != 0
    ensures st.At(st.me, s) < |st.d|
    ensures var after := st.(d := st.d[st.At(st.me, s) := blk]);
            after.Ok() && forall i, t :: st.Key(i, t) ==> after.At(i, t) == st.At(i, t)
  {
    var x := st.At(st.me, s);
    assert st.Key(st.me, s);
    var after := st.(d := st.d[x := blk]);
    forall i, t | st.Key(i, t)
      ensures after.At(i, t) == st.At(i, t)
    {
      IndirectSlot(st, i);
      if i != st.me { InodeOfFrame(st.sb, st.d, x, blk, i); }
      SlotFrame(st.d, after.d, st.AddrsOf(i), t);
    }
    SameMarks(st, x, blk);
    Carried(st, after);
  }

  lemma SameMarks(st: State, x: nat, blk: Block)
    requires st.Shape() && st.sb.DataStart() <= x < |st.d|
    ensures forall b :: 0 <= b < st.sb.size ==> (Used(st.sb, st.d[x := blk], b) <==> Used(st.sb, st.d, b))
  {
    forall b | 0 <= b < st.sb.size
      ensures Used(st.sb, st.d[x := blk], b) <==> Used(st.sb, st.d, b)
    {
      UsedFrame(st.sb, st.d, x, blk, b);
    }
  }

  /** Same slots and no mark lost: the invariant carries over. */
  lemma Carried(st: State, after: State)
    requires st.Ok() && after.Shape() && after.sb == st.sb
    requires forall i, t :: st.Key(i, t) ==> after.At(i, t) == st.At(i, t)
    requires forall b :: st.InUse(b) ==> after.InUse(b)
    ensures after.Ok()
  {
  }

  // ---------- allocating and attaching a block ----------

  /** balloc's effect: the bit set, the block zeroed. */
  function Reserved(st: State, r: nat): (after: State)
    requires st.Shape() && r < st.sb.size
    ensures after.Shape()
  {
    st.(d := WithBit(st.sb, st.d, r, true)[r := ZeroBlock()])
  }

  lemma ReserveKeeps(st: State, r: nat)
    requires st.Ok() && st.IsData(r) && !st.InUse(r)
    ensures st.Unowned(r)
    ensures var after := Reserved(st, r);
            && after.Ok() && after.InUse(r) && after.d[r] == ZeroBlock()
            && (forall i, t :: st.Key(i, t) ==> after.At(i, t) == st.At(i, t))
            && (forall b :: after.InUse(b) <==> b == r || st.InUse(b))
            && (forall x :: st.IsData(x) && x != r ==> after.d[x] == st.d[x])
            && (forall i :: 0 <= i < st.sb.ninodes ==> InodeOf(st.sb, after.d, i) == InodeOf(st.sb, st.d, i))
  {
    var after, mid := Reserved(st, r), WithBit(st.sb, st.d, r, true);
    forall i, t | st.Key(i, t)
      ensures st.At(i, t) != r
    {
    }
    forall b
      ensures after.InUse(b) <==> b == r || st.InUse(b)
    {
      if 0 <= b < st.sb.size {
        UsedWithBit(st.sb, st.d, r, true, b);
        UsedFrame(st.sb, mid, r, ZeroBlock(), b);
      }
    }
    BBlockBelow(st.sb, st.d, r);
    forall i | 0 <= i < st.sb.ninodes
      ensures InodeOf(st.sb, after.d, i) == InodeOf(st.sb, st.d, i)
    {
      InodeOfFrame(st.sb, st.d, st.sb.BBlock(r), BitBlock(st.sb, st.d, r, true), i);
      InodeOfFrame(st.sb, mid, r, ZeroBlock(), i);
    }
    SlotsKept(st, after);
    Carried(st, after);
  }

  /** If inodes and data blocks in use are untouched, so is every slot. */
  lemma SlotsKept(st: State, after: State)
    requires st.Ok() && after.Shape() && after.sb == st.sb && after.me == st.me && after.mine == st.mine && |after.d| == |st.d|
    requires forall i :: 0 <= i < st.sb.ninodes ==> InodeOf(st.sb, after.d, i) == InodeOf(st.sb, st.d, i)
    requires forall x :: st.IsData(x) && st.InUse(x) ==> after.d[x] == st.d[x]
    ensures forall i, t :: st.Key(i, t) ==> after.At(i, t) == st.At(i, t)
  {
    forall i, t | st.Key(i, t)
      ensures after.At(i, t) == st.At(i, t)
    {
      IndirectSlot(st, i);
      SlotFrame(st.d, after.d, st.AddrsOf(i), t);
    }
  }

  /** A reserved block recorded in a slot of the locked inode. */
  function Attached(st: State, s: nat, r: Uint): (after: State)
    requires st.Shape() && s < NSLOT && (s > NDIRECT ==> 0 < st.mine[NDIRECT] < |st.d|)
    ensures after.Shape()
  {
    if s <= NDIRECT then st.(mine := st.mine[s := r])
    else
      var x := st.mine[NDIRECT];
      st.(d := st.d[x := PutWord(st.d[x], 4 * (s - NDIRECT - 1), r)])
  }

  lemma ZeroWords(at: nat)
    requires at + 4 <= BSIZE
    ensures GetWord(ZeroBlock(), at) == 0
  {
  }

  predicate Attachable(st: State, s: nat, r: Uint)
    requires st.Shape() && s < NSLOT
  {
    && st.IsData(r) && st.InUse(r) && r != 0 && st.At(st.me, s) == 0
    && (s == NDIRECT ==> st.d[r] == ZeroBlock())
    && (s > NDIRECT ==> 0 < st.mine[NDIRECT] < |st.d|)
  }

  lemma AttachedSlots(st: State, s: nat, r: Uint, i: nat, t: nat)
    requires st.Ok() && s < NSLOT && Attachable(st, s, r) && st.Key(i, t)
    ensures Attached(st, s, r).At(i, t) == if i == st.me && t == s then r else st.At(i, t)
  {
    var after := Attached(st, s, r);
    IndirectSlot(st, i);
    IndirectSlot(st, st.me);
    if s == NDIRECT {
      if t > NDIRECT { ZeroWords(4 * (t - NDIRECT - 1)); }
    } else if s > NDIRECT {
      var x := st.mine[NDIRECT];
      assert st.Key(st.me, NDIRECT);
      var at := 4 * (s - NDIRECT - 1);
      if i != st.me {
        InodeOfFrame(st.sb, st.d, x, PutWord(st.d[x], at, r), i);
        SlotFrame(st.d, after.d, st.AddrsOf(i), t);
      } else if t == s {
        GetPutWord(st.d[x], at, r);
      } else if t > NDIRECT {
        PutWordFrame(st.d[x], at, r, 4 * (t - NDIRECT - 1));
      }
    }
  }

  lemma AttachKeeps(st: State, s: nat, r: Uint)
    requires st.Ok() && s < NSLOT && Attachable(st, s, r) && st.Unowned(r)
    ensures var after := Attached(st, s, r);
            && after.Ok()
            && (forall i, t :: st.Key(i, t) ==> after.At(i, t) == if i == st.me && t == s then r else st.At(i, t))
            && (forall b :: after.InUse(b) <==> st.InUse(b))
            && (forall x :: st.IsData(x) && !(s > NDIRECT && x == st.mine[NDIRECT]) ==> after.d[x] == st.d[x])
            && (forall i :: 0 <= i < st.sb.ninodes ==> InodeOf(st.sb, after.d, i) == InodeOf(st.sb, st.d, i))
  {
    var after := Attached(st, s, r);
    forall i, t | st.Key(i, t)
      ensures after.At(i, t) == if i == st.me && t == s then r else st.At(i, t)
    {
      AttachedSlots(st, s, r, i, t);
    }
    if s > NDIRECT {
      var x := st.mine[NDIRECT];
      IndirectSlot(st, st.me);
      var blk := PutWord(st.d[x], 4 * (s - NDIRECT - 1), r);
      SameMarks(st, x, blk);
      forall i | 0 <= i < st.sb.ninodes
        ensures InodeOf(st.sb, after.d, i) == InodeOf(st.sb, st.d, i)
      {
        InodeOfFrame(st.sb, st.d, x, blk, i);
      }
    }
    AttachedOk(st, s, r, after);
  }

  lemma AttachedOk(st: State, s: nat, r: Uint, after: State)
    requires st.Ok() && s < NSLOT && st.IsData(r) && st.InUse(r) && st.Unowned(r)
    requires after.Shape() && after.sb == st.sb
    requires forall i, t :: st.Key(i, t) ==> after.At(i, t) == if i == st.me && t == s then r else st.At(i, t)
    requires forall b :: after.InUse(b) <==> st.InUse(b)
    ensures after.Ok()
  {
  }

  // ---------- writing the inode back ----------

  lemma SyncKeeps(st: State, di: Dinode)
    requires st.Ok() && di.Ok() && di.addrs == st.mine
    ensures var after := st.(d := WithInode(st.sb, st.d, st.me, di));
            && after.Ok()
            && (forall i, t :: st.Key(i, t) ==> after.At(i, t) == st.At(i, t))
            && (forall b :: after.InUse(b) <==> st.InUse(b))
            && (forall x :: st.IsData(x) ==> after.d[x] == st.d[x])
            && (forall i :: 0 <= i < st.sb.ninodes ==>
                  InodeOf(st.sb, after.d, i) == if i == st.me then di else InodeOf(st.sb, st.d, i))
  {
    var after := st.(d := WithInode(st.sb, st.d, st.me, di));
    IBlockBelow(st.sb, st.d, st.me);
    forall i | 0 <= i < st.sb.ninodes
      ensures InodeOf(st.sb, after.d, i) == if i == st.me then di else InodeOf(st.sb, st.d, i)
    {
      InodeOfWith(st.sb, st.d, st.me, di, i);
    }
    forall b | 0 <= b < st.sb.size
      ensures Used(st.sb, after.d, b) <==> Used(st.sb, st.d, b)
    {
      UsedFrame(st.sb, st.d, st.sb.IBlock(st.me), InodeBlock(st.d[st.sb.IBlock(st.me)], st.me, di), b);
    }
    forall i, t | st.Key(i, t)
      ensures after.At(i, t) == st.At(i, t)
    {
      IndirectSlot(st, i);
      SlotFrame(st.d, after.d, st.AddrsOf(i), t);
    }
    Carried(st, after);
  }
}
