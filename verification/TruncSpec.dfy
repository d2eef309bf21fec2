/** Truncation: which marks go when an inode's blocks are freed. */
module TruncSpec {
  import opened Words
  import opened FsLayout
  import opened FsSpec
  import opened FileSpec

  /** Block `b` sits in one of the slots `T` of the locked inode. */
  ghost predicate HeldIn(st: State, T: set<int>, b: int)
    requires st.Shape()
  {
    b != 0 && exists t :: t in T && 0 <= t < NSLOT && st.At(st.me, t) == b
  }

  /** The marks of the blocks in slots `T` are gone and nothing else on disk has changed. The block list in memory
      is free to run ahead or behind. */
  ghost predicate Freed(st0: State, st: State, T: set<int>) {
    && st0.Ok() && st.Shape() && st.sb == st0.sb && st.me == st0.me && |st.d| == |st0.d|
    && (forall x :: st0.IsData(x) ==> st.d[x] == st0.d[x])
    && (forall i :: 0 <= i < st0.sb.ninodes ==> InodeOf(st0.sb, st.d, i) == InodeOf(st0.sb, st0.d, i))
    && (forall b :: st.InUse(b) <==> st0.InUse(b) && !HeldIn(st0, T, b))
  }

  ghost function Span(lo: int, hi: int): (s: set<int>)
    ensures forall t :: t in s <==> lo <= t < hi
    decreases hi - lo
  {
    if lo >= hi then {} else Span(lo, hi - 1) + {hi - 1}
  }

  ghost function Below(k: int): set<int> { Span(0, k) }

  /** Direct slots and the first `j` entries of the indirect block. */
  ghost function Entries(j: nat): set<int> { Below(NDIRECT) + Span(NDIRECT + 1, NDIRECT + 1 + j) }

  lemma BelowStep(i: nat)
    ensures i !in Below(i) && Below(i + 1) == Below(i) + {i as int}
  {
    hide Span;
  }

  lemma EntriesStep(j: nat)
    ensures Entries(0) == Below(NDIRECT)
    ensures NDIRECT + 1 + j !in Entries(j) && Entries(j + 1) == Entries(j) + {NDIRECT + 1 + j}
    ensures NDIRECT !in Entries(NINDIRECT) && Entries(NINDIRECT) + {NDIRECT} == Below(NSLOT)
  {
    hide Span;
  }

  lemma FreedNone(st: State)
    requires st.Ok()
    ensures Freed(st, st, Below(0))
  {
  }

  lemma FreedAnyList(st0: State, st: State, T: set<int>, mine: seq<Uint>)
    requires Freed(st0, st, T) && |mine| == NDIRECT + 1
    ensures Freed(st0, st.(mine := mine), T)
  {
    hide InodeOf, HeldIn, State.Ok;
  }

  /** The indirect block still holds its entries. */
  lemma FreedIndirect(st0: State, st: State, T: set<int>)
    requires Freed(st0, st, T) && st0.mine[NDIRECT] != 0
    ensures st0.mine[NDIRECT] < |st.d| && st0.IsData(st0.mine[NDIRECT]) && st.sb == st0.sb
    ensures forall j :: 0 <= j < NINDIRECT ==>
              GetWord(st.d[st0.mine[NDIRECT]], 4 * j) == st0.At(st0.me, NDIRECT + 1 + j)
  {
    IndirectSlot(st0, st0.me);
  }

  lemma FreedMarks(st0: State, st: State)
    requires Freed(st0, st, Below(NSLOT))
    ensures forall b :: st.InUse(b) <==> st0.InUse(b) && !HeldIn(st0, Below(NSLOT), b)
  {
  }

  /** An empty slot has nothing to free. */
  lemma FreedSkip(st0: State, st: State, T: set<int>, t: nat)
    requires Freed(st0, st, T) && t < NSLOT && st0.At(st0.me, t) == 0
    ensures Freed(st0, st, T + {t as int})
  {
    hide State.InUse, State.Marked, State.Apart, State.MetaMarked, State.At, InodeOf;
    forall b
      ensures HeldIn(st0, T + {t as int}, b) <==> HeldIn(st0, T, b)
    {
    }
  }

  /** A slot's block is still marked when its turn comes, and clearing the mark frees that slot alone. */
  lemma FreedStep(st0: State, st: State, T: set<int>, t: nat)
    requires Freed(st0, st, T) && t < NSLOT && t !in T && st0.At(st0.me, t) != 0
    ensures var b := st0.At(st0.me, t);
            && b < st.sb.size && Used(st.sb, st.d, b)
            && Freed(st0, st.(d := WithBit(st.sb, st.d, b, false)), T + {t as int})
  {
    var b := st0.At(st0.me, t);
    assert st0.Key(st0.me, t);
    StillMarked(st0, T, t);
    var after := st.(d := WithBit(st.sb, st.d, b, false));
    BBlockBelow(st.sb, st.d, b);
    forall i | 0 <= i < st0.sb.ninodes
      ensures InodeOf(st0.sb, after.d, i) == InodeOf(st0.sb, st0.d, i)
    {
      InodeOfFrame(st.sb, st.d, st.sb.BBlock(b), BitBlock(st.sb, st.d, b, false), i);
    }
    forall c
      ensures after.InUse(c) <==> st0.InUse(c) && !HeldIn(st0, T + {t as int}, c)
    {
      HeldMore(st0, T, t, c);
      if 0 <= c < st.sb.size { UsedWithBit(st.sb, st.d, b, false, c); }
    }
  }

  lemma StillMarked(st: State, T: set<int>, t: nat)
    requires st.Ok() && t < NSLOT && t !in T
    ensures !HeldIn(st, T, st.At(st.me, t))
  {
    assert st.Key(st.me, t);
    assert forall u :: u in T && 0 <= u < NSLOT ==> st.Key(st.me, u);
  }

  lemma HeldMore(st: State, T: set<int>, t: nat, c: int)
    requires st.Shape() && t < NSLOT && st.At(st.me, t) != 0
    ensures HeldIn(st, T + {t as int}, c) <==> HeldIn(st, T, c) || c == st.At(st.me, t)
  {
    hide State.At;
    if c == st.At(st.me, t) {
      assert t as int in T + {t as int};
    }
  }

  /** Without an indirect block its slots are empty. */
  lemma FreedDirect(st0: State, st: State)
    requires Freed(st0, st, Below(NDIRECT)) && st0.mine[NDIRECT] == 0
    ensures Freed(st0, st, Below(NSLOT))
  {
    assert forall t :: NDIRECT <= t < NSLOT ==> st0.At(st0.me, t) == 0;
    hide State.InUse, State.Marked, State.Apart, State.MetaMarked, State.At, InodeOf;
    forall b
      ensures HeldIn(st0, Below(NSLOT), b) <==> HeldIn(st0, Below(NDIRECT), b)
    {
    }
  }

  /** With every slot freed and the list cleared, the invariant holds again and no other inode has noticed. */
  lemma FreedAll(st0: State, st: State)
    requires Freed(st0, st, Below(NSLOT)) && st.mine == seq(NDIRECT + 1, i => 0)
    ensures st.Ok() && OthersKept(st0, st) && NoHoles(st, st.me, 0)
  {
    assert forall t :: 0 <= t < NSLOT ==> st.At(st.me, t) == 0;
    FreedSlots(st0, st);
    FreedOthers(st0, st);
    FreedOk(st0, st);
  }

  lemma FreedSlots(st0: State, st: State)
    requires Freed(st0, st, Below(NSLOT))
    ensures forall i, t :: st0.Key(i, t) && i != st0.me ==> st.At(i, t) == st0.At(i, t)
  {
    hide HeldIn;
    forall i, t | st0.Key(i, t) && i != st0.me
      ensures st.At(i, t) == st0.At(i, t)
    {
      IndirectSlot(st0, i);
      SlotFrame(st0.d, st.d, st0.AddrsOf(i), t);
    }
  }

  lemma FreedOthers(st0: State, st: State)
    requires Freed(st0, st, Below(NSLOT))
    requires forall i, t :: st0.Key(i, t) && i != st0.me ==> st.At(i, t) == st0.At(i, t)
    ensures OthersKept(st0, st)
  {
    hide HeldIn, InodeOf;
    forall i, p | 0 <= i < st0.sb.ninodes && i != st0.me && 0 <= p < MAXSIZE
      ensures ByteAt(st, i, p) == ByteAt(st0, i, p)
    {
      assert st0.Key(i, SlotOf(p / BSIZE));
    }
  }

  lemma FreedOk(st0: State, st: State)
    requires Freed(st0, st, Below(NSLOT))
    requires forall i, t :: st0.Key(i, t) && i != st0.me ==> st.At(i, t) == st0.At(i, t)
    requires forall t :: 0 <= t < NSLOT ==> st.At(st.me, t) == 0
    ensures st.Ok()
  {
    hide InodeOf, HeldIn, Below, Span, State.At;
    forall i, t, j, u | st.Key(i, t) && st.Key(j, u) && st.At(i, t) == st.At(j, u) != 0
      ensures i == j && t == u
    {
      assert i != st.me && j != st.me;
      assert st.At(i, t) == st0.At(i, t) && st.At(j, u) == st0.At(j, u);
    }
    hide State.Apart;
    forall i, t | st.Key(i, t)
      ensures st.At(i, t) == 0 || (st.IsData(st.At(i, t)) && st.InUse(st.At(i, t)))
    {
      if i != st.me { NotHeld(st0, i, t); }
    }
    forall b | 0 <= b < st.sb.DataStart()
      ensures st.InUse(b)
    {
      MetaNotHeld(st0, b);
    }
  }

  lemma NotHeld(st: State, i: nat, t: nat)
    requires st.Ok() && st.Key(i, t) && i != st.me
    ensures !HeldIn(st, Below(NSLOT), st.At(i, t))
  {
    assert forall u :: 0 <= u < NSLOT ==> st.Key(st.me, u);
  }

  lemma MetaNotHeld(st: State, b: nat)
    requires st.Ok() && b < st.sb.DataStart()
    ensures !HeldIn(st, Below(NSLOT), b)
  {
    assert forall u :: 0 <= u < NSLOT ==> st.Key(st.me, u);
  }

  // ---------- how many blocks that is ----------

  /** The blocks in the first `k` slots of the locked inode. */
  ghost function Owned(st: State, k: nat): set<int>
    requires st.Shape() && k <= NSLOT
  {
    if k == 0 then {}
    else if st.At(st.me, k - 1) == 0 then Owned(st, k - 1)
    else Owned(st, k - 1) + {st.At(st.me, k - 1) as int}
  }

  /** How many of the first `k` slots are filled. */
  ghost function Filled(st: State, k: nat): nat
    requires st.Shape() && k <= NSLOT
  {
    if k == 0 then 0 else Filled(st, k - 1) + if st.At(st.me, k - 1) == 0 then 0 else 1
  }

  lemma {:induction false} OwnedIs(st: State, k: nat, b: int)
    requires st.Shape() && k <= NSLOT
    ensures b in Owned(st, k) <==> HeldIn(st, Below(k), b)
    decreases k
  {
    hide State.At, Span, Fits;
    if k > 0 {
      OwnedIs(st, k - 1, b);
      BelowStep(k - 1);
      if st.At(st.me, k - 1) != 0 {
        HeldMore(st, Below(k - 1), k - 1, b);
      } else {
        HeldSame(st, Below(k - 1), k - 1, b);
      }
    }
  }

  lemma HeldSame(st: State, T: set<int>, t: nat, b: int)
    requires st.Shape() && t < NSLOT && st.At(st.me, t) == 0
    ensures HeldIn(st, T + {t as int}, b) <==> HeldIn(st, T, b)
  {
    hide State.At;
  }

  /** No block sits in two slots, so the blocks are as many as the filled slots. */
  lemma {:induction false} OwnedSize(st: State, k: nat)
    requires st.Ok() && k <= NSLOT
    ensures |Owned(st, k)| == Filled(st, k)
    decreases k
  {
    hide State.At, State.Marked, State.Apart, State.MetaMarked, Span, HeldIn, Fits;
    if k > 0 {
      OwnedSize(st, k - 1);
      if st.At(st.me, k - 1) != 0 {
        BelowStep(k - 1);
        StillMarked(st, Below(k - 1), k - 1);
        OwnedIs(st, k - 1, st.At(st.me, k - 1));
      }
    }
  }

  /** Without holes the filled slots are counted by the size. */
  lemma {:induction false} FilledIs(st: State, size: nat, k: nat)
    requires st.Shape() && NoHoles(st, st.me, size) && k <= NSLOT
    ensures Filled(st, k) ==
            if k <= NDIRECT then Least(k, Blocks(size))
            else Least(NDIRECT, Blocks(size)) + (if Blocks(size) > NDIRECT then 1 + Least(k - NDIRECT - 1, Blocks(size) - NDIRECT) else 0)
    decreases k
  {
    hide State.At, Blocks, Fits;
    if k > 0 {
      FilledIs(st, size, k - 1);
      if k - 1 < NDIRECT {
        assert SlotOf(k - 1) == k - 1;
      } else if k - 1 > NDIRECT {
        assert SlotOf(k - 2) == k - 1;
      }
    }
  }

  lemma FilledIsCost(st: State, size: nat)
    requires st.Shape() && NoHoles(st, st.me, size)
    ensures Filled(st, NSLOT) == Cost(size)
  {
    hide State.At, Filled;
    FilledIs(st, size, NSLOT);
  }

  /** Truncation gives back exactly what the file took. */
  lemma FreedRoom(st0: State, st: State, size: nat)
    requires Freed(st0, st, Below(NSLOT)) && NoHoles(st0, st0.me, size)
    ensures Room(st) == Room(st0) + Cost(size)
  {
    hide Filled, Owned, NoHoles, Cost, State.At, HeldIn, Below, InodeOf;
    OwnedSize(st0, NSLOT);
    FilledIsCost(st0, size);
    var own := Owned(st0, NSLOT);
    forall b
      ensures b in own <==> HeldIn(st0, Below(NSLOT), b)
    {
      OwnedIs(st0, NSLOT, b);
    }
    OwnedData(st0);
    FreedSets(st0, st, own);
  }

  lemma OwnedData(st: State)
    requires st.Ok()
    ensures forall b :: HeldIn(st, Below(NSLOT), b) ==> 0 <= b < st.sb.LogStart() && st.InUse(b)
  {
    hide State.At, State.Apart, State.MetaMarked, Used, Span;
    assert forall u :: 0 <= u < NSLOT ==> st.Key(st.me, u);
  }

  lemma FreedSets(st0: State, st: State, own: set<int>)
    requires st0.Shape() && st.Shape() && st.sb == st0.sb
    requires forall b :: b in own ==> 0 <= b < st0.sb.LogStart() && st0.InUse(b)
    requires forall b :: st.InUse(b) <==> st0.InUse(b) && b !in own
    ensures Room(st) == Room(st0) + |own|
  {
    hide State.InUse;
    assert FreeBelow(st) == FreeBelow(st0) + own;
    assert FreeBelow(st0) !! own;
  }
}
