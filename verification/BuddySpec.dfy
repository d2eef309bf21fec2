/** What the buddy allocator's free lists mean: sets of blocks over the heap's smallest units. */
module BuddySpec {

  const MIN_ORD := 6
  const MAX_ORD := 12

  /** Block `id` of order `ord`; the heap unit is the smallest block, 2^MIN_ORD bytes. */
  datatype Blk = Blk(ord: int, id: int) {
    predicate Ok() { MIN_ORD <= ord <= MAX_ORD && 0 <= id }

    /** `blk_id ^ 1`. */
    function Buddy(): Blk { Blk(ord, if id % 2 == 0 then id + 1 else id - 1) }

    function Parent(): Blk { Blk(ord + 1, id / 2) }

    /** The block of order `k` that unit `u` lies in has this id. */
    predicate Covers(u: nat)
      requires Ok()
    {
      Above(u, ord) == id
    }
  }

  /** The id of the order-`k` block holding unit `u`. */
  function Above(u: nat, k: int): nat
    requires MIN_ORD <= k
    decreases k
  {
    if k == MIN_ORD then u else Above(u, k - 1) / 2
  }

  /** The id of the order-`k` block holding block `b`. */
  function Holder(b: Blk, k: int): int
    requires b.ord <= k
    decreases k - b.ord
  {
    if k == b.ord then b.id else Holder(b, k - 1) / 2
  }

  /** The first unit of a block. */
  function FirstUnit(b: Blk): nat
    requires b.Ok()
    decreases b.ord
  {
    if b.ord == MIN_ORD then b.id else FirstUnit(Blk(b.ord - 1, 2 * b.id))
  }

  lemma {:induction false} FirstUnitCovered(b: Blk)
    requires b.Ok()
    ensures b.Covers(FirstUnit(b))
    decreases b.ord
  {
    if b.ord > MIN_ORD {
      FirstUnitCovered(Blk(b.ord - 1, 2 * b.id));
    }
  }

  /** A unit of a block lies in every block above it. */
  lemma {:induction false} HolderCovers(b: Blk, k: int, u: nat)
    requires b.Ok() && b.ord <= k && b.Covers(u)
    ensures Above(u, k) == Holder(b, k)
    decreases k - b.ord
  {
    if k > b.ord {
      HolderCovers(b, k - 1, u);
    }
  }

  lemma {:induction false} HolderOfParent(b: Blk, k: int)
    requires b.ord < k
    ensures Holder(b.Parent(), k) == Holder(b, k)
    decreases k - b.ord
  {
    if k > b.ord + 1 {
      HolderOfParent(b, k - 1);
    }
  }

  // ---------- free sets ----------

  ghost predicate Covered(f: set<Blk>, u: nat)
    requires AllOk(f)
  {
    exists b :: b in f && b.Covers(u)
  }

  ghost predicate AllOk(f: set<Blk>) {
    forall b :: b in f ==> b.Ok()
  }

  /** No unit lies in two blocks. */
  ghost predicate Disjoint(f: set<Blk>)
    requires AllOk(f)
  {
    forall b, c, u: nat :: b in f && c in f && b.Covers(u) && c.Covers(u) ==> b == c
  }

  /** No two buddies that could be merged are both free. */
  ghost predicate Merged(f: set<Blk>) {
    forall b :: b in f && b.ord < MAX_ORD ==> b.Buddy() !in f
  }

  ghost predicate Canonical(f: set<Blk>) {
    AllOk(f) && Disjoint(f) && Merged(f)
  }

  /** Every unit of `b` is free. */
  ghost predicate WhollyFree(f: set<Blk>, b: Blk)
    requires AllOk(f) && b.Ok()
  {
    forall u: nat :: b.Covers(u) ==> Covered(f, u)
  }

  /** Some free block contains `b`. */
  ghost predicate Contained(f: set<Blk>, b: Blk)
    requires b.Ok()
  {
    exists k :: b.ord <= k <= MAX_ORD && Blk(k, Holder(b, k)) in f
  }

  /** A block is made of its two halves. */
  lemma Halves(b: Blk, u: nat)
    requires b.Ok() && b.ord > MIN_ORD
    ensures var l, r := Blk(b.ord - 1, 2 * b.id), Blk(b.ord - 1, 2 * b.id + 1);
            && l.Ok() && r.Ok() && l.Buddy() == r && l.Parent() == b == r.Parent()
            && (b.Covers(u) <==> l.Covers(u) || r.Covers(u))
  {
  }

  lemma UnitContained(f: set<Blk>, b: Blk, u: nat)
    requires AllOk(f) && b.Ok() && b.Covers(u)
    requires exists c :: c in f && c.ord >= b.ord && c.Covers(u)
    ensures Contained(f, b)
  {
    var c :| c in f && c.ord >= b.ord && c.Covers(u);
    HolderCovers(b, c.ord, u);
    assert Blk(c.ord, Holder(b, c.ord)) == c;
  }

  lemma ParentContained(f: set<Blk>, b: Blk)
    requires b.Ok() && b.ord < MAX_ORD && Contained(f, b) && b !in f
    ensures Contained(f, b.Parent())
  {
    var k :| b.ord <= k <= MAX_ORD && Blk(k, Holder(b, k)) in f;
    if k > b.ord {
      HolderOfParent(b, k);
    }
  }

  /** If a block is wholly free, one free block contains it: fragments would have been merged. */
  lemma {:induction false} WhollyFreeIsContained(f: set<Blk>, b: Blk)
    requires Canonical(f) && b.Ok() && WhollyFree(f, b)
    ensures Contained(f, b)
    decreases b.ord
  {
    if b.ord == MIN_ORD {
      assert b.Covers(b.id) && Covered(f, b.id);
      UnitContained(f, b, b.id);
    } else {
      var l, r := Blk(b.ord - 1, 2 * b.id), Blk(b.ord - 1, 2 * b.id + 1);
      HalvesFree(f, b);
      WhollyFreeIsContained(f, l);
      WhollyFreeIsContained(f, r);
      Halves(b, 0);
      if l !in f {
        ParentContained(f, l);
      } else {
        ParentContained(f, r);
      }
    }
  }

  lemma HalvesFree(f: set<Blk>, b: Blk)
    requires AllOk(f) && b.Ok() && b.ord > MIN_ORD && WhollyFree(f, b)
    ensures WhollyFree(f, Blk(b.ord - 1, 2 * b.id)) && WhollyFree(f, Blk(b.ord - 1, 2 * b.id + 1))
  {
    forall u: nat
      ensures Blk(b.ord - 1, 2 * b.id).Covers(u) || Blk(b.ord - 1, 2 * b.id + 1).Covers(u) ==> b.Covers(u)
    {
      Halves(b, u);
    }
  }

  ghost predicate SameUnits(f: set<Blk>, g: set<Blk>)
    requires AllOk(f) && AllOk(g)
  {
    forall u: nat :: Covered(f, u) <==> Covered(g, u)
  }

  lemma InIsWhollyFree(f: set<Blk>, b: Blk)
    requires AllOk(f) && b in f
    ensures WhollyFree(f, b)
  {
  }

  /** The free bytes determine the free blocks. */
  lemma CanonicalSubset(f: set<Blk>, g: set<Blk>, b: Blk)
    requires Canonical(f) && Canonical(g) && SameUnits(f, g) && b in f
    ensures b in g
  {
    InIsWhollyFree(f, b);
    WhollyFreeIsContained(g, b);
    var k :| b.ord <= k <= MAX_ORD && Blk(k, Holder(b, k)) in g;
    var c := Blk(k, Holder(b, k));
    InIsWhollyFree(g, c);
    WhollyFreeIsContained(f, c);
    var m :| k <= m <= MAX_ORD && Blk(m, Holder(c, m)) in f;
    var d, u := Blk(m, Holder(c, m)), FirstUnit(b);
    FirstUnitCovered(b);
    HolderCovers(b, k, u);
    HolderCovers(c, m, u);
    assert d.Covers(u);
  }

  lemma CanonicalUnique(f: set<Blk>, g: set<Blk>)
    requires Canonical(f) && Canonical(g) && SameUnits(f, g)
    ensures f == g
  {
    forall b
      ensures b in f <==> b in g
    {
      if b in f {
        CanonicalSubset(f, g, b);
      } else if b in g {
        CanonicalSubset(g, f, b);
      }
    }
  }

  // ---------- what one call does ----------

  /** No unit of `b` is free. */
  ghost predicate Unfree(f: set<Blk>, b: Blk)
    requires AllOk(f) && b.Ok()
  {
    forall u: nat :: b.Covers(u) ==> !Covered(f, u)
  }

  /** `g` is `f` with exactly the units of `b` added, fully merged. */
  ghost predicate Freed(f: set<Blk>, b: Blk, g: set<Blk>) {
    && AllOk(f) && b.Ok() && Canonical(g)
    && forall u: nat :: Covered(g, u) <==> Covered(f, u) || b.Covers(u)
  }

  /** `b` was wholly free in `f`, and `g` is `f` with exactly the units of `b` removed, fully merged. */
  ghost predicate Taken(f: set<Blk>, b: Blk, g: set<Blk>) {
    && AllOk(f) && b.Ok() && Canonical(g) && WhollyFree(f, b)
    && forall u: nat :: Covered(g, u) <==> Covered(f, u) && !b.Covers(u)
  }

  lemma AddBlock(f: set<Blk>, b: Blk)
    requires Canonical(f) && b.Ok() && Unfree(f, b)
    requires b.ord == MAX_ORD || b.Buddy() !in f
    ensures Freed(f, b, f + {b})
  {
    var g := f + {b};
    forall u: nat
      ensures Covered(g, u) <==> Covered(f, u) || b.Covers(u)
    {
      if Covered(f, u) {
        var c :| c in f && c.Covers(u);
        assert c in g;
      }
      if b.Covers(u) {
        assert b in g;
      }
    }
    forall c | c in g && c.ord < MAX_ORD
      ensures c.Buddy() !in g
    {
      assert c.Buddy().Buddy() == c;
    }
    assert Disjoint(g) by {
      forall x, y, u: nat | x in g && y in g && x.Covers(u) && y.Covers(u)
        ensures x == y
      {
        if x != b {
          assert Covered(f, u);
        }
        if y != b {
          assert Covered(f, u);
        }
      }
    }
  }

  lemma RemoveBlock(f: set<Blk>, b: Blk)
    requires Canonical(f) && b in f
    ensures Taken(f, b, f - {b})
    ensures Unfree(f - {b}, b)
  {
    var g := f - {b};
    forall u: nat
      ensures Covered(g, u) <==> Covered(f, u) && !b.Covers(u)
    {
      if Covered(f, u) && !b.Covers(u) {
        var c :| c in f && c.Covers(u);
        assert c in g;
      }
    }
  }

  /** Freeing the parent of two buddies, one of which was free, is freeing the other one. */
  lemma MergeStep(f: set<Blk>, b: Blk)
    requires Canonical(f) && b.Ok() && b.ord < MAX_ORD && b.Buddy() in f && Unfree(f, b)
    ensures b.Parent().Ok() && Canonical(f - {b.Buddy()}) && Unfree(f - {b.Buddy()}, b.Parent())
    ensures forall g :: Freed(f - {b.Buddy()}, b.Parent(), g) ==> Freed(f, b, g)
  {
    var c, p := b.Buddy(), b.Parent();
    var h := f - {c};
    RemoveBlock(f, c);
    InIsWhollyFree(f, c);
    forall u: nat
      ensures p.Covers(u) <==> b.Covers(u) || c.Covers(u)
      ensures p.Covers(u) ==> !Covered(h, u)
      ensures Covered(f, u) <==> Covered(h, u) || c.Covers(u)
    {
      Halves(p, u);
    }
  }

  /** Taking a block and giving back its upper half is taking its lower half. */
  lemma SplitStep(f: set<Blk>, l: Blk, g: set<Blk>)
    requires l.Ok() && l.ord < MAX_ORD && l.id % 2 == 0 && Taken(f, l.Parent(), g)
    ensures l.Buddy().Ok() && Unfree(g, l.Buddy())
    ensures forall h :: Freed(g, l.Buddy(), h) ==> Taken(f, l, h)
  {
    var r, p := l.Buddy(), l.Parent();
    forall u: nat
      ensures p.Covers(u) <==> l.Covers(u) || r.Covers(u)
      ensures !(l.Covers(u) && r.Covers(u))
      ensures l.Covers(u) ==> Covered(f, u)
      ensures r.Covers(u) ==> Covered(f, u)
    {
      Halves(p, u);
    }
  }

  // ---------- the whole heap ----------

  /** The first `n` units are shared out between free and live blocks, each to exactly one. */
  ghost predicate Tiled(f: set<Blk>, live: set<Blk>, n: nat) {
    && Canonical(f) && AllOk(live) && Disjoint(live)
    && (forall u: nat :: u < n <==> Covered(f, u) || Covered(live, u))
    && (forall u: nat :: !(Covered(f, u) && Covered(live, u)))
  }

  lemma TiledAlloc(f: set<Blk>, live: set<Blk>, n: nat, b: Blk, g: set<Blk>)
    requires Tiled(f, live, n) && Taken(f, b, g)
    ensures b !in live && Tiled(g, live + {b}, n)
  {
    var after := live + {b};
    FirstUnitCovered(b);
    assert Covered(f, FirstUnit(b));
    forall u: nat
      ensures Covered(after, u) <==> Covered(live, u) || b.Covers(u)
    {
      if Covered(live, u) {
        var c :| c in live && c.Covers(u);
        assert c in after;
      }
      if b.Covers(u) {
        assert b in after;
      }
    }
    forall x, y, u: nat | x in after && y in after && x.Covers(u) && y.Covers(u)
      ensures x == y
    {
      if x != b { assert Covered(live, u); }
      if y != b { assert Covered(live, u); }
    }
  }

  lemma LiveIsUnfree(f: set<Blk>, live: set<Blk>, n: nat, b: Blk)
    requires Tiled(f, live, n) && b in live
    ensures Unfree(f, b)
  {
  }

  lemma TiledFree(f: set<Blk>, live: set<Blk>, n: nat, b: Blk, g: set<Blk>)
    requires Tiled(f, live, n) && b in live && Freed(f, b, g)
    ensures Tiled(g, live - {b}, n)
  {
    hide Blk.Covers;
    var after := live - {b};
    forall u: nat
      ensures Covered(after, u) <==> Covered(live, u) && !b.Covers(u)
    {
      if Covered(live, u) && !b.Covers(u) {
        var c :| c in live && c.Covers(u);
        assert c in after;
      } else if b.Covers(u) {
        assert forall c :: c in live && c.Covers(u) ==> c == b;
      }
    }
    forall u: nat
      ensures u < n <==> Covered(g, u) || Covered(after, u)
    {
      if b.Covers(u) {
        assert Covered(live, u);
      }
    }
  }

  /** The free blocks depend on the live ones alone, not on the history of calls. */
  lemma HistoryIndependent(f: set<Blk>, g: set<Blk>, live: set<Blk>, n: nat)
    requires Tiled(f, live, n) && Tiled(g, live, n)
    ensures f == g
  {
    assert SameUnits(f, g);
    CanonicalUnique(f, g);
  }

  /** Allocating a block and freeing it again restores every free list. */
  lemma AllocThenFree(f: set<Blk>, b: Blk, g: set<Blk>, h: set<Blk>)
    requires Canonical(f) && Taken(f, b, g) && Freed(g, b, h)
    ensures h == f
  {
    assert SameUnits(f, h);
    CanonicalUnique(f, h);
  }

  /** A wholly free block of order `k` exists exactly when some free block has order at least `k`. */
  lemma EnoughMeansListed(f: set<Blk>, k: int)
    requires Canonical(f) && MIN_ORD <= k <= MAX_ORD
    ensures (exists i: nat :: WhollyFree(f, Blk(k, i))) <==> (exists b :: b in f && b.ord >= k)
  {
    if i: nat :| WhollyFree(f, Blk(k, i)) {
      var b := Blk(k, i);
      WhollyFreeIsContained(f, b);
      var m :| k <= m <= MAX_ORD && Blk(m, Holder(b, m)) in f;
      assert Blk(m, Holder(b, m)).ord >= k;
    }
    if b :| b in f && b.ord >= k {
      InIsWhollyFree(f, b);
      ShrinkTo(f, b, k);
    }
  }

  lemma {:induction false} ShrinkTo(f: set<Blk>, b: Blk, k: int)
    requires AllOk(f) && b.Ok() && MIN_ORD <= k <= b.ord && WhollyFree(f, b)
    ensures exists i: nat :: WhollyFree(f, Blk(k, i))
    decreases b.ord
  {
    if k < b.ord {
      HalvesFree(f, b);
      ShrinkTo(f, Blk(b.ord - 1, 2 * b.id), k);
    } else {
      assert b == Blk(k, b.id);
    }
  }

  /** The heap of `m` largest blocks, all free. */
  function AllLargest(m: nat): set<Blk> {
    set i | 0 <= i < m :: Blk(MAX_ORD, i)
  }

  lemma LargestHolding(u: nat)
    ensures Above(u, MAX_ORD) == u / 64
  {
    assert Above(u, 7) == u / 2;
    assert Above(u, 8) == u / 2 / 2 == u / 4;
    assert Above(u, 9) == u / 4 / 2 == u / 8;
    assert Above(u, 10) == u / 8 / 2 == u / 16;
    assert Above(u, 11) == u / 16 / 2 == u / 32;
  }

  lemma AllLargestTiled(m: nat)
    ensures Tiled(AllLargest(m), {}, 64 * m)
  {
    var f := AllLargest(m);
    forall u: nat
      ensures u < 64 * m <==> Covered(f, u)
    {
      LargestHolding(u);
      if u < 64 * m {
        assert Blk(MAX_ORD, u / 64) in f;
      }
    }
  }

  /** With nothing live, the free lists are back to the largest blocks only. */
  lemma AllFreedIsAllLargest(f: set<Blk>, m: nat)
    requires Tiled(f, {}, 64 * m)
    ensures f == AllLargest(m)
  {
    AllLargestTiled(m);
    HistoryIndependent(f, AllLargest(m), {}, 64 * m);
  }

  // ---------- whole runs ----------

  datatype Call = Kmalloc(b: Blk) | Kfree(b: Blk)

  datatype Heap = Heap(free: set<Blk>, live: set<Blk>)

  /** kmalloc hands out a wholly free block; kfree is given a live one. */
  ghost predicate Called(h: Heap, c: Call, after: Heap) {
    match c
    case Kmalloc(b) => Taken(h.free, b, after.free) && after.live == h.live + {b}
    case Kfree(b) => b in h.live && Freed(h.free, b, after.free) && after.live == h.live - {b}
  }

  ghost predicate Run(m: nat, heaps: seq<Heap>, calls: seq<Call>) {
    && |heaps| == |calls| + 1
    && heaps[0] == Heap(AllLargest(m), {})
    && forall i :: 0 <= i < |calls| ==> Called(heaps[i], calls[i], heaps[i + 1])
  }

  /** In every reachable state free and live blocks tile the heap and no mergeable buddies are apart. */
  lemma {:induction false} RunTiled(m: nat, heaps: seq<Heap>, calls: seq<Call>, i: nat)
    requires Run(m, heaps, calls) && i < |heaps|
    ensures Tiled(heaps[i].free, heaps[i].live, 64 * m)
  {
    if i == 0 {
      AllLargestTiled(m);
    } else {
      RunTiled(m, heaps, calls, i - 1);
      var h, c := heaps[i - 1], calls[i - 1];
      assert Called(h, c, heaps[i]);
      match c
      case Kmalloc(b) => TiledAlloc(h.free, h.live, 64 * m, b, heaps[i].free);
      case Kfree(b) => TiledFree(h.free, h.live, 64 * m, b, heaps[i].free);
    }
  }
}
