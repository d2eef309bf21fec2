/** The buddy allocator (buddy.c): per order, a bitmap and the list of its non-empty words. */
module Buddy {
  import opened Bits
  import opened MarkList
  import opened BuddySpec

  const N_ORD := MAX_ORD - MIN_ORD + 1

  // ---------- where the marks of each order are ----------

  predicate IsOrder(k: int) { MIN_ORD <= k <= MAX_ORD }

  /** Marks of order `k`, when the highest order has `n`. */
  function Cnt(n: nat, k: int): nat
    requires IsOrder(k)
    decreases MAX_ORD - k
  {
    if k == MAX_ORD then n else 2 * Cnt(n, k + 1)
  }

  /** The first mark of order `k`: the highest order comes first. */
  function Off(n: nat, k: int): nat
    requires IsOrder(k)
    decreases MAX_ORD - k
  {
    if k == MAX_ORD then 0 else Off(n, k + 1) + Cnt(n, k + 1)
  }

  function Total(n: nat): nat { Off(n, MIN_ORD) + Cnt(n, MIN_ORD) }

  lemma {:induction false} OrdersApart(n: nat, j: int, k: int)
    requires IsOrder(j) && IsOrder(k) && j < k
    ensures Off(n, k) + Cnt(n, k) <= Off(n, j)
    decreases k - j
  {
    if j + 1 < k {
      OrdersApart(n, j + 1, k);
    }
  }

  lemma OrderFits(n: nat, k: int)
    requires IsOrder(k)
    ensures Off(n, k) + Cnt(n, k) <= Total(n)
    ensures Cnt(n, k) <= Cnt(n, MIN_ORD)
  {
    if k > MIN_ORD {
      OrdersApart(n, MIN_ORD, k);
    }
    CntMonotone(n, k);
  }

  lemma {:induction false} CntMonotone(n: nat, k: int)
    requires IsOrder(k)
    ensures Cnt(n, k) <= Cnt(n, MIN_ORD)
    decreases k
  {
    if k > MIN_ORD {
      CntMonotone(n, k - 1);
    }
  }

  // ---------- the bitmaps as a set of free blocks ----------

  /** The block has a bit. */
  predicate HasBit(n: nat, b: Blk) {
    b.Ok() && b.id < 32 * Cnt(n, b.ord)
  }

  function Word(n: nat, b: Blk): (w: nat)
    requires HasBit(n, b)
    ensures w < Total(n)
  {
    OrderFits(n, b.ord);
    Off(n, b.ord) + b.id / 32
  }

  predicate Bit(bitmap: seq<bv32>, n: nat, b: Blk)
    requires |bitmap| == Total(n) && HasBit(n, b)
  {
    Test(bitmap[Word(n, b)], b.id % 32)
  }

  ghost function FreeOf(bitmap: seq<bv32>, n: nat): set<Blk>
    requires |bitmap| == Total(n)
  {
    set k, id | MIN_ORD <= k <= MAX_ORD && 0 <= id < 32 * Cnt(n, k) && Bit(bitmap, n, Blk(k, id)) :: Blk(k, id)
  }

  lemma InFree(bitmap: seq<bv32>, n: nat, b: Blk)
    requires |bitmap| == Total(n)
    ensures b in FreeOf(bitmap, n) <==> HasBit(n, b) && Bit(bitmap, n, b)
  {
    hide Test;
    assert b == Blk(b.ord, b.id);
  }

  lemma WordsApart(n: nat, b: Blk, c: Blk)
    requires HasBit(n, b) && HasBit(n, c)
    ensures Word(n, b) == Word(n, c) <==> b.ord == c.ord && b.id / 32 == c.id / 32
  {
    hide Off, Cnt;
    if b.ord < c.ord {
      OrdersApart(n, b.ord, c.ord);
    } else if c.ord < b.ord {
      OrdersApart(n, c.ord, b.ord);
    }
  }

  /** One word changed in one bit changes the free set in one block. */
  lemma BitFlipped(bitmap: seq<bv32>, n: nat, b: Blk, on: bool)
    requires |bitmap| == Total(n) && HasBit(n, b)
    ensures var w := Word(n, b);
            var v := if on then Set(bitmap[w], b.id % 32) else Clear(bitmap[w], b.id % 32);
            FreeOf(bitmap[w := v], n) == if on then FreeOf(bitmap, n) + {b} else FreeOf(bitmap, n) - {b}
  {
    var w := Word(n, b);
    var v := if on then Set(bitmap[w], b.id % 32) else Clear(bitmap[w], b.id % 32);
    var after := bitmap[w := v];
    forall c | HasBit(n, c)
      ensures Bit(after, n, c) <==> if c == b then on else Bit(bitmap, n, c)
    {
      WordsApart(n, b, c);
      TestSet(bitmap[w], b.id % 32, c.id % 32);
      TestClear(bitmap[w], b.id % 32, c.id % 32);
      hide Test, Set, Clear;
    }
    forall c
      ensures c in FreeOf(after, n) <==> if c == b then on else c in FreeOf(bitmap, n)
    {
      InFree(after, n, c);
      InFree(bitmap, n, c);
    }
    hide FreeOf;
  }

  // ---------- the lists ----------

  /** The list holds exactly the non-empty words. */
  predicate Lists(words: seq<bv32>, list: seq<int>) {
    forall x :: 0 <= x < |words| ==> (words[x] != 0 <==> x in list)
  }

  predicate Shaped(n: nat, lnks: seq<int>, bitmap: seq<bv32>, head: seq<int>, lists: seq<seq<int>>) {
    && |lnks| == |bitmap| == Total(n) && |head| == |lists| == N_ORD
    && Cnt(n, MIN_ORD) <= NIL
  }

  /** The list of order `k` agrees with its bitmap. */
  predicate OrderOk(n: nat, lnks: seq<int>, bitmap: seq<bv32>, head: seq<int>, lists: seq<seq<int>>, k: int)
    requires Shaped(n, lnks, bitmap, head, lists) && IsOrder(k)
  {
    OrderFits(n, k);
    var lo, hi := Off(n, k), Off(n, k) + Cnt(n, k);
    Chained(lnks[lo..hi], head[k - MIN_ORD], lists[k - MIN_ORD]) && Lists(bitmap[lo..hi], lists[k - MIN_ORD])
  }

  ghost predicate Indexed(n: nat, lnks: seq<int>, bitmap: seq<bv32>, head: seq<int>, lists: seq<seq<int>>) {
    && Shaped(n, lnks, bitmap, head, lists)
    && forall k :: IsOrder(k) ==> OrderOk(n, lnks, bitmap, head, lists, k)
  }

  ghost predicate SameOutside<T>(a: seq<T>, b: seq<T>, lo: nat, hi: nat) {
    |a| == |b| && forall x :: 0 <= x < |a| && !(lo <= x < hi) ==> a[x] == b[x]
  }

  lemma SliceUnchanged<T>(a: seq<T>, b: seq<T>, lo: nat, hi: nat, x: nat, y: nat)
    requires SameOutside(a, b, lo, hi) && x <= y <= |a| && (y <= lo || hi <= x)
    ensures a[x..y] == b[x..y]
  {
  }

  lemma OtherOrder(n: nat, lnks: seq<int>, bitmap: seq<bv32>, head: seq<int>, lists: seq<seq<int>>,
                   lnks': seq<int>, bitmap': seq<bv32>, h: int, list: seq<int>, k: int, j: int)
    requires Shaped(n, lnks, bitmap, head, lists) && IsOrder(k) && IsOrder(j) && j != k
    requires SameOutside(lnks, lnks', Off(n, k), Off(n, k) + Cnt(n, k))
    requires SameOutside(bitmap, bitmap', Off(n, k), Off(n, k) + Cnt(n, k))
    requires OrderOk(n, lnks, bitmap, head, lists, j)
    ensures OrderOk(n, lnks', bitmap', head[k - MIN_ORD := h], lists[k - MIN_ORD := list], j)
  {
    hide Chained, Lists, Off, Cnt, Total, SameOutside;
    OrderFits(n, j);
    if j < k { OrdersApart(n, j, k); } else { OrdersApart(n, k, j); }
    SliceUnchanged(lnks, lnks', Off(n, k), Off(n, k) + Cnt(n, k), Off(n, j), Off(n, j) + Cnt(n, j));
    SliceUnchanged(bitmap, bitmap', Off(n, k), Off(n, k) + Cnt(n, k), Off(n, j), Off(n, j) + Cnt(n, j));
  }

  /** Changes confined to the marks of order `k` leave the other orders' lists alone. */
  lemma OtherOrders(n: nat, lnks: seq<int>, bitmap: seq<bv32>, head: seq<int>, lists: seq<seq<int>>,
                    lnks': seq<int>, bitmap': seq<bv32>, h: int, list: seq<int>, k: int)
    requires Indexed(n, lnks, bitmap, head, lists) && IsOrder(k)
    requires SameOutside(lnks, lnks', Off(n, k), Off(n, k) + Cnt(n, k))
    requires SameOutside(bitmap, bitmap', Off(n, k), Off(n, k) + Cnt(n, k))
    requires OrderOk(n, lnks', bitmap', head[k - MIN_ORD := h], lists[k - MIN_ORD := list], k)
    ensures Indexed(n, lnks', bitmap', head[k - MIN_ORD := h], lists[k - MIN_ORD := list])
  {
    hide OrderOk, Off, Cnt, Total;
    forall j | IsOrder(j) && j != k
      ensures OrderOk(n, lnks', bitmap', head[k - MIN_ORD := h], lists[k - MIN_ORD := list], j)
    {
      OtherOrder(n, lnks, bitmap, head, lists, lnks', bitmap', h, list, k, j);
    }
  }

  lemma SliceAssigned<T>(s: seq<T>, lo: nat, hi: nat, i: nat, v: T)
    requires lo + i < hi <= |s|
    ensures s[lo + i := v][lo..hi] == s[lo..hi][i := v]
    ensures SameOutside(s, s[lo + i := v], lo, hi)
  {
  }

  lemma SameTwice<T>(a: seq<T>, b: seq<T>, c: seq<T>, lo: nat, hi: nat)
    requires SameOutside(a, b, lo, hi) && SameOutside(b, c, lo, hi)
    ensures SameOutside(a, c, lo, hi)
  {
  }

  /** `Pushed` on the marks that start at `lo`. */
  function PushedAt(lnks: seq<int>, lo: nat, h: int, i: nat): (r: seq<int>)
    requires lo + i < |lnks| && (h != NIL ==> 0 <= h && lo + h < |lnks|)
    ensures |r| == |lnks|
  {
    var l := lnks[lo + i := Lnks(NIL, h)];
    if h != NIL then l[lo + h := Lnks(i, NextLnk(l[lo + h]))] else l
  }

  lemma PushedAtSlice(lnks: seq<int>, lo: nat, hi: nat, h: int, i: nat)
    requires lo + i < hi <= |lnks| && (h != NIL ==> 0 <= h && lo + h < hi)
    ensures PushedAt(lnks, lo, h, i)[lo..hi] == Pushed(lnks[lo..hi], h, i)
    ensures SameOutside(lnks, PushedAt(lnks, lo, h, i), lo, hi)
  {
    hide Lnks, NextLnk, SameOutside;
    SliceAssigned(lnks, lo, hi, i, Lnks(NIL, h));
    if h != NIL {
      var l := lnks[lo + i := Lnks(NIL, h)];
      SliceAssigned(l, lo, hi, h, Lnks(i, NextLnk(l[lo + h])));
      SameTwice(lnks, l, PushedAt(lnks, lo, h, i), lo, hi);
    }
  }

  /** The two halves of OrderOk, by name. */
  lemma OrderParts(n: nat, lnks: seq<int>, bitmap: seq<bv32>, head: seq<int>, lists: seq<seq<int>>,
      k: int, lo: nat, hi: nat)
    requires Shaped(n, lnks, bitmap, head, lists) && IsOrder(k) && lo == Off(n, k) && hi == lo + Cnt(n, k)
    ensures hi <= |lnks| == |bitmap|
    ensures OrderOk(n, lnks, bitmap, head, lists, k) <==>
            Chained(lnks[lo..hi], head[k - MIN_ORD], lists[k - MIN_ORD]) && Lists(bitmap[lo..hi], lists[k - MIN_ORD])
  {
    hide Off, Cnt, Total, Chained, Lists;
    OrderFits(n, k);
  }

  /** What the index says about order `k`. */
  lemma OrderOf(n: nat, lnks: seq<int>, bitmap: seq<bv32>, head: seq<int>, lists: seq<seq<int>>,
      k: int, lo: nat, hi: nat)
    requires Indexed(n, lnks, bitmap, head, lists) && IsOrder(k) && lo == Off(n, k) && hi == lo + Cnt(n, k)
    ensures |head| == |lists| == N_ORD && hi <= |lnks| == |bitmap| == Total(n)
    ensures Chained(lnks[lo..hi], head[k - MIN_ORD], lists[k - MIN_ORD]) && Lists(bitmap[lo..hi], lists[k - MIN_ORD])
  {
    assert OrderOk(n, lnks, bitmap, head, lists, k);
    hide Off, Cnt, Total, Chained, Lists, OrderOk;
    OrderParts(n, lnks, bitmap, head, lists, k, lo, hi);
  }

  /** Replacing the marks of order `k` by marks whose list is in order again restores the index. */
  lemma Rebuilt(n: nat, lnks: seq<int>, bitmap: seq<bv32>, head: seq<int>, lists: seq<seq<int>>,
                lnks': seq<int>, bitmap': seq<bv32>, h: int, list: seq<int>, k: int, lo: nat, hi: nat)
    requires Indexed(n, lnks, bitmap, head, lists) && IsOrder(k) && lo == Off(n, k) && hi == lo + Cnt(n, k)
    requires |head| == |lists| == N_ORD && hi <= |lnks| == |bitmap|
    requires SameOutside(lnks, lnks', lo, hi) && SameOutside(bitmap, bitmap', lo, hi)
    requires |lnks'| == |lnks| && |bitmap'| == |bitmap|
    requires Chained(lnks'[lo..hi], h, list) && Lists(bitmap'[lo..hi], list)
    ensures Indexed(n, lnks', bitmap', head[k - MIN_ORD := h], lists[k - MIN_ORD := list])
  {
    hide Off, Cnt, Total, Chained, Lists, OrderOk, SameOutside;
    assert Shaped(n, lnks', bitmap', head[k - MIN_ORD := h], lists[k - MIN_ORD := list]);
    hide Indexed, Shaped;
    OrderParts(n, lnks', bitmap', head[k - MIN_ORD := h], lists[k - MIN_ORD := list], k, lo, hi);
    OtherOrders(n, lnks, bitmap, head, lists, lnks', bitmap', h, list, k);
  }

  lemma InsertedHere(lnks: seq<int>, bitmap: seq<bv32>, lo: nat, hi: nat, h: int, list: seq<int>, i: nat, v: bv32)
    requires lo + i < hi <= |lnks| == |bitmap|
    requires Chained(lnks[lo..hi], h, list) && Lists(bitmap[lo..hi], list)
    requires bitmap[lo + i] == 0 && v != 0
    ensures h != NIL ==> 0 <= h && lo + h < hi
    ensures Chained(PushedAt(lnks, lo, h, i)[lo..hi], i, [i] + list)
    ensures Lists(bitmap[lo + i := v][lo..hi], [i] + list)
    ensures SameOutside(lnks, PushedAt(lnks, lo, h, i), lo, hi)
    ensures SameOutside(bitmap, bitmap[lo + i := v], lo, hi)
  {
    ListsPushed(bitmap[lo..hi], list, i, v);
    PushedChained(lnks[lo..hi], h, list, i);
    hide Lists, Chained, Pushed, PushedAt, SameOutside;
    PushedAtSlice(lnks, lo, hi, h, i);
    SliceAssigned(bitmap, lo, hi, i, v);
  }

  /** mark_blk, first bit of a word: the word enters the list in front. */
  lemma MarkInserted(n: nat, lnks: seq<int>, bitmap: seq<bv32>, head: seq<int>, lists: seq<seq<int>>,
      k: int, lo: nat, i: nat, v: bv32)
    requires Indexed(n, lnks, bitmap, head, lists) && IsOrder(k)
    requires lo == Off(n, k) && i < Cnt(n, k) && lo + i < |bitmap|
    requires bitmap[lo + i] == 0 && v != 0
    ensures var h := head[k - MIN_ORD];
            && (h != NIL ==> 0 <= h && lo + h < |lnks|)
            && Indexed(n, PushedAt(lnks, lo, h, i), bitmap[lo + i := v], head[k - MIN_ORD := i],
                       lists[k - MIN_ORD := [i] + lists[k - MIN_ORD]])
  {
    hide Off, Cnt, Total, PushedAt, SameOutside, OrderOk, Indexed, Chained, Lists;
    var hi := lo + Cnt(n, k);
    OrderOf(n, lnks, bitmap, head, lists, k, lo, hi);
    var h, list := head[k - MIN_ORD], lists[k - MIN_ORD];
    InsertedHere(lnks, bitmap, lo, hi, h, list, i, v);
    Rebuilt(n, lnks, bitmap, head, lists, PushedAt(lnks, lo, h, i), bitmap[lo + i := v], i, [i] + list, k, lo, hi);
  }

  /** mark_blk or unmark_blk on a word that stays non-empty: the list is not touched. */
  lemma MarkKept(n: nat, lnks: seq<int>, bitmap: seq<bv32>, head: seq<int>, lists: seq<seq<int>>,
      k: int, lo: nat, i: nat, v: bv32)
    requires Indexed(n, lnks, bitmap, head, lists) && IsOrder(k)
    requires lo == Off(n, k) && i < Cnt(n, k) && lo + i < |bitmap|
    requires bitmap[lo + i] != 0 && v != 0
    ensures Indexed(n, lnks, bitmap[lo + i := v], head, lists)
  {
    hide Off, Cnt, Total, OrderOk, Indexed, Chained, Lists, SameOutside;
    var hi := lo + Cnt(n, k);
    OrderOf(n, lnks, bitmap, head, lists, k, lo, hi);
    var h, list := head[k - MIN_ORD], lists[k - MIN_ORD];
    ListsKept(bitmap[lo..hi], list, i, v);
    SliceAssigned(bitmap, lo, hi, i, v);
    SameSelf(lnks, lo, hi);
    Rebuilt(n, lnks, bitmap, head, lists, lnks, bitmap[lo + i := v], h, list, k, lo, hi);
    assert head[k - MIN_ORD := h] == head && lists[k - MIN_ORD := list] == lists;
  }

  /** `Unlinked` on the marks that start at `lo`. */
  function UnlinkedFrom(lnks: seq<int>, lo: nat, i: nat): (r: seq<int>)
    requires lo + i < |lnks|
    requires var prev, next := PreLnk(lnks[lo + i]), NextLnk(lnks[lo + i]);
             (prev != NIL ==> 0 <= prev && lo + prev < |lnks|) && (next != NIL ==> 0 <= next && lo + next < |lnks|)
    ensures |r| == |lnks|
  {
    var prev, next := PreLnk(lnks[lo + i]), NextLnk(lnks[lo + i]);
    var l := if prev != NIL then lnks[lo + prev := Lnks(PreLnk(lnks[lo + prev]), next)] else lnks;
    var m := if next != NIL then l[lo + next := Lnks(prev, NextLnk(l[lo + next]))] else l;
    m[lo + i := Lnks(NIL, NIL)]
  }

  lemma UnlinkedFromSlice(lnks: seq<int>, lo: nat, hi: nat, i: nat)
    requires lo + i < hi <= |lnks| && hi - lo <= NIL
    requires var prev, next := PreLnk(lnks[lo + i]), NextLnk(lnks[lo + i]);
             (prev != NIL ==> 0 <= prev && lo + prev < hi) && (next != NIL ==> 0 <= next && lo + next < hi)
    ensures UnlinkedFrom(lnks, lo, i)[lo..hi] == Unlinked(lnks[lo..hi], i)
    ensures SameOutside(lnks, UnlinkedFrom(lnks, lo, i), lo, hi)
  {
    hide Lnks, NextLnk, PreLnk, SameOutside;
    var prev, next := PreLnk(lnks[lo + i]), NextLnk(lnks[lo + i]);
    var l := if prev != NIL then lnks[lo + prev := Lnks(PreLnk(lnks[lo + prev]), next)] else lnks;
    var m := if next != NIL then l[lo + next := Lnks(prev, NextLnk(l[lo + next]))] else l;
    if prev != NIL {
      SliceAssigned(lnks, lo, hi, prev, Lnks(PreLnk(lnks[lo + prev]), next));
    } else {
      SameSelf(lnks, lo, hi);
    }
    if next != NIL {
      SliceAssigned(l, lo, hi, next, Lnks(prev, NextLnk(l[lo + next])));
    } else {
      SameSelf(l, lo, hi);
    }
    SliceAssigned(m, lo, hi, i, Lnks(NIL, NIL));
    SameTwice(lnks, l, m, lo, hi);
    SameTwice(lnks, m, UnlinkedFrom(lnks, lo, i), lo, hi);
  }

  lemma SameSelf<T>(a: seq<T>, lo: nat, hi: nat)
    ensures SameOutside(a, a, lo, hi)
  {
  }

  lemma RemovedHere(lnks: seq<int>, bitmap: seq<bv32>, lo: nat, hi: nat, h: int, list: seq<int>, i: nat)
      returns (p: nat)
    requires lo + i < hi <= |lnks| == |bitmap|
    requires Chained(lnks[lo..hi], h, list) && Lists(bitmap[lo..hi], list)
    requires bitmap[lo + i] != 0
    ensures p < |list| && list[p] == i
    ensures var prev, next := PreLnk(lnks[lo + i]), NextLnk(lnks[lo + i]);
            && (prev != NIL ==> 0 <= prev && lo + prev < hi) && (next != NIL ==> 0 <= next && lo + next < hi)
            && (prev == NIL ==> h == i)
            && Chained(UnlinkedFrom(lnks, lo, i)[lo..hi], if prev == NIL then next else h, Without(list, p))
    ensures Lists(bitmap[lo + i := 0][lo..hi], Without(list, p))
    ensures SameOutside(lnks, UnlinkedFrom(lnks, lo, i), lo, hi)
    ensures SameOutside(bitmap, bitmap[lo + i := 0], lo, hi)
  {
    hide PreLnk, NextLnk, Lnks, Unlinked, UnlinkedFrom, Without, SameOutside;
    assert bitmap[lo..hi][i] != 0;
    p :| 0 <= p < |list| && list[p] == i;
    WithoutIsList(list, p, hi - lo);
    UnlinkedChained(lnks[lo..hi], h, list, p);
    ListsDropped(bitmap[lo..hi], list, i, p);
    UnlinkedFromSlice(lnks, lo, hi, i);
    SliceAssigned(bitmap, lo, hi, i, 0);
  }

  /** unmark_blk, last bit of a word: the word leaves the list. */
  lemma MarkRemoved(n: nat, lnks: seq<int>, bitmap: seq<bv32>, head: seq<int>, lists: seq<seq<int>>,
      k: int, lo: nat, i: nat)
      returns (p: nat)
    requires Indexed(n, lnks, bitmap, head, lists) && IsOrder(k)
    requires lo == Off(n, k) && i < Cnt(n, k) && lo + i < |bitmap|
    requires bitmap[lo + i] != 0
    ensures p < |lists[k - MIN_ORD]|
    ensures var prev, next := PreLnk(lnks[lo + i]), NextLnk(lnks[lo + i]);
            var h := head[k - MIN_ORD];
            && (prev != NIL ==> 0 <= prev && lo + prev < |lnks|) && (next != NIL ==> 0 <= next && lo + next < |lnks|)
            && (prev == NIL ==> h == i)
            && Indexed(n, UnlinkedFrom(lnks, lo, i), bitmap[lo + i := 0], head[k - MIN_ORD := if prev == NIL then next else h],
                       lists[k - MIN_ORD := Without(lists[k - MIN_ORD], p)])
  {
    hide Off, Cnt, Total, UnlinkedFrom, SameOutside, OrderOk, Indexed, Chained, Lists, Without, PreLnk, NextLnk;
    var hi := lo + Cnt(n, k);
    OrderOf(n, lnks, bitmap, head, lists, k, lo, hi);
    var h, list := head[k - MIN_ORD], lists[k - MIN_ORD];
    p := RemovedHere(lnks, bitmap, lo, hi, h, list, i);
    var h' := if PreLnk(lnks[lo + i]) == NIL then NextLnk(lnks[lo + i]) else h;
    Rebuilt(n, lnks, bitmap, head, lists, UnlinkedFrom(lnks, lo, i), bitmap[lo + i := 0], h', Without(list, p), k, lo, hi);
  }

  lemma ListsPushed(words: seq<bv32>, list: seq<int>, i: nat, v: bv32)
    requires Lists(words, list) && i < |words| && words[i] == 0 && v != 0
    ensures i !in list && Lists(words[i := v], [i] + list)
  {
  }

  lemma ListsKept(words: seq<bv32>, list: seq<int>, i: nat, v: bv32)
    requires Lists(words, list) && i < |words| && words[i] != 0 && v != 0
    ensures Lists(words[i := v], list)
  {
  }

  lemma ListsDropped(words: seq<bv32>, list: seq<int>, i: nat, p: nat)
    requires Lists(words, list) && i < |words| && p < |list| && list[p] == i
    requires forall x :: x in Without(list, p) <==> x in list && x != i
    ensures Lists(words[i := 0], Without(list, p))
  {
    hide Without;
  }

  lemma FreeIsListed(n: nat, lnks: seq<int>, bitmap: seq<bv32>, head: seq<int>, lists: seq<seq<int>>, b: Blk)
    requires Indexed(n, lnks, bitmap, head, lists) && b in FreeOf(bitmap, n)
    ensures IsOrder(b.ord) && b.id / 32 in lists[b.ord - MIN_ORD]
  {
    hide Off, Cnt, Total, FreeOf, Test, Chained, OrderOk, Bit;
    FreeWord(n, bitmap, b);
    var lo, hi := Off(n, b.ord), Off(n, b.ord) + Cnt(n, b.ord);
    OrderOf(n, lnks, bitmap, head, lists, b.ord, lo, hi);
    hide Indexed;
    assert bitmap[lo..hi][b.id / 32] == bitmap[lo + b.id / 32];
  }

  /** The word at the head of a list has a free block: "empty mark in the list" cannot happen. */
  lemma HeadIsUsed(n: nat, lnks: seq<int>, bitmap: seq<bv32>, head: seq<int>, lists: seq<seq<int>>, k: int)
    requires Indexed(n, lnks, bitmap, head, lists) && IsOrder(k) && head[k - MIN_ORD] != NIL
    ensures var h := head[k - MIN_ORD];
            0 <= h < Cnt(n, k) && Off(n, k) + h < |bitmap| && bitmap[Off(n, k) + h] != 0
  {
    hide Off, Cnt, Total, OrderOk;
    var lo, hi, h := Off(n, k), Off(n, k) + Cnt(n, k), head[k - MIN_ORD];
    OrderOf(n, lnks, bitmap, head, lists, k, lo, hi);
    hide Indexed;
    ChainedHead(lnks[lo..hi], h, lists[k - MIN_ORD]);
    hide Chained;
    assert bitmap[lo..hi][h] == bitmap[lo + h];
  }

  lemma ChainedHead(lnks: seq<int>, head: int, list: seq<int>)
    requires Chained(lnks, head, list)
    ensures head != NIL <==> list != []
    ensures head != NIL ==> 0 <= head < |lnks| && head in list
  {
  }

  /** An order's list is empty exactly when it has no free block. */
  lemma EmptyList(n: nat, lnks: seq<int>, bitmap: seq<bv32>, head: seq<int>, lists: seq<seq<int>>, k: int)
    requires Indexed(n, lnks, bitmap, head, lists) && IsOrder(k)
    ensures head[k - MIN_ORD] == NIL <==> forall b :: b in FreeOf(bitmap, n) ==> b.ord != k
  {
    hide Off, Cnt, Total, FreeOf, Test, OrderOk, Chained, Lists;
    OrderOf(n, lnks, bitmap, head, lists, k, Off(n, k), Off(n, k) + Cnt(n, k));
    hide Indexed;
    var h := head[k - MIN_ORD];
    ChainedHead(lnks[Off(n, k)..Off(n, k) + Cnt(n, k)], h, lists[k - MIN_ORD]);
    forall b | b in FreeOf(bitmap, n) && b.ord == k
      ensures h != NIL
    {
      FreeIsListed(n, lnks, bitmap, head, lists, b);
    }
    if h != NIL {
      HeadIsUsed(n, lnks, bitmap, head, lists, k);
      var j := SomeBit(bitmap[Off(n, k) + h]);
      WordFree(n, bitmap, k, h, j);
      assert Blk(k, 32 * h + j).ord == k;
    }
  }

  lemma SomeBit(v: bv32) returns (j: nat)
    requires v != 0
    ensures j < 32 && Test(v, j)
  {
    ZeroIffNone(v);
    hide Test;
    j :| 0 <= j < 32 && Test(v, j);
  }

  lemma FreeWord(n: nat, bitmap: seq<bv32>, b: Blk)
    requires |bitmap| == Total(n) && b in FreeOf(bitmap, n)
    ensures HasBit(n, b) && Bit(bitmap, n, b) && bitmap[Word(n, b)] != 0
    ensures b.id / 32 < Cnt(n, b.ord) && Word(n, b) == Off(n, b.ord) + b.id / 32
  {
    InFree(bitmap, n, b);
    ZeroIffNone(bitmap[Word(n, b)]);
  }

  lemma WordFree(n: nat, bitmap: seq<bv32>, k: int, x: nat, j: nat)
    requires |bitmap| == Total(n) && IsOrder(k) && x < Cnt(n, k) && j < 32
    requires Off(n, k) + x < |bitmap|
    ensures HasBit(n, Blk(k, 32 * x + j)) && Word(n, Blk(k, 32 * x + j)) == Off(n, k) + x
    ensures Blk(k, 32 * x + j) in FreeOf(bitmap, n) <==> Test(bitmap[Off(n, k) + x], j)
  {
    hide Off, Cnt, Total, FreeOf, Test;
    InFree(bitmap, n, Blk(k, 32 * x + j));
  }

  /** The lowest set bit of a word is its lowest free block. */
  lemma LowestInWord(n: nat, bitmap: seq<bv32>, k: int, x: nat, i: nat, word: bv32)
    requires |bitmap| == Total(n) && IsOrder(k) && x < Cnt(n, k) && i < 32 && Off(n, k) + x < |bitmap|
    requires word == bitmap[Off(n, k) + x] && forall j :: 0 <= j < i ==> !Test(word, j)
    ensures (x * 32 + i) / 32 == x
    ensures forall j: nat :: j / 32 == (x * 32 + i) / 32 && j < x * 32 + i ==> Blk(k, j) !in FreeOf(bitmap, n)
  {
    hide Off, Cnt, Total, FreeOf, Test;
    forall j: nat | j / 32 == x && j < x * 32 + i
      ensures Blk(k, j) !in FreeOf(bitmap, n)
    {
      var r := j - 32 * x;
      WordFree(n, bitmap, k, x, r);
      assert 32 * x + r == j;
    }
  }

  // ---------- addresses ----------

  /** `1 << k`. */
  function Bytes(k: int): (s: nat)
    requires IsOrder(k)
    ensures s > 0
    ensures k < MAX_ORD ==> Bytes(k + 1) == 2 * s
    decreases MAX_ORD - k
  {
    if k == 12 then 4096 else if k == 11 then 2048 else if k == 10 then 1024 else if k == 9 then 512
    else if k == 8 then 256 else if k == 7 then 128 else 64
  }

  /** blkid2mem, from the start of the heap. */
  function Addr(b: Blk): nat
    requires b.Ok()
  {
    Bytes(b.ord) * b.id
  }

  /** mem2blkid undoes blkid2mem. */
  lemma AddrBack(b: Blk)
    requires b.Ok()
    ensures Addr(b) / Bytes(b.ord) == b.id && Addr(b) % Bytes(b.ord) == 0
  {
    match b.ord
    case 6 => case 7 => case 8 => case 9 => case 10 => case 11 => case 12 =>
  }

  lemma AddrHalves(b: Blk)
    requires b.Ok() && b.ord > MIN_ORD
    ensures Addr(Blk(b.ord - 1, 2 * b.id)) == Addr(b)
    ensures Addr(Blk(b.ord - 1, 2 * b.id + 1)) == Addr(b) + Bytes(b.ord - 1)
  {
    var h := Bytes(b.ord - 1);
    assert h * (2 * b.id) == (2 * h) * b.id;
    assert h * (2 * b.id + 1) == h * (2 * b.id) + h;
  }

  /** A block covers the units of its bytes: `Bytes` many from its address on. */
  lemma {:induction false} CoversBytes(b: Blk, u: nat)
    requires b.Ok()
    ensures b.Covers(u) <==> Addr(b) <= 64 * u < Addr(b) + Bytes(b.ord)
    decreases b.ord
  {
    hide Addr;
    if b.ord == MIN_ORD {
      SmallestAt(b);
    } else {
      var l, r := Blk(b.ord - 1, 2 * b.id), Blk(b.ord - 1, 2 * b.id + 1);
      Halves(b, u);
      AddrHalves(b);
      CoversBytes(l, u);
      CoversBytes(r, u);
    }
  }

  lemma SmallestAt(b: Blk)
    requires b.Ok() && b.ord == MIN_ORD
    ensures Addr(b) == 64 * b.id && Bytes(MIN_ORD) == 64
  {
  }

  lemma {:induction false} UnitAligned(b: Blk)
    requires b.Ok()
    ensures Addr(b) % 64 == 0 && Bytes(b.ord) % 64 == 0
    decreases b.ord
  {
    hide Addr;
    if b.ord == MIN_ORD {
      SmallestAt(b);
    } else {
      AddrHalves(b);
      UnitAligned(Blk(b.ord - 1, 2 * b.id));
    }
  }

  lemma NoShare(b: Blk, c: Blk)
    requires b.Ok() && c.Ok() && forall u: nat :: !(b.Covers(u) && c.Covers(u))
    ensures Addr(b) + Bytes(b.ord) <= Addr(c) || Addr(c) + Bytes(c.ord) <= Addr(b)
  {
    hide Addr, Bytes, Blk.Covers;
    UnitAligned(b);
    UnitAligned(c);
    var u := (if Addr(b) < Addr(c) then Addr(c) else Addr(b)) / 64;
    CoversBytes(b, u);
    CoversBytes(c, u);
  }

  lemma LastUnit(b: Blk, n: nat)
    requires b.Ok() && forall u: nat :: b.Covers(u) ==> u < n
    ensures Addr(b) + Bytes(b.ord) <= 64 * n
  {
    hide Addr, Bytes, Blk.Covers;
    UnitAligned(b);
    CoversBytes(b, (Addr(b) + Bytes(b.ord)) / 64 - 1);
  }

  /** No two live blocks share a byte, none shares one with a free block, and all lie inside the heap. */
  lemma LiveApart(f: set<Blk>, live: set<Blk>, pages: nat, b: Blk, c: Blk)
    requires Tiled(f, live, 64 * pages) && b in live && c in live + f && c != b
    ensures b.Ok() && c.Ok() && Addr(b) + Bytes(b.ord) <= 4096 * pages
    ensures Addr(b) + Bytes(b.ord) <= Addr(c) || Addr(c) + Bytes(c.ord) <= Addr(b)
  {
    hide Addr, Bytes, Blk.Covers;
    assert forall u: nat :: b.Covers(u) ==> Covered(live, u);
    assert c in f ==> forall u: nat :: c.Covers(u) ==> Covered(f, u);
    LastUnit(b, 64 * pages);
    NoShare(b, c);
  }

  /** `c` is a smallest free block of at least the given order. */
  ghost predicate SmallestFit(f: set<Blk>, order: int, c: Blk) {
    c in f && order <= c.ord && forall d :: d in f && order <= d.ord ==> c.ord <= d.ord
  }

  /** `g` is `f` with `c` gone and, for every order from `order` up to that of `c`, the block behind the first one of
      that order in `c` left over. */
  ghost predicate Remains(f: set<Blk>, c: Blk, order: int, g: set<Blk>)
    requires c.Ok()
  {
    forall x :: x in g <==>
      || (x in f && x != c)
      || (x.Ok() && order <= x.ord < c.ord && Addr(x) == Addr(c) + Bytes(x.ord))
  }

  /** `b` is the first part of `c`, a smallest free block that is large enough, and `g` is what is left. */
  ghost predicate CutFrom(f: set<Blk>, b: Blk, c: Blk, g: set<Blk>) {
    && b.Ok() && c.Ok() && Addr(b) == Addr(c)
    && SmallestFit(f, b.ord, c) && Remains(f, c, b.ord, g)
  }

  lemma TookOne(f: set<Blk>, c: Blk)
    requires c in f && c.Ok()
    ensures CutFrom(f, c, c, f - {c})
  {
  }

  /** Two blocks of one order at one address are one block. */
  lemma SameOrder(b: Blk, c: Blk)
    requires b.Ok() && c.Ok() && Addr(b) == Addr(c) && b.ord == c.ord
    ensures b == c
  {
    AddrBack(b);
    AddrBack(c);
  }

  /** Splitting once more: the upper half joins the remains, without merging. */
  lemma SplitOne(f: set<Blk>, c: Blk, p: Blk, mid: set<Blk>, g: set<Blk>)
    requires p.Ok() && p.ord > MIN_ORD && CutFrom(f, p, c, mid) && (forall b :: b in f ==> b.ord != p.ord - 1)
    requires Taken(f, p, mid) && Freed(mid, Blk(p.ord - 1, 2 * p.id + 1), g)
    ensures CutFrom(f, Blk(p.ord - 1, 2 * p.id), c, g)
  {
    hide Addr, Bytes, Canonical, Taken, Freed;
    var l, r := Blk(p.ord - 1, 2 * p.id), Blk(p.ord - 1, 2 * p.id + 1);
    AddrHalves(p);
    TakenCanonical(f, p, mid);
    TakenOut(f, p, mid, l);
    TakenOut(f, p, mid, r);
    AddBlock(mid, r);
    FreedOne(mid, r, g, mid + {r});
    forall x: Blk | x.Ok() && x.ord == r.ord && Addr(x) == Addr(c) + Bytes(x.ord)
      ensures x == r
    {
      SameOrder(x, r);
    }
  }

  /** Nothing of a block taken is free: neither half is, nor is any unit of it. */
  lemma TakenOut(f: set<Blk>, p: Blk, mid: set<Blk>, h: Blk)
    requires p.Ok() && p.ord > MIN_ORD && Taken(f, p, mid)
    requires h == Blk(p.ord - 1, 2 * p.id) || h == Blk(p.ord - 1, 2 * p.id + 1)
    ensures h.Ok() && h.Buddy().Ok() && h !in mid && Unfree(mid, h)
  {
    forall u: nat
      ensures h.Covers(u) ==> p.Covers(u)
    {
      Halves(p, u);
    }
    UnfreeIsOut(mid, h);
  }

  lemma FreedOne(f: set<Blk>, b: Blk, g: set<Blk>, h: set<Blk>)
    requires Freed(f, b, g) && Freed(f, b, h)
    ensures g == h
  {
    assert SameUnits(g, h);
    CanonicalUnique(g, h);
  }

  datatype Ptr = Null | Mem(at: nat)

  class Kmem {
    var start: nat
    var startHeap: nat
    var end: nat
    var head: seq<int>       // orders[].head
    var offset: seq<int>     // orders[].offset
    var lnks: seq<int>       // marks[].lnks
    var bitmap: seq<bv32>    // marks[].bitmap
    ghost var n: nat         // marks of the highest order
    ghost var lists: seq<seq<int>>
    ghost var live: set<Blk>
    ghost var pages: nat     // blocks of the highest order in the heap

    /** Every order's list agrees with its bitmap. */
    ghost predicate Consistent()
      reads this
    {
      && Indexed(n, lnks, bitmap, head, lists) && |bitmap| == Total(n)
      && |offset| == N_ORD && (forall k :: IsOrder(k) ==> offset[k - MIN_ORD] == Off(n, k))
    }

    ghost function Free(): set<Blk>
      reads this
      requires |bitmap| == Total(n)
    {
      FreeOf(bitmap, n)
    }

    /** Set the bit of a free block and put its word on the list; the panic "double free" is the last precondition. */
    method MarkBlk(order: int, id: nat)
      requires Consistent() && IsOrder(order) && HasBit(n, Blk(order, id))
      requires Blk(order, id) !in Free()
      modifies this`bitmap, this`lnks, this`head, this`lists
      ensures Consistent() && Free() == old(Free()) + {Blk(order, id)}
    {
      hide Off, Cnt, Total, Indexed, FreeOf, Test, Set, Lnks, NextLnk, Chained, Lists;
      var o := order - MIN_ORD;
      var i := id / 32;
      var m := offset[o] + i;
      WordOf(n, Blk(order, id));
      OrderOf(n, lnks, bitmap, head, lists, order, offset[o], offset[o] + Cnt(n, order));
      var insert := bitmap[m] == 0;
      var v := Set(bitmap[m], id % 32);
      SetNonzero(bitmap[m], id % 32);
      BitFlipped(bitmap, n, Blk(order, id), true);
      if insert {
        MarkInserted(n, lnks, bitmap, head, lists, order, offset[o], i, v);
      } else {
        MarkKept(n, lnks, bitmap, head, lists, order, offset[o], i, v);
      }
      bitmap := bitmap[m := v];
      if insert {
        lnks := lnks[m := Lnks(NIL, head[o])];
        if head[o] != NIL {
          var p := offset[o] + head[o];
          lnks := lnks[p := Lnks(i, NextLnk(lnks[p]))];
        }
        head := head[o := i];
        lists := lists[o := [i] + lists[o]];
      }
    }

    /** The end of unmark_blk: take mark `i` out of its order's list. */
    method Unlink(o: nat, i: nat)
      requires o < |offset| && o < |head| && 0 <= offset[o] && offset[o] + i < |lnks|
      requires var prev, next := PreLnk(lnks[offset[o] + i]), NextLnk(lnks[offset[o] + i]);
               && (prev != NIL ==> 0 <= prev && offset[o] + prev < |lnks|)
               && (next != NIL ==> 0 <= next && offset[o] + next < |lnks|)
               && (prev == NIL ==> head[o] == i)
      modifies this`lnks, this`head
      ensures lnks == UnlinkedFrom(old(lnks), offset[o], i)
      ensures head == old(head)[o := if PreLnk(old(lnks)[offset[o] + i]) == NIL
                                     then NextLnk(old(lnks)[offset[o] + i]) else old(head)[o]]
    {
      hide PreLnk, NextLnk, Lnks;
      var m := offset[o] + i;
      var prev, next := PreLnk(lnks[m]), NextLnk(lnks[m]);
      if prev != NIL {
        var q := offset[o] + prev;
        lnks := lnks[q := Lnks(PreLnk(lnks[q]), next)];
      } else if head[o] == i {
        head := head[o := next];
      }
      if next != NIL {
        var q := offset[o] + next;
        lnks := lnks[q := Lnks(prev, NextLnk(lnks[q]))];
      }
      lnks := lnks[m := Lnks(NIL, NIL)];
    }

    /** Clear the bit of a block taken and drop an emptied word from the list; the panic "double alloc" is the last
        precondition. */
    method UnmarkBlk(order: int, id: nat)
      requires Consistent() && IsOrder(order) && HasBit(n, Blk(order, id))
      requires Blk(order, id) in Free()
      modifies this`bitmap, this`lnks, this`head, this`lists
      ensures Consistent() && Free() == old(Free()) - {Blk(order, id)}
    {
      hide Off, Cnt, Total, Indexed, FreeOf, Test, Clear, UnlinkedFrom, NextLnk, PreLnk, Chained, Lists, Bit;
      var o := order - MIN_ORD;
      var i := id / 32;
      var m := offset[o] + i;
      WordOf(n, Blk(order, id));
      OrderOf(n, lnks, bitmap, head, lists, order, offset[o], offset[o] + Cnt(n, order));
      FreeWord(n, bitmap, Blk(order, id));
      var v := Clear(bitmap[m], id % 32);
      BitFlipped(bitmap, n, Blk(order, id), false);
      if v == 0 {
        ghost var p := MarkRemoved(n, lnks, bitmap, head, lists, order, offset[o], i);
        bitmap := bitmap[m := v];
        Unlink(o, i);
        lists := lists[o := Without(lists[o], p)];
      } else {
        MarkKept(n, lnks, bitmap, head, lists, order, offset[o], i, v);
        bitmap := bitmap[m := v];
      }
    }

    /** Take the lowest block of the word at the head of the list. */
    method GetBlk(order: int) returns (mem: nat, ghost id: nat)
      requires Consistent() && IsOrder(order) && head[order - MIN_ORD] != NIL
      modifies this`bitmap, this`lnks, this`head, this`lists
      ensures HasBit(n, Blk(order, id)) && Blk(order, id) in old(Free())
      ensures id / 32 == old(head)[order - MIN_ORD]
      ensures forall j: nat :: j / 32 == id / 32 && j < id ==> Blk(order, j) !in old(Free())
      ensures mem == startHeap + Addr(Blk(order, id))
      ensures Consistent() && Free() == old(Free()) - {Blk(order, id)}
    {
      hide Off, Cnt, Total, Indexed, FreeOf, Test, Chained, Lists, Bit, Bytes;
      OrderOf(n, lnks, bitmap, head, lists, order, offset[order - MIN_ORD], offset[order - MIN_ORD] + Cnt(n, order));
      HeadIsUsed(n, lnks, bitmap, head, lists, order);
      var h := head[order - MIN_ORD];
      var word := bitmap[offset[order - MIN_ORD] + h];
      ghost var bit := SomeBit(word);
      var i := 0;
      while i < 32
        invariant i <= bit && forall j :: 0 <= j < i ==> !Test(word, j)
      {
        if Test(word, i) {
          break;
        }
        i := i + 1;
      }
      WordFree(n, bitmap, order, h, i);
      var blk := h * 32 + i;
      LowestInWord(n, bitmap, order, h, i, word);
      UnmarkBlk(order, blk);
      id := blk;
      mem := startHeap + Bytes(order) * blk;
    }

    /** _kfree: merge with the buddy while it is free, then mark. */
    method KfreeLocked(mem: nat, order: int, ghost id: nat)
      requires Consistent() && Canonical(Free()) && IsOrder(order) && HasBit(n, Blk(order, id))
      requires mem == startHeap + Addr(Blk(order, id)) && Unfree(Free(), Blk(order, id))
      modifies this`bitmap, this`lnks, this`head, this`lists
      ensures Consistent() && Freed(old(Free()), Blk(order, id), Free())
      decreases MAX_ORD - order
    {
      hide Off, Cnt, Total, Indexed, FreeOf, Test, Chained, Lists, Bit, Bytes, Canonical, Unfree, Freed;
      ghost var b := Blk(order, id);
      AddrBack(b);
      var blk := (mem - startHeap) / Bytes(order);
      var buddy := if blk % 2 == 0 then blk + 1 else blk - 1;
      OrderOf(n, lnks, bitmap, head, lists, order, offset[order - MIN_ORD], offset[order - MIN_ORD] + Cnt(n, order));
      UnfreeIsOut(Free(), b);
      SharedWord(n, bitmap, b);
      var word := bitmap[offset[order - MIN_ORD] + blk / 32];
      if !Test(word, buddy % 32) || order == MAX_ORD {
        AddBlock(Free(), b);
        MarkBlk(order, blk);
      } else {
        MergeStep(Free(), b);
        ParentBit(n, b);
        UnmarkBlk(order, buddy);
        KfreeLocked(startHeap + Bytes(order) * (blk - blk % 2), order + 1, id / 2);
      }
    }

    /** _kmalloc: take a block of this order, or split one of the next order up. `c` is the free block that is used. */
    method KmallocLocked(order: int) returns (mem: Ptr, ghost id: nat, ghost c: Blk)
      requires Consistent() && Canonical(Free()) && IsOrder(order)
      modifies this`bitmap, this`lnks, this`head, this`lists
      ensures Consistent() && Canonical(Free())
      ensures mem.Null? <==> forall b :: b in old(Free()) ==> b.ord < order
      ensures mem.Null? ==> Free() == old(Free())
      ensures mem.Mem? ==>
        && HasBit(n, Blk(order, id)) && mem.at == startHeap + Addr(Blk(order, id))
        && Taken(old(Free()), Blk(order, id), Free())
        && CutFrom(old(Free()), Blk(order, id), c, Free())
      decreases MAX_ORD - order
    {
      hide Off, Cnt, Total, Indexed, FreeOf, Chained, Lists, Bytes, Addr, Canonical, Unfree, Freed, Taken, CutFrom;
      OrderOf(n, lnks, bitmap, head, lists, order, offset[order - MIN_ORD], offset[order - MIN_ORD] + Cnt(n, order));
      EmptyList(n, lnks, bitmap, head, lists, order);
      FreeOk(Free());
      mem, id, c := Null, 0, Blk(MIN_ORD, 0);
      if head[order - MIN_ORD] != NIL {
        var at: nat;
        at, id := GetBlk(order);
        mem := Mem(at);
        c := Blk(order, id);
        RemoveBlock(old(Free()), c);
        TookOne(old(Free()), c);
        TakenCanonical(old(Free()), Blk(order, id), Free());
      } else if order < MAX_ORD {
        ghost var up;
        mem, up, c := KmallocLocked(order + 1);
        if mem.Mem? {
          id := 2 * up;
          HalfBits(n, Blk(order + 1, up));
          SplitStep(old(Free()), Blk(order, id), Free());
          ghost var mid := Free();
          KfreeLocked(mem.at + Bytes(order), order, id + 1);
          TakenCanonical(old(Free()), Blk(order, id), Free());
          SplitOne(old(Free()), c, Blk(order + 1, up), mid, Free());
        }
      }
    }

    /** The whole allocator: consistent lists, and a heap tiled by free and live blocks. */
    ghost predicate Valid()
      reads this
    {
      && Consistent() && Tiled(Free(), live, 64 * pages)
      && pages <= 32 * n && startHeap % 4096 == 0
    }

    /** kmalloc returns NULL exactly when no block of this size is wholly free; otherwise a block that was
        free and is now live. */
    method Kmalloc(order: int) returns (mem: Ptr, ghost b: Blk, ghost c: Blk)
      requires Valid() && IsOrder(order)
      modifies this`bitmap, this`lnks, this`head, this`lists, this`live
      ensures Valid()
      ensures mem.Null? <==> forall i: nat :: !WhollyFree(old(Free()), Blk(order, i))
      ensures mem.Null? ==> Free() == old(Free()) && live == old(live)
      ensures mem.Mem? ==>
        && b.Ok() && b.ord == order && mem.at == startHeap + Addr(b)
        && Taken(old(Free()), b, Free())
        && b !in old(live) && live == old(live) + {b}
      ensures mem.Mem? ==>
        && c in old(Free()) && c.Ok() && order <= c.ord && Addr(b) == Addr(c)
        && (forall d :: d in old(Free()) && order <= d.ord ==> c.ord <= d.ord)
        && (forall x :: x in Free() <==>
              || (x in old(Free()) && x != c)
              || (x.Ok() && order <= x.ord < c.ord && Addr(x) == Addr(c) + Bytes(x.ord)))
      ensures (exists d :: d in old(Free()) && d.ord == order) ==>
        mem.Mem? && b in old(Free()) && c == b && Free() == old(Free()) - {b}
    {
      hide Indexed, FreeOf, Off, Cnt, Total, Tiled, Taken, WhollyFree, Addr, Bytes;
      TiledCanonical(Free(), live, 64 * pages);
      EnoughMeansListed(Free(), order);
      ghost var id;
      mem, id, c := KmallocLocked(order);
      b := Blk(order, id);
      if mem.Mem? {
        if b.ord == c.ord { SameOrder(b, c); }
        TiledAlloc(old(Free()), live, 64 * pages, b, Free());
        live := live + {b};
      }
    }

    /** kfree of a live block with its own order; the alignment test cannot fail. */
    method Kfree(mem: nat, order: int, ghost b: Blk)
      requires Valid() && b in live && b.Ok() && b.ord == order && mem == startHeap + Addr(b)
      modifies this`bitmap, this`lnks, this`head, this`lists, this`live
      ensures Valid()
      ensures Freed(old(Free()), b, Free()) && live == old(live) - {b}
    {
      hide Indexed, FreeOf, Off, Cnt, Total, Tiled, Freed, Unfree, Addr;
      Aligned(startHeap, b);
      assert mem % Bytes(order) == 0;
      TiledCanonical(Free(), live, 64 * pages);
      LiveIsUnfree(Free(), live, 64 * pages, b);
      LiveHasBit(n, Free(), live, pages, b);
      KfreeLocked(mem, order, b.id);
      TiledFree(old(Free()), live, 64 * pages, b, Free());
      live := live - {b};
    }

    /** kmem_init2: lay out the marks, then free the rest of memory page by page. The last page lies inside
        the given memory exactly when its end is page aligned. */
    method Init2(vstart: nat, vend: nat)
      requires vstart <= vend && Cnt(MarksFor(vend - vstart), MIN_ORD) <= NIL
      modifies this
      ensures Valid() && live == {} && Free() == AllLargest(pages)
      ensures start == vstart && end == vend && n == MarksFor(vend - vstart) && start + 8 * Total(n) <= startHeap
      ensures Spans(startHeap, end, pages)
    {
      hide Indexed, FreeOf, Off, Cnt, Total, Tiled, AllLargest, PagesFrom, Lnks, Spans, Kmem.Valid, Kmem.Consistent;
      start, end := vstart, vend;
      head, offset := seq(N_ORD, _ => 0), seq(N_ORD, _ => 0);
      lnks, bitmap := [], [];
      n, lists := MarksFor(vend - vstart), seq(N_ORD, _ => []);
      InitMarks();
      PlaceHeap();
      FreePages();
    }

    /** Where the heap starts, and the blocks it will have: none of them free yet. */
    method PlaceHeap()
      requires start <= end && n == MarksFor(end - start)
      requires Shaped(n, lnks, bitmap, head, lists)
      requires |offset| == N_ORD && (forall k :: IsOrder(k) ==> offset[k - MIN_ORD] == Off(n, k))
      requires forall o :: 0 <= o < N_ORD ==> head[o] == NIL && lists[o] == []
      requires forall w :: 0 <= w < |bitmap| ==> bitmap[w] == 0
      modifies this`startHeap, this`pages, this`live
      ensures Valid() && live == PagesFrom(0, pages) && start + 8 * Total(n) <= startHeap
      ensures Spans(startHeap, end, pages)
    {
      hide Off, Cnt, Total, Indexed, FreeOf, Tiled, AllLargest, PagesFrom;
      FreshIndexed(n, lnks, bitmap, head, lists);
      startHeap := (start + |lnks| * 8 + 4095) / 4096 * 4096;
      pages := if end <= startHeap then 0 else (end - startHeap + 4095) / 4096;
      PagesFit(start, startHeap, end, pages);
      live := PagesFrom(0, pages);
      NothingFreeTiled(pages);
    }

    /** The loops that set every bitmap empty and every list to nil. */
    method InitMarks()
      requires |head| == |offset| == N_ORD && lnks == [] && bitmap == []
      requires start <= end && n == MarksFor(end - start)
      modifies this`head, this`offset, this`lnks, this`bitmap
      ensures |offset| == N_ORD && (forall k :: IsOrder(k) ==> offset[k - MIN_ORD] == Off(n, k))
      ensures |head| == N_ORD && (forall o :: 0 <= o < N_ORD ==> head[o] == NIL)
      ensures |lnks| == |bitmap| == Total(n) && (forall w :: 0 <= w < |bitmap| ==> bitmap[w] == 0)
    {
      hide Lnks, Off, Cnt, Total;
      var total, count := 0, (end - start) / 0x2_0000 + 1;
      var i := N_ORD - 1;
      MarksLayout(n, MAX_ORD);
      while i >= 0
        invariant -1 <= i < N_ORD && |head| == |offset| == N_ORD
        invariant forall o :: i < o < N_ORD ==> offset[o] == Off(n, o + MIN_ORD) && head[o] == NIL
        invariant if i >= 0 then total == Off(n, i + MIN_ORD) && count == Cnt(n, i + MIN_ORD) else total == Total(n)
        invariant |lnks| == |bitmap| == total && (forall w :: 0 <= w < |bitmap| ==> bitmap[w] == 0)
      {
        MarksLayout(n, i + MIN_ORD);
        offset := offset[i := total];
        head := head[i := NIL];
        var j := 0;
        while j < count
          invariant 0 <= j <= count
          invariant |lnks| == |bitmap| == total + j && (forall w :: 0 <= w < |bitmap| ==> bitmap[w] == 0)
          modifies this`lnks, this`bitmap
        {
          lnks := lnks + [Lnks(NIL, NIL)];
          bitmap := bitmap + [0];
          j := j + 1;
        }
        total := total + count;
        count := count * 2;
        i := i - 1;
      }
      assert forall k :: IsOrder(k) ==> offset[k - MIN_ORD] == Off(n, k - MIN_ORD + MIN_ORD);
    }

    /** The loop that hands every page to kfree. */
    method FreePages()
      requires Valid() && live == PagesFrom(0, pages)
      requires Spans(startHeap, end, pages)
      modifies this`bitmap, this`lnks, this`head, this`lists, this`live
      ensures Valid() && live == {} && Free() == AllLargest(pages)
    {
      hide Indexed, FreeOf, Off, Cnt, Total, Tiled, Freed;
      var i := startHeap;
      ghost var j := 0;
      while i < end
        invariant 0 <= j <= pages && i == startHeap + 4096 * j
        invariant Valid() && live == PagesFrom(j, pages)
        decreases pages - j
      {
        assert Addr(Blk(MAX_ORD, j)) == 4096 * j;
        Kfree(i, MAX_ORD, Blk(MAX_ORD, j));
        assert PagesFrom(j, pages) - {Blk(MAX_ORD, j)} == PagesFrom(j + 1, pages);
        i := i + 4096;
        j := j + 1;
      }
      assert live == {};
      AllFreedIsAllLargest(Free(), pages);
    }
  }

  lemma MarksLayout(n: nat, k: int)
    requires IsOrder(k)
    ensures k == MAX_ORD ==> Off(n, k) == 0 && Cnt(n, k) == n
    ensures k > MIN_ORD ==> Off(n, k - 1) == Off(n, k) + Cnt(n, k) && Cnt(n, k - 1) == 2 * Cnt(n, k)
    ensures k == MIN_ORD ==> Total(n) == Off(n, k) + Cnt(n, k)
  {
  }

  /** `(len >> (MAX_ORD + 5)) + 1`. */
  function MarksFor(len: nat): nat { len / 0x2_0000 + 1 }

  ghost function PagesFrom(j: int, m: int): set<Blk> {
    set x | j <= x < m :: Blk(MAX_ORD, x)
  }

  predicate IsMark(n: nat, k: int, i: int) { IsOrder(k) && 0 <= i < Cnt(n, k) }

  /** A link that packing preserves and that cannot be mistaken for NIL. */
  predicate Storable(i: int) {
    PreLnk(Lnks(i, NIL)) == i && NextLnk(Lnks(NIL, i)) == i && i != NIL
  }

  /** Every mark's index can be stored in a link exactly when the lowest order has at most 0xFFFF marks. */
  lemma IndexFits(n: nat)
    ensures Cnt(n, MIN_ORD) == 64 * n
    ensures 64 * n <= NIL <==> forall k, i :: IsMark(n, k, i) ==> Storable(i)
  {
    assert Cnt(n, 11) == 2 * n;
    assert Cnt(n, 10) == 4 * n;
    assert Cnt(n, 9) == 8 * n;
    assert Cnt(n, 8) == 16 * n;
    assert Cnt(n, 7) == 32 * n;
    forall k, i | IsMark(n, k, i)
      ensures i < 64 * n && (i < NIL ==> Storable(i))
    {
      CntMonotone(n, k);
      LnksRoundTrip(i, NIL);
      LnksRoundTrip(NIL, i);
    }
    if 64 * n > NIL {
      assert IsMark(n, MIN_ORD, NIL);
    }
  }

  lemma FreshIndexed(n: nat, lnks: seq<int>, bitmap: seq<bv32>, head: seq<int>, lists: seq<seq<int>>)
    requires Shaped(n, lnks, bitmap, head, lists)
    requires forall o :: 0 <= o < N_ORD ==> head[o] == NIL && lists[o] == []
    requires forall w :: 0 <= w < |bitmap| ==> bitmap[w] == 0
    ensures Indexed(n, lnks, bitmap, head, lists) && FreeOf(bitmap, n) == {}
  {
    hide Off, Cnt, Total, FreeOf, Test;
    forall k | IsOrder(k)
      ensures OrderOk(n, lnks, bitmap, head, lists, k)
    {
      OrderFits(n, k);
    }
    forall b | b in FreeOf(bitmap, n)
      ensures false
    {
      FreeWord(n, bitmap, b);
    }
  }

  /** The loop from `startHeap` below `end` in steps of a page takes `pages` steps; what it covers ends at
      `end` exactly when `end` is page aligned. */
  predicate Spans(startHeap: nat, end: nat, pages: nat) {
    && (pages == 0 <==> end <= startHeap)
    && (pages > 0 ==> startHeap + 4096 * (pages - 1) < end <= startHeap + 4096 * pages)
    && (pages > 0 ==> (startHeap + 4096 * pages == end <==> end % 4096 == 0))
  }

  lemma PagesFit(start: nat, startHeap: nat, end: nat, pages: nat)
    requires start <= startHeap && start <= end && startHeap % 4096 == 0
    requires pages == if end <= startHeap then 0 else (end - startHeap + 4095) / 4096
    ensures pages <= 32 * MarksFor(end - start)
    ensures Spans(startHeap, end, pages)
  {
  }

  lemma NothingFreeTiled(m: nat)
    ensures Tiled({}, PagesFrom(0, m), 64 * m)
  {
    AllLargestTiled(m);
    assert PagesFrom(0, m) == AllLargest(m);
  }

  lemma TiledCanonical(f: set<Blk>, live: set<Blk>, u: nat)
    requires Tiled(f, live, u)
    ensures Canonical(f)
  {
  }

  lemma Aligned(base: nat, b: Blk)
    requires base % 4096 == 0 && b.Ok()
    ensures (base + Addr(b)) % Bytes(b.ord) == 0
  {
    var c := AlignedId(base / 4096, b);
    AddrBack(c);
  }

  /** The block counted from address zero instead of from a page-aligned base. */
  lemma AlignedId(q: nat, b: Blk) returns (c: Blk)
    requires b.Ok()
    ensures c.Ok() && c.ord == b.ord && Addr(c) == 4096 * q + Addr(b)
  {
    match b.ord
    case 6 => c := Blk(6, 64 * q + b.id);
    case 7 => c := Blk(7, 32 * q + b.id);
    case 8 => c := Blk(8, 16 * q + b.id);
    case 9 => c := Blk(9, 8 * q + b.id);
    case 10 => c := Blk(10, 4 * q + b.id);
    case 11 => c := Blk(11, 2 * q + b.id);
    case 12 => c := Blk(12, q + b.id);
  }

  lemma {:induction false} BitsBelow(n: nat, u: nat, k: int)
    requires IsOrder(k) && Above(u, MAX_ORD) < 32 * n
    ensures Above(u, k) < 32 * Cnt(n, k)
    decreases MAX_ORD - k
  {
    if k < MAX_ORD {
      BitsBelow(n, u, k + 1);
    }
  }

  /** Every block of the heap has a bit. */
  lemma LiveHasBit(n: nat, f: set<Blk>, live: set<Blk>, pages: nat, b: Blk)
    requires Tiled(f, live, 64 * pages) && b in live && pages <= 32 * n
    ensures HasBit(n, b)
  {
    var u := FirstUnit(b);
    FirstUnitCovered(b);
    assert Covered(live, u);
    LargestHolding(u);
    BitsBelow(n, u, b.ord);
  }

  lemma FreeOk(f: set<Blk>)
    requires Canonical(f)
    ensures forall b :: b in f ==> b.ord <= MAX_ORD
  {
  }

  lemma TakenCanonical(f: set<Blk>, b: Blk, g: set<Blk>)
    requires Taken(f, b, g)
    ensures Canonical(g)
  {
  }

  lemma HalfBits(n: nat, b: Blk)
    requires HasBit(n, b) && b.ord > MIN_ORD
    ensures var l, r := Blk(b.ord - 1, 2 * b.id), Blk(b.ord - 1, 2 * b.id + 1);
            && HasBit(n, l) && HasBit(n, r) && l.Buddy() == r && l.Parent() == b
            && Addr(l) == Addr(b) && Addr(r) == Addr(b) + Bytes(b.ord - 1)
  {
    AddrHalves(b);
  }

  lemma UnfreeIsOut(f: set<Blk>, b: Blk)
    requires Canonical(f) && b.Ok() && Unfree(f, b)
    ensures b !in f
  {
    FirstUnitCovered(b);
    assert Covered(f, FirstUnit(b)) || b !in f;
  }

  /** A block and its buddy have their bits in the same word. */
  lemma SharedWord(n: nat, bitmap: seq<bv32>, b: Blk)
    requires |bitmap| == Total(n) && HasBit(n, b)
    ensures HasBit(n, b.Buddy()) && b.Buddy().id / 32 == b.id / 32 && Word(n, b) == Off(n, b.ord) + b.id / 32
    ensures b.Buddy() in FreeOf(bitmap, n) <==> Test(bitmap[Off(n, b.ord) + b.id / 32], b.Buddy().id % 32)
    ensures b.id / 32 < Cnt(n, b.ord)
  {
    hide Off, Cnt, Total, FreeOf, Test;
    BuddyArith(b.id, Cnt(n, b.ord));
    InFree(bitmap, n, b.Buddy());
  }

  lemma BuddyArith(id: nat, c: nat)
    requires id < 32 * c
    ensures var buddy := if id % 2 == 0 then id + 1 else id - 1;
            0 <= buddy < 32 * c && buddy / 32 == id / 32 < c
  {
    var r := id % 32;
    assert id == 32 * (id / 32) + r;
    if id % 2 == 0 {
      assert r % 2 == 0;
    } else {
      assert r % 2 == 1;
    }
  }

  lemma ParentBit(n: nat, b: Blk)
    requires HasBit(n, b) && b.ord < MAX_ORD
    ensures HasBit(n, b.Parent())
    ensures Addr(b.Parent()) == Bytes(b.ord) * (b.id - b.id % 2)
  {
    AddrHalves(b.Parent());
  }

  lemma WordOf(n: nat, b: Blk)
    requires HasBit(n, b)
    ensures IsOrder(b.ord) && b.id / 32 < Cnt(n, b.ord) && Word(n, b) == Off(n, b.ord) + b.id / 32 < Total(n)
  {
  }

  lemma SetNonzero(v: bv32, i: nat)
    requires i < 32
    ensures Set(v, i) != 0
  {
    TestSet(v, i, i);
    ZeroIffNone(Set(v, i));
    hide Test, Set;
  }

  /** The word holds bits of exactly one order. */
  lemma WordOwner(n: nat, w: nat) returns (k: int)
    requires w < Total(n)
    ensures IsOrder(k) && Off(n, k) <= w < Off(n, k) + Cnt(n, k)
  {
    k := MIN_ORD;
    while w < Off(n, k)
      invariant IsOrder(k) && w < Off(n, k) + Cnt(n, k)
      decreases MAX_ORD - k
    {
      k := k + 1;
    }
  }

  /** The free blocks determine every bitmap word. */
  lemma BitmapsDetermined(bitmap: seq<bv32>, bitmap': seq<bv32>, n: nat)
    requires |bitmap| == |bitmap'| == Total(n) && FreeOf(bitmap, n) == FreeOf(bitmap', n)
    ensures bitmap == bitmap'
  {
    forall w | 0 <= w < |bitmap|
      ensures bitmap[w] == bitmap'[w]
    {
      var k := WordOwner(n, w);
      hide Off, Cnt, Total, FreeOf, Test;
      forall j | 0 <= j < 32
        ensures Test(bitmap[w], j) <==> Test(bitmap'[w], j)
      {
        WordFree(n, bitmap, k, w - Off(n, k), j);
        WordFree(n, bitmap', k, w - Off(n, k), j);
      }
      SameBits(bitmap[w], bitmap'[w]);
    }
  }

  /** kmalloc then kfree of the same block: every bitmap is as it was. */
  lemma KmallocKfreeRestores(bitmap: seq<bv32>, between: seq<bv32>, after: seq<bv32>, n: nat, b: Blk)
    requires |bitmap| == |between| == |after| == Total(n)
    requires Canonical(FreeOf(bitmap, n))
    requires Taken(FreeOf(bitmap, n), b, FreeOf(between, n))
    requires Freed(FreeOf(between, n), b, FreeOf(after, n))
    ensures after == bitmap
  {
    hide FreeOf, Canonical, Taken, Freed;
    AllocThenFree(FreeOf(bitmap, n), b, FreeOf(between, n), FreeOf(after, n));
    BitmapsDetermined(bitmap, after, n);
  }
}
