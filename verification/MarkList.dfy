/** The list that chains the non-empty bitmap words of one order (buddy.c): two 16-bit indices packed in
    one word per mark. */
module MarkList {

  const NIL := 0xFFFF

  function PreLnk(l: int): int { l / 0x1_0000 }

  function NextLnk(l: int): int { l % 0x1_0000 }

  /** `((pre) << 16) | ((next) & 0xFFFF)` in 32 bits. */
  function Lnks(pre: int, next: int): int {
    (pre * 0x1_0000) % 0x1_0000_0000 + next % 0x1_0000
  }

  /** Packing loses nothing exactly when both links fit in 16 bits. */
  lemma LnksRoundTrip(pre: int, next: int)
    ensures PreLnk(Lnks(pre, next)) == pre && NextLnk(Lnks(pre, next)) == next <==>
            0 <= pre < 0x1_0000 && 0 <= next < 0x1_0000
  {
    assert (pre * 0x1_0000) % 0x1_0000_0000 == (pre % 0x1_0000) * 0x1_0000;
  }

  function Before(list: seq<int>, p: nat): int
    requires p < |list|
  { if p == 0 then NIL else list[p - 1] }

  function Behind(list: seq<int>, p: nat): int
    requires p < |list|
  { if p + 1 == |list| then NIL else list[p + 1] }

  function First(list: seq<int>): int { if list == [] then NIL else list[0] }

  predicate Distinct(list: seq<int>) {
    forall p, q :: 0 <= p < |list| && 0 <= q < |list| && p != q ==> list[p] != list[q]
  }

  predicate InRange(list: seq<int>, n: nat) {
    forall p :: 0 <= p < |list| ==> 0 <= list[p] < n
  }

  /** From `head`, the links visit exactly `list`, in both directions. */
  predicate Chained(lnks: seq<int>, head: int, list: seq<int>) {
    && |lnks| <= NIL
    && InRange(list, |lnks|) && Distinct(list)
    && head == First(list)
    && forall p :: 0 <= p < |list| ==> lnks[list[p]] == Lnks(Before(list, p), Behind(list, p))
  }

  /** The assignments of mark_blk that put mark `i` in front. */
  function Pushed(lnks: seq<int>, head: int, i: int): (r: seq<int>)
    requires 0 <= i < |lnks| && (head != NIL ==> 0 <= head < |lnks|)
    ensures |r| == |lnks|
  {
    var l := lnks[i := Lnks(NIL, head)];
    if head != NIL then l[head := Lnks(i, NextLnk(l[head]))] else l
  }

  lemma PushedChained(lnks: seq<int>, head: int, list: seq<int>, i: int)
    requires Chained(lnks, head, list) && 0 <= i < |lnks| && i !in list
    ensures head != NIL ==> 0 <= head < |lnks|
    ensures Chained(Pushed(lnks, head, i), i, [i] + list)
  {
    var l, r := Pushed(lnks, head, i), [i] + list;
    forall p | 0 <= p < |r|
      ensures l[r[p]] == Lnks(Before(r, p), Behind(r, p))
    {
      if p > 0 {
        assert r[p] == list[p - 1];
        assert Before(list, p - 1) == if p == 1 then NIL else list[p - 2];
        if p == 1 {
          LnksRoundTrip(NIL, Behind(list, 0));
        }
      }
    }
  }

  /** The assignments of unmark_blk that take mark `i` out of the list. */
  function Unlinked(lnks: seq<int>, i: int): (r: seq<int>)
    requires 0 <= i < |lnks| <= NIL
    requires var prev, next := PreLnk(lnks[i]), NextLnk(lnks[i]);
             (prev != NIL ==> 0 <= prev < |lnks|) && (next != NIL ==> 0 <= next < |lnks|)
    ensures |r| == |lnks|
  {
    var prev, next := PreLnk(lnks[i]), NextLnk(lnks[i]);
    var l := if prev != NIL then lnks[prev := Lnks(PreLnk(lnks[prev]), next)] else lnks;
    var m := if next != NIL then l[next := Lnks(prev, NextLnk(l[next]))] else l;
    m[i := Lnks(NIL, NIL)]
  }

  function Without(list: seq<int>, p: nat): (r: seq<int>)
    requires p < |list|
    ensures |r| == |list| - 1
  {
    list[..p] + list[p + 1..]
  }

  lemma LinksAt(lnks: seq<int>, head: int, list: seq<int>, p: nat)
    requires Chained(lnks, head, list) && p < |list|
    ensures 0 <= list[p] < |lnks|
    ensures PreLnk(lnks[list[p]]) == Before(list, p) && NextLnk(lnks[list[p]]) == Behind(list, p)
  {
    LnksRoundTrip(Before(list, p), Behind(list, p));
  }

  lemma WithoutIsList(list: seq<int>, p: nat, n: nat)
    requires p < |list| && InRange(list, n) && Distinct(list)
    ensures InRange(Without(list, p), n) && Distinct(Without(list, p))
    ensures forall x :: x in Without(list, p) <==> x in list && x != list[p]
    ensures First(Without(list, p)) == if p == 0 then Behind(list, 0) else list[0]
  {
    var r := Without(list, p);
    assert forall q :: 0 <= q < |r| ==> r[q] == list[if q < p then q else q + 1];
    forall x | x in list && x != list[p]
      ensures x in r
    {
      var o :| 0 <= o < |list| && list[o] == x;
      assert r[if o < p then o else o - 1] == x;
    }
  }

  /** The links after unlinking, mark by mark. */
  lemma UnlinkedValue(lnks: seq<int>, i: int, x: int)
    requires 0 <= i < |lnks| <= NIL && 0 <= x < |lnks| && x != i
    requires var prev, next := PreLnk(lnks[i]), NextLnk(lnks[i]);
             && (prev != NIL ==> 0 <= prev < |lnks|) && (next != NIL ==> 0 <= next < |lnks|)
             && (prev == next ==> prev == NIL)
    ensures var prev, next := PreLnk(lnks[i]), NextLnk(lnks[i]);
            Unlinked(lnks, i)[x] ==
            if x == prev then Lnks(PreLnk(lnks[x]), next)
            else if x == next then Lnks(prev, NextLnk(lnks[x]))
            else lnks[x]
  {
    hide PreLnk, NextLnk, Lnks;
  }

  lemma UnlinkedAt(lnks: seq<int>, head: int, list: seq<int>, p: nat, q: nat)
    requires Chained(lnks, head, list) && p < |list| && q < |list| - 1
    requires 0 <= list[p] < |lnks| && 0 <= Without(list, p)[q] < |lnks|
    requires PreLnk(lnks[list[p]]) == Before(list, p) && NextLnk(lnks[list[p]]) == Behind(list, p)
    requires Before(list, p) != NIL ==> 0 <= Before(list, p) < |lnks|
    requires Behind(list, p) != NIL ==> 0 <= Behind(list, p) < |lnks|
    ensures Unlinked(lnks, list[p])[Without(list, p)[q]] == Lnks(Before(Without(list, p), q), Behind(Without(list, p), q))
  {
    hide PreLnk, NextLnk, Lnks, Unlinked;
    var o := if q < p then q else q + 1;
    LinksAt(lnks, head, list, o);
    WithoutNeighbours(list, p, q);
    assert lnks[list[o]] == Lnks(Before(list, o), Behind(list, o));
    UnlinkedValue(lnks, list[p], list[o]);
  }

  lemma WithoutNeighbours(list: seq<int>, p: nat, q: nat)
    requires p < |list| && q < |list| - 1
    ensures var r := Without(list, p);
            var o := if q < p then q else q + 1;
            && r[q] == list[o]
            && Before(r, q) == (if o == p + 1 then Before(list, p) else Before(list, o))
            && Behind(r, q) == (if o + 1 == p then Behind(list, p) else Behind(list, o))
  {
  }

  lemma UnlinkedChained(lnks: seq<int>, head: int, list: seq<int>, p: nat)
    requires Chained(lnks, head, list) && p < |list|
    ensures var prev, next := PreLnk(lnks[list[p]]), NextLnk(lnks[list[p]]);
            && prev == Before(list, p) && next == Behind(list, p)
            && (prev != NIL ==> 0 <= prev < |lnks|) && (next != NIL ==> 0 <= next < |lnks|)
            && Chained(Unlinked(lnks, list[p]), if prev == NIL then next else head, Without(list, p))
  {
    LinksAt(lnks, head, list, p);
    WithoutIsList(list, p, |lnks|);
    hide PreLnk, NextLnk, Lnks, Unlinked, Without;
    forall q | 0 <= q < |list| - 1
      ensures Unlinked(lnks, list[p])[Without(list, p)[q]] == Lnks(Before(Without(list, p), q), Behind(Without(list, p), q))
    {
      UnlinkedAt(lnks, head, list, p, q);
    }
  }
}
