/** The circular free list of malloc and free as an ascending sequence of blocks. */
module UmallocSpec {
  const HDR := 16  // sizeof(Header): the unit of allocation

  /** A block: the byte address of its header and its length in units, the header included. */
  datatype Blk = Blk(a: int, n: nat) {
    function End(): int { a + HDR * n }

    predicate Has(x: int) { a <= x < End() }
  }

  /** Ascending, starting with the empty block `base`, all other blocks non-empty and none overlapping. */
  ghost predicate Sorted(base: int, l: seq<Blk>) {
    && |l| > 0 && l[0] == Blk(base, 0)
    && (forall i :: 0 < i < |l| ==> l[i].n > 0 && base < l[i].a)
    && (forall i, k :: 0 <= i < k < |l| ==> l[i].End() <= l[k].a)
  }

  /** No block ends where the next one begins. */
  ghost predicate Coalesced(l: seq<Blk>) {
    forall i :: 0 < i < |l| ==> l[i - 1].End() != l[i].a
  }

  /** The headers in memory form the circular list `l`. */
  ghost predicate Linked(ptr: map<int, int>, size: map<int, nat>, l: seq<Blk>) {
    forall i :: 0 <= i < |l| ==> Node(ptr, size, l, i)
  }

  ghost predicate Node(ptr: map<int, int>, size: map<int, nat>, l: seq<Blk>, i: int)
    requires 0 <= i < |l|
  {
    && l[i].a in ptr && ptr[l[i].a] == l[Next(i, |l|)].a
    && l[i].a in size && size[l[i].a] == l[i].n
  }

  lemma Distinct(base: int, l: seq<Blk>)
    requires Sorted(base, l)
    ensures forall i, k :: 0 <= i < |l| && 0 <= k < |l| && i != k ==> l[i].a != l[k].a
  {
    forall i, k | 0 <= i < |l| && 0 <= k < |l| && i != k
      ensures l[i].a != l[k].a
    {
      Before(base, l, if i < k then i else k, if i < k then k else i);
    }
  }

  lemma Before(base: int, l: seq<Blk>, i: nat, k: nat)
    requires Sorted(base, l) && i < k < |l|
    ensures l[i].a < l[k].a && l[i].End() <= l[k].a
  {
  }

  function Next(i: nat, n: nat): nat
    requires i < n
    ensures Next(i, n) < n
  {
    if i + 1 < n then i + 1 else 0
  }

  ghost predicate Covers(l: seq<Blk>, x: int) {
    exists i :: 0 <= i < |l| && l[i].Has(x)
  }

  // ---------- inserting and joining ----------

  /** `b` belongs right after block `j`. */
  ghost predicate Place(l: seq<Blk>, j: nat, b: Blk) {
    j < |l| && l[j].End() <= b.a && (j + 1 < |l| ==> b.End() <= l[j + 1].a)
  }

  function Inserted(l: seq<Blk>, j: nat, b: Blk): seq<Blk>
    requires j < |l|
  {
    l[..j + 1] + [b] + l[j + 1..]
  }

  lemma InsertSorted(base: int, l: seq<Blk>, j: nat, b: Blk)
    requires Sorted(base, l) && Place(l, j, b) && b.n > 0 && base < b.a
    ensures Sorted(base, Inserted(l, j, b))
  {
    var m := Inserted(l, j, b);
    forall i, k | 0 <= i < k < |m|
      ensures m[i].End() <= m[k].a
    {
      var i', k' := if i <= j then i else i - 1, if k <= j then k else k - 1;
      if i == j + 1 {
        assert l[j + 1].a <= l[k'].a;
      } else if k == j + 1 {
        assert l[i].End() <= l[j].End();
      } else {
        assert m[i] == l[i'] && m[k] == l[k'];
      }
    }
  }

  lemma InsertLinked(base: int, l: seq<Blk>, j: nat, b: Blk, ptr: map<int, int>, size: map<int, nat>)
    requires Sorted(base, l) && Linked(ptr, size, l) && Place(l, j, b) && b.n > 0 && base < b.a
    requires b.a in size && size[b.a] == b.n
    ensures Node(ptr, size, l, j) && Linked(ptr[b.a := ptr[l[j].a]][l[j].a := b.a], size, Inserted(l, j, b))
  {
    hide Sorted, Node;
    InsertSorted(base, l, j, b);
    var m := Inserted(l, j, b);
    Distinct(base, m);
    assert Node(ptr, size, l, j);
    NodeFacts(ptr, size, l, j);
    var p := ptr[b.a := ptr[l[j].a]][l[j].a := b.a];
    forall i | 0 <= i < |m|
      ensures Node(p, size, m, i)
    {
      assert Node(ptr, size, l, if i <= j then i else i - 1);
      InsertNode(l, j, b, ptr, size, i);
    }
  }

  lemma NodeFacts(ptr: map<int, int>, size: map<int, nat>, l: seq<Blk>, i: nat)
    requires i < |l| && Node(ptr, size, l, i)
    ensures l[i].a in ptr && ptr[l[i].a] == l[Next(i, |l|)].a
    ensures l[i].a in size && size[l[i].a] == l[i].n
  {
  }

  lemma InsertNode(l: seq<Blk>, j: nat, b: Blk, ptr: map<int, int>, size: map<int, nat>, i: nat)
    requires j < |l| && i <= |l| && Node(ptr, size, l, j) && Node(ptr, size, l, if i <= j then i else i - 1)
    requires b.a in size && size[b.a] == b.n
    requires var m := Inserted(l, j, b);
             forall i, k :: 0 <= i < |m| && 0 <= k < |m| && i != k ==> m[i].a != m[k].a
    ensures Node(ptr[b.a := ptr[l[j].a]][l[j].a := b.a], size, Inserted(l, j, b), i)
  {
    var m := Inserted(l, j, b);
    assert m[j + 1] == b && m[j] == l[j];
    if i <= j {
      assert m[i] == l[i];
      assert i < j ==> m[i + 1] == l[i + 1];
    } else if i > j + 1 {
      assert m[i] == l[i - 1];
      assert i < |l| ==> m[i + 1] == l[i];
      assert m[0] == l[0];
    } else {
      assert j + 1 < |l| ==> m[j + 2] == l[j + 1];
      assert m[0] == l[0];
    }
  }

  lemma InsertCovers(l: seq<Blk>, j: nat, b: Blk, x: int)
    requires j < |l|
    ensures Covers(Inserted(l, j, b), x) <==> Covers(l, x) || b.Has(x)
  {
    var m := Inserted(l, j, b);
    assert m[j + 1] == b;
    assert forall i :: 0 <= i <= j ==> m[i] == l[i];
    assert forall i :: j < i < |l| ==> m[i + 1] == l[i];
    assert forall i :: j + 1 < i < |m| ==> m[i] == l[i - 1];
  }

  /** Block `k` grown over block `k + 1`. */
  function Joined(l: seq<Blk>, k: nat): seq<Blk>
    requires k + 1 < |l|
  {
    l[..k] + [Blk(l[k].a, l[k].n + l[k + 1].n)] + l[k + 2..]
  }

  lemma JoinSorted(base: int, l: seq<Blk>, k: nat)
    requires Sorted(base, l) && 0 < k && k + 1 < |l| && l[k].End() == l[k + 1].a
    ensures Sorted(base, Joined(l, k))
  {
    var m := Joined(l, k);
    assert m[k].End() == l[k + 1].End();
    forall i, j | 0 <= i < j < |m|
      ensures m[i].End() <= m[j].a
    {
      var i', j' := if i <= k then i else i + 1, if j <= k then j else j + 1;
      assert i == k || m[i] == l[i'];
      assert m[j].a == l[j'].a;
    }
  }

  lemma JoinLinked(base: int, l: seq<Blk>, k: nat, ptr: map<int, int>, size: map<int, nat>)
    requires Sorted(base, l) && Linked(ptr, size, l) && 0 < k && k + 1 < |l|
    ensures Node(ptr, size, l, k) && Node(ptr, size, l, k + 1)
    ensures Linked(ptr[l[k].a := ptr[l[k + 1].a]], size[l[k].a := size[l[k].a] + size[l[k + 1].a]], Joined(l, k))
  {
    hide Sorted, Node;
    Distinct(base, l);
    assert Node(ptr, size, l, k) && Node(ptr, size, l, k + 1);
    NodeFacts(ptr, size, l, k);
    NodeFacts(ptr, size, l, k + 1);
    var m, p, z := Joined(l, k), ptr[l[k].a := ptr[l[k + 1].a]], size[l[k].a := size[l[k].a] + size[l[k + 1].a]];
    forall i | 0 <= i < |m|
      ensures Node(p, z, m, i)
    {
      assert Node(ptr, size, l, if i <= k then i else i + 1);
      JoinNode(l, k, ptr, size, i);
    }
  }

  lemma JoinNode(l: seq<Blk>, k: nat, ptr: map<int, int>, size: map<int, nat>, i: nat)
    requires 0 < k && k + 1 < |l| && i + 1 < |l| && Node(ptr, size, l, k) && Node(ptr, size, l, k + 1)
    requires Node(ptr, size, l, if i <= k then i else i + 1)
    requires forall i, j :: 0 <= i < |l| && 0 <= j < |l| && i != j ==> l[i].a != l[j].a
    ensures Node(ptr[l[k].a := ptr[l[k + 1].a]], size[l[k].a := size[l[k].a] + size[l[k + 1].a]], Joined(l, k), i)
  {
    var m := Joined(l, k);
    assert m[0] == l[0];
    if i < k {
      assert m[i] == l[i] && m[i + 1].a == l[i + 1].a;
    } else {
      assert i > k ==> m[i] == l[i + 1];
      assert i + 1 < |m| ==> m[i + 1] == l[i + 2];
    }
  }

  lemma JoinCovers(l: seq<Blk>, k: nat, x: int)
    requires k + 1 < |l| && l[k].End() == l[k + 1].a
    ensures Covers(Joined(l, k), x) <==> Covers(l, x)
  {
    var m := Joined(l, k);
    assert m[k].Has(x) <==> l[k].Has(x) || l[k + 1].Has(x);
    assert forall i :: 0 <= i < k ==> m[i] == l[i];
    assert forall i :: k + 1 < i < |l| ==> m[i - 1] == l[i];
    assert forall i :: k < i < |m| ==> m[i] == l[i + 1];
  }

  // ---------- free ----------

  function JoinedIf(l: seq<Blk>, k: nat): (r: seq<Blk>)
    requires k < |l|
    ensures |r| > k && r[k].a == l[k].a && r[..k] == l[..k]
  {
    if k + 1 < |l| && l[k].End() == l[k + 1].a then Joined(l, k) else l
  }

  /** The list once `b` has been freed after block `j`: joined with its upper neighbour, then its lower one. */
  function Released(l: seq<Blk>, j: nat, b: Blk): seq<Blk>
    requires j < |l|
  {
    JoinedIf(JoinedIf(Inserted(l, j, b), j + 1), j)
  }

  /** Free keeps the list ascending and fully coalesced, and adds exactly the block's bytes. */
  lemma ReleaseKeeps(base: int, l: seq<Blk>, j: nat, b: Blk)
    requires Sorted(base, l) && Coalesced(l) && Place(l, j, b) && b.n > 0 && base < b.a
    ensures Sorted(base, Released(l, j, b)) && Coalesced(Released(l, j, b))
    ensures forall x :: Covers(Released(l, j, b), x) <==> Covers(l, x) || b.Has(x)
  {
    hide Covers, Sorted, Coalesced, CoalescedBut, JoinedIf;
    var m := Inserted(l, j, b);
    InsertSorted(base, l, j, b);
    forall x
      ensures Covers(m, x) <==> Covers(l, x) || b.Has(x)
    {
      InsertCovers(l, j, b, x);
    }
    CoalescedAround(l, j, b);
    JoinUp(base, m, j + 1, j + 1);
    var r := JoinedIf(m, j + 1);
    CoalescedSwap(r, j + 1);
    JoinUp(base, r, j, 0);
    CoalescedAll(JoinedIf(r, j));
  }

  /** All gaps are open except, maybe, those before blocks `i` and `k`. */
  ghost predicate CoalescedBut(l: seq<Blk>, i: int, k: int) {
    forall t :: 0 < t < |l| && t != i && t != k ==> l[t - 1].End() != l[t].a
  }

  lemma CoalescedAround(l: seq<Blk>, j: nat, b: Blk)
    requires Coalesced(l) && j < |l|
    ensures CoalescedBut(Inserted(l, j, b), j + 1, j + 2)
  {
    var m := Inserted(l, j, b);
    forall t | 0 < t < |m| && t != j + 1 && t != j + 2
      ensures m[t - 1].End() != m[t].a
    {
      if t <= j {
        assert m[t] == l[t] && m[t - 1] == l[t - 1];
      } else {
        assert m[t] == l[t - 1] && m[t - 1] == l[t - 2];
      }
    }
  }

  lemma CoalescedSwap(l: seq<Blk>, k: int)
    requires CoalescedBut(l, k, k)
    ensures CoalescedBut(l, 0, k)
  {
  }

  lemma CoalescedAll(l: seq<Blk>)
    requires CoalescedBut(l, 0, 0)
    ensures Coalesced(l)
  {
  }

  /** Joining closes the gap before block `k + 1` and no other. */
  lemma JoinUp(base: int, l: seq<Blk>, k: nat, i: nat)
    requires Sorted(base, l) && k < |l| && i <= k && CoalescedBut(l, i, k + 1)
    ensures Sorted(base, JoinedIf(l, k)) && CoalescedBut(JoinedIf(l, k), i, i)
    ensures forall x :: Covers(JoinedIf(l, k), x) <==> Covers(l, x)
  {
    hide Covers;
    if k + 1 < |l| && l[k].End() == l[k + 1].a {
      assert k != 0;
      JoinSorted(base, l, k);
      forall x
        ensures Covers(Joined(l, k), x) <==> Covers(l, x)
      {
        JoinCovers(l, k, x);
      }
      JoinGaps(l, k, i);
    }
  }

  lemma JoinGaps(l: seq<Blk>, k: nat, i: int)
    requires 0 < k && k + 1 < |l| && l[k].End() == l[k + 1].a && CoalescedBut(l, i, k + 1) && i <= k
    ensures CoalescedBut(Joined(l, k), i, i)
  {
    var m := Joined(l, k);
    forall t | 0 < t < |m| && t != i
      ensures m[t - 1].End() != m[t].a
    {
      if t <= k {
        assert m[t].a == l[t].a && m[t - 1] == l[t - 1];
      } else {
        assert m[t] == l[t + 1] && m[t - 1].End() == l[t].End();
      }
    }
  }

  // ---------- the list is determined by the bytes it covers ----------

  lemma StartsEarlier(base: int, l: seq<Blk>, m: seq<Blk>, k: nat)
    requires Sorted(base, l) && Sorted(base, m) && 0 < k < |l| && k <= |m| && l[..k] == m[..k]
    requires forall x :: Covers(l, x) ==> Covers(m, x)
    ensures k < |m| && m[k].a <= l[k].a
  {
    assert forall t :: 0 <= t < k ==> m[t] == m[..k][t] == l[t];
    assert l[k].Has(l[k].a);
    assert Covers(m, l[k].a);
    var i :| 0 <= i < |m| && m[i].Has(l[k].a);
    assert i >= k;
  }

  lemma EndsLater(base: int, l: seq<Blk>, m: seq<Blk>, k: nat)
    requires Sorted(base, l) && Coalesced(l) && Sorted(base, m) && 0 < k < |l| && k < |m| && l[k].a == m[k].a
    requires forall x :: Covers(m, x) ==> Covers(l, x)
    ensures m[k].End() <= l[k].End()
  {
    var x := l[k].End();
    forall i | k < i < |l|
      ensures x < l[i].a
    {
      assert l[k].End() != l[k + 1].a;
      assert l[k + 1].a <= l[i].a;
    }
    assert !Covers(l, x);
    assert !Covers(m, x);
    assert !m[k].Has(x);
  }

  /** Two coalesced lists over the same bytes are the same list: what malloc and free leave behind depends only on
      which bytes are free, not on the order of the calls. */
  lemma {:induction false} CanonicalList(base: int, l: seq<Blk>, m: seq<Blk>)
    requires Sorted(base, l) && Coalesced(l) && Sorted(base, m) && Coalesced(m)
    requires forall x :: Covers(l, x) <==> Covers(m, x)
    ensures l == m
  {
    var k := 1;
    assert l[..1] == [l[0]] && m[..1] == [m[0]];
    while k < |l|
      invariant 1 <= k <= |l| && k <= |m| && l[..k] == m[..k]
    {
      StartsEarlier(base, l, m, k);
      StartsEarlier(base, m, l, k);
      EndsLater(base, l, m, k);
      EndsLater(base, m, l, k);
      assert l[k] == m[k];
      assert l[..k + 1] == l[..k] + [l[k]] && m[..k + 1] == m[..k] + [m[k]];
      k := k + 1;
    }
    if |l| < |m| {
      StartsEarlier(base, m, l, k);
    }
    assert l == l[..k] && m == m[..k];
  }

  // ---------- malloc ----------

  /** The tail of block `k` that malloc hands out, all of it if it fits exactly. */
  function Tail(l: seq<Blk>, k: nat, n: nat): Blk
    requires k < |l| && n <= l[k].n
  {
    Blk(l[k].a + HDR * (l[k].n - n), n)
  }

  /** The list once the tail of block `k` is gone. */
  function Carved(l: seq<Blk>, k: nat, n: nat): seq<Blk>
    requires k < |l| && n <= l[k].n
  {
    if l[k].n == n then l[..k] + l[k + 1..] else l[k := Blk(l[k].a, l[k].n - n)]
  }

  lemma CarveSorted(base: int, l: seq<Blk>, k: nat, n: nat)
    requires Sorted(base, l) && Coalesced(l) && 0 < k < |l| && 0 < n <= l[k].n
    ensures Sorted(base, Carved(l, k, n)) && Coalesced(Carved(l, k, n))
  {
    var m := Carved(l, k, n);
    if l[k].n == n {
      forall i | 0 < i < |m|
        ensures m[i - 1].End() != m[i].a
      {
        if i == k {
          assert m[i] == l[k + 1] && m[i - 1] == l[k - 1];
          assert l[k - 1].End() <= l[k].a;
        } else if i < k {
          assert m[i] == l[i] && m[i - 1] == l[i - 1];
        } else {
          assert m[i] == l[i + 1] && m[i - 1] == l[i];
        }
      }
    } else {
      forall i | 0 < i < |m|
        ensures m[i - 1].End() != m[i].a
      {
        assert l[i - 1].End() <= l[i].a && l[i - 1].End() != l[i].a;
      }
    }
  }

  /** What is carved off was free and is free no more; nothing else changes. */
  lemma CarveCovers(base: int, l: seq<Blk>, k: nat, n: nat, x: int)
    requires Sorted(base, l) && 0 < k < |l| && 0 < n <= l[k].n
    ensures Covers(l, x) <==> Covers(Carved(l, k, n), x) || Tail(l, k, n).Has(x)
    ensures !(Covers(Carved(l, k, n), x) && Tail(l, k, n).Has(x))
  {
    var m, b := Carved(l, k, n), Tail(l, k, n);
    assert l[k].End() == b.End() && l[k].a <= b.a;
    forall i | 0 <= i < |l| && i != k
      ensures !(l[i].Has(x) && l[k].Has(x))
    {
      Before(base, l, if i < k then i else k, if i < k then k else i);
    }
    if l[k].n == n {
      assert forall i :: 0 <= i < k ==> m[i] == l[i];
      assert forall i :: k < i < |l| ==> m[i - 1] == l[i];
      assert forall i :: k <= i < |m| ==> m[i] == l[i + 1];
    } else {
      assert forall i :: 0 <= i < |l| && i != k ==> m[i] == l[i];
      assert m[k].Has(x) || b.Has(x) <==> l[k].Has(x);
    }
  }

  /** Unlinking block `k` by its predecessor. */
  lemma UnlinkLinked(base: int, l: seq<Blk>, k: nat, ptr: map<int, int>, size: map<int, nat>)
    requires Sorted(base, l) && Linked(ptr, size, l) && 0 < k < |l|
    ensures Node(ptr, size, l, k) && Linked(ptr[l[k - 1].a := ptr[l[k].a]], size, l[..k] + l[k + 1..])
  {
    hide Sorted, Node;
    Distinct(base, l);
    var m := l[..k] + l[k + 1..];
    assert Node(ptr, size, l, k) && Node(ptr, size, l, k - 1);
    NodeFacts(ptr, size, l, k);
    var p := ptr[l[k - 1].a := ptr[l[k].a]];
    forall i | 0 <= i < |m|
      ensures Node(p, size, m, i)
    {
      assert Node(ptr, size, l, if i < k then i else i + 1);
      UnlinkNode(l, k, ptr, size, i);
    }
  }

  lemma UnlinkNode(l: seq<Blk>, k: nat, ptr: map<int, int>, size: map<int, nat>, i: nat)
    requires 0 < k < |l| && i + 1 < |l| && Node(ptr, size, l, k) && Node(ptr, size, l, if i < k then i else i + 1)
    requires forall i, j :: 0 <= i < |l| && 0 <= j < |l| && i != j ==> l[i].a != l[j].a
    ensures Node(ptr[l[k - 1].a := ptr[l[k].a]], size, l[..k] + l[k + 1..], i)
  {
    var m := l[..k] + l[k + 1..];
    assert m[0] == l[0];
    if i < k {
      assert m[i] == l[i];
      assert i + 1 < k ==> m[i + 1] == l[i + 1];
      assert i + 1 == k < |m| ==> m[k] == l[k + 1];
    } else {
      assert m[i] == l[i + 1];
      assert i + 1 < |m| ==> m[i + 1] == l[i + 2];
    }
  }

  /** Shrinking block `k` in place and writing the tail's own header. */
  lemma ShrinkLinked(base: int, l: seq<Blk>, k: nat, n: nat, ptr: map<int, int>, size: map<int, nat>)
    requires Sorted(base, l) && Linked(ptr, size, l) && 0 < k < |l| && 0 < n < l[k].n
    ensures Linked(ptr, size[l[k].a := l[k].n - n][Tail(l, k, n).a := n], Carved(l, k, n))
  {
    hide Sorted;
    Distinct(base, l);
    var m, b := Carved(l, k, n), Tail(l, k, n);
    var z := size[l[k].a := l[k].n - n][b.a := n];
    forall i | 0 <= i < |m|
      ensures Node(ptr, z, m, i)
    {
      assert Node(ptr, size, l, i);
      TailApart(base, l, k, n, i);
      assert m[Next(i, |m|)].a == l[Next(i, |l|)].a;
    }
  }

  lemma TailApart(base: int, l: seq<Blk>, k: nat, n: nat, i: nat)
    requires Sorted(base, l) && 0 < k < |l| && 0 < n < l[k].n && i < |l|
    ensures Tail(l, k, n).a != l[i].a
  {
    if i != k {
      Before(base, l, if i < k then i else k, if i < k then k else i);
    }
  }

  /** Freeing a block right after malloc carved it restores the very same list. */
  lemma FreeUndoesMalloc(base: int, l: seq<Blk>, k: nat, n: nat, j: nat)
    requires Sorted(base, l) && Coalesced(l) && 0 < k < |l| && 0 < n <= l[k].n
    requires Place(Carved(l, k, n), j, Tail(l, k, n))
    ensures Released(Carved(l, k, n), j, Tail(l, k, n)) == l
  {
    hide Covers, Carved, Released, Coalesced;
    CarveSorted(base, l, k, n);
    assert base < l[k].a;
    ReleaseKeeps(base, Carved(l, k, n), j, Tail(l, k, n));
    forall x
      ensures Covers(Released(Carved(l, k, n), j, Tail(l, k, n)), x) <==> Covers(l, x)
    {
      CarveCovers(base, l, k, n, x);
    }
    CanonicalList(base, Released(Carved(l, k, n), j, Tail(l, k, n)), l);
  }

  // ---------- blocks in use ----------

  predicate Apart(c: Blk, d: Blk) { c.End() <= d.a || d.End() <= c.a }

  /** `c` overlaps no block of the list. */
  ghost predicate Away(c: Blk, l: seq<Blk>) {
    forall i :: 0 <= i < |l| ==> Apart(c, l[i])
  }

  lemma AwayReleased(c: Blk, l: seq<Blk>, j: nat, b: Blk)
    requires c.n > 0 && Away(c, l) && Apart(c, b) && j < |l|
    ensures Away(c, Released(l, j, b))
  {
    hide Apart;
    assert Away(c, Inserted(l, j, b));
    AwayJoined(c, Inserted(l, j, b), j + 1);
    AwayJoined(c, JoinedIf(Inserted(l, j, b), j + 1), j);
  }

  lemma AwayJoined(c: Blk, l: seq<Blk>, k: nat)
    requires c.n > 0 && Away(c, l) && k < |l|
    ensures Away(c, JoinedIf(l, k))
  {
    var m := JoinedIf(l, k);
    if k + 1 < |l| && l[k].End() == l[k + 1].a {
      assert Apart(c, l[k]) && Apart(c, l[k + 1]);
      assert forall i :: 0 <= i < |m| && i != k ==> m[i] == l[if i < k then i else i + 1];
    }
  }

  lemma AwayCarved(base: int, c: Blk, l: seq<Blk>, k: nat, n: nat)
    requires Sorted(base, l) && 0 < k < |l| && 0 < n <= l[k].n && Away(c, l)
    ensures Away(c, Carved(l, k, n)) && Apart(c, Tail(l, k, n))
  {
    var m := Carved(l, k, n);
    assert Apart(c, l[k]);
    forall i | 0 <= i < |m|
      ensures Apart(c, m[i])
    {
      var i' := if l[k].n == n && i >= k then i + 1 else i;
      assert m[i].a == l[i'].a && m[i].End() <= l[i'].End();
      assert Apart(c, l[i']);
    }
  }

  lemma TailAway(base: int, l: seq<Blk>, k: nat, n: nat)
    requires Sorted(base, l) && 0 < k < |l| && 0 < n <= l[k].n
    ensures Away(Tail(l, k, n), Carved(l, k, n))
  {
    var m := Carved(l, k, n);
    forall i | 0 <= i < |m|
      ensures Apart(Tail(l, k, n), m[i])
    {
      var i' := if l[k].n == n && i >= k then i + 1 else i;
      if i' != k {
        assert m[i] == l[i'];
        Before(base, l, if i' < k then i' else k, if i' < k then k else i');
      }
    }
  }

  /** Non-empty blocks without a byte in common do not overlap. */
  lemma NoCommonByte(c: Blk, d: Blk)
    requires c.n > 0 && d.n > 0 && forall x :: !(c.Has(x) && d.Has(x))
    ensures Apart(c, d)
  {
    assert !(c.Has(d.a) && d.Has(d.a));
    assert !(c.Has(c.a) && d.Has(c.a));
  }

  ghost predicate InLive(live: map<int, nat>, x: int) {
    exists a :: a in live && Blk(a, live[a]).Has(x)
  }

  // ---------- sizes ----------

  /** Units for a request: enough for the bytes, plus the header. */
  function Units(nbytes: nat): nat { (nbytes + HDR - 1) / HDR + 1 }

  /** The smallest block whose body holds `nbytes`. */
  lemma UnitsExact(nbytes: nat)
    ensures HDR * (Units(nbytes) - 1) >= nbytes
    ensures forall n: nat :: HDR * n >= nbytes ==> n >= Units(nbytes) - 1
  {
  }

  /** The count passed to sbrk: `nu * sizeof(Header)` cut down to a signed 32-bit int. */
  function Request(nu: nat): int {
    var w := HDR * nu % 0x1_0000_0000;
    if w < 0x8000_0000 then w else w - 0x1_0000_0000
  }

  /** sbrk is asked for all the units that are then freed into the list exactly below 2^27 units. */
  lemma RequestExact(nu: nat)
    requires nu <= 0x1000_0001
    ensures Request(nu) == HDR * nu <==> nu < 0x800_0000
  {
  }

  /** The largest request: 4294967295 bytes are 2^28 + 1 units, and sbrk is asked for 16 bytes. */
  lemma LargestRequest()
    ensures Units(0xFFFF_FFFF) == 0x1000_0001 && Request(Units(0xFFFF_FFFF)) == 16
  {
  }
}
