/** The buffer cache (bio.c) over the in-memory disk (memide.c). */
module Bio {
  import opened Words
  import opened Sets

  const NBUF := 10
  const ROOTDEV := 1
  const NODEV := 0xFFFF_FFFF // binit stores -1

  /** `struct buf` without its links; the three flags are B_BUSY, B_VALID and B_DIRTY. */
  datatype Buf = Buf(busy: bool, valid: bool, dirty: bool, dev: int, sector: int, data: Block) {
    predicate Is(d: int, s: int) { dev == d && sector == s }

    predicate Recyclable() { !busy && !dirty }

    /** The buffer is in a state the cache can be in between two calls. */
    predicate Coherent(disk: Disk) {
      && (dev == NODEV || (dev == ROOTDEV && 0 <= sector < |disk|))
      && (dev == NODEV ==> !busy && !valid)
      && (dirty ==> valid)
      && (!busy ==> valid || dev == NODEV)
      && (!busy && valid && !dirty ==> data == disk[sector])
    }
  }

  // ---------- the MRU list ----------

  function After(k: nat, n: nat): (r: nat)
    requires k < n
    ensures r < n
  {
    if k + 1 == n then 0 else k + 1
  }

  /** `ring` lists indices below `n`, none twice. */
  predicate IsRing(ring: seq<int>, n: nat) {
    && |ring| > 0
    && (forall k :: 0 <= k < |ring| ==> 0 <= ring[k] < n)
    && (forall j, k :: 0 <= j < |ring| && 0 <= k < |ring| && j != k ==> ring[j] != ring[k])
  }

  predicate Link(next: seq<int>, prev: seq<int>, a: int, b: int)
    requires 0 <= a < |next| && 0 <= b < |prev|
  {
    next[a] == b && prev[b] == a
  }

  /** `next` and `prev` are the links of the circular list `ring`, read in order from its head. */
  predicate Linked(next: seq<int>, prev: seq<int>, ring: seq<int>) {
    && |next| == |prev| && IsRing(ring, |next|)
    && forall k :: 0 <= k < |ring| ==> Link(next, prev, ring[k], ring[After(k, |ring|)])
  }

  /** Position `p` of the ring moved to just behind the head. */
  function MovedToFront(ring: seq<int>, p: nat): (r: seq<int>)
    requires 0 < p < |ring|
  {
    [ring[0], ring[p]] + ring[1..p] + ring[p + 1..]
  }

  lemma MovedToFrontIsPermutation(ring: seq<int>, p: nat)
    requires 0 < p < |ring|
    ensures multiset(MovedToFront(ring, p)) == multiset(ring)
  {
    assert ring == [ring[0]] + ring[1..p] + [ring[p]] + ring[p + 1..];
  }

  /** The six assignments of brelse. */
  function Relinked(next: seq<int>, prev: seq<int>, head: int, b: int): (r: (seq<int>, seq<int>))
    requires |next| == |prev|
    requires 0 <= head < |next| && 0 <= b < |next|
    requires 0 <= next[b] < |next| && 0 <= prev[b] < |next|
    requires 0 <= next[head] < |next|
  {
    var prev1 := prev[next[b] := prev[b]];
    var next1 := next[prev[b] := next[b]];
    var next2 := next1[b := next1[head]];
    var prev2 := prev1[b := head];
    (next2[head := b], prev2[next2[head] := b])
  }

  lemma MovedToFrontIsRing(ring: seq<int>, n: nat, p: nat)
    requires IsRing(ring, n) && 0 < p < |ring|
    ensures IsRing(MovedToFront(ring, p), n)
  {
    var r := MovedToFront(ring, p);
    forall j, k | 0 <= j < |r| && 0 <= k < |r| && j != k
      ensures r[j] != r[k]
    {
      assert r[j] == ring[Origin(p, j)] && r[k] == ring[Origin(p, k)];
      assert Origin(p, j) != Origin(p, k);
    }
  }

  /** Where position `k` of the moved ring comes from. */
  function Origin(p: nat, k: nat): nat
  {
    if k == 0 then 0 else if k == 1 then p else if k <= p then k - 1 else k
  }

  /** The links after the relinking of a buffer that is not already in front. */
  lemma RelinkedLinks(next: seq<int>, prev: seq<int>, head: int, before: int, b: int, behind: int, first: int)
    requires |next| == |prev|
    requires 0 <= head < |next| && 0 <= before < |next| && 0 <= b < |next| && 0 <= behind < |next| && 0 <= first < |next|
    requires Link(next, prev, before, b) && Link(next, prev, b, behind) && Link(next, prev, head, first)
    requires head != b && head != before && first != b && first != behind && before != b && behind != b
    ensures var (n, q) := Relinked(next, prev, head, b);
            && |n| == |q| == |next|
            && Link(n, q, head, b) && Link(n, q, b, first) && Link(n, q, before, behind)
            && (forall x :: 0 <= x < |n| && x != head && x != before && x != b ==> n[x] == next[x])
            && (forall x :: 0 <= x < |n| && x != first && x != behind && x != b ==> q[x] == prev[x])
  {
  }

  lemma RelinkAt(next: seq<int>, prev: seq<int>, ring: seq<int>, p: nat, n: seq<int>, q: seq<int>, k: nat)
    requires Linked(next, prev, ring) && 1 < p < |ring| && k < |ring|
    requires |n| == |q| == |next|
    requires Link(n, q, ring[0], ring[p]) && Link(n, q, ring[p], ring[1]) && Link(n, q, ring[p - 1], ring[After(p, |ring|)])
    requires forall x :: 0 <= x < |n| && x != ring[0] && x != ring[p - 1] && x != ring[p] ==> n[x] == next[x]
    requires forall x :: 0 <= x < |n| && x != ring[1] && x != ring[After(p, |ring|)] && x != ring[p] ==> q[x] == prev[x]
    ensures var r := MovedToFront(ring, p);
            IsRing(r, |next|) && Link(n, q, r[k], r[After(k, |ring|)])
  {
    MovedToFrontIsRing(ring, |next|, p);
    var r := MovedToFront(ring, p);
    var i, j := Origin(p, k), Origin(p, After(k, |ring|));
    assert r[k] == ring[i] && r[After(k, |ring|)] == ring[j];
    if k >= 2 && k != p {
      assert j == After(i, |ring|);
      assert Link(next, prev, ring[i], ring[j]);
    }
  }

  lemma RelinkMovesToFront(next: seq<int>, prev: seq<int>, ring: seq<int>, p: nat)
    requires Linked(next, prev, ring) && 0 < p < |ring|
    ensures Link(next, prev, ring[p], ring[After(p, |ring|)])
    ensures Link(next, prev, ring[p - 1], ring[p])
    ensures Link(next, prev, ring[0], ring[1])
    ensures var (n, q) := Relinked(next, prev, ring[0], ring[p]);
            Linked(n, q, MovedToFront(ring, p))
  {
    assert Link(next, prev, ring[p], ring[After(p, |ring|)]);
    assert Link(next, prev, ring[p - 1], ring[After(p - 1, |ring|)]);
    assert Link(next, prev, ring[0], ring[After(0, |ring|)]);
    var (n, q) := Relinked(next, prev, ring[0], ring[p]);
    var r := MovedToFront(ring, p);
    if p == 1 {
      assert r == ring;
      assert n == next && q == prev;
    } else {
      RelinkedLinks(next, prev, ring[0], ring[p - 1], ring[p], ring[After(p, |ring|)], ring[1]);
      MovedToFrontIsRing(ring, |next|, p);
      forall k | 0 <= k < |r|
        ensures Link(n, q, r[k], r[After(k, |r|)])
      {
        RelinkAt(next, prev, ring, p, n, q, k);
      }
    }
  }

  /** The four assignments of binit put a new buffer in front. */
  lemma InsertedInFront(next: seq<int>, prev: seq<int>, ring: seq<int>, b: int)
    requires Linked(next, prev, ring) && 0 <= b < |next| && b !in ring
    ensures 0 <= next[ring[0]] < |next|
    ensures var head := ring[0];
            var n, q := next[b := next[head]], prev[b := head];
            Linked(n[head := b], q[next[head] := b], [head, b] + ring[1..])
  {
    var head := ring[0];
    assert Link(next, prev, ring[0], ring[After(0, |ring|)]);
    var n, q := next[b := next[head]][head := b], prev[b := head][next[head] := b];
    var r := [head, b] + ring[1..];
    assert forall k :: 2 <= k < |r| ==> r[k] == ring[k - 1];
    forall k | 0 <= k < |r|
      ensures Link(n, q, r[k], r[After(k, |r|)])
    {
      if k >= 2 {
        assert Link(next, prev, ring[k - 1], ring[After(k - 1, |ring|)]);
      }
    }
  }

  function Below(n: nat): (r: set<int>)
    ensures |r| == n
    ensures forall x :: x in r <==> 0 <= x < n
  {
    if n == 0 then {} else Below(n - 1) + {n - 1}
  }

  lemma {:induction false} DistinctSize(ring: seq<int>, n: nat, k: nat)
    requires IsRing(ring, n) && k <= |ring|
    ensures |Members(ring[..k])| == k
  {
    if k > 0 {
      DistinctSize(ring, n, k - 1);
      assert ring[..k][..k - 1] == ring[..k - 1];
      assert ring[k - 1] !in ring[..k - 1];
    }
  }

  lemma SubsetOfSameSize(a: set<int>, b: set<int>)
    requires a <= b && |a| == |b|
    ensures a == b
  {
    assert b == a + (b - a);
    assert |b - a| == 0;
  }

  /** A full-length list misses no index. */
  lemma RingCoversAll(ring: seq<int>, i: int)
    requires IsRing(ring, |ring|) && 0 <= i < |ring|
    ensures i in ring
  {
    DistinctSize(ring, |ring|, |ring|);
    assert ring[..|ring|] == ring;
    SubsetOfSameSize(Members(ring), Below(|ring|));
    assert i in Members(ring);
  }

  /** The head, then every buffer. */
  predicate FullRing(ring: seq<int>) {
    && IsRing(ring, NBUF + 1) && |ring| == NBUF + 1 && ring[0] == NBUF
    && forall k :: 0 < k <= NBUF ==> 0 <= ring[k] < NBUF
  }

  lemma FullRingMoves(next: seq<int>, prev: seq<int>, ring: seq<int>, p: nat)
    requires FullRing(ring) && |next| == NBUF + 1 && Linked(next, prev, ring)
    requires 0 < p < |ring|
    ensures var b := ring[p];
            && 0 <= next[b] < |next| && 0 <= prev[b] < |next| && 0 <= next[NBUF] < |next|
            && next[b] != b && prev[b] != b
    ensures var (n, q) := Relinked(next, prev, NBUF, ring[p]);
            var r := MovedToFront(ring, p);
            && |n| == NBUF + 1 && Linked(n, q, r) && FullRing(r) && r[1] == ring[p]
            && multiset(r) == multiset(ring)
  {
    RelinkMovesToFront(next, prev, ring, p);
    MovedToFrontIsPermutation(ring, p);
    var r := MovedToFront(ring, p);
    forall k | 0 < k <= NBUF
      ensures 0 <= r[k] < NBUF
    {
      assert r[k] == ring[Origin(p, k)] && 0 < Origin(p, k) <= NBUF;
    }
  }

  // ---------- the list and the releases ----------

  /** The last time `b` was released, or -1. */
  function Last(released: seq<int>, b: int): (k: int)
    ensures -1 <= k < |released| && (k >= 0 ==> released[k] == b)
    ensures forall j :: k < j < |released| ==> released[j] != b
  {
    if released == [] then -1
    else if released[|released| - 1] == b then |released| - 1
    else Last(released[..|released| - 1], b)
  }

  /** The buffers stand in the order of their last release, the latest first. */
  ghost predicate ByRelease(ring: seq<int>, released: seq<int>) {
    forall j, k :: 0 < j < k < |ring| ==> Last(released, ring[j]) > Last(released, ring[k])
  }

  lemma NoReleases(ring: seq<int>)
    requires |ring| == 1
    ensures ByRelease(ring, [])
  {
  }

  lemma LastMore(released: seq<int>, x: int, b: int)
    ensures Last(released + [x], b) == if x == b then |released| else Last(released, b)
  {
    assert (released + [x])[..|released|] == released;
  }

  /** Moving the released buffer to the front keeps the list in the order of release. */
  lemma MovedByRelease(ring: seq<int>, n: nat, p: nat, released: seq<int>)
    requires IsRing(ring, n) && 0 < p < |ring| && ByRelease(ring, released)
    ensures ByRelease(MovedToFront(ring, p), released + [ring[p]])
  {
    hide Last;
    var r, after := MovedToFront(ring, p), released + [ring[p]];
    forall j, k | 0 < j < k < |r|
      ensures Last(after, r[j]) > Last(after, r[k])
    {
      assert r[j] == ring[Origin(p, j)] && r[k] == ring[Origin(p, k)];
      assert Origin(p, k) != p;
      LastMore(released, ring[p], r[j]);
      LastMore(released, ring[p], r[k]);
    }
  }

  lemma InsertedByRelease(ring: seq<int>, n: nat, b: int, released: seq<int>)
    requires IsRing(ring, n) && b !in ring && ByRelease(ring, released)
    ensures ByRelease([ring[0], b] + ring[1..], released + [b])
  {
    hide Last;
    var r, after := [ring[0], b] + ring[1..], released + [b];
    forall j, k | 0 < j < k < |r|
      ensures Last(after, r[j]) > Last(after, r[k])
    {
      assert r[k] == ring[k - 1] && (j > 1 ==> r[j] == ring[j - 1]);
      LastMore(released, b, r[j]);
      LastMore(released, b, r[k]);
    }
  }

  /** The last buffer of the list that can be recycled is the one whose last release is the oldest. */
  lemma OldestBehind(ring: seq<int>, bufs: seq<Buf>, k: nat, released: seq<int>)
    requires |bufs| == NBUF && FullRing(ring) && ByRelease(ring, released) && 0 < k <= NBUF && NoneBehind(ring, bufs, k)
    ensures forall i :: 0 <= i < NBUF && bufs[i].Recyclable() && i != ring[k] ==> Last(released, ring[k]) < Last(released, i)
  {
    hide Last;
    forall i | 0 <= i < NBUF && bufs[i].Recyclable() && i != ring[k]
      ensures Last(released, ring[k]) < Last(released, i)
    {
      RingCoversAll(ring, i);
      var j :| 0 <= j < |ring| && ring[j] == i;
      assert 0 < j < k;
    }
  }

  // ---------- what the cache holds ----------

  /** At most one buffer per real (dev, sector). */
  predicate Unique(bufs: seq<Buf>) {
    forall i, j :: 0 <= i < |bufs| && 0 <= j < |bufs| && i != j && bufs[i].dev == bufs[j].dev && bufs[i].sector == bufs[j].sector
      ==> bufs[i].dev == NODEV
  }

  predicate AllCoherent(bufs: seq<Buf>, disk: Disk) {
    forall i :: 0 <= i < |bufs| ==> bufs[i].Coherent(disk)
  }

  function Find(bufs: seq<Buf>, s: int): (i: nat)
    ensures i <= |bufs|
    ensures i < |bufs| ==> bufs[i].Is(ROOTDEV, s)
    ensures i == |bufs| ==> forall j :: 0 <= j < |bufs| ==> !bufs[j].Is(ROOTDEV, s)
  {
    if bufs == [] then 0 else if bufs[0].Is(ROOTDEV, s) then 0 else 1 + Find(bufs[1..], s)
  }

  predicate Cached(bufs: seq<Buf>, s: int) {
    exists i :: 0 <= i < |bufs| && bufs[i].Is(ROOTDEV, s)
  }

  /** Sectors some process holds. */
  function Busy(bufs: seq<Buf>): set<int> {
    set i | 0 <= i < |bufs| && bufs[i].busy :: bufs[i].sector
  }

  /** Sectors pinned in the cache because the log holds a newer copy than their home. */
  function Dirty(bufs: seq<Buf>): set<int> {
    set i | 0 <= i < |bufs| && bufs[i].dirty :: bufs[i].sector
  }

  /** The block a reader of sector `s` sees: the cached copy, else the disk's. */
  function Contents(bufs: seq<Buf>, disk: Disk, s: int): Block
    requires 0 <= s < |disk|
  {
    var i := Find(bufs, s);
    if i < |bufs| && bufs[i].valid then bufs[i].data else disk[s]
  }

  lemma FindUnique(bufs: seq<Buf>, i: int)
    requires Unique(bufs) && 0 <= i < |bufs| && bufs[i].dev == ROOTDEV
    ensures Find(bufs, bufs[i].sector) == i
  {
  }

  /** Clean sectors nobody holds read the same from the cache and from the disk. */
  lemma CleanAgrees(bufs: seq<Buf>, disk: Disk, s: int)
    requires AllCoherent(bufs, disk) && 0 <= s < |disk|
    requires s !in Busy(bufs) && s !in Dirty(bufs)
    ensures Contents(bufs, disk, s) == disk[s]
  {
    var i := Find(bufs, s);
    if i < |bufs| {
      assert !bufs[i].busy && !bufs[i].dirty;
    }
  }

  lemma {:induction false} UnavailableSize(bufs: seq<Buf>, k: nat)
    requires Unique(bufs) && k <= |bufs|
    requires forall i :: 0 <= i < |bufs| ==> !bufs[i].Recyclable() && bufs[i].dev == ROOTDEV
    ensures |set i | 0 <= i < k :: bufs[i].sector| == k
  {
    if k > 0 {
      UnavailableSize(bufs, k - 1);
      var s := set i | 0 <= i < k - 1 :: bufs[i].sector;
      assert (set i | 0 <= i < k :: bufs[i].sector) == s + {bufs[k - 1].sector};
      assert bufs[k - 1].sector !in s;
    }
  }

  /** bget runs out only when as many sectors are held or pinned as there are buffers. */
  lemma NoneRecyclable(bufs: seq<Buf>, disk: Disk, s: int)
    requires Unique(bufs) && AllCoherent(bufs, disk) && !Cached(bufs, s)
    requires forall i :: 0 <= i < |bufs| ==> !bufs[i].Recyclable()
    ensures s !in Dirty(bufs) && |Busy(bufs) + Dirty(bufs)| >= |bufs|
  {
    forall i | 0 <= i < |bufs|
      ensures bufs[i].dev == ROOTDEV
    {
      assert bufs[i].Coherent(disk);
    }
    UnavailableSize(bufs, |bufs|);
    assert (set i | 0 <= i < |bufs| :: bufs[i].sector) == Busy(bufs) + Dirty(bufs);
    forall i | 0 <= i < |bufs| && bufs[i].dirty
      ensures bufs[i].sector != s
    {
      assert bufs[i].Coherent(disk) && !bufs[i].Is(ROOTDEV, s);
    }
  }

  /** Sectors of the first `k` buffers that are held or pinned. */
  function Taken(bufs: seq<Buf>, k: nat): set<int>
    requires k <= |bufs|
  {
    if k == 0 then {}
    else Taken(bufs, k - 1) + if bufs[k - 1].Recyclable() then {} else {bufs[k - 1].sector}
  }

  lemma {:induction false} TakenBound(bufs: seq<Buf>, k: nat, j: nat)
    requires k <= |bufs| && j < |bufs|
    requires bufs[j].Recyclable()
    ensures |Taken(bufs, k)| <= if j < k then k - 1 else k
    ensures forall i :: 0 <= i < k && !bufs[i].Recyclable() ==> bufs[i].sector in Taken(bufs, k)
  {
    if k > 0 {
      TakenBound(bufs, k - 1, j);
    }
  }

  /** When as many sectors are held or pinned as there are buffers, bget finds nothing for any other sector. */
  lemma FullMeansNone(bufs: seq<Buf>, s: int)
    requires |Busy(bufs) + Dirty(bufs)| >= |bufs| && s !in Busy(bufs) + Dirty(bufs)
    ensures !Cached(bufs, s)
    ensures forall i :: 0 <= i < |bufs| ==> !bufs[i].Recyclable()
  {
    forall i | 0 <= i < |bufs|
      ensures !bufs[i].Recyclable()
    {
      if bufs[i].Recyclable() {
        TakenBound(bufs, |bufs|, i);
        assert Busy(bufs) + Dirty(bufs) <= Taken(bufs, |bufs|);
        SubsetSize(Busy(bufs) + Dirty(bufs), Taken(bufs, |bufs|));
        assert false;
      }
    }
    forall i | 0 <= i < |bufs|
      ensures !bufs[i].Is(ROOTDEV, s)
    {
      assert bufs[i].sector in Busy(bufs) + Dirty(bufs);
    }
  }

  /** No buffer used less recently than position `k` can be recycled. */
  predicate NoneBehind(ring: seq<int>, bufs: seq<Buf>, k: nat)
    requires |bufs| == NBUF && FullRing(ring)
  {
    forall j :: k < j <= NBUF ==> !bufs[ring[j]].Recyclable()
  }

  /** The buffer at `i` has been handed to a reader of sector `s`, with the block the reader should see. */
  predicate Granted(bufs: seq<Buf>, disk: Disk, i: nat, s: int, after: seq<Buf>)
    requires 0 <= s < |disk|
  {
    && i < |bufs| && !bufs[i].busy
    && (if Cached(bufs, s) then bufs[i].Is(ROOTDEV, s) else bufs[i].Recyclable())
    && after == bufs[i := Buf(true, true, Cached(bufs, s) && bufs[i].dirty, ROOTDEV, s, Contents(bufs, disk, s))]
  }

  /** What bget does to the buffers when it returns `b`. */
  predicate Fetched(bufs: seq<Buf>, s: int, b: nat, after: seq<Buf>) {
    && b < |bufs| && !bufs[b].busy
    && if Cached(bufs, s)
       then bufs[b].Is(ROOTDEV, s) && after == bufs[b := bufs[b].(busy := true)]
       else bufs[b].Recyclable() && after == bufs[b := Buf(true, false, false, ROOTDEV, s, bufs[b].data)]
  }

  /** A fetched buffer, read from disk if it is not valid, is a granted one. */
  lemma FetchedThenRead(bufs: seq<Buf>, disk: Disk, s: int, b: nat, mid: seq<Buf>)
    requires Unique(bufs) && AllCoherent(bufs, disk) && 0 <= s < |disk|
    requires Fetched(bufs, s, b, mid)
    ensures Unique(mid) && AllCoherent(mid, disk)
    ensures mid[b].Is(ROOTDEV, s) && mid[b].busy && (mid[b].dirty ==> mid[b].valid)
    ensures Granted(bufs, disk, b, s, if mid[b].valid then mid else mid[b := mid[b].(data := disk[s], valid := true)])
  {
    assert bufs[b].Coherent(disk);
    if Cached(bufs, s) {
      FindUnique(bufs, b);
    }
  }

  /** Handing out a buffer changes neither what any sector holds nor what is pinned. */
  lemma GrantKeeps(bufs: seq<Buf>, disk: Disk, i: nat, s: int, after: seq<Buf>)
    requires Unique(bufs) && AllCoherent(bufs, disk) && 0 <= s < |disk|
    requires Granted(bufs, disk, i, s, after)
    ensures Unique(after) && AllCoherent(after, disk)
    ensures Busy(after) == Busy(bufs) + {s}
    ensures Dirty(after) == Dirty(bufs)
    ensures forall t :: 0 <= t < |disk| ==> Contents(after, disk, t) == Contents(bufs, disk, t)
  {
    hide Busy, Dirty, Contents;
    GrantCoherent(bufs, disk, i, s, after);
    GrantSets(bufs, disk, i, s, after);
    forall t | 0 <= t < |disk|
      ensures Contents(after, disk, t) == Contents(bufs, disk, t)
    {
      GrantContents(bufs, disk, i, s, after, t);
    }
  }

  lemma GrantCoherent(bufs: seq<Buf>, disk: Disk, i: nat, s: int, after: seq<Buf>)
    requires Unique(bufs) && AllCoherent(bufs, disk) && 0 <= s < |disk|
    requires Granted(bufs, disk, i, s, after)
    ensures Unique(after) && AllCoherent(after, disk)
  {
    hide Contents;
    assert bufs[i].Coherent(disk);
  }

  lemma GrantContents(bufs: seq<Buf>, disk: Disk, i: nat, s: int, after: seq<Buf>, t: int)
    requires Unique(bufs) && AllCoherent(bufs, disk) && 0 <= s < |disk| && 0 <= t < |disk|
    requires Granted(bufs, disk, i, s, after) && Unique(after)
    ensures Contents(after, disk, t) == Contents(bufs, disk, t)
  {
    var j := Find(bufs, t);
    if t == s {
      FindUnique(after, i);
    } else if j < |bufs| {
      FindUnique(bufs, j);
      if j != i {
        FindUnique(after, j);
      } else {
        assert bufs[i].Coherent(disk);
      }
    }
  }

  lemma GrantSets(bufs: seq<Buf>, disk: Disk, i: nat, s: int, after: seq<Buf>)
    requires Unique(bufs) && AllCoherent(bufs, disk) && 0 <= s < |disk|
    requires Granted(bufs, disk, i, s, after)
    ensures Busy(after) == Busy(bufs) + {s}
    ensures Dirty(after) == Dirty(bufs)
  {
    forall x | x in Busy(bufs) + {s}
      ensures x in Busy(after)
    {
      if x != s {
        var j :| 0 <= j < |bufs| && bufs[j].busy && bufs[j].sector == x;
        assert after[j].busy && after[j].sector == x;
      } else {
        assert after[i].busy && after[i].sector == x;
      }
    }
    forall x | x in Dirty(bufs)
      ensures x in Dirty(after)
    {
      var j :| 0 <= j < |bufs| && bufs[j].dirty && bufs[j].sector == x;
      assert after[j].dirty && after[j].sector == x;
    }
  }

  function Toggle(s: set<int>, x: int, on: bool): set<int> {
    if on then s + {x} else s - {x}
  }

  /** A buffer keeps its sector but changes its flags or data, and the disk changes at most that sector. */
  predicate Rewritten(bufs: seq<Buf>, disk: Disk, i: nat, x: Buf, after: Disk) {
    && Unique(bufs) && AllCoherent(bufs, disk)
    && i < |bufs| && bufs[i].Is(ROOTDEV, x.sector) && bufs[i].valid
    && x.dev == ROOTDEV && x.valid
    && |after| == |disk| && (forall t :: 0 <= t < |disk| && t != x.sector ==> after[t] == disk[t])
  }

  lemma RewrittenSets(bufs: seq<Buf>, disk: Disk, i: nat, x: Buf, after: Disk)
    requires Rewritten(bufs, disk, i, x, after)
    ensures Busy(bufs[i := x]) == Toggle(Busy(bufs), x.sector, x.busy)
    ensures Dirty(bufs[i := x]) == Toggle(Dirty(bufs), x.sector, x.dirty)
  {
    var b' := bufs[i := x];
    assert b'[i] == x;
    forall y | y != x.sector
      ensures y in Busy(b') <==> y in Busy(bufs)
      ensures y in Dirty(b') <==> y in Dirty(bufs)
    {
      assert forall j :: 0 <= j < |bufs| && (bufs[j].sector == y || b'[j].sector == y) ==> b'[j] == bufs[j];
    }
    forall j | 0 <= j < |bufs| && j != i && bufs[j].sector == x.sector
      ensures !bufs[j].busy && !bufs[j].dirty
    {
      assert bufs[j].Coherent(disk);
    }
  }

  lemma RewrittenContents(bufs: seq<Buf>, disk: Disk, i: nat, x: Buf, after: Disk)
    requires Rewritten(bufs, disk, i, x, after)
    ensures Unique(bufs[i := x])
    ensures 0 <= x.sector < |disk| && Contents(bufs[i := x], after, x.sector) == x.data
    ensures forall t :: 0 <= t < |disk| && t != x.sector ==> Contents(bufs[i := x], after, t) == Contents(bufs, disk, t)
  {
    assert bufs[i].Coherent(disk);
    var b' := bufs[i := x];
    FindUnique(b', i);
    forall t | 0 <= t < |disk| && t != x.sector
      ensures Contents(b', after, t) == Contents(bufs, disk, t)
    {
      var j := Find(bufs, t);
      if j < |bufs| {
        FindUnique(b', j);
      }
    }
  }

  lemma DirtyIff(bufs: seq<Buf>, disk: Disk, i: nat)
    requires Unique(bufs) && AllCoherent(bufs, disk) && i < |bufs| && bufs[i].dev == ROOTDEV
    ensures bufs[i].sector in Dirty(bufs) <==> bufs[i].dirty
  {
    forall j | 0 <= j < |bufs| && bufs[j].dirty && bufs[j].sector == bufs[i].sector
      ensures j == i
    {
      assert bufs[j].Coherent(disk);
    }
  }

  /** The outcome of one pass of bget: a buffer, one to sleep on, or the panic "bget: no buffers". */
  datatype Lookup = Got(b: nat) | Asleep(b: nat) | NoBuffers

  class Bcache {
    var memdisk: Disk          // memide.c
    var buf: seq<Buf>          // bcache.buf
    var next: seq<int>         // links; index NBUF is bcache.head
    var prev: seq<int>
    ghost var ring: seq<int>   // the list from the head, most recently used first
    ghost var released: seq<int> // the buffers in the order binit listed them, then one entry for each brelse
    ghost var images: seq<Disk> // the disk after each sector write so far

    ghost predicate Valid()
      reads this
    {
      && |buf| == NBUF
      && FullRing(ring) && |next| == NBUF + 1 && Linked(next, prev, ring) && ByRelease(ring, released)
      && Unique(buf) && AllCoherent(buf, memdisk)
    }

    ghost function Held(): set<int> reads this { Busy(buf) }

    ghost function Pinned(): set<int> reads this { Dirty(buf) }

    ghost function View(s: int): Block
      reads this
      requires 0 <= s < |memdisk|
    {
      Contents(buf, memdisk, s)
    }

    /** The caller has the buffer from Bread and has not released it. */
    ghost predicate Owns(b: nat, s: int)
      reads this
    {
      b < NBUF && |buf| == NBUF && buf[b].busy && buf[b].valid && buf[b].Is(ROOTDEV, s)
    }

    /** Clean sectors nobody holds read the same from the cache and from the disk. */
    lemma CleanView(s: int)
      requires Valid() && 0 <= s < |memdisk|
      requires s !in Held() && s !in Pinned()
      ensures View(s) == memdisk[s]
    {
      CleanAgrees(buf, memdisk, s);
    }

    lemma CleanViews()
      requires Valid()
      ensures forall s :: 0 <= s < |memdisk| && s !in Held() && s !in Pinned() ==> View(s) == memdisk[s]
    {
      forall s | 0 <= s < |memdisk| && s !in Held() && s !in Pinned()
        ensures View(s) == memdisk[s]
      {
        CleanView(s);
      }
    }

    lemma Sized()
      requires Valid()
      ensures |buf| == NBUF
    {
    }

    /** The holder of a buffer sees the sector's current block. */
    lemma OwnedView(b: nat, s: int)
      requires Valid() && Owns(b, s) && 0 <= s < |memdisk|
      ensures View(s) == buf[b].data
    {
      FindUnique(buf, b);
    }

    lemma OwnedIsHeld(b: nat, s: int)
      requires Owns(b, s)
      ensures s in Held()
    {
    }

    /** binit. */
    constructor (disk: Disk)
      ensures Valid() && memdisk == disk
      ensures Held() == {} && Pinned() == {} && images == [] && released == seq(NBUF, i => i)
    {
      memdisk := disk;
      buf := seq(NBUF, _ => Buf(false, false, false, NODEV, 0, ZeroBlock()));
      next := seq(NBUF + 1, _ => NBUF);
      prev := seq(NBUF + 1, _ => NBUF);
      images := [];
      released := [];
      ring := [NBUF];
      new;
      LinkAll();
    }

    /** binit's loop: every buffer in turn goes to the front of the list. */
    method LinkAll()
      requires |next| == NBUF + 1 && Linked(next, prev, [NBUF]) && ring == [NBUF] && released == []
      modifies this`next, this`prev, this`ring, this`released
      ensures FullRing(ring) && |next| == NBUF + 1 && Linked(next, prev, ring)
      ensures released == seq(NBUF, i => i) && ByRelease(ring, released)
    {
      hide Link, Last, ByRelease;
      NoReleases(ring);
      for b := 0 to NBUF
        invariant |next| == NBUF + 1 && |ring| == b + 1 && ring[0] == NBUF
        invariant Linked(next, prev, ring)
        invariant released == seq(b, i => i) && ByRelease(ring, released)
        invariant forall i :: b <= i < NBUF ==> i !in ring
      {
        InsertedInFront(next, prev, ring, b);
        InsertedByRelease(ring, NBUF + 1, b, released);
        var first := next[NBUF];
        next, prev := next[b := first], prev[b := NBUF];
        prev := prev[first := b];
        next := next[NBUF := b];
        ghost var rest := ring[1..];
        assert forall i :: i in rest ==> i in ring;
        ring := [NBUF, b] + rest;
        released := released + [b];
      }
    }

    /** iderw: a dirty buffer is written out, an invalid one is read in. */
    method Iderw(b: nat)
      requires |buf| == NBUF && Unique(buf) && AllCoherent(buf, memdisk)
      requires b < NBUF && buf[b].busy
      requires !(buf[b].valid && !buf[b].dirty)
      requires buf[b].dev == ROOTDEV && 0 <= buf[b].sector < |memdisk|
      modifies this`memdisk, this`buf, this`images
      ensures AllCoherent(buf, memdisk) && Unique(buf)
      ensures old(buf[b].dirty) ==>
        && memdisk == old(memdisk[buf[b].sector := buf[b].data])
        && buf == old(buf[b := buf[b].(dirty := false, valid := true)])
        && images == old(images) + [memdisk]
      ensures !old(buf[b].dirty) ==>
        && memdisk == old(memdisk) && images == old(images)
        && buf == old(buf[b := buf[b].(data := memdisk[buf[b].sector], valid := true)])
    {
      var me := buf[b];
      if me.dirty {
        me := me.(dirty := false);
        memdisk := memdisk[me.sector := me.data];
        images := images + [memdisk];
      } else {
        me := me.(data := memdisk[me.sector]);
      }
      buf := buf[b := me.(valid := true)];
    }

    /** One pass of bget. */
    method Bget(sector: nat) returns (r: Lookup)
      requires Valid() && sector < |memdisk|
      modifies this`buf
      ensures !r.Got? ==> buf == old(buf)
      ensures r.Asleep? <==> sector in old(Held())
      ensures r.NoBuffers? <==>
        !Cached(old(buf), sector) && forall i :: 0 <= i < NBUF ==> !old(buf)[i].Recyclable()
      ensures r.Got? ==> Fetched(old(buf), sector, r.b, buf)
      // what is recycled is the least recently released of the buffers that can be
      ensures r.Got? && !Cached(old(buf), sector) ==>
        forall i :: 0 <= i < NBUF && old(buf)[i].Recyclable() && i != r.b ==> Last(released, r.b) < Last(released, i)
    {
      ghost var k := 1;
      assert Link(next, prev, ring[0], ring[After(0, NBUF + 1)]);
      var b := next[NBUF];
      while b != NBUF
        invariant 1 <= k <= NBUF + 1
        invariant b == if k == NBUF + 1 then NBUF else ring[k]
        invariant buf == old(buf)
        invariant forall j :: 0 < j < k ==> !buf[ring[j]].Is(ROOTDEV, sector)
        decreases NBUF + 1 - k
      {
        if buf[b].dev == ROOTDEV && buf[b].sector == sector {
          if !buf[b].busy {
            buf := buf[b := buf[b].(busy := true)];
            return Got(b);
          }
          return Asleep(b);
        }
        assert Link(next, prev, ring[k], ring[After(k, NBUF + 1)]);
        b := next[b];
        k := k + 1;
      }
      forall i | 0 <= i < NBUF
        ensures !buf[i].Is(ROOTDEV, sector)
      {
        RingCoversAll(ring, i);
      }
      k := NBUF;
      assert Link(next, prev, ring[NBUF], ring[After(NBUF, NBUF + 1)]);
      b := prev[NBUF];
      while b != NBUF
        invariant 0 <= k <= NBUF
        invariant b == ring[k]
        invariant buf == old(buf)
        invariant NoneBehind(ring, buf, k)
        decreases k
      {
        if !buf[b].busy && !buf[b].dirty {
          buf := buf[b := Buf(true, false, false, ROOTDEV, sector, buf[b].data)];
          OldestBehind(ring, old(buf), k, released);
          return Got(b);
        }
        assert Link(next, prev, ring[k - 1], ring[After(k - 1, NBUF + 1)]);
        b := prev[b];
        k := k - 1;
      }
      forall i | 0 <= i < NBUF
        ensures !buf[i].Recyclable()
      {
        RingCoversAll(ring, i);
      }
      r := NoBuffers;
    }

    /** A locked buffer with the current contents of the sector. */
    method Bread(sector: nat) returns (r: Lookup)
      requires Valid() && sector < |memdisk|
      modifies this`memdisk, this`buf, this`images
      ensures Valid() && memdisk == old(memdisk) && images == old(images)
      ensures r.Asleep? <==> sector in old(Held())
      ensures r.NoBuffers? <==>
        !Cached(old(buf), sector) && forall i :: 0 <= i < NBUF ==> !old(buf)[i].Recyclable()
      ensures r.NoBuffers? ==> sector !in old(Pinned()) && |old(Held()) + old(Pinned())| >= NBUF
      ensures sector !in old(Held()) + old(Pinned()) && |old(Held()) + old(Pinned())| >= NBUF ==> r.NoBuffers?
      ensures !r.Got? ==> buf == old(buf)
      ensures r.Got? ==>
        && Owns(r.b, sector) && buf[r.b].data == old(View(sector))
        && (buf[r.b].dirty <==> sector in old(Pinned()))
        && !old(buf)[r.b].busy && (forall i :: 0 <= i < NBUF && i != r.b ==> buf[i] == old(buf)[i])
        && Granted(old(buf), memdisk, r.b, sector, buf)
        && Held() == old(Held()) + {sector} && Pinned() == old(Pinned())
        && (forall t :: 0 <= t < |memdisk| ==> View(t) == old(View(t)))
      ensures r.Got? && !Cached(old(buf), sector) ==>
        forall i :: 0 <= i < NBUF && old(buf)[i].Recyclable() && i != r.b ==> Last(released, r.b) < Last(released, i)
    {
      hide Last, ByRelease, Linked, FullRing, NoneBehind, Fetched, Unique, AllCoherent, Busy, Dirty, Contents;
      r := Bget(sector);
      if r.Got? {
        FetchedThenRead(old(buf), memdisk, sector, r.b, buf);
        if !buf[r.b].valid {
          Iderw(r.b);
        }
        GrantKeeps(old(buf), old(memdisk), r.b, sector, buf);
        DirtyIff(buf, memdisk, r.b);
      } else if r.NoBuffers? {
        NoneRecyclable(buf, memdisk, sector);
      }
      if |old(Held()) + old(Pinned())| >= NBUF && sector !in old(Held()) + old(Pinned()) {
        FullMeansNone(old(buf), sector);
      }
    }

    /** The holder changes the data it was given. */
    method Fill(b: nat, data: Block)
      requires Valid() && b < NBUF && Owns(b, buf[b].sector)
      modifies this`buf
      ensures Valid()
      ensures buf == old(buf)[b := old(buf)[b].(data := data)]
      ensures Held() == old(Held()) && Pinned() == old(Pinned())
      ensures forall t :: 0 <= t < |memdisk| ==> View(t) == if t == buf[b].sector then data else old(View(t))
    {
      RewrittenSets(buf, memdisk, b, buf[b].(data := data), memdisk);
      RewrittenContents(buf, memdisk, b, buf[b].(data := data), memdisk);
      buf := buf[b := buf[b].(data := data)];
    }

    /** `b->flags |= B_DIRTY`: the buffer may not be evicted. */
    method Pin(b: nat)
      requires Valid() && b < NBUF && Owns(b, buf[b].sector)
      modifies this`buf
      ensures Valid()
      ensures buf == old(buf)[b := old(buf)[b].(dirty := true)]
      ensures Held() == old(Held()) && Pinned() == old(Pinned()) + {buf[b].sector}
      ensures forall t :: 0 <= t < |memdisk| ==> View(t) == old(View(t))
    {
      RewrittenSets(buf, memdisk, b, buf[b].(dirty := true), memdisk);
      RewrittenContents(buf, memdisk, b, buf[b].(dirty := true), memdisk);
      FindUnique(buf, b);
      buf := buf[b := buf[b].(dirty := true)];
    }

    /** Write a buffer's contents to disk: one sector write, one more crash image. */
    method Bwrite(b: nat)
      requires Valid() && b < NBUF && Owns(b, buf[b].sector)
      modifies this`memdisk, this`buf, this`images
      ensures Valid()
      ensures memdisk == old(memdisk)[old(buf[b].sector) := buf[b].data]
      ensures images == old(images) + [memdisk]
      ensures buf == old(buf)[b := old(buf)[b].(dirty := false)]
      ensures Held() == old(Held()) && Pinned() == old(Pinned()) - {buf[b].sector}
      ensures forall t :: 0 <= t < |memdisk| ==> View(t) == old(View(t))
    {
      ghost var x := buf[b].(dirty := false);
      ghost var after := memdisk[x.sector := x.data];
      FindUnique(buf, b);
      RewrittenSets(buf, memdisk, b, x, after);
      RewrittenContents(buf, memdisk, b, x, after);
      buf := buf[b := buf[b].(dirty := true)];
      Iderw(b);
      assert buf == old(buf)[b := x];
    }

    /** The list half of brelse. */
    method ToFront(b: nat)
      requires FullRing(ring) && |next| == NBUF + 1 && Linked(next, prev, ring)
      requires b < NBUF
      requires ByRelease(ring, released)
      modifies this`next, this`prev, this`ring, this`released
      ensures FullRing(ring) && |next| == NBUF + 1 && Linked(next, prev, ring)
      ensures released == old(released) + [b] && ByRelease(ring, released)
      ensures exists p :: 0 < p <= NBUF && old(ring)[p] == b && ring == [NBUF, b] + old(ring)[1..p] + old(ring)[p + 1..]
    {
      hide ByRelease;
      RingCoversAll(ring, b);
      ghost var p :| 0 < p < |ring| && ring[p] == b;
      FullRingMoves(next, prev, ring, p);
      prev := prev[next[b] := prev[b]];
      next := next[prev[b] := next[b]];
      next := next[b := next[NBUF]];
      prev := prev[b := NBUF];
      prev := prev[next[NBUF] := b];
      next := next[NBUF := b];
      MovedByRelease(ring, NBUF + 1, p, released);
      ring := MovedToFront(ring, p);
      released := released + [b];
      assert ring == [NBUF, b] + old(ring)[1..p] + old(ring)[p + 1..];
    }

    /** Give a buffer back; what was changed in it must have gone to Bwrite or the log. */
    method Brelse(b: nat)
      requires Valid() && b < NBUF && Owns(b, buf[b].sector)
      requires buf[b].dirty || buf[b].data == memdisk[buf[b].sector]
      modifies this`buf, this`next, this`prev, this`ring, this`released
      ensures Valid()
      ensures buf == old(buf)[b := old(buf)[b].(busy := false)]
      // every buffer but `b` keeps its place among the others
      ensures exists p :: 0 < p <= NBUF && old(ring)[p] == b && ring == [NBUF, b] + old(ring)[1..p] + old(ring)[p + 1..]
      ensures released == old(released) + [b]
      ensures Held() == old(Held()) - {buf[b].sector} && Pinned() == old(Pinned())
      ensures forall t :: 0 <= t < |memdisk| ==> View(t) == old(View(t))
    {
      ToFront(b);
      RewrittenSets(buf, memdisk, b, buf[b].(busy := false), memdisk);
      RewrittenContents(buf, memdisk, b, buf[b].(busy := false), memdisk);
      FindUnique(buf, b);
      buf := buf[b := buf[b].(busy := false)];
    }
  }
}
