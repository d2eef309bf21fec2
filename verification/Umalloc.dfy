/** User-level malloc and free (usr/umalloc.c). */
module Umalloc {
  import opened Words
  import opened UmallocSpec

  /** What sbrk answers: -1, or the old break. */
  datatype Core = Refused | Granted(at: int)

  /** `Unbacked` is a morecore whose request lost high bits, so that the units freed are not the units obtained. */
  datatype Result = Block(ap: int) | Null | Unbacked

  class Heap {
    const base: int            // address of the static header
    var freep: int             // 0 until the first malloc
    var ptr: map<int, int>     // `s.ptr` of the headers on the list
    var size: map<int, nat>    // `s.size` of all headers
    ghost var l: seq<Blk>
    ghost var live: map<int, nat>
    ghost var arena: iset<int> // bytes obtained from sbrk

    constructor (base: int)
      requires base > 0
      ensures Valid() && l == [] && live == map[] && arena == iset{} && this.base == base
    {
      this.base, freep, ptr, size := base, 0, map[], map[];
      l, live, arena := [], map[], iset{};
    }

    ghost predicate ListOk()
      reads this
    {
      && Sorted(base, l) && Coalesced(l) && Linked(ptr, size, l)
      && exists i :: 0 <= i < |l| && l[i].a == freep
    }

    /** Live blocks carry their size and overlap neither each other nor the list. */
    ghost predicate LiveOk()
      reads this
    {
      && (forall a :: a in live ==> live[a] > 0 && base < a && a in size && size[a] == live[a] && Away(Blk(a, live[a]), l))
      && (forall a, b :: a in live && b in live && a != b ==> Apart(Blk(a, live[a]), Blk(b, live[b])))
    }

    /** Free and live blocks make up exactly what sbrk has given. */
    ghost predicate Balanced()
      reads this
    {
      forall x :: x in arena <==> Covers(l, x) || InLive(live, x)
    }

    ghost predicate Valid()
      reads this
    {
      && base > 0 && LiveOk() && Balanced()
      && if freep == 0 then l == [] && live == map[] else ListOk()
    }

    /** The search of free: the block after which `bp` belongs. `steps` counts the moves along the list. */
    method FindPlace(bp: int) returns (p: int, ghost j: nat, ghost steps: nat)
      requires ListOk() && base < bp && forall i :: 0 <= i < |l| ==> l[i].a != bp
      ensures j < |l| && p == l[j].a < bp && (j + 1 < |l| ==> bp < l[j + 1].a)
      ensures steps < |l|
    {
      hide Coalesced, Sorted, Node;
      Nonempty(base, l);
      ghost var n := |l|;
      j := LastBelow(l, bp);
      p, steps := freep, 0;
      ghost var i :| 0 <= i < n && l[i].a == freep;
      while true
        invariant 0 <= i < n && p == l[i].a
        invariant steps + (if i <= j then j - i else n + j - i) < n
        decreases if i <= j then j - i else n + j - i
      {
        assert Node(ptr, size, l, i);
        NodeFacts(ptr, size, l, i);
        InOrder(base, l, i, bp, j);
        if bp > p && bp < ptr[p] {
          return;
        }
        if p >= ptr[p] && (bp > p || bp < ptr[p]) {
          return;
        }
        p := ptr[p];
        i, steps := Next(i, n), steps + 1;
      }
    }

    /** The body of free: `bp` joins the list. */
    method Link(bp: int) returns (ghost j: nat)
      requires 0 < base && ListOk() && base < bp && bp in size && size[bp] > 0 && Away(Blk(bp, size[bp]), l)
      modifies this`freep, this`ptr, this`size, this`l
      ensures ListOk() && freep > 0
      ensures j < |old(l)| && l == Released(old(l), j, Blk(bp, old(size[bp])))
      ensures freep == old(l)[j].a < bp && (j + 1 < |old(l)| ==> bp < old(l)[j + 1].a)
      ensures forall x :: Covers(l, x) <==> Covers(old(l), x) || Blk(bp, old(size[bp])).Has(x)
      ensures forall a :: a in old(size) && a != bp && a != old(l)[j].a ==> a in size && size[a] == old(size)[a]
    {
      hide Sorted, Coalesced, Covers, Linked, Released, Node;
      ghost var b := Blk(bp, size[bp]);
      Elsewhere(base, l, b);
      var p;
      ghost var steps;
      p, j, steps := FindPlace(bp);
      PlaceFound(base, l, j, b);
      ReleaseKeeps(base, l, j, b);
      LinkNode(ptr, size, l, j);
      var q := ptr[p];
      LinkNode(ptr, size, l, Next(j, |l|));
      ReleaseLinked(base, l, j, b, ptr, size);
      if bp + HDR * size[bp] == q {
        size := size[bp := size[bp] + size[q]];
        ptr := ptr[bp := ptr[q]];
      } else {
        ptr := ptr[bp := q];
      }
      if p + HDR * size[p] == bp {
        size := size[p := size[p] + size[bp]];
        ptr := ptr[p := ptr[bp]];
      } else {
        ptr := ptr[p := bp];
      }
      freep := p;
      ReleasedAt(base, l, j, b);
      l := Released(l, j, b);
    }

    /** Free: the block returns to the list and nothing else changes hands. */
    method Free(ap: int)
      requires Valid() && ap - HDR in live
      modifies this
      ensures Valid() && live == old(live) - {ap - HDR} && arena == old(arena)
      ensures forall x :: Covers(l, x) <==> Covers(old(l), x) || Blk(ap - HDR, old(live)[ap - HDR]).Has(x)
      // the next search starts at the last free block below the one given back
      ensures exists j :: LastBefore(old(l), j, ap - HDR) && freep == old(l)[j].a
    {
      hide Sorted, Coalesced, Covers, Linked, Released, Node, Away, Apart, InLive;
      var bp := ap - HDR;
      ghost var l0, size0, live0, b := l, size, live, Blk(bp, size[bp]);
      var j := Link(bp);
      assert LastBefore(l0, j, bp);
      live := live - {bp};
      forall a | a in live
        ensures a in size && size[a] == live[a] && Away(Blk(a, live[a]), l)
      {
        OtherNode(base, l0, j, Blk(a, live[a]));
        AwayReleased(Blk(a, live[a]), l0, j, b);
      }
      forall x
        ensures x in arena <==> Covers(l, x) || InLive(live, x)
      {
        LiveLess(live0, bp, x);
      }
    }

    /** The first half of malloc's loop: once around the list for a block of `nunits`. */
    method Scan(nunits: nat) returns (found: bool, prevp: int, p: int, ghost k: nat)
      requires ListOk() && nunits > 0
      ensures found ==> 0 < k < |l| && p == l[k].a && prevp == l[k - 1].a && l[k].n >= nunits
      ensures found ==> exists f, s :: FirstFit(l, freep, nunits, f, s, k)
      ensures !found ==> NoFit(l, nunits)
    {
      hide Sorted, Coalesced, Linked, Node, Around, Next, FirstFit;
      BaseEmpty(base, l);
      ghost var n := |l|;
      ghost var f :| 0 <= f < n && l[f].a == freep;
      LinkNode(ptr, size, l, f);
      AroundSteps(f, 1, n);
      prevp, p := freep, ptr[freep];
      ghost var s := 1;
      while true
        invariant 1 <= s <= n && prevp == l[Around(f, s - 1, n)].a && p == l[Around(f, s, n)].a
        invariant forall r :: 1 <= r < s ==> l[Around(f, r, n)].n < nunits
        decreases n - s
      {
        k := Around(f, s, n);
        LinkNode(ptr, size, l, k);
        AroundSteps(f, s, n);
        if size[p] >= nunits {
          FoundFirst(l, freep, nunits, f, s, k);
          return true, prevp, p, k;
        }
        if p == freep {
          BackAtStart(base, l, f, s, nunits);
          return false, prevp, p, k;
        }
        prevp, p := p, ptr[p];
        s := s + 1;
      }
    }

    /** Cut `nunits` off the block at `p`, which follows `prevp`. */
    method Carve(prevp: int, p: int, nunits: nat, ghost k: nat) returns (bp: int)
      requires 0 < base && ListOk() && 0 < k < |l| && p == l[k].a && prevp == l[k - 1].a && 0 < nunits <= l[k].n
      modifies this`freep, this`ptr, this`size, this`l
      ensures ListOk() && freep == prevp > 0 && l == Carved(old(l), k, nunits)
      ensures bp == Tail(old(l), k, nunits).a && bp in size && size[bp] == nunits
      ensures forall a :: a in old(size) && a != p && a != bp ==> a in size && size[a] == old(size)[a]
    {
      hide Sorted, Coalesced, Linked, Node;
      LinkNode(ptr, size, l, k);
      LinkNode(ptr, size, l, k - 1);
      CarveSorted(base, l, k, nunits);
      BaseLowest(base, l, k - 1);
      bp := p;
      if size[p] == nunits {
        UnlinkLinked(base, l, k, ptr, size);
        ptr := ptr[prevp := ptr[p]];
      } else {
        ShrinkLinked(base, l, k, nunits, ptr, size);
        size := size[p := size[p] - nunits];
        bp := p + HDR * size[p];
        size := size[bp := nunits];
      }
      freep := prevp;
      l := Carved(l, k, nunits);
      assert l[k - 1].a == prevp;
    }

    /** One trip around the list: the block is handed out if one is large enough. */
    method TryTake(nunits: nat) returns (ok: bool, bp: int, ghost k: nat)
      requires Valid() && freep != 0 && nunits > 0
      modifies this
      ensures Valid() && freep != 0 && arena == old(arena) && (ok <==> !NoFit(old(l), nunits))
      ensures !ok ==> l == old(l) && live == old(live)
      ensures ok ==>
        && bp !in old(live) && live == old(live)[bp := nunits]
        && forall x :: && (Covers(old(l), x) <==> Covers(l, x) || Blk(bp, nunits).Has(x))
                       && !(Covers(l, x) && Blk(bp, nunits).Has(x))
      ensures ok ==> TailOf(old(l), k, nunits, bp, l, freep) && exists f, s :: FirstFit(old(l), old(freep), nunits, f, s, k)
    {
      hide Sorted, Coalesced, Covers, Linked, Node, Away, Apart, InLive, Carved, FirstFit;
      var found, prevp, p;
      found, prevp, p, k := Scan(nunits);
      if !found {
        return false, 0, k;
      }
      ghost var l0, live0 := l, live;
      bp := Carve(prevp, p, nunits, k);
      TailFacts(base, l0, k, nunits);
      NewIsNew(base, live0, l0, k, nunits);
      live := live[bp := nunits];
      forall a | a in live0
        ensures a in size && size[a] == live0[a] && Away(Blk(a, live0[a]), l) && Apart(Blk(a, live0[a]), Blk(bp, nunits))
        ensures Apart(Blk(bp, nunits), Blk(a, live0[a]))
      {
        OtherNode(base, l0, k, Blk(a, live0[a]));
        AwayCarved(base, Blk(a, live0[a]), l0, k, nunits);
        ApartSym(Blk(a, live0[a]), Blk(bp, nunits));
      }
      TailAway(base, l0, k, nunits);
      forall x
        ensures (Covers(l0, x) <==> Covers(l, x) || Blk(bp, nunits).Has(x)) && !(Covers(l, x) && Blk(bp, nunits).Has(x))
        ensures x in arena <==> Covers(l, x) || InLive(live, x)
      {
        CarveCovers(base, l0, k, nunits, x);
        LiveMore(live0, bp, nunits, x);
      }
      ok := true;
    }

    /** morecore, once sbrk has granted `nu` units at `hp`. */
    method AddCore(hp: int, nu: nat)
      requires Valid() && freep != 0 && nu > 0 && base < hp && forall x :: Blk(hp, nu).Has(x) ==> x !in arena
      modifies this
      ensures Valid() && freep != 0 && live == old(live) && !NoFit(l, nu)
      ensures forall x :: Covers(l, x) <==> Covers(old(l), x) || Blk(hp, nu).Has(x)
      ensures forall x :: x in arena <==> x in old(arena) || Blk(hp, nu).Has(x)
      ensures forall n :: NoFit(old(l), n) ==> OnlyAt(l, n, hp)
    {
      hide Sorted, Coalesced, Covers, Linked, Node, Away, Apart, InLive, Released;
      ghost var l0, b := l, Blk(hp, nu);
      FreshAway(base, l, arena, b);
      forall a | a in live
        ensures Apart(Blk(a, live[a]), b)
      {
        FreshApart(live, arena, a, b);
      }
      size := size[hp := nu];
      RelinkSame(base, ptr, old(size), size, l, b);
      var j := Link(hp);
      arena := arena + iset x | b.Has(x);
      forall a | a in live
        ensures a in size && size[a] == live[a] && Away(Blk(a, live[a]), l)
      {
        ApartOther(Blk(a, live[a]), b);
        OtherNode(base, l0, j, Blk(a, live[a]));
        AwayReleased(Blk(a, live[a]), l0, j, b);
      }
      ReleasedFits(l0, j, b);
      forall n | NoFit(l0, n)
        ensures OnlyAt(l, n, hp)
      {
        OnlyNewFits(l0, j, b, n);
      }
    }

    /** Malloc: a block that holds `nbytes`, disjoint from everything in use, cut from the list or, if nothing there
        is large enough, from one new piece of core. */
    method Malloc(nbytes: Uint, core: Core) returns (r: Result)
      requires Valid()
      requires core.Granted? && Asked(nbytes) < 0x800_0000 ==>
        base < core.at && forall x :: Blk(core.at, Asked(nbytes)).Has(x) ==> x !in arena
      modifies this
      ensures r.Unbacked? <==>
        NoFit(old(l), Units(nbytes)) && core.Granted? && Request(Asked(nbytes)) != HDR * Asked(nbytes)
      ensures r.Null? <==> NoFit(old(l), Units(nbytes)) && core.Refused?
      ensures Valid()
      ensures r.Null? ==> live == old(live) && arena == old(arena) && forall x :: Covers(l, x) <==> Covers(old(l), x)
      ensures r.Block? ==>
        && HDR * (Units(nbytes) - 1) >= nbytes
        && r.ap - HDR !in old(live) && live == old(live)[r.ap - HDR := Units(nbytes)]
        && (forall x :: x in arena <==> x in old(arena) || NewByte(old(l), nbytes, core, x))
        && (forall x :: Covers(l, x) || Blk(r.ap - HDR, Units(nbytes)).Has(x) <==>
                        Covers(old(l), x) || NewByte(old(l), nbytes, core, x))
        && (forall x :: !(Covers(l, x) && Blk(r.ap - HDR, Units(nbytes)).Has(x)))
      // the end of the first block behind freep that is large enough, where the next search starts
      ensures r.Block? && !NoFit(old(l), Units(nbytes)) ==>
        exists f, s, k ::
          && FirstFit(old(l), old(freep), Units(nbytes), f, s, k)
          && TailOf(old(l), k, Units(nbytes), r.ap - HDR, l, freep)
      // or the end of the block that the new core has become part of
      ensures r.Block? && NoFit(old(l), Units(nbytes)) ==>
        exists m, k :: Grown(base, old(l), nbytes, core, m, k) && TailOf(m, k, Units(nbytes), r.ap - HDR, l, freep)
    {
      hide Sorted, Coalesced, Covers, Linked, Node, Away, Apart, InLive, Request, Units, NoFit, TailOf, FirstFit, OnlyAt;
      UnitsExact(nbytes);
      AskedBound(nbytes);
      RequestExact(Asked(nbytes));
      var nunits := Units(nbytes);
      if freep == 0 {
        Start();
      }
      StartFits(old(l), l, base, nunits);
      ghost var k;
      var ok, bp;
      ok, bp, k := TryTake(nunits);
      if ok {
        return Block(bp + HDR);
      }
      if core.Refused? {
        return Null;
      }
      var nu := Asked(nbytes);
      if Request(nu) != HDR * nu {
        return Unbacked;
      }
      AddCore(core.at, nu);
      FitsToo(l, nu, nunits);
      ghost var m := l;
      ok, bp, k := TryTake(nunits);
      assert ok;
      IsGrown(base, old(l), nbytes, core, m, k, bp, l, freep);
      r := Block(bp + HDR);
    }

    /** The first call of malloc: the list is `base` alone. */
    method Start()
      requires Valid() && freep == 0
      modifies this
      ensures Valid() && freep != 0 && l == [Blk(base, 0)] && live == old(live) && arena == old(arena)
    {
      ptr, size := ptr[base := base], size[base := 0];
      freep := base;
      l := [Blk(base, 0)];
      assert l[0].a == freep;
    }
  }

  /** No block of the list has `n` units. */
  ghost predicate NoFit(l: seq<Blk>, n: nat) {
    forall i :: 0 <= i < |l| ==> l[i].n < n
  }

  /** Block `j` is the last one below `bp`. */
  ghost predicate LastBefore(l: seq<Blk>, j: int, bp: int) {
    0 <= j < |l| && l[j].a < bp && (j + 1 < |l| ==> bp < l[j + 1].a)
  }

  /** The block `bp` of `n` units has been cut from the end of block `k`, and the search will go on from the one before. */
  ghost predicate TailOf(l: seq<Blk>, k: nat, n: nat, bp: int, after: seq<Blk>, freep: int) {
    && 0 < k < |l| && n <= l[k].n && bp + HDR * n == l[k].End()
    && after == Carved(l, k, n) && freep == l[k - 1].a
  }

  /** A block of `n` units or more has the byte `x` in it. */
  ghost predicate OnlyAt(l: seq<Blk>, n: nat, x: int) {
    forall i :: 0 <= i < |l| && l[i].n >= n ==> l[i].Has(x)
  }

  /** The list `m` is the old one with the new core, in whose block `k` the core starts. */
  ghost predicate Grown(base: int, l: seq<Blk>, nbytes: Uint, core: Core, m: seq<Blk>, k: nat) {
    && Sorted(base, m) && Coalesced(m) && (forall x :: Covers(m, x) <==> Covers(l, x) || NewByte(l, nbytes, core, x))
    && k < |m| && core.Granted? && m[k].Has(core.at)
  }

  lemma IsGrown(base: int, l: seq<Blk>, nbytes: Uint, core: Core, m: seq<Blk>, k: nat, bp: int, after: seq<Blk>, freep: int)
    requires Sorted(base, m) && Coalesced(m) && (forall x :: Covers(m, x) <==> Covers(l, x) || NewByte(l, nbytes, core, x))
    requires core.Granted? && OnlyAt(m, Units(nbytes), core.at) && TailOf(m, k, Units(nbytes), bp, after, freep)
    ensures Grown(base, l, nbytes, core, m, k)
  {
    hide Sorted, Coalesced, Covers, Units, NewByte;
  }

  /** With nothing large enough before, only the block with the new core can be. */
  lemma OnlyNewFits(l: seq<Blk>, j: nat, b: Blk, n: nat)
    requires j < |l| && b.n > 0 && NoFit(l, n) && n > 0
    ensures OnlyAt(Released(l, j, b), n, b.a)
  {
    var m := Inserted(l, j, b);
    var r := JoinedIf(m, j + 1);
    assert forall i :: 0 <= i < |m| && i != j + 1 ==> m[i].n < n;
    assert forall i :: 0 <= i < |r| && i != j + 1 ==> r[i].n < n;
  }

  /** The units that morecore asks for. */
  function Asked(nbytes: Uint): nat { if Units(nbytes) < 4096 then 4096 else Units(nbytes) }

  lemma AskedBound(nbytes: Uint)
    ensures Units(nbytes) <= Asked(nbytes) <= 0x1000_0001
  {
  }

  /** The block `r` steps after block `f` on a circle of `n`. */
  function Around(f: nat, r: nat, n: nat): (i: nat)
    requires f < n && r <= n
    ensures i < n
  {
    if f + r < n then f + r else f + r - n
  }

  /** Block `k`, found after `s` steps from the block `f` that `freep` names, is the first one large enough. */
  ghost predicate FirstFit(l: seq<Blk>, freep: int, nunits: nat, f: nat, s: nat, k: nat) {
    && f < |l| && 1 <= s <= |l| && l[f].a == freep && k == Around(f, s, |l|) && l[k].n >= nunits
    && forall r :: 1 <= r < s ==> l[Around(f, r, |l|)].n < nunits
  }

  lemma FoundFirst(l: seq<Blk>, freep: int, nunits: nat, f: nat, s: nat, k: nat)
    requires f < |l| && 1 <= s <= |l| && l[f].a == freep && k == Around(f, s, |l|) && l[k].n >= nunits
    requires forall r :: 1 <= r < s ==> l[Around(f, r, |l|)].n < nunits
    ensures FirstFit(l, freep, nunits, f, s, k)
  {
  }

  /** Steps on the circle: forward, back, and all the way around. */
  lemma AroundSteps(f: nat, s: nat, n: nat)
    requires f < n && 1 <= s <= n
    ensures Around(f, 0, n) == f && Around(f, n, n) == f
    ensures Next(Around(f, s - 1, n), n) == Around(f, s, n)
    ensures s < n ==> Next(Around(f, s, n), n) == Around(f, s + 1, n)
    ensures Around(f, s, n) > 0 ==> Around(f, s - 1, n) == Around(f, s, n) - 1
    ensures s < n ==> Around(f, s, n) != f
  {
  }

  /** Back at `freep` every block has been looked at. */
  lemma BackAtStart(base: int, l: seq<Blk>, f: nat, s: nat, nunits: nat)
    requires Sorted(base, l) && f < |l| && 1 <= s <= |l| && l[Around(f, s, |l|)].a == l[f].a
    requires l[Around(f, s, |l|)].n < nunits && forall r :: 1 <= r < s ==> l[Around(f, r, |l|)].n < nunits
    ensures NoFit(l, nunits)
  {
    hide Sorted;
    var n := |l|;
    Distinct(base, l);
    assert s == n;
    forall i | 0 <= i < n
      ensures l[i].n < nunits
    {
      assert i == Around(f, if i > f then i - f else i - f + n, n);
    }
  }

  lemma ReleasedAt(base: int, l: seq<Blk>, j: nat, b: Blk)
    requires Sorted(base, l) && j < |l|
    ensures |Released(l, j, b)| > j && Released(l, j, b)[j].a == l[j].a >= base
  {
    var m := Inserted(l, j, b);
    assert JoinedIf(m, j + 1)[..j + 1][j] == m[..j + 1][j] == l[j];
  }

  /** A live block's header is no node of the list. */
  lemma OtherNode(base: int, l: seq<Blk>, j: nat, c: Blk)
    requires Sorted(base, l) && j < |l| && Away(c, l) && c.n > 0 && base < c.a
    ensures c.a != l[j].a
  {
    Elsewhere(base, l, c);
  }

  /** A byte that this call of malloc gets from sbrk. */
  ghost predicate NewByte(l: seq<Blk>, nbytes: Uint, core: Core, x: int) {
    NoFit(l, Units(nbytes)) && core.Granted? && Blk(core.at, Asked(nbytes)).Has(x)
  }

  lemma BaseLowest(base: int, l: seq<Blk>, i: nat)
    requires Sorted(base, l) && i < |l|
    ensures l[i].a >= base
  {
  }

  lemma TailFacts(base: int, l: seq<Blk>, k: nat, n: nat)
    requires Sorted(base, l) && 0 < k < |l| && 0 < n <= l[k].n
    ensures Tail(l, k, n) == Blk(Tail(l, k, n).a, n) && base < Tail(l, k, n).a
  {
  }

  lemma NewIsNew(base: int, live: map<int, nat>, l: seq<Blk>, k: nat, n: nat)
    requires Sorted(base, l) && 0 < k < |l| && 0 < n <= l[k].n
    requires forall a :: a in live ==> live[a] > 0 && Away(Blk(a, live[a]), l)
    ensures Tail(l, k, n).a !in live
  {
    forall a | a in live
      ensures a != Tail(l, k, n).a
    {
      AwayCarved(base, Blk(a, live[a]), l, k, n);
    }
  }

  lemma ApartSym(c: Blk, d: Blk)
    requires Apart(c, d)
    ensures Apart(d, c)
  {
  }

  lemma ApartOther(c: Blk, d: Blk)
    requires Apart(c, d) && c.n > 0 && d.n > 0
    ensures c.a != d.a
  {
  }

  lemma FreshAway(base: int, l: seq<Blk>, arena: iset<int>, b: Blk)
    requires Sorted(base, l) && b.n > 0 && base < b.a
    requires forall x :: Covers(l, x) ==> x in arena
    requires forall x :: b.Has(x) ==> x !in arena
    ensures Away(b, l)
  {
    forall i | 0 <= i < |l|
      ensures Apart(b, l[i])
    {
      assert forall x :: l[i].Has(x) ==> Covers(l, x);
      if i > 0 { NoCommonByte(b, l[i]); }
    }
  }

  lemma FreshApart(live: map<int, nat>, arena: iset<int>, a: int, b: Blk)
    requires a in live && live[a] > 0 && b.n > 0
    requires forall x :: InLive(live, x) ==> x in arena
    requires forall x :: b.Has(x) ==> x !in arena
    ensures Apart(Blk(a, live[a]), b)
  {
    assert forall x :: Blk(a, live[a]).Has(x) ==> InLive(live, x);
    NoCommonByte(Blk(a, live[a]), b);
  }

  /** A header written outside the list leaves the list alone. */
  lemma RelinkSame(base: int, ptr: map<int, int>, size: map<int, nat>, size': map<int, nat>, l: seq<Blk>, b: Blk)
    requires Sorted(base, l) && Linked(ptr, size, l) && size' == size[b.a := b.n] && b.n > 0 && base < b.a && Away(b, l)
    ensures Linked(ptr, size', l)
  {
    Elsewhere(base, l, b);
    forall i | 0 <= i < |l|
      ensures Node(ptr, size', l, i)
    {
      assert Node(ptr, size, l, i);
    }
  }

  /** The block that takes in freed units is at least as large. */
  lemma ReleasedFits(l: seq<Blk>, j: nat, b: Blk)
    requires j < |l|
    ensures !NoFit(Released(l, j, b), b.n)
  {
    var m := Inserted(l, j, b);
    assert m[j + 1] == b;
    var r := JoinedIf(m, j + 1);
    assert r[j + 1].n >= b.n;
    var t := JoinedIf(r, j);
    assert t == r || t[j].n >= r[j + 1].n;
  }

  lemma StartFits(l: seq<Blk>, m: seq<Blk>, base: int, n: nat)
    requires n > 0 && (m == l || (l == [] && m == [Blk(base, 0)]))
    ensures NoFit(l, n) <==> NoFit(m, n)
    ensures l == [] ==> NoFit(l, n)
    ensures forall x :: Covers(l, x) <==> Covers(m, x)
  {
  }

  lemma FitsToo(l: seq<Blk>, nu: nat, nunits: nat)
    requires !NoFit(l, nu) && nunits <= nu
    ensures !NoFit(l, nunits)
  {
  }

  lemma LiveLess(live: map<int, nat>, a: int, x: int)
    requires a in live
    ensures InLive(live, x) <==> InLive(live - {a}, x) || Blk(a, live[a]).Has(x)
  {
    var m := live - {a};
    assert forall c :: c in m ==> c in live && m[c] == live[c];
    assert forall c :: c in live && c != a ==> c in m;
  }

  lemma LiveMore(live: map<int, nat>, a: int, n: nat, x: int)
    requires a !in live
    ensures InLive(live[a := n], x) <==> InLive(live, x) || Blk(a, n).Has(x)
  {
    var m := live[a := n];
    assert forall c :: c in live ==> c in m && m[c] == live[c];
    assert a in m && m[a] == n;
  }

  /** The two conditional statements of free as functions of the header memory. */
  function Upper(b: Blk, q: int, ptr: map<int, int>, size: map<int, nat>): (map<int, int>, map<int, nat>)
    requires q in ptr && q in size && b.a in size
  {
    if b.End() == q then (ptr[b.a := ptr[q]], size[b.a := size[b.a] + size[q]]) else (ptr[b.a := q], size)
  }

  function Lower(b: Blk, p: int, ptr: map<int, int>, size: map<int, nat>): (map<int, int>, map<int, nat>)
    requires p in size && b.a in ptr && b.a in size
  {
    if p + HDR * size[p] == b.a then (ptr[p := ptr[b.a]], size[p := size[p] + size[b.a]]) else (ptr[p := b.a], size)
  }

  lemma Nonempty(base: int, l: seq<Blk>)
    requires Sorted(base, l)
    ensures |l| > 0 && l[0].a == base
  {
  }

  lemma LinkNode(ptr: map<int, int>, size: map<int, nat>, l: seq<Blk>, i: nat)
    requires Linked(ptr, size, l) && i < |l|
    ensures l[i].a in ptr && ptr[l[i].a] == l[Next(i, |l|)].a && l[i].a in size && size[l[i].a] == l[i].n
  {
    assert Node(ptr, size, l, i);
  }

  lemma Elsewhere(base: int, l: seq<Blk>, b: Blk)
    requires Sorted(base, l) && b.n > 0 && base < b.a && Away(b, l)
    ensures forall i :: 0 <= i < |l| ==> l[i].a != b.a
  {
    forall i | 0 <= i < |l|
      ensures l[i].a != b.a
    {
      assert Apart(b, l[i]);
    }
  }

  lemma PlaceFound(base: int, l: seq<Blk>, j: nat, b: Blk)
    requires Sorted(base, l) && Away(b, l) && b.n > 0 && j < |l| && l[j].a < b.a && (j + 1 < |l| ==> b.a < l[j + 1].a)
    ensures Place(l, j, b)
  {
    assert Apart(b, l[j]);
    if j + 1 < |l| {
      assert Apart(b, l[j + 1]);
    }
  }

  /** The relinking in free builds the released list. */
  lemma ReleaseLinked(base: int, l: seq<Blk>, j: nat, b: Blk, ptr: map<int, int>, size: map<int, nat>)
    requires Sorted(base, l) && Linked(ptr, size, l) && Place(l, j, b) && b.n > 0 && base < b.a
    requires b.a in size && size[b.a] == b.n
    ensures l[j].a in ptr && ptr[l[j].a] in ptr && ptr[l[j].a] in size
    ensures var (ptr1, size1) := Upper(b, ptr[l[j].a], ptr, size);
            && l[j].a in size1 && b.a in ptr1 && b.a in size1
            && var (ptr2, size2) := Lower(b, l[j].a, ptr1, size1);
            Linked(ptr2, size2, Released(l, j, b))
  {
    hide Linked, Node, Sorted;
    LinkNode(ptr, size, l, j);
    LinkNode(ptr, size, l, Next(j, |l|));
    var p, q := l[j].a, ptr[l[j].a];
    var m := Inserted(l, j, b);
    InsertSorted(base, l, j, b);
    InsertLinked(base, l, j, b, ptr, size);
    var (ptr1, size1) := Upper(b, q, ptr, size);
    UpperLinked(base, l, j, b, ptr, size);
    LowerLinked(base, JoinedIf(m, j + 1), j, b, ptr1, size1);
  }

  lemma UpperLinked(base: int, l: seq<Blk>, j: nat, b: Blk, ptr: map<int, int>, size: map<int, nat>)
    requires Sorted(base, l) && Linked(ptr, size, l) && Place(l, j, b) && b.n > 0 && base < b.a
    requires b.a in size && size[b.a] == b.n
    ensures l[j].a in ptr && ptr[l[j].a] in ptr && ptr[l[j].a] in size
    ensures var m := Inserted(l, j, b);
            var (ptr1, size1) := Upper(b, ptr[l[j].a], ptr, size);
            && Sorted(base, JoinedIf(m, j + 1)) && JoinedIf(m, j + 1)[j] == l[j] && b.a in ptr1 && b.a in size1
            && Linked(ptr1[l[j].a := b.a], size1, JoinedIf(m, j + 1))
  {
    hide Linked, Node, Sorted;
    Nonempty(base, l);
    LinkNode(ptr, size, l, j);
    LinkNode(ptr, size, l, Next(j, |l|));
    var p, q := l[j].a, ptr[l[j].a];
    var m := Inserted(l, j, b);
    assert m[j + 1] == b && m[j] == l[j];
    assert JoinedIf(m, j + 1)[..j + 1][j] == m[..j + 1][j];
    InsertSorted(base, l, j, b);
    InsertLinked(base, l, j, b, ptr, size);
    Distinct(base, m);
    if j + 1 < |l| {
      assert m[j + 2] == l[j + 1];
      if b.End() == q {
        var ptrI := ptr[b.a := q][p := b.a];
        JoinSorted(base, m, j + 1);
        JoinLinked(base, m, j + 1, ptrI, size);
        assert ptrI[b.a := ptrI[q]] == ptr[b.a := ptr[q]][p := b.a];
      }
    }
  }

  lemma LowerLinked(base: int, r: seq<Blk>, j: nat, b: Blk, ptr: map<int, int>, size: map<int, nat>)
    requires Sorted(base, r) && j + 1 < |r| && r[j + 1].a == b.a && base < b.a && b.a in ptr
    requires Linked(ptr[r[j].a := b.a], size, r)
    ensures r[j].a in size && b.a in size
    ensures var (ptr2, size2) := Lower(b, r[j].a, ptr, size);
            Linked(ptr2, size2, JoinedIf(r, j))
  {
    hide Linked, Node, Sorted;
    Nonempty(base, r);
    Distinct(base, r);
    var p := r[j].a;
    var ptrI := ptr[p := b.a];
    LinkNode(ptrI, size, r, j);
    LinkNode(ptrI, size, r, j + 1);
    if r[j].End() == b.a {
      BaseEmpty(base, r);
      JoinLinked(base, r, j, ptrI, size);
      assert ptrI[p := ptrI[b.a]] == ptr[p := ptr[b.a]];
    }
  }

  lemma BaseEmpty(base: int, l: seq<Blk>)
    requires Sorted(base, l)
    ensures l[0] == Blk(base, 0)
  {
  }

  /** The last block that starts below `bp`. */
  ghost function LastBelow(l: seq<Blk>, bp: int): (j: nat)
    requires |l| > 0 && l[0].a < bp && forall i :: 0 <= i < |l| ==> l[i].a != bp
    ensures j < |l| && l[j].a < bp && (j + 1 < |l| ==> bp < l[j + 1].a)
    decreases |l|
  {
    if l[|l| - 1].a < bp then |l| - 1 else LastBelow(l[..|l| - 1], bp)
  }

  /** At block `i` the search stops exactly if `i` is the place. */
  lemma InOrder(base: int, l: seq<Blk>, i: nat, bp: int, j: nat)
    requires Sorted(base, l) && i < |l| && j < |l| && base < bp && l[j].a < bp && (j + 1 < |l| ==> bp < l[j + 1].a)
    ensures var p, q := l[i].a, l[Next(i, |l|)].a;
            i == j <==> (p < bp < q) || (p >= q && (bp > p || bp < q))
  {
    if i < j {
      Before(base, l, i, j);
      if i + 1 < j { Before(base, l, i + 1, j); }
    }
    if j + 1 < i { Before(base, l, j + 1, i); }
    if i + 1 < |l| { Before(base, l, i, i + 1); }
    if 0 < i { Before(base, l, 0, i); }
  }
}
