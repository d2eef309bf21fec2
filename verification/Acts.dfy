/** What a system call does to the buffer cache: the order in which it reads, logs and releases sectors. */
module Acts {
  import opened Words
  import opened Sets
  import L = LogSpec

  /** bread, log_write of the block as it is then, brelse. */
  datatype Act = Get(s: int) | Log(s: int, data: Block) | Put(s: int)

  /** The sector of the superblock, which balloc and bfree read each time. */
  const SUPER := 1

  /** The sectors read and not yet released. */
  function Held(acts: seq<Act>): set<int> {
    if acts == [] then {} else Moved(Held(acts[..|acts| - 1]), acts[|acts| - 1])
  }

  function Moved(held: set<int>, a: Act): set<int> {
    match a
    case Get(s) => held + {s}
    case Log(s, data) => held
    case Put(s) => held - {s}
  }

  /** The sectors logged, which stay in the cache until the commit. */
  function Logged(acts: seq<Act>): set<int> {
    if acts == [] then {}
    else Logged(acts[..|acts| - 1]) + if acts[|acts| - 1].Log? then {acts[|acts| - 1].s} else {}
  }

  /** The list of writes handed to the log. */
  function Writes(acts: seq<Act>): seq<L.Write> {
    if acts == [] then []
    else
      var a := acts[|acts| - 1];
      Writes(acts[..|acts| - 1]) + if a.Log? then [L.Write(a.s, a.data)] else []
  }

  /** A sector is read only if the caller does not hold it, since bread would wait for its release; it is logged and
      released only if the caller holds it; and the superblock has been released before anything is logged. */
  predicate Proper(held: set<int>, a: Act) {
    match a
    case Get(s) => s !in held
    case Log(s, data) => s in held && SUPER !in held
    case Put(s) => s in held
  }

  predicate Orderly(acts: seq<Act>) {
    acts == [] || (Orderly(acts[..|acts| - 1]) && Proper(Held(acts[..|acts| - 1]), acts[|acts| - 1]))
  }

  /** Only sectors of `S` are used, and the superblock besides, which is not logged. */
  predicate Within(a: Act, S: set<int>) { a.s in S || (a.s == SUPER && !a.Log?) }

  /** The sectors held whenever a further buffer is taken, by a bread or for the log block of a log_write. */
  function Kept(acts: seq<Act>): set<int> {
    if acts == [] then {}
    else Kept(acts[..|acts| - 1]) + if acts[|acts| - 1].Put? then {} else Held(acts[..|acts| - 1])
  }

  /** Every sector used lies below sector `n`. */
  ghost predicate AllBelow(acts: seq<Act>, n: int) { forall i :: 0 <= i < |acts| ==> 0 <= acts[i].s < n }

  lemma AllBelowNext(acts: seq<Act>, a: Act, n: int)
    requires AllBelow(acts, n) && 0 <= a.s < n
    ensures AllBelow(acts + [a], n)
  {
  }

  lemma NoActs()
    ensures Held([]) == {} && Writes([]) == [] && Logged([]) == {} && Kept([]) == {} && Orderly([])
  {
  }

  lemma OneMoreAct(acts: seq<Act>, a: Act)
    requires Orderly(acts) && Proper(Held(acts), a)
    ensures Orderly(acts + [a]) && Held(acts + [a]) == Moved(Held(acts), a)
    ensures Writes(acts + [a]) == Writes(acts) + if a.Log? then [L.Write(a.s, a.data)] else []
    ensures Logged(acts + [a]) == Logged(acts) + if a.Log? then {a.s} else {}
    ensures Kept(acts + [a]) == Kept(acts) + if a.Put? then {} else Held(acts)
  {
    hide Moved, Proper;
    var all := acts + [a];
    assert all[..|all| - 1] == acts && all[|all| - 1] == a;
  }

  lemma {:induction false} WrittenWithin(acts: seq<Act>, S: set<int>)
    requires forall i :: 0 <= i < |acts| ==> Within(acts[i], S)
    ensures forall i :: 0 <= i < |Writes(acts)| ==> Writes(acts)[i].sector in S
    ensures Held(acts) <= S + {SUPER} && Logged(acts) <= S
  {
    if acts != [] {
      WrittenWithin(acts[..|acts| - 1], S);
    }
  }

  lemma {:induction false} WrittenHome(acts: seq<Act>, n: int)
    requires forall i :: 0 <= i < |acts| ==> 0 <= acts[i].s < n
    ensures forall i :: 0 <= i < |Writes(acts)| ==> 0 <= Writes(acts)[i].sector < n
  {
    if acts != [] {
      WrittenHome(acts[..|acts| - 1], n);
    }
  }

  lemma {:induction false} LoggedAre(acts: seq<Act>)
    ensures Logged(acts) == Members(L.LoggedSectors(Writes(acts)))
  {
    if acts != [] {
      var front, a := acts[..|acts| - 1], acts[|acts| - 1];
      hide Members, L.Recorded;
      LoggedAre(front);
      if a.Log? {
        var ws, w := Writes(front), L.Write(a.s, a.data);
        assert (ws + [w])[..|ws|] == ws;
        L.RecordedMembers(L.LoggedSectors(ws), a.s);
      } else {
        assert Writes(acts) == Writes(front);
      }
    }
  }

  lemma {:induction false} OrderlyAt(acts: seq<Act>, k: nat)
    requires Orderly(acts) && k < |acts|
    ensures Orderly(acts[..k]) && Proper(Held(acts[..k]), acts[k])
    decreases |acts|
  {
    if k < |acts| - 1 {
      OrderlyAt(acts[..|acts| - 1], k);
      assert acts[..|acts| - 1][..k] == acts[..k];
    }
  }

  /** The buffers in use while act `k` is carried out: those held, those pinned by the log, the one being read, and while
      a block is being copied into the log, the buffer of its log block. */
  function Peak(acts: seq<Act>, k: nat): nat
    requires k < |acts|
  {
    match acts[k]
    case Get(s) => |Held(acts[..k]) + Logged(acts[..k]) + {s}|
    case Log(s, data) => |Held(acts[..k]) + Logged(acts[..k])| + 1
    case Put(s) => |Held(acts[..k]) + Logged(acts[..k])|
  }

  /** One buffer more than the sectors of `S` is enough at every moment. */
  lemma BuffersEnough(acts: seq<Act>, S: set<int>, k: nat)
    requires Orderly(acts) && k < |acts| && forall i :: 0 <= i < |acts| ==> Within(acts[i], S)
    ensures Peak(acts, k) <= |S| + 1
  {
    OrderlyAt(acts, k);
    WrittenWithin(acts[..k], S);
    assert Within(acts[k], S);
    var used := Held(acts[..k]) + Logged(acts[..k]);
    if acts[k].Log? {
      assert used <= S;
      SubsetSize(used, S);
    } else {
      SubsetSize(used, S + {SUPER});
    }
    if acts[k].Get? {
      SubsetSize(used + {acts[k].s}, S + {SUPER});
    }
  }

  /** Act `k` seen from the whole list. */
  lemma ActAt(acts: seq<Act>, k: nat)
    requires Orderly(acts) && k < |acts|
    ensures Proper(Held(acts[..k]), acts[k]) && Held(acts[..k + 1]) == Moved(Held(acts[..k]), acts[k])
    ensures Writes(acts[..k + 1]) == Writes(acts[..k]) +
              if acts[k].Log? then [L.Write(acts[k].s, acts[k].data)] else []
    ensures Writes(acts[..k + 1]) <= Writes(acts)
  {
    OrderlyAt(acts, k);
    assert acts[..k + 1][..k] == acts[..k];
    WritesGrow(acts, k + 1);
  }

  lemma {:induction false} WritesGrow(acts: seq<Act>, k: nat)
    requires k <= |acts|
    ensures Writes(acts[..k]) <= Writes(acts)
    decreases |acts|
  {
    if k < |acts| {
      assert acts[..|acts| - 1][..k] == acts[..k];
      WritesGrow(acts[..|acts| - 1], k);
    } else {
      assert acts[..k] == acts;
    }
  }

  /** Beside the sector read last, everything held was held when a buffer was taken. */
  lemma {:induction false} HeldIsKept(acts: seq<Act>) returns (last: int)
    ensures Held(acts) <= Kept(acts) + {last}
  {
    last := SUPER;
    if acts != [] {
      last := HeldIsKept(acts[..|acts| - 1]);
      if acts[|acts| - 1].Get? {
        last := acts[|acts| - 1].s;
      }
    }
  }

  lemma {:induction false} KeptGrows(acts: seq<Act>, k: nat)
    requires k <= |acts|
    ensures Kept(acts[..k]) <= Kept(acts) && Logged(acts[..k]) <= Logged(acts)
    ensures k < |acts| && !acts[k].Put? ==> Held(acts[..k]) <= Kept(acts)
    ensures k < |acts| && acts[k].Log? ==> acts[k].s in Logged(acts)
    decreases |acts|
  {
    if k < |acts| {
      assert acts[..|acts| - 1][..k] == acts[..k];
      KeptGrows(acts[..|acts| - 1], k);
    } else {
      assert acts[..k] == acts;
    }
  }

  /** If whatever is held while a buffer is taken is logged in the end, one buffer more than the sectors logged is
      enough at every moment. */
  lemma LoggedPlusOne(acts: seq<Act>, k: nat)
    requires k < |acts| && Kept(acts) <= Logged(acts)
    ensures Peak(acts, k) <= |Logged(acts)| + 1
  {
    hide Held, Logged, Kept;
    KeptGrows(acts, k);
    var used, all := Held(acts[..k]) + Logged(acts[..k]), Logged(acts);
    if acts[k].Put? {
      var last := HeldIsKept(acts[..k]);
      SubsetSize(used, all + {last});
    } else if acts[k].Get? {
      SubsetSize(used + {acts[k].s}, all + {acts[k].s});
    } else {
      SubsetSize(used, all);
    }
  }
}
