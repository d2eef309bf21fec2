/** Finite sets of numbers and their sizes. */
module Sets {
  lemma SubsetSize(a: set<int>, b: set<int>)
    requires a <= b
    ensures |a| <= |b|
  {
    assert b == a + (b - a);
  }

  function Members(s: seq<int>): (r: set<int>)
    ensures forall x :: x in r <==> x in s
  {
    if s == [] then {} else Members(s[..|s| - 1]) + {s[|s| - 1]}
  }

  lemma {:induction false} MembersSize(s: seq<int>)
    ensures |Members(s)| <= |s|
  {
    if s != [] {
      MembersSize(s[..|s| - 1]);
    }
  }

  lemma Union(S: set<int>, T: set<int>)
    ensures |S + T| <= |S| + |T|
  {
    assert S + T == S + (T - S);
    SubsetSize(T - S, T);
  }
}
