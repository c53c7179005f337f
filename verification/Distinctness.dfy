/** Lists without repetition. */
module Distinctness {
  ghost predicate Distinct<T>(s: seq<T>) {
    s == [] || (Distinct(s[..|s| - 1]) && s[|s| - 1] !in s[..|s| - 1])
  }

  lemma {:induction false} DistinctAt<T>(s: seq<T>, j: nat)
    requires Distinct(s) && j < |s|
    ensures forall k | 0 <= k < |s| && k != j :: s[k] != s[j]
  {
    var front := s[..|s| - 1];
    if j < |front| {
      DistinctAt(front, j);
      assert front[j] in front;
    }
  }

  lemma {:induction false} DistinctSnoc<T>(s: seq<T>, x: T)
    requires Distinct(s) && x !in s
    ensures Distinct(s + [x])
  {
    assert (s + [x])[..|s|] == s;
  }

  lemma {:induction false} DistinctConcat<T>(a: seq<T>, b: seq<T>)
    requires Distinct(a) && Distinct(b) && forall x | x in b :: x !in a
    ensures Distinct(a + b)
    decreases |b|
  {
    if b == [] {
      assert a + b == a;
    } else {
      DistinctConcat(a, b[..|b| - 1]);
      assert (a + b)[..|a + b| - 1] == a + b[..|b| - 1];
    }
  }

  function Elements(s: seq<int>): (r: set<int>)
    ensures forall k :: k in r <==> k in s
  {
    set k | k in s
  }

  lemma {:induction false} ElementsSnoc(s: seq<int>, x: int)
    ensures Elements(s + [x]) == Elements(s) + {x}
  {
  }
}
