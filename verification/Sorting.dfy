/** The stable sort of the Java collections, by a numeric key. */
module Sorting {
  import opened Distinctness

  /** In order of the key: each element is at most the next one. */
  predicate SortedBy<T>(s: seq<T>, key: T -> real) {
    |s| < 2 || (SortedBy(s[..|s| - 1], key) && key(s[|s| - 2]) <= key(s[|s| - 1]))
  }

  /** x goes behind everything that is not greater. */
  function Insert<T>(s: seq<T>, x: T, key: T -> real): (r: seq<T>)
    ensures |r| == |s| + 1
  {
    if s == [] || key(s[|s| - 1]) <= key(x) then s + [x]
    else Insert(s[..|s| - 1], x, key) + [s[|s| - 1]]
  }

  function SortBy<T>(s: seq<T>, key: T -> real): (r: seq<T>)
    ensures |r| == |s|
  {
    if s == [] then [] else Insert(SortBy(s[..|s| - 1], key), s[|s| - 1], key)
  }

  lemma {:induction false} InsertKeeps<T>(s: seq<T>, x: T, key: T -> real)
    ensures multiset(Insert(s, x, key)) == multiset(s) + multiset{x}
  {
    if !(s == [] || key(s[|s| - 1]) <= key(x)) {
      InsertKeeps(s[..|s| - 1], x, key);
      assert s == s[..|s| - 1] + [s[|s| - 1]];
    }
  }

  lemma {:induction false} InsertSorted<T>(s: seq<T>, x: T, key: T -> real)
    requires SortedBy(s, key)
    ensures SortedBy(Insert(s, x, key), key)
    ensures s != [] ==> key(Insert(s, x, key)[|s|]) == if key(s[|s| - 1]) <= key(x) then key(x) else key(s[|s| - 1])
  {
    if s == [] || key(s[|s| - 1]) <= key(x) {
      assert (s + [x])[..|s|] == s;
    } else {
      var last := |s| - 1;
      InsertSorted(s[..last], x, key);
      assert Insert(s, x, key)[..|s|] == Insert(s[..last], x, key);
    }
  }

  /** Sorting rearranges, and orders. */
  lemma {:induction false} SortByKeeps<T>(s: seq<T>, key: T -> real)
    ensures multiset(SortBy(s, key)) == multiset(s)
  {
    if s != [] {
      SortByKeeps(s[..|s| - 1], key);
      InsertKeeps(SortBy(s[..|s| - 1], key), s[|s| - 1], key);
      assert s == s[..|s| - 1] + [s[|s| - 1]];
    }
  }

  lemma {:induction false} SortByOrders<T>(s: seq<T>, key: T -> real)
    ensures SortedBy(SortBy(s, key), key)
  {
    if s != [] {
      SortByOrders(s[..|s| - 1], key);
      InsertSorted(SortBy(s[..|s| - 1], key), s[|s| - 1], key);
    }
  }

  lemma {:induction false} SortedAt<T>(s: seq<T>, key: T -> real, j: nat)
    requires SortedBy(s, key) && j < |s|
    ensures forall i | 0 <= i < j :: key(s[i]) <= key(s[j])
  {
    var front := s[..|s| - 1];
    if j == |s| - 1 {
      if j > 0 {
        SortedAt(front, key, j - 1);
        assert front[j - 1] == s[j - 1];
      }
    } else {
      SortedAt(front, key, j);
    }
  }

  // ----- Sorting keeps lists without repetition -----

  lemma {:induction false} InInserted<T>(s: seq<T>, x: T, key: T -> real, y: T)
    ensures y in Insert(s, x, key) <==> y in s || y == x
  {
    InsertKeeps(s, x, key);
    assert y in Insert(s, x, key) <==> y in multiset(Insert(s, x, key));
  }

  lemma {:induction false} InSorted<T>(s: seq<T>, key: T -> real, y: T)
    ensures y in SortBy(s, key) <==> y in s
  {
    SortByKeeps(s, key);
    assert y in SortBy(s, key) <==> y in multiset(SortBy(s, key));
  }

  lemma {:induction false} InsertDistinct<T(!new)>(s: seq<T>, x: T, key: T -> real)
    requires Distinct(s) && x !in s
    ensures Distinct(Insert(s, x, key))
  {
    if s == [] || key(s[|s| - 1]) <= key(x) {
      DistinctSnoc(s, x);
    } else {
      var front, last := s[..|s| - 1], s[|s| - 1];
      InsertDistinct(front, x, key);
      InInserted(front, x, key, last);
      DistinctSnoc(Insert(front, x, key), last);
    }
  }

  lemma {:induction false} SortDistinct<T(!new)>(s: seq<T>, key: T -> real)
    requires Distinct(s)
    ensures Distinct(SortBy(s, key))
  {
    if s != [] {
      var front, last := s[..|s| - 1], s[|s| - 1];
      SortDistinct(front, key);
      InSorted(front, key, last);
      InsertDistinct(SortBy(front, key), last, key);
    }
  }

  // ----- The sort is stable -----

  /** The elements with key k, in their order. */
  function WithKey<T>(s: seq<T>, key: T -> real, k: real): (r: seq<T>)
  {
    if s == [] then []
    else WithKey(s[..|s| - 1], key, k) + if key(s[|s| - 1]) == k then [s[|s| - 1]] else []
  }

  /** t holds what s holds, in order of the key, and elements with the same key as they stood. */
  ghost predicate StablySorted<T>(s: seq<T>, t: seq<T>, key: T -> real) {
    && (forall i, j | 0 <= i < j < |t| :: key(t[i]) <= key(t[j]))
    && forall k :: WithKey(t, key, k) == WithKey(s, key, k)
  }

  lemma {:induction false} WithKeySnoc<T>(s: seq<T>, x: T, key: T -> real, k: real)
    ensures WithKey(s + [x], key, k) == WithKey(s, key, k) + if key(x) == k then [x] else []
  {
    assert (s + [x])[..|s|] == s;
  }

  /** Among those with the same key, x is the last. */
  lemma {:induction false} InsertStable<T>(s: seq<T>, x: T, key: T -> real, k: real)
    ensures WithKey(Insert(s, x, key), key, k) == WithKey(s, key, k) + if key(x) == k then [x] else []
  {
    if s == [] || key(s[|s| - 1]) <= key(x) {
      WithKeySnoc(s, x, key, k);
    } else {
      var front, last := s[..|s| - 1], s[|s| - 1];
      InsertStable(front, x, key, k);
      WithKeySnoc(Insert(front, x, key), last, key, k);
    }
  }

  lemma {:induction false} SortStable<T>(s: seq<T>, key: T -> real, k: real)
    ensures WithKey(SortBy(s, key), key, k) == WithKey(s, key, k)
  {
    if s != [] {
      SortStable(s[..|s| - 1], key, k);
      InsertStable(SortBy(s[..|s| - 1], key), s[|s| - 1], key, k);
    }
  }

  lemma {:induction false} SortIsStable<T>(s: seq<T>, key: T -> real)
    ensures StablySorted(s, SortBy(s, key), key)
  {
    var t := SortBy(s, key);
    SortByOrders(s, key);
    forall i, j | 0 <= i < j < |t| ensures key(t[i]) <= key(t[j]) {
      SortedAt(t, key, j);
    }
    forall k ensures WithKey(t, key, k) == WithKey(s, key, k) {
      SortStable(s, key, k);
    }
  }

  ghost predicate AllBefore<T>(s: seq<T>, x: T, before: (T, T) -> bool) {
    forall i | 0 <= i < |s| :: before(s[i], x)
  }

  /** Each element stands in the relation to all that follow it. */
  ghost predicate InTurn<T>(s: seq<T>, before: (T, T) -> bool) {
    s == [] || (InTurn(s[..|s| - 1], before) && AllBefore(s[..|s| - 1], s[|s| - 1], before))
  }

  /** By the key, and at the same key by the relation. */
  function ByKey<T>(key: T -> real, before: (T, T) -> bool): (r: (T, T) -> bool)
  {
    (x: T, y: T) => key(x) < key(y) || (key(x) == key(y) && before(x, y))
  }

  lemma {:induction false} InsertInTurn<T>(s: seq<T>, x: T, key: T -> real, before: (T, T) -> bool)
    requires InTurn(s, ByKey(key, before)) && SortedBy(s, key) && AllBefore(s, x, before)
    ensures InTurn(Insert(s, x, key), ByKey(key, before))
  {
    if s == [] || key(s[|s| - 1]) <= key(x) {
      assert (s + [x])[..|s|] == s;
      forall i | 0 <= i < |s| ensures ByKey(key, before)(s[i], x) {
        SortedAt(s, key, |s| - 1);
      }
    } else {
      var front, last := s[..|s| - 1], s[|s| - 1];
      var r := Insert(front, x, key);
      InsertInTurn(front, x, key, before);
      assert (r + [last])[..|s|] == r;
      forall i | 0 <= i < |r| ensures ByKey(key, before)(r[i], last) {
        InInserted(front, x, key, r[i]);
      }
    }
  }

  /** What stands in a relation still does where the keys are the same. */
  lemma {:induction false} SortInTurn<T>(s: seq<T>, key: T -> real, before: (T, T) -> bool)
    requires InTurn(s, before)
    ensures InTurn(SortBy(s, key), ByKey(key, before))
  {
    if s != [] {
      var front, last := s[..|s| - 1], s[|s| - 1];
      SortInTurn(front, key, before);
      SortByOrders(front, key);
      forall i | 0 <= i < |SortBy(front, key)| ensures before(SortBy(front, key)[i], last) {
        InSorted(front, key, SortBy(front, key)[i]);
      }
      InsertInTurn(SortBy(front, key), last, key, before);
    }
  }

  lemma {:induction false} InTurnAt<T>(s: seq<T>, before: (T, T) -> bool, i: int, j: int)
    requires InTurn(s, before) && 0 <= i < j < |s|
    ensures before(s[i], s[j])
    decreases |s|
  {
    if j == |s| - 1 {
      assert s[i] in s[..|s| - 1];
    } else {
      InTurnAt(s[..|s| - 1], before, i, j);
    }
  }
}
