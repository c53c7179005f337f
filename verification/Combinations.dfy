/** The k-element subsequences of a list, as nchoosek enumerates them. */
module Combinations {
  import opened Distinctness

  /** Each list of ls with x put at its end. */
  function AppendEach<T>(ls: seq<seq<T>>, x: T): (r: seq<seq<T>>)
    ensures |r| == |ls|
  {
    if ls == [] then [] else AppendEach(ls[..|ls| - 1], x) + [ls[|ls| - 1] + [x]]
  }

  function Singletons<T>(s: seq<T>): (r: seq<seq<T>>)
    ensures |r| == |s|
  {
    if s == [] then [] else Singletons(s[..|s| - 1]) + [[s[|s| - 1]]]
  }

  lemma {:induction false} AppendEachAt<T>(ls: seq<seq<T>>, x: T)
    ensures forall i | 0 <= i < |ls| :: AppendEach(ls, x)[i] == ls[i] + [x]
  {
    if ls != [] {
      AppendEachAt(ls[..|ls| - 1], x);
    }
  }

  /** The combinations of k elements of s, those with the last element first; for a size below 1 that is not
      the list's own, single elements. */
  function Choose<T(==)>(s: seq<T>, k: int): (r: seq<seq<T>>)
    requires k <= 1 || k <= |s|
    decreases |s|
  {
    if |s| == k then [s]
    else if k > 1 then
      var front := s[..|s| - 1];
      AppendEach(Choose(front, k - 1), s[|s| - 1]) + Choose(front, k)
    else Singletons(s)
  }

  lemma {:induction false} ChooseUnfold<T>(s: seq<T>, k: int)
    requires k <= 1 || k <= |s|
    ensures |s| == k ==> Choose(s, k) == [s]
    ensures 1 < k < |s| ==>
      Choose(s, k) == AppendEach(Choose(s[..|s| - 1], k - 1), s[|s| - 1]) + Choose(s[..|s| - 1], k)
    ensures k <= 1 && k != |s| ==> Choose(s, k) == Singletons(s)
  {
  }

  /** The positions 0 to n - 1. */
  function Iota(n: nat): (s: seq<int>)
    ensures |s| == n && forall i | 0 <= i < n :: s[i] == i
  {
    if n == 0 then [] else Iota(n - 1) + [n - 1]
  }

  /** The choices of k positions below n, in the order of Choose. */
  function Positions(n: nat, k: nat): (r: seq<seq<int>>)
    requires 1 <= k <= n
    decreases n
  {
    if n == k then [Iota(n)]
    else if k > 1 then AppendEach(Positions(n - 1, k - 1), n - 1) + Positions(n - 1, k)
    else Singletons(Iota(n))
  }

  /** A strictly increasing choice of k positions below n: what a k-element subset of n things is. */
  predicate IsChoice(t: seq<int>, n: int, k: nat) {
    if k == 0 then t == []
    else |t| == k && 0 <= t[k - 1] < n && IsChoice(t[..k - 1], t[k - 1], k - 1)
  }

  lemma {:induction false} ChoiceInRange(t: seq<int>, n: int, k: nat)
    requires IsChoice(t, n, k)
    ensures |t| == k && forall i | 0 <= i < k :: 0 <= t[i] < n
  {
    if k > 0 {
      ChoiceInRange(t[..k - 1], t[k - 1], k - 1);
    }
  }

  lemma {:induction false} ChoiceIncreases(t: seq<int>, n: int, k: nat)
    requires IsChoice(t, n, k)
    ensures |t| == k && forall i, j | 0 <= i < j < k :: t[i] < t[j]
  {
    if k > 0 {
      ChoiceInRange(t[..k - 1], t[k - 1], k - 1);
      ChoiceIncreases(t[..k - 1], t[k - 1], k - 1);
    }
  }

  lemma {:induction false} IncreasingIsChoice(t: seq<int>, n: int)
    requires (forall i | 0 <= i < |t| :: 0 <= t[i] < n) && forall i, j | 0 <= i < j < |t| :: t[i] < t[j]
    ensures IsChoice(t, n, |t|)
    decreases |t|
  {
    if t != [] {
      IncreasingIsChoice(t[..|t| - 1], t[|t| - 1]);
    }
  }

  lemma {:induction false} ChoiceBound(t: seq<int>, n: int, k: nat)
    requires IsChoice(t, n, k)
    ensures k > 0 || n >= 0 ==> k <= n
    ensures k == n ==> t == Iota(n)
    decreases k
  {
    if k > 0 {
      ChoiceBound(t[..k - 1], t[k - 1], k - 1);
      assert t == t[..k - 1] + [t[k - 1]];
    }
  }

  lemma {:induction false} IotaIsChoice(n: nat)
    ensures IsChoice(Iota(n), n, n)
  {
    if n > 0 {
      IotaIsChoice(n - 1);
      assert Iota(n)[..n - 1] == Iota(n - 1);
    }
  }

  // ----- The enumeration is complete and without repetition -----

  lemma {:induction false} InConcat<T>(a: seq<T>, b: seq<T>, x: T)
    ensures x in a + b <==> x in a || x in b
  {
  }

  lemma {:induction false} InAppendEach<T>(ls: seq<seq<T>>, x: T, t: seq<T>)
    ensures t in AppendEach(ls, x) <==> t != [] && t[|t| - 1] == x && t[..|t| - 1] in ls
    decreases |ls|
  {
    if ls != [] {
      var front, last := ls[..|ls| - 1], ls[|ls| - 1];
      InAppendEach(front, x, t);
      InConcat(AppendEach(front, x), [last + [x]], t);
      InConcat(front, [last], if t == [] then [] else t[..|t| - 1]);
      assert ls == front + [last];
      if t != [] && t[|t| - 1] == x {
        assert t == t[..|t| - 1] + [x];
      }
      assert (last + [x])[..|last|] == last;
    }
  }

  lemma {:induction false} SingletonsSnoc<T>(s: seq<T>, i: nat)
    requires i < |s|
    ensures Singletons(s[..i + 1]) == Singletons(s[..i]) + [[s[i]]]
  {
    assert s[..i + 1][..i] == s[..i];
  }

  lemma {:induction false} IotaSingletons(n: nat)
    requires n > 0
    ensures Singletons(Iota(n)) == Singletons(Iota(n - 1)) + [[n - 1]]
  {
    assert Iota(n)[..n - 1] == Iota(n - 1);
  }

  lemma {:induction false} InSingletons(n: nat, t: seq<int>)
    ensures t in Singletons(Iota(n)) <==> IsChoice(t, n, 1)
  {
    if n > 0 {
      InSingletons(n - 1, t);
      IotaSingletons(n);
      InConcat(Singletons(Iota(n - 1)), [[n - 1]], t);
      if |t| == 1 {
        assert t == [t[0]];
      }
    }
  }

  /** The enumeration holds exactly the choices. */
  lemma {:induction false} EnumeratesChoices(n: nat, k: nat, t: seq<int>)
    requires 1 <= k <= n
    ensures t in Positions(n, k) <==> IsChoice(t, n, k)
    decreases n
  {
    if n == k {
      IotaIsChoice(n);
      if IsChoice(t, n, k) {
        ChoiceBound(t, n, k);
      }
    } else if k > 1 {
      EnumeratesChoices(n - 1, k, t);
      if t != [] {
        EnumeratesChoices(n - 1, k - 1, t[..|t| - 1]);
      }
      LastOrNot(Positions(n - 1, k - 1), Positions(n - 1, k), n, k, t);
    } else {
      InSingletons(n, t);
    }
  }

  /** A choice either takes the last position or leaves it out. */
  lemma {:induction false} LastOrNot(with: seq<seq<int>>, without: seq<seq<int>>, n: nat, k: nat, t: seq<int>)
    requires n > 0 && k > 0
    requires t in without <==> IsChoice(t, n - 1, k)
    requires t != [] ==> (t[..|t| - 1] in with <==> IsChoice(t[..|t| - 1], n - 1, k - 1))
    ensures t in AppendEach(with, n - 1) + without <==> IsChoice(t, n, k)
  {
    InConcat(AppendEach(with, n - 1), without, t);
    InAppendEach(with, n - 1, t);
  }

  lemma {:induction false} DistinctAppendEach<T>(ls: seq<seq<T>>, x: T)
    requires Distinct(ls)
    ensures Distinct(AppendEach(ls, x))
    decreases |ls|
  {
    if ls != [] {
      var front, last := ls[..|ls| - 1], ls[|ls| - 1];
      DistinctAppendEach(front, x);
      InAppendEach(front, x, last + [x]);
      assert (last + [x])[..|last|] == last;
      assert AppendEach(ls, x)[..|ls| - 1] == AppendEach(front, x);
    }
  }

  lemma {:induction false} DistinctSingletons(n: nat)
    ensures Distinct(Singletons(Iota(n)))
  {
    if n > 0 {
      DistinctSingletons(n - 1);
      InSingletons(n - 1, [n - 1]);
      assert Iota(n)[..n - 1] == Iota(n - 1);
      assert Singletons(Iota(n))[..n - 1] == Singletons(Iota(n - 1));
    }
  }

  /** No choice comes up twice. */
  lemma {:induction false} EnumeratesOnce(n: nat, k: nat)
    requires 1 <= k <= n
    ensures Distinct(Positions(n, k))
    decreases n
  {
    if n == k {
      assert Positions(n, k)[..0] == [];
    } else if k > 1 {
      var with, without := Positions(n - 1, k - 1), Positions(n - 1, k);
      EnumeratesOnce(n - 1, k - 1);
      EnumeratesOnce(n - 1, k);
      DistinctAppendEach(with, n - 1);
      forall t | t in without ensures t !in AppendEach(with, n - 1) {
        EnumeratesChoices(n - 1, k, t);
        InAppendEach(with, n - 1, t);
      }
      DistinctConcat(AppendEach(with, n - 1), without);
    } else {
      DistinctSingletons(n);
    }
  }

  function Binomial(n: nat, k: nat): (b: nat)
  {
    if k == 0 then 1 else if n == 0 then 0 else Binomial(n - 1, k - 1) + Binomial(n - 1, k)
  }

  lemma {:induction false} BinomialAbove(n: nat, k: nat)
    requires k > n
    ensures Binomial(n, k) == 0
  {
    if n > 0 {
      BinomialAbove(n - 1, k - 1);
      BinomialAbove(n - 1, k);
    }
  }

  lemma {:induction false} BinomialEnds(n: nat)
    ensures Binomial(n, n) == 1 && Binomial(n, 1) == n
  {
    if n > 0 {
      BinomialEnds(n - 1);
      BinomialAbove(n - 1, n);
    }
  }

  lemma {:induction false} EnumerationSize<T>(s: seq<T>, k: nat)
    requires 1 <= k <= |s|
    ensures |Choose(s, k)| == Binomial(|s|, k)
    decreases |s|
  {
    BinomialEnds(|s|);
    if |s| != k && k > 1 {
      EnumerationSize(s[..|s| - 1], k - 1);
      EnumerationSize(s[..|s| - 1], k);
    }
  }

  // ----- Combinations of any list -----

  /** The elements of s at the given positions. */
  function Select<T>(s: seq<T>, t: seq<int>): (r: seq<T>)
    ensures |r| <= |t|
  {
    if t == [] then []
    else
      var p := t[|t| - 1];
      Select(s, t[..|t| - 1]) + (if 0 <= p < |s| then [s[p]] else [])
  }

  function SelectEach<T>(s: seq<T>, ts: seq<seq<int>>): (r: seq<seq<T>>)
    ensures |r| == |ts|
  {
    if ts == [] then [] else SelectEach(s, ts[..|ts| - 1]) + [Select(s, ts[|ts| - 1])]
  }

  lemma {:induction false} SelectConcat<T>(s: seq<T>, a: seq<seq<int>>, b: seq<seq<int>>)
    ensures SelectEach(s, a + b) == SelectEach(s, a) + SelectEach(s, b)
    decreases |b|
  {
    if b == [] {
      assert a + b == a;
    } else {
      SelectConcat(s, a, b[..|b| - 1]);
      assert (a + b)[..|a + b| - 1] == a + b[..|b| - 1];
    }
  }

  lemma {:induction false} SelectFromFront<T>(s: seq<T>, t: seq<int>, n: int, k: nat)
    requires IsChoice(t, n, k) && s != [] && n < |s|
    ensures Select(s, t) == Select(s[..|s| - 1], t)
    decreases k
  {
    if k > 0 {
      SelectFromFront(s, t[..k - 1], t[k - 1], k - 1);
    }
  }

  lemma {:induction false} SelectIota<T>(s: seq<T>, n: nat)
    requires n <= |s|
    ensures Select(s, Iota(n)) == s[..n]
  {
    if n > 0 {
      SelectIota(s, n - 1);
      assert Iota(n)[..n - 1] == Iota(n - 1);
    }
  }

  ghost predicate AllChoices(ts: seq<seq<int>>, n: int, k: nat) {
    forall t | t in ts :: IsChoice(t, n, k)
  }

  lemma {:induction false} SelectEachFromFront<T>(s: seq<T>, ts: seq<seq<int>>, k: nat)
    requires s != [] && AllChoices(ts, |s| - 1, k)
    ensures SelectEach(s, ts) == SelectEach(s[..|s| - 1], ts)
    decreases |ts|
  {
    if ts != [] {
      SelectEachFromFront(s, ts[..|ts| - 1], k);
      SelectFromFront(s, ts[|ts| - 1], |s| - 1, k);
    }
  }

  lemma {:induction false} SelectEachAppended<T>(s: seq<T>, ts: seq<seq<int>>, k: nat)
    requires s != [] && AllChoices(ts, |s| - 1, k)
    ensures SelectEach(s, AppendEach(ts, |s| - 1)) == AppendEach(SelectEach(s[..|s| - 1], ts), s[|s| - 1])
    decreases |ts|
  {
    if ts != [] {
      var front, last, n := ts[..|ts| - 1], ts[|ts| - 1], |s|;
      SelectEachAppended(s, front, k);
      SelectFromFront(s, last, n - 1, k);
      assert (last + [n - 1])[..|last|] == last;
      assert AppendEach(ts, n - 1)[..|ts| - 1] == AppendEach(front, n - 1);
      assert SelectEach(s[..n - 1], ts)[..|ts| - 1] == SelectEach(s[..n - 1], front);
    }
  }

  lemma {:induction false} SelectSingletons<T>(s: seq<T>, n: nat)
    requires n <= |s|
    ensures SelectEach(s, Singletons(Iota(n))) == Singletons(s[..n])
  {
    if n > 0 {
      SelectSingletons(s, n - 1);
      IotaSingletons(n);
      SelectConcat(s, Singletons(Iota(n - 1)), [[n - 1]]);
      SelectOne(s, [n - 1]);
      SelectAt(s, n - 1);
      SingletonsSnoc(s, n - 1);
    }
  }

  lemma {:induction false} SelectAt<T>(s: seq<T>, i: nat)
    requires i < |s|
    ensures Select(s, [i]) == [s[i]]
  {
    assert [i][..0] == [];
  }

  /** The combinations hold the elements at each choice of positions in turn. */
  ghost predicate AsPositions<T>(s: seq<T>, k: nat)
    requires 1 <= k <= |s|
  {
    Choose(s, k) == SelectEach(s, Positions(|s|, k))
  }

  /** For any source list. */
  lemma {:induction false} ChooseSelects<T>(s: seq<T>, k: nat)
    requires 1 <= k <= |s|
    ensures AsPositions(s, k)
    decreases |s|
  {
    if |s| == k {
      ChooseSelectsAll(s);
    } else if k > 1 {
      ChooseSelects(s[..|s| - 1], k - 1);
      ChooseSelects(s[..|s| - 1], k);
      ChooseSelectsMore(s, s[..|s| - 1], k);
    } else {
      ChooseSelectsOne(s);
    }
  }

  lemma {:induction false} ChooseSelectsAll<T>(s: seq<T>)
    requires s != []
    ensures AsPositions(s, |s|)
  {
    SelectIota(s, |s|);
    SelectOne(s, Iota(|s|));
    assert s[..|s|] == s;
  }

  lemma {:induction false} ChooseSelectsMore<T>(s: seq<T>, front: seq<T>, k: nat)
    requires 1 < k < |s| && front == s[..|s| - 1] && AsPositions(front, k - 1) && AsPositions(front, k)
    ensures AsPositions(s, k)
  {
    SelectsMore(s, k, Choose(front, k - 1), Choose(front, k));
    ChooseUnfold(s, k);
  }

  lemma {:induction false} ChooseSelectsOne<T>(s: seq<T>)
    requires |s| > 1
    ensures AsPositions(s, 1)
  {
    SelectSingletons(s, |s|);
    assert s[..|s|] == s;
  }

  lemma {:induction false} PositionsUnfold(n: nat, k: nat)
    requires 1 < k < n
    ensures Positions(n, k) == AppendEach(Positions(n - 1, k - 1), n - 1) + Positions(n - 1, k)
  {
  }

  /** What is selected by the positions with the last one, and by those without it. */
  lemma {:induction false} SelectsMore<T>(s: seq<T>, k: nat, with: seq<seq<T>>, without: seq<seq<T>>)
    requires 1 < k < |s|
    requires with == SelectEach(s[..|s| - 1], Positions(|s| - 1, k - 1))
    requires without == SelectEach(s[..|s| - 1], Positions(|s| - 1, k))
    ensures AppendEach(with, s[|s| - 1]) + without == SelectEach(s, Positions(|s|, k))
  {
    PositionsUnfold(|s|, k);
    PositionParts(s, k);
  }

  lemma {:induction false} PositionParts<T>(s: seq<T>, k: nat)
    requires 1 < k < |s|
    ensures var n, with, without := |s|, Positions(|s| - 1, k - 1), Positions(|s| - 1, k);
            SelectEach(s, AppendEach(with, n - 1) + without)
            == AppendEach(SelectEach(s[..n - 1], with), s[n - 1]) + SelectEach(s[..n - 1], without)
  {
    ArePositions(|s| - 1, k - 1);
    ArePositions(|s| - 1, k);
    SelectParts(s, Positions(|s| - 1, k - 1), Positions(|s| - 1, k), k);
  }

  lemma {:induction false} SelectOne<T>(s: seq<T>, t: seq<int>)
    ensures SelectEach(s, [t]) == [Select(s, t)]
  {
    assert [t][..0] == [];
  }

  lemma {:induction false} ArePositions(n: nat, k: nat)
    requires 1 <= k <= n
    ensures AllChoices(Positions(n, k), n, k)
  {
    forall t | t in Positions(n, k) ensures IsChoice(t, n, k) {
      EnumeratesChoices(n, k, t);
    }
  }

  lemma {:induction false} SelectParts<T>(s: seq<T>, with: seq<seq<int>>, without: seq<seq<int>>, k: nat)
    requires s != [] && k > 0 && AllChoices(with, |s| - 1, k - 1) && AllChoices(without, |s| - 1, k)
    ensures SelectEach(s, AppendEach(with, |s| - 1) + without)
         == AppendEach(SelectEach(s[..|s| - 1], with), s[|s| - 1]) + SelectEach(s[..|s| - 1], without)
  {
    SelectEachAppended(s, with, k - 1);
    SelectEachFromFront(s, without, k);
    SelectConcat(s, AppendEach(with, |s| - 1), without);
  }

  // ----- The order of the enumeration -----

  /** At the last place where they differ t has the greater position; but at the first place, the smaller. */
  predicate ComesFirst(t: seq<int>, u: seq<int>) {
    && |t| == |u| > 0
    && var k := |t| - 1;
       if t[k] == u[k] then ComesFirst(t[..k], u[..k]) else if k == 0 then t[k] < u[k] else t[k] > u[k]
  }

  lemma {:induction false} SingletonIs(n: nat, i: int)
    requires 0 <= i < n
    ensures Singletons(Iota(n))[i] == [i]
  {
    IotaSingletons(n);
    if i < n - 1 {
      SingletonIs(n - 1, i);
    }
  }

  lemma {:induction false} AppendedAt<T>(ls: seq<seq<T>>, x: T, i: nat)
    requires i < |ls|
    ensures AppendEach(ls, x)[i] == ls[i] + [x]
  {
    if i < |ls| - 1 {
      AppendedAt(ls[..|ls| - 1], x, i);
    }
  }

  ghost predicate AllInOrder(ts: seq<seq<int>>) {
    forall i, j | 0 <= i < j < |ts| :: ComesFirst(ts[i], ts[j])
  }

  lemma {:induction false} SameLastFirst(t: seq<int>, u: seq<int>, x: int)
    requires ComesFirst(t, u)
    ensures ComesFirst(t + [x], u + [x])
  {
    assert (t + [x])[..|t|] == t && (u + [x])[..|u|] == u;
  }

  lemma {:induction false} GreaterLastFirst(t: seq<int>, x: int, u: seq<int>)
    requires |u| == |t| + 1 > 1 && u[|t|] < x
    ensures ComesFirst(t + [x], u)
  {
  }

  lemma {:induction false} AppendedInOrder(ts: seq<seq<int>>, x: int)
    requires AllInOrder(ts)
    ensures AllInOrder(AppendEach(ts, x))
  {
    forall i, j | 0 <= i < j < |ts| ensures ComesFirst(AppendEach(ts, x)[i], AppendEach(ts, x)[j]) {
      AppendedAt(ts, x, i);
      AppendedAt(ts, x, j);
      SameLastFirst(ts[i], ts[j], x);
    }
  }

  lemma {:induction false} JoinInOrder(a: seq<seq<int>>, b: seq<seq<int>>)
    requires AllInOrder(a) && AllInOrder(b)
    requires forall i, j | 0 <= i < |a| && 0 <= j < |b| :: ComesFirst(a[i], b[j])
    ensures AllInOrder(a + b)
  {
  }

  /** Choices of k positions below n. */
  ghost predicate LastsBelow(ts: seq<seq<int>>, n: nat, k: nat)
    requires k > 0
  {
    forall i | 0 <= i < |ts| :: |ts[i]| == k && ts[i][k - 1] < n
  }

  lemma {:induction false} PositionsBelow(n: nat, k: nat)
    requires 1 <= k <= n
    ensures LastsBelow(Positions(n, k), n, k)
  {
    forall i | 0 <= i < |Positions(n, k)| ensures |Positions(n, k)[i]| == k && Positions(n, k)[i][k - 1] < n {
      EnumeratesChoices(n, k, Positions(n, k)[i]);
      ChoiceInRange(Positions(n, k)[i], n, k);
    }
  }

  lemma {:induction false} PartsInOrder(n: nat, k: nat, with: seq<seq<int>>, without: seq<seq<int>>)
    requires k > 1 && LastsBelow(with, n, k - 1) && LastsBelow(without, n, k)
    requires AllInOrder(with) && AllInOrder(without)
    ensures AllInOrder(AppendEach(with, n) + without)
  {
    var all := AppendEach(with, n);
    AppendedInOrder(with, n);
    forall i, j | 0 <= i < |all| && 0 <= j < |without| ensures ComesFirst(all[i], without[j]) {
      AppendedAt(with, n, i);
      GreaterLastFirst(with[i], n, without[j]);
    }
    JoinInOrder(all, without);
  }

  lemma {:induction false} SingletonsInOrder(n: nat)
    ensures AllInOrder(Singletons(Iota(n)))
  {
    forall i, j | 0 <= i < j < |Singletons(Iota(n))|
      ensures ComesFirst(Singletons(Iota(n))[i], Singletons(Iota(n))[j])
    {
      SingletonIs(n, i);
      SingletonIs(n, j);
    }
  }

  /** The enumeration is in this order. */
  lemma {:induction false} EnumerationOrder(n: nat, k: nat)
    requires 1 <= k <= n
    ensures AllInOrder(Positions(n, k))
    decreases n
  {
    if n == k {
      assert |Positions(n, k)| == 1;
    } else if k == 1 {
      SingletonsInOrder(n);
    } else {
      EnumerationOrder(n - 1, k - 1);
      EnumerationOrder(n - 1, k);
      PositionsBelow(n - 1, k - 1);
      PositionsBelow(n - 1, k);
      PartsInOrder(n - 1, k, Positions(n - 1, k - 1), Positions(n - 1, k));
      PositionsUnfold(n, k);
    }
  }
}
