/** The recursive enumeration of combinations over shared, mutable lists. */
module CombinationLists {
  import opened Combinations
  import opened Distinctness

  /** A java.util list of integers. */
  class IntList {
    var elems: seq<int>

    constructor (elems: seq<int>)
      ensures this.elems == elems
    {
      this.elems := elems;
    }
  }

  /** The lists ls, in order, hold the sequences c. */
  ghost predicate Hold(ls: seq<IntList>, c: seq<seq<int>>)
    reads ls
  {
    |ls| == |c| && forall i | 0 <= i < |ls| :: ls[i].elems == c[i]
  }

  /** All combinations of num elements. Results of recursive calls are extended in place, which is
      safe because no two of them, and not the source, are the same list. */
  method Nchoosek(source: IntList, num: int) returns (result: seq<IntList>)
    requires num <= 1 || num <= |source.elems|
    ensures Hold(result, Choose(source.elems, num))
    ensures Distinct(result)
    ensures forall i | 0 <= i < |result| :: fresh(result[i]) || (|source.elems| == num && result[i] == source)
    decreases |source.elems|, 1
  {
    ChooseUnfold(source.elems, num);
    if |source.elems| == num {
      result := [source];
    } else if num > 1 {
      result := WithAndWithoutLast(source, num);
    } else {
      result := OneEach(source);
    }
  }

  method WithAndWithoutLast(source: IntList, num: nat) returns (result: seq<IntList>)
    requires 1 < num < |source.elems|
    ensures Hold(result, AppendEach(Choose(source.elems[..|source.elems| - 1], num - 1),
                                    source.elems[|source.elems| - 1])
                         + Choose(source.elems[..|source.elems| - 1], num))
    ensures Distinct(result)
    ensures forall i | 0 <= i < |result| :: fresh(result[i])
    decreases |source.elems|, 0
  {
    var sourceParam := AllButLast(source);
    ghost var front, last := sourceParam.elems, source.elems[|source.elems| - 1];
    var tempResult := WithLast(sourceParam, num - 1, source.elems[|source.elems| - 1]);
    var more := Nchoosek(sourceParam, num);
    HoldConcat(tempResult, AppendEach(Choose(front, num - 1), last), more, Choose(front, num));
    DistinctConcat(tempResult, more);
    result := tempResult + more;
  }

  method WithLast(sourceParam: IntList, num: nat, x: int) returns (result: seq<IntList>)
    requires 1 <= num < |sourceParam.elems|
    ensures Hold(result, AppendEach(Choose(sourceParam.elems, num), x))
    ensures Distinct(result)
    ensures forall i | 0 <= i < |result| :: fresh(result[i])
    decreases |sourceParam.elems|, 2
  {
    result := Nchoosek(sourceParam, num);
    AppendToAll(result, x, Choose(sourceParam.elems, num));
  }

  lemma {:induction false} HoldConcat(a: seq<IntList>, c: seq<seq<int>>, b: seq<IntList>, d: seq<seq<int>>)
    requires Hold(a, c) && Hold(b, d)
    ensures Hold(a + b, c + d)
  {
  }

  method AllButLast(source: IntList) returns (sourceParam: IntList)
    requires |source.elems| > 0
    ensures fresh(sourceParam) && sourceParam.elems == source.elems[..|source.elems| - 1]
  {
    sourceParam := new IntList([]);
    for i := 0 to |source.elems| - 1
      invariant sourceParam.elems == source.elems[..i]
    {
      sourceParam.elems := sourceParam.elems + [source.elems[i]];
    }
  }

  /** Appends x to every list, in place. */
  method AppendToAll(ls: seq<IntList>, x: int, ghost c: seq<seq<int>>)
    requires Distinct(ls) && Hold(ls, c)
    modifies ls
    ensures Hold(ls, AppendEach(c, x))
  {
    for j := 0 to |ls|
      invariant forall k | 0 <= k < |ls| :: ls[k].elems == (if k < j then c[k] + [x] else c[k])
    {
      DistinctAt(ls, j);
      ls[j].elems := ls[j].elems + [x];
    }
    AppendEachAt(c, x);
  }

  lemma {:induction false} HoldSnoc(a: seq<IntList>, c: seq<seq<int>>, x: IntList)
    requires Hold(a, c)
    ensures Hold(a + [x], c + [x.elems])
  {
  }

  lemma {:induction false} OneMore(result: seq<IntList>, s: seq<int>, i: nat, temp: IntList)
    requires i < |s| && Hold(result, Singletons(s[..i])) && Distinct(result) && temp !in result && temp.elems == [s[i]]
    ensures Hold(result + [temp], Singletons(s[..i + 1])) && Distinct(result + [temp])
  {
    SingletonsSnoc(s, i);
    HoldSnoc(result, Singletons(s[..i]), temp);
    DistinctSnoc(result, temp);
  }

  /** A new list with the element at i alone. */
  method Alone(source: IntList, i: nat, ghost result: seq<IntList>) returns (temp: IntList)
    requires i < |source.elems| && Hold(result, Singletons(source.elems[..i])) && Distinct(result)
    ensures fresh(temp)
    ensures Hold(result + [temp], Singletons(source.elems[..i + 1])) && Distinct(result + [temp])
  {
    temp := new IntList([source.elems[i]]);
    OneMore(result, source.elems, i, temp);
  }

  method OneEach(source: IntList) returns (result: seq<IntList>)
    ensures Hold(result, Singletons(source.elems))
    ensures Distinct(result) && forall k | 0 <= k < |result| :: fresh(result[k])
  {
    result := [];
    for i := 0 to |source.elems|
      invariant Hold(result, Singletons(source.elems[..i])) && Distinct(result)
      invariant forall k | 0 <= k < |result| :: fresh(result[k])
    {
      var temp := Alone(source, i, result);
      result := result + [temp];
    }
    assert source.elems[..|source.elems|] == source.elems;
  }
}
