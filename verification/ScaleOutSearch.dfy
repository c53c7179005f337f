/** The cost of a migration, and the exhaustive search for the cheapest one that passes the coded tests. */
module ScaleOutSearch {
  import opened AlgorithmConstants
  import opened CombinationLists
  import opened Combinations
  import opened Instances
  import opened Migration

  function R(x: real): (r: real)
    ensures r >= 0.0 && r >= x
  {
    if x >= 0.0 then x else 0.0
  }

  function Penalty(f: FlowInfo, time: real): (p: real)
  {
    f.rate * R(time + LA_PROCESS - f.sla)
  }

  function Penalties(s: seq<FlowInfo>, time: real): (p: real)
  {
    Total(s, (f: FlowInfo) => Penalty(f, time))
  }

  function Cost(s: seq<FlowInfo>, time: real): (c: real)
  {
    Charged(Penalties(s, time))
  }

  predicate BufferSafe(n: int, load: real) {
    BufferTime(n) * load <= BUFFER_SIZE
  }

  /** What the code requires of moving the flows at the indices t away from an instance with load oldLoad. */
  predicate Feasible(flow: seq<FlowInfo>, oldLoad: real, t: seq<int>) {
    var load := LoadOf(Select(flow, t));
    oldLoad > TH_SAFE - load && load < TH_SAFE && BufferSafe(|t|, load)
  }

  function CostOf(flow: seq<FlowInfo>, t: seq<int>, time: real): (c: real)
  {
    Cost(Select(flow, t), time)
  }

  lemma {:induction false} LoadOfSnoc(s: seq<FlowInfo>, f: FlowInfo)
    ensures LoadOf(s + [f]) == LoadOf(s) + Share(f.rate)
  {
    TotalRateSnoc(s, f);
  }

  lemma {:induction false} SelectSnoc<T>(s: seq<T>, t: seq<int>, j: nat)
    requires j < |t| && 0 <= t[j] < |s|
    ensures Select(s, t[..j + 1]) == Select(s, t[..j]) + [s[t[j]]]
  {
    assert t[..j + 1][..j] == t[..j];
  }

  method AddLoads(flow: seq<FlowInfo>, t: seq<int>) returns (newLoad: real)
    requires forall j | 0 <= j < |t| :: 0 <= t[j] < |flow|
    ensures newLoad == LoadOf(Select(flow, t))
  {
    newLoad := 0.0;
    for j := 0 to |t|
      invariant newLoad == LoadOf(Select(flow, t[..j]))
    {
      SelectSnoc(flow, t, j);
      LoadOfSnoc(Select(flow, t[..j]), flow[t[j]]);
      newLoad := newLoad + Share(flow[t[j]].rate);
    }
    assert t[..|t|] == t;
  }

  method AddCosts(flow: seq<FlowInfo>, t: seq<int>, time: real) returns (cost: real)
    requires forall j | 0 <= j < |t| :: 0 <= t[j] < |flow|
    ensures cost == CostOf(flow, t, time)
  {
    cost := 0.0;
    for j := 0 to |t|
      invariant cost == Penalties(Select(flow, t[..j]), time)
    {
      SelectSnoc(flow, t, j);
      PenaltiesSnoc(Select(flow, t[..j]), flow[t[j]], time);
      cost := cost + Penalty(flow[t[j]], time);
    }
    assert t[..|t|] == t;
    cost := Charged(cost);
  }

  lemma {:induction false} PenaltiesSnoc(s: seq<FlowInfo>, f: FlowInfo, time: real)
    ensures Penalties(s + [f], time) == Penalties(s, time) + Penalty(f, time)
  {
    TotalSnoc(s, f, (f: FlowInfo) => Penalty(f, time));
  }

  // ----- The search -----

  function Better(flow: seq<FlowInfo>, oldLoad: real, b: (seq<int>, real), t: seq<int>): (r: (seq<int>, real))
  {
    if Feasible(flow, oldLoad, t) && CostOf(flow, t, SFMT) < b.1 then (t, CostOf(flow, t, SFMT)) else b
  }

  method Consider(flow: seq<FlowInfo>, oldLoad: real, t: seq<int>, best: seq<int>, least: real)
    returns (result: seq<int>, maxCost: real)
    requires forall j | 0 <= j < |t| :: 0 <= t[j] < |flow|
    ensures (result, maxCost) == Better(flow, oldLoad, (best, least), t)
  {
    result, maxCost := best, least;
    var newLoad := AddLoads(flow, t);
    var oldUnsafe := oldLoad > TH_SAFE - newLoad;
    var newSafe := newLoad < TH_SAFE;
    if oldUnsafe && newSafe && BufferSafe(|t|, newLoad) {
      var cost := AddCosts(flow, t, SFMT);
      if cost < maxCost {
        result, maxCost := t, cost;
      }
    }
  }

  /** The candidate kept after weighing all of ts in turn, starting from b. */
  function Weigh(flow: seq<FlowInfo>, oldLoad: real, b: (seq<int>, real), ts: seq<seq<int>>): (r: (seq<int>, real))
  {
    if ts == [] then b else Better(flow, oldLoad, Weigh(flow, oldLoad, b, ts[..|ts| - 1]), ts[|ts| - 1])
  }

  /** The candidate kept after all sets of up to k flows, with its cost. */
  function Best(flow: seq<FlowInfo>, oldLoad: real, k: nat): (b: (seq<int>, real))
    requires k <= |flow|
  {
    if k == 0 then ([], MAX_COST) else Weigh(flow, oldLoad, Best(flow, oldLoad, k - 1), Positions(|flow|, k))
  }

  lemma {:induction false} PositionAt(n: nat, k: nat, i: nat)
    requires 1 <= k <= n && i < |Positions(n, k)|
    ensures var t := Positions(n, k)[i]; |t| == k && forall j | 0 <= j < k :: 0 <= t[j] < n
  {
    var t := Positions(n, k)[i];
    EnumeratesChoices(n, k, t);
    ChoiceInRange(t, n, k);
  }

  lemma {:induction false} WeighNext(flow: seq<FlowInfo>, oldLoad: real, b: (seq<int>, real), ts: seq<seq<int>>, i: nat)
    requires i < |ts|
    ensures Weigh(flow, oldLoad, b, ts[..i + 1]) == Better(flow, oldLoad, Weigh(flow, oldLoad, b, ts[..i]), ts[i])
  {
    assert ts[..i + 1][..i] == ts[..i];
  }

  /** One size of subsets: every combination nchoosek returns is weighed in turn. */
  method TryAll(flow: seq<FlowInfo>, oldLoad: real, index: IntList, f: nat, best: seq<int>, least: real)
    returns (result: seq<int>, maxCost: real)
    requires index.elems == Iota(|flow|) && 1 <= f <= |flow|
    ensures (result, maxCost) == Weigh(flow, oldLoad, (best, least), Positions(|flow|, f))
  {
    result, maxCost := best, least;
    var combos := Nchoosek(index, f);
    ghost var all := Positions(|flow|, f);
    ChooseIota(|flow|, f);
    for i := 0 to |combos|
      invariant Hold(combos, all)
      invariant (result, maxCost) == Weigh(flow, oldLoad, (best, least), all[..i])
    {
      PositionAt(|flow|, f, i);
      WeighNext(flow, oldLoad, (best, least), all, i);
      result, maxCost := Consider(flow, oldLoad, combos[i].elems, result, maxCost);
    }
    assert all[..|combos|] == all;
  }

  lemma {:induction false} SelectOfIota(n: nat, t: seq<int>)
    requires forall j | 0 <= j < |t| :: 0 <= t[j] < n
    ensures Select(Iota(n), t) == t
    decreases |t|
  {
    if t != [] {
      SelectOfIota(n, t[..|t| - 1]);
      assert t == t[..|t| - 1] + [t[|t| - 1]];
    }
  }

  lemma {:induction false} SelectEachOfIota(n: nat, k: nat, ts: seq<seq<int>>)
    requires AllChoices(ts, n, k)
    ensures SelectEach(Iota(n), ts) == ts
    decreases |ts|
  {
    if ts != [] {
      SelectEachOfIota(n, k, ts[..|ts| - 1]);
      ChoiceInRange(ts[|ts| - 1], n, k);
      SelectOfIota(n, ts[|ts| - 1]);
      assert ts == ts[..|ts| - 1] + [ts[|ts| - 1]];
    }
  }

  lemma {:induction false} ChooseIota(n: nat, k: nat)
    requires 1 <= k <= n
    ensures Choose(Iota(n), k) == Positions(n, k)
  {
    ChooseSelects(Iota(n), k);
    ArePositions(n, k);
    SelectEachOfIota(n, k, Positions(n, k));
  }

  /** The search over all sets of one to five flows. */
  method Search(flow: seq<FlowInfo>, flowNum: int, oldLoad: real) returns (result: seq<int>, maxCost: real)
    requires flowNum == |flow| >= 5
    ensures (result, maxCost) == Best(flow, oldLoad, 5)
  {
    var index := new IntList([]);
    for i := 0 to flowNum
      invariant index.elems == Iota(i)
    {
      index.elems := index.elems + [i];
    }
    result, maxCost := [], MAX_COST;
    for f := 1 to 6
      invariant index.elems == Iota(|flow|)
      invariant (result, maxCost) == Best(flow, oldLoad, f - 1)
    {
      result, maxCost := TryAll(flow, oldLoad, index, f, result, maxCost);
    }
  }

  // ----- What the search finds -----

  lemma {:induction false} WeighBelow(flow: seq<FlowInfo>, oldLoad: real, b: (seq<int>, real), ts: seq<seq<int>>)
    ensures Weigh(flow, oldLoad, b, ts).1 <= b.1
    ensures forall t | t in ts && Feasible(flow, oldLoad, t) :: Weigh(flow, oldLoad, b, ts).1 <= CostOf(flow, t, SFMT)
    decreases |ts|
  {
    if ts != [] {
      WeighBelow(flow, oldLoad, b, ts[..|ts| - 1]);
      assert forall t | t in ts && t != ts[|ts| - 1] :: t in ts[..|ts| - 1];
    }
  }

  lemma {:induction false} WeighAttained(flow: seq<FlowInfo>, oldLoad: real, b: (seq<int>, real), ts: seq<seq<int>>)
    ensures var r := Weigh(flow, oldLoad, b, ts);
      r == b || (r.0 in ts && Feasible(flow, oldLoad, r.0) && r.1 == CostOf(flow, r.0, SFMT) < b.1)
    decreases |ts|
  {
    if ts != [] {
      WeighAttained(flow, oldLoad, b, ts[..|ts| - 1]);
      WeighBelow(flow, oldLoad, b, ts[..|ts| - 1]);
    }
  }

  /** t is a choice of one to k flows that may be moved. */
  ghost predicate Candidate(flow: seq<FlowInfo>, oldLoad: real, k: nat, t: seq<int>) {
    1 <= |t| <= k && IsChoice(t, |flow|, |t|) && Feasible(flow, oldLoad, t)
  }

  lemma {:induction false} BestBelow(flow: seq<FlowInfo>, oldLoad: real, k: nat, t: seq<int>)
    requires k <= |flow| && Candidate(flow, oldLoad, k, t)
    ensures Best(flow, oldLoad, k).1 <= CostOf(flow, t, SFMT)
  {
    WeighBelow(flow, oldLoad, Best(flow, oldLoad, k - 1), Positions(|flow|, k));
    if |t| == k {
      EnumeratesChoices(|flow|, k, t);
    } else {
      BestBelow(flow, oldLoad, k - 1, t);
    }
  }

  lemma {:induction false} BestAttained(flow: seq<FlowInfo>, oldLoad: real, k: nat)
    requires k <= |flow|
    ensures var b := Best(flow, oldLoad, k);
      b == ([], MAX_COST) || (Candidate(flow, oldLoad, k, b.0) && b.1 == CostOf(flow, b.0, SFMT) < MAX_COST)
  {
    if k > 0 {
      var b := Best(flow, oldLoad, k);
      BestAttained(flow, oldLoad, k - 1);
      WeighAttained(flow, oldLoad, Best(flow, oldLoad, k - 1), Positions(|flow|, k));
      EnumeratesChoices(|flow|, k, b.0);
      if IsChoice(b.0, |flow|, k) {
        ChoiceInRange(b.0, |flow|, k);
      }
    }
  }

  /** No choice of one to five flows that may be moved costs less than `least`, which is what moving
      the chosen ones costs, or the initial bound if none is chosen. */
  ghost predicate Cheapest(flow: seq<FlowInfo>, oldLoad: real, chosen: seq<int>, least: real) {
    && (forall t | Candidate(flow, oldLoad, 5, t) :: least <= CostOf(flow, t, SFMT))
    && (if chosen == [] then least == MAX_COST
        else Candidate(flow, oldLoad, 5, chosen) && least == CostOf(flow, chosen, SFMT) < MAX_COST)
  }

  /** What the search keeps is the cheapest. */
  lemma {:induction false} BestIsCheapest(flow: seq<FlowInfo>, oldLoad: real)
    requires |flow| >= 5
    ensures Cheapest(flow, oldLoad, Best(flow, oldLoad, 5).0, Best(flow, oldLoad, 5).1)
  {
    BestAttained(flow, oldLoad, 5);
    forall t | Candidate(flow, oldLoad, 5, t) ensures Best(flow, oldLoad, 5).1 <= CostOf(flow, t, SFMT) {
      BestBelow(flow, oldLoad, 5, t);
    }
  }

  lemma {:induction false} BestIsChoice(flow: seq<FlowInfo>, oldLoad: real)
    requires |flow| >= 5
    ensures var t := Best(flow, oldLoad, 5).0; IsChoice(t, |flow|, |t|)
  {
    BestAttained(flow, oldLoad, 5);
  }
}
