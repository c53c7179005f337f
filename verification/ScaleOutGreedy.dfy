/** The greedy choice of the flows to move away from an overloaded instance. */
module ScaleOutGreedy {
  import opened AlgorithmConstants
  import opened Combinations
  import opened Distinctness
  import opened Instances
  import opened Migration
  import opened ScaleOutSearch

  function Product(f: FlowInfo): (p: real)
  {
    f.rate * (f.sla - LA_PROCESS - SFMT)
  }

  /** The list of products, those of the picked flows overwritten. */
  function Products(flow: seq<FlowInfo>, picked: set<int>): (r: seq<real>)
    ensures |r| == |flow|
  {
    if flow == [] then []
    else Products(flow[..|flow| - 1], picked) + [if |flow| - 1 in picked then PICKED else Product(flow[|flow| - 1])]
  }

  lemma {:induction false} ProductsAt(flow: seq<FlowInfo>, picked: set<int>)
    ensures forall i | 0 <= i < |flow| :: Products(flow, picked)[i] == if i in picked then PICKED else Product(flow[i])
  {
    if flow != [] {
      ProductsAt(flow[..|flow| - 1], picked);
    }
  }

  /** The greater product is preferred, at equal products the greater rate. */
  predicate Preferred(product: real, f: FlowInfo, other: real, g: FlowInfo) {
    product > other || (product == other && f.rate > g.rate)
  }

  /** The first of the most preferred indices below n. */
  function Most(p: seq<real>, flow: seq<FlowInfo>, n: nat): (m: int)
    requires 0 < n <= |p| == |flow|
    ensures 0 <= m < n
  {
    if n == 1 then 0
    else
      var m := Most(p, flow, n - 1);
      if Preferred(p[n - 1], flow[n - 1], p[m], flow[m]) then n - 1 else m
  }

  lemma {:induction false} MostIsPreferred(p: seq<real>, flow: seq<FlowInfo>, n: nat)
    requires 0 < n <= |p| == |flow|
    ensures var m := Most(p, flow, n);
      && (forall i | 0 <= i < m :: Preferred(p[m], flow[m], p[i], flow[i]))
      && (forall i | m < i < n :: !Preferred(p[i], flow[i], p[m], flow[m]))
  {
    if n > 1 {
      MostIsPreferred(p, flow, n - 1);
    }
  }

  /** The scan for the next flow, over products that are not all overwritten. */
  method PickNext(p: seq<real>, flow: seq<FlowInfo>) returns (maxIndex: int)
    requires |p| == |flow| && exists i :: 0 <= i < |p| && p[i] > PICKED
    ensures maxIndex == Most(p, flow, |p|) && p[maxIndex] > PICKED
  {
    var maxProduct := PICKED;
    maxIndex := 0;
    for i := 0 to |p|
      invariant 0 <= maxIndex < |p|
      invariant maxProduct >= PICKED
      invariant maxProduct == PICKED ==> forall j | 0 <= j < i :: p[j] <= PICKED
      invariant maxProduct > PICKED ==> i > 0 && maxIndex == Most(p, flow, i) && maxProduct == p[maxIndex]
    {
      if p[i] > maxProduct || (p[i] == maxProduct && flow[i].rate > flow[maxIndex].rate) {
        maxIndex, maxProduct := i, p[i];
      }
    }
  }

  function Load(flow: seq<FlowInfo>, picks: seq<int>): (r: real)
  {
    TotalRate(Select(flow, picks))
  }

  function Residual(flow: seq<FlowInfo>, picks: seq<int>): (r: real)
  {
    TotalRate(Kept(flow, Elements(picks)))
  }

  /** Without the picked flows the instance is still overloaded. */
  predicate Unsafe(flow: seq<FlowInfo>, picks: seq<int>) {
    Residual(flow, picks) >= SAFE_LOAD
  }

  /** The picked flows are a safe load for the new instance, and fit the buffer while they move. */
  predicate Within(flow: seq<FlowInfo>, picks: seq<int>) {
    Load(flow, picks) <= SAFE_LOAD && BufferSafe(|picks|, Load(flow, picks))
  }

  /** k is the flow to pick next. */
  predicate Next(flow: seq<FlowInfo>, picks: seq<int>, k: int) {
    flow != [] && k !in picks && k == Most(Products(flow, Elements(picks)), flow, |flow|)
  }

  /** A greedy run: while the instance is overloaded and no bound is broken, the next flow is the most
      preferred of those not picked. */
  ghost predicate Run(flow: seq<FlowInfo>, picks: seq<int>) {
    picks == []
    || (var front, last := picks[..|picks| - 1], picks[|picks| - 1];
        Run(flow, front) && Unsafe(flow, front) && Within(flow, front) && Next(flow, front, last))
  }

  /** A run that does not go on. */
  ghost predicate Finished(flow: seq<FlowInfo>, picks: seq<int>) {
    Run(flow, picks) && !(Unsafe(flow, picks) && Within(flow, picks))
  }

  /** What is moved: the picked flows, without the last one if it broke a bound. */
  function Moved(flow: seq<FlowInfo>, picks: seq<int>): (r: seq<int>)
  {
    if picks == [] || Within(flow, picks) then picks else picks[..|picks| - 1]
  }

  // ----- What a run is -----

  lemma {:induction false} KeptCovered<F>(s: seq<F>, removed: set<int>)
    requires forall i | 0 <= i < |s| :: i in removed
    ensures Kept(s, removed) == []
    decreases |s|
  {
    if s != [] {
      KeptCovered(s[..|s| - 1], removed);
    }
  }

  lemma {:induction false} KeptShrinks<F>(s: seq<F>, removed: set<int>, k: int)
    requires 0 <= k < |s| && k !in removed
    ensures |Kept(s, removed + {k})| == |Kept(s, removed)| - 1
    decreases |s|
  {
    var last, front := |s| - 1, s[..|s| - 1];
    if k == last {
      KeptSame(front, removed, removed + {k});
    } else {
      KeptShrinks(front, removed, k);
    }
  }

  lemma {:induction false} EmptyWithin(flow: seq<FlowInfo>)
    ensures Within(flow, [])
  {
    assert TotalRate([]) == 0.0;
  }

  /** While the instance is overloaded there is a flow left to pick. */
  lemma {:induction false} SomeLeft(flow: seq<FlowInfo>, picks: seq<int>)
    requires Unsafe(flow, picks)
    ensures exists i :: 0 <= i < |flow| && i !in picks
  {
    if forall i | 0 <= i < |flow| :: i in picks {
      KeptCovered(flow, Elements(picks));
    }
  }

  lemma {:induction false} PickOne(flow: seq<FlowInfo>, picks: seq<int>, k: int)
    requires 0 <= k < |flow| && k !in picks
    ensures Load(flow, picks + [k]) == Load(flow, picks) + flow[k].rate
    ensures Residual(flow, picks + [k]) == Residual(flow, picks) - flow[k].rate
    ensures |Kept(flow, Elements(picks + [k]))| == |Kept(flow, Elements(picks))| - 1
    ensures Products(flow, Elements(picks + [k])) == Products(flow, Elements(picks))[k := PICKED]
  {
    assert (picks + [k])[..|picks|] == picks;
    ElementsSnoc(picks, k);
    TotalRateSnoc(Select(flow, picks), flow[k]);
    TotalKept(flow, Elements(picks), k, (f: FlowInfo) => f.rate);
    KeptShrinks(flow, Elements(picks), k);
    ProductsAt(flow, Elements(picks));
    ProductsAt(flow, Elements(picks) + {k});
  }

  lemma {:induction false} RunDistinct(flow: seq<FlowInfo>, picks: seq<int>)
    requires Run(flow, picks)
    ensures Distinct(picks) && IndicesOf(flow, picks)
    decreases |picks|
  {
    RunIndices(flow, picks);
    if picks != [] {
      RunDistinct(flow, picks[..|picks| - 1]);
    }
  }

  lemma {:induction false} RunIndices(flow: seq<FlowInfo>, picks: seq<int>)
    requires Run(flow, picks)
    ensures IndicesOf(flow, picks)
    decreases |picks|
  {
    if picks != [] {
      RunIndices(flow, picks[..|picks| - 1]);
    }
  }

  lemma {:induction false} RunPrefix(flow: seq<FlowInfo>, picks: seq<int>, n: nat)
    requires Run(flow, picks) && n <= |picks|
    ensures Run(flow, picks[..n])
    ensures n < |picks| ==> Unsafe(flow, picks[..n]) && Within(flow, picks[..n])
    ensures n < |picks| ==> Next(flow, picks[..n], picks[n])
    decreases |picks|
  {
    if n == |picks| {
      assert picks[..n] == picks;
    } else if n < |picks| - 1 {
      RunPrefix(flow, picks[..|picks| - 1], n);
      assert picks[..|picks| - 1][..n] == picks[..n];
    }
  }

  // ----- The greedy loop -----

  lemma {:induction false} NotPicked(flow: seq<FlowInfo>, picks: seq<int>, k: int)
    requires 0 <= k < |flow| && Products(flow, Elements(picks))[k] > PICKED
    ensures k !in picks
  {
    ProductsAt(flow, Elements(picks));
  }

  lemma {:induction false} NextRun(flow: seq<FlowInfo>, picks: seq<int>, k: int)
    requires Run(flow, picks) && Unsafe(flow, picks) && Within(flow, picks) && Next(flow, picks, k)
    ensures Run(flow, picks + [k])
    ensures Moved(flow, picks) == picks
    ensures Moved(flow, picks + [k]) == if Within(flow, picks + [k]) then picks + [k] else picks
  {
    assert (picks + [k])[..|picks|] == picks;
  }

  /** Everything the loop tracks, after one more pick. */
  lemma {:induction false} NextPick(flow: seq<FlowInfo>, picks: seq<int>, k: int, src: int, dst: int)
    requires Run(flow, picks) && Unsafe(flow, picks) && Within(flow, picks) && flow != []
    requires k == Most(Products(flow, Elements(picks)), flow, |flow|) && Products(flow, Elements(picks))[k] > PICKED
    ensures var now := picks + [k];
      && Run(flow, now) && Load(flow, now) == Load(flow, picks) + flow[k].rate
      && Residual(flow, now) == Residual(flow, picks) - flow[k].rate
      && |Kept(flow, Elements(now))| == |Kept(flow, Elements(picks))| - 1
      && Products(flow, Elements(now)) == Products(flow, Elements(picks))[k := PICKED]
      && Tuples(src, Moved(flow, now), dst)
         == Tuples(src, Moved(flow, picks), dst) + if Within(flow, now) then [MigrateTuple(src, k, dst)] else []
  {
    NotPicked(flow, picks, k);
    NextRun(flow, picks, k);
    PickOne(flow, picks, k);
    TuplesSnoc(src, picks, k, dst);
  }

  /** While the instance is overloaded, some product is not overwritten. */
  lemma {:induction false} SomeProduct(flow: seq<FlowInfo>, picks: seq<int>)
    requires Unsafe(flow, picks) && forall i | 0 <= i < |flow| :: Product(flow[i]) > PICKED
    ensures exists i :: 0 <= i < |flow| && Products(flow, Elements(picks))[i] > PICKED
  {
    SomeLeft(flow, picks);
    ProductsAt(flow, Elements(picks));
  }

  method LoadAndProducts(flow: seq<FlowInfo>) returns (oldLoad: real, product: seq<real>)
    ensures oldLoad == Residual(flow, []) && product == Products(flow, Elements([]))
  {
    oldLoad, product := 0.0, [];
    for i := 0 to |flow|
      invariant oldLoad == TotalRate(flow[..i]) && product == Products(flow[..i], {})
    {
      assert flow[..i + 1][..i] == flow[..i];
      TotalRateSnoc(flow[..i], flow[i]);
      assert flow[..i + 1] == flow[..i] + [flow[i]];
      oldLoad := oldLoad + flow[i].rate;
      product := product + [Product(flow[i])];
    }
    assert flow[..|flow|] == flow && Elements([]) == {};
    KeptAll(flow, {});
  }

  method Bounds(flow: seq<FlowInfo>, ghost picks: seq<int>, migCount: int, newLoad: real)
    returns (newSafe: bool, bufferSafe: bool)
    requires migCount == |picks| && newLoad == Load(flow, picks)
    ensures (newSafe && bufferSafe) == Within(flow, picks)
  {
    newSafe := newLoad <= SAFE_LOAD;
    bufferSafe := BufferSafe(migCount, newLoad);
  }

  /** The variables of the loop. */
  datatype Greed = Greed(product: seq<real>, oldLoad: real, newLoad: real, migCount: int, plan: seq<MigrateTuple>)

  /** What they hold when these flows have been picked. */
  ghost predicate HasPicked(flow: seq<FlowInfo>, picks: seq<int>, src: int, dst: int, g: Greed) {
    && Run(flow, picks) && g.product == Products(flow, Elements(picks))
    && g.oldLoad == Residual(flow, picks) && g.newLoad == Load(flow, picks) && g.migCount == |picks|
    && g.plan == Tuples(src, Moved(flow, picks), dst)
  }

  lemma {:induction false} NextPicked(flow: seq<FlowInfo>, picks: seq<int>, k: int, src: int, dst: int, g: Greed)
    requires HasPicked(flow, picks, src, dst, g) && Unsafe(flow, picks) && Within(flow, picks) && flow != []
    requires k == Most(g.product, flow, |flow|) && g.product[k] > PICKED
    ensures var now, rate := picks + [k], flow[k].rate;
      var plan := g.plan + if Within(flow, now) then [MigrateTuple(src, k, dst)] else [];
      var r := Greed(g.product[k := PICKED], g.oldLoad - rate, g.newLoad + rate, g.migCount + 1, plan);
      && HasPicked(flow, now, src, dst, r)
      && |Kept(flow, Elements(now))| < |Kept(flow, Elements(picks))|
  {
    NextPick(flow, picks, k, src, dst);
  }

  /** One round: the next flow is picked, and planned to move if that keeps the bounds. */
  method GreedyOne(flow: seq<FlowInfo>, src: int, dst: int, g: Greed, ghost picks: seq<int>)
    returns (r: Greed, scaleOutFlag: bool, ghost now: seq<int>)
    requires HasPicked(flow, picks, src, dst, g) && Unsafe(flow, picks) && Within(flow, picks)
    requires forall i | 0 <= i < |flow| :: Product(flow[i]) > PICKED
    ensures HasPicked(flow, now, src, dst, r) && scaleOutFlag == (Unsafe(flow, now) && Within(flow, now))
    ensures |Kept(flow, Elements(now))| < |Kept(flow, Elements(picks))|
  {
    SomeProduct(flow, picks);
    var maxIndex := PickNext(g.product, flow);
    NextPicked(flow, picks, maxIndex, src, dst, g);
    var rate := flow[maxIndex].rate;
    now := picks + [maxIndex];
    var newSafe, bufferSafe := Bounds(flow, now, g.migCount + 1, g.newLoad + rate);
    var plan := g.plan + if newSafe && bufferSafe then [MigrateTuple(src, maxIndex, dst)] else [];
    r := Greed(g.product[maxIndex := PICKED], g.oldLoad - rate, g.newLoad + rate, g.migCount + 1, plan);
    var oldUnsafe := r.oldLoad >= SAFE_LOAD;
    scaleOutFlag := oldUnsafe && newSafe && bufferSafe;
  }

  /** Picks flows one by one and plans to move them. */
  method Greedy(flow: seq<FlowInfo>, src: int, dst: int) returns (plan: seq<MigrateTuple>, ghost picks: seq<int>)
    requires forall i | 0 <= i < |flow| :: Product(flow[i]) > PICKED
    ensures Finished(flow, picks) && plan == Tuples(src, Moved(flow, picks), dst)
  {
    var oldLoad, product := LoadAndProducts(flow);
    var g := Greed(product, oldLoad, 0.0, 0, []);
    picks := [];
    EmptyWithin(flow);
    var scaleOutFlag := oldLoad >= SAFE_LOAD;
    while scaleOutFlag
      invariant HasPicked(flow, picks, src, dst, g) && scaleOutFlag == (Unsafe(flow, picks) && Within(flow, picks))
      decreases |Kept(flow, Elements(picks))|
    {
      g, scaleOutFlag, picks := GreedyOne(flow, src, dst, g, picks);
    }
    plan := g.plan;
  }

  /** The cost of the planned moves: their number sets the time each flow is delayed. */
  method CostOfPlan(flow: seq<FlowInfo>, plan: seq<MigrateTuple>, ghost t: seq<int>, src: int, dst: int)
    returns (cost: real)
    requires plan == Tuples(src, t, dst) && IndicesOf(flow, t)
    ensures cost == CostOf(flow, t, MigTime(|t|))
  {
    cost := 0.0;
    for j := 0 to |plan|
      invariant cost == Penalties(Select(flow, t[..j]), MigTime(|t|))
    {
      SelectSnoc(flow, t, j);
      PenaltiesSnoc(Select(flow, t[..j]), flow[t[j]], MigTime(|t|));
      cost := cost + Penalty(flow[plan[j].flowid], MigTime(|plan|));
    }
    assert t[..|t|] == t;
    cost := Charged(cost);
  }

  method PlanOf(flow: seq<FlowInfo>, src: int, dst: int)
    returns (plan: seq<MigrateTuple>, cost: real, ghost picks: seq<int>)
    requires forall i | 0 <= i < |flow| :: Product(flow[i]) > PICKED
    ensures Finished(flow, picks) && plan == Tuples(src, Moved(flow, picks), dst)
    ensures cost == CostOf(flow, Moved(flow, picks), MigTime(|Moved(flow, picks)|))
  {
    plan, picks := Greedy(flow, src, dst);
    RunDistinct(flow, picks);
    cost := CostOfPlan(flow, plan, Moved(flow, picks), src, dst);
  }

  lemma {:induction false} MovedMovable(lists: seq<seq<FlowInfo>>, id: int, picks: seq<int>, dst: int)
    requires 0 <= id < |lists| && 0 <= dst < |lists| && Run(lists[id], picks)
    ensures Movable(lists, Tuples(id, Moved(lists[id], picks), dst))
  {
    RunDistinct(lists[id], picks);
    ChosenMovable(lists, id, Moved(lists[id], picks), dst);
  }

  // ----- What the greedy loop ends with -----

  /** No flow is picked twice, and each pick has the greatest product of those left. */
  lemma {:induction false} PicksDescend(flow: seq<FlowInfo>, picks: seq<int>, n: nat)
    requires Run(flow, picks) && n < |picks|
    ensures Distinct(picks) && 0 <= picks[n] < |flow|
    ensures forall i | 0 <= i < |flow| && i !in picks[..n] :: Product(flow[i]) <= Product(flow[picks[n]])
    ensures forall m | n <= m < |picks| :: 0 <= picks[m] < |flow| && Product(flow[picks[m]]) <= Product(flow[picks[n]])
  {
    RunDistinct(flow, picks);
    RunPrefix(flow, picks, n);
    NextIsGreatest(flow, picks[..n], picks[n]);
    forall m | n <= m < |picks| ensures Product(flow[picks[m]]) <= Product(flow[picks[n]]) {
      NotAmongEarlier(picks, n, m);
    }
  }

  lemma {:induction false} NextIsGreatest(flow: seq<FlowInfo>, picks: seq<int>, k: int)
    requires Next(flow, picks, k)
    ensures forall i | 0 <= i < |flow| && i !in picks :: Product(flow[i]) <= Product(flow[k])
  {
    MostIsPreferred(Products(flow, Elements(picks)), flow, |flow|);
    ProductsAt(flow, Elements(picks));
  }

  lemma {:induction false} NotAmongEarlier(picks: seq<int>, n: nat, m: nat)
    requires Distinct(picks) && n <= m < |picks|
    ensures picks[m] !in picks[..n]
  {
    DistinctAt(picks, m);
  }

  /** What is moved keeps both bounds; and either the instance is no longer overloaded, or the one
      more flow that was picked would have broken a bound. */
  lemma {:induction false} GreedyOutcome(flow: seq<FlowInfo>, picks: seq<int>)
    requires Finished(flow, picks)
    ensures Within(flow, Moved(flow, picks))
    ensures Moved(flow, picks) == picks ==> Residual(flow, picks) < SAFE_LOAD
    ensures Moved(flow, picks) != picks ==> picks == Moved(flow, picks) + [picks[|picks| - 1]] && !Within(flow, picks)
  {
    if picks == [] {
      EmptyWithin(flow);
    } else {
      FrontWithin(flow, picks);
    }
  }

  lemma {:induction false} FrontWithin(flow: seq<FlowInfo>, picks: seq<int>)
    requires Run(flow, picks) && picks != []
    ensures Within(flow, picks[..|picks| - 1]) && picks == picks[..|picks| - 1] + [picks[|picks| - 1]]
  {
  }

  /** How long a flow may still be delayed beyond 92.16, times its rate. */
  function Slack(f: FlowInfo): (r: real)
  {
    f.rate * (f.sla - 92.16)
  }

  lemma {:induction false} SlackIs(f: FlowInfo)
    ensures Product(f) == Slack(f)
  {
  }

  /** k comes before i: it has more slack, or as much and the greater rate, or both are equal and it is the first. */
  predicate ComesBefore(flow: seq<FlowInfo>, k: int, i: int)
    requires 0 <= k < |flow| && 0 <= i < |flow|
  {
    || Slack(flow[k]) > Slack(flow[i])
    || (Slack(flow[k]) == Slack(flow[i])
        && (flow[k].rate > flow[i].rate || (flow[k].rate == flow[i].rate && k <= i)))
  }

  /** k comes before all flows but those picked before. */
  ghost predicate Foremost(flow: seq<FlowInfo>, before: seq<int>, k: int) {
    && 0 <= k < |flow| && k !in before
    && forall i | 0 <= i < |flow| && i !in before :: ComesBefore(flow, k, i)
  }

  /** The flows at t are at most a load of 0.6, and their packets fit the buffer while they move. */
  predicate KeepsBounds(flow: seq<FlowInfo>, t: seq<int>) {
    var rate := TotalRate(Select(flow, t));
    rate <= 61994.4 && (139.205 + 2.9545 * |t| as real) * rate <= 100000000.0
  }

  lemma {:induction false} BoundsAre(flow: seq<FlowInfo>, t: seq<int>)
    ensures Within(flow, t) <==> KeepsBounds(flow, t)
  {
  }

  /** With these picks the loop goes on: the bounds are kept, and the instance is still overloaded. */
  ghost predicate PicksOn(flow: seq<FlowInfo>, picks: seq<int>) {
    KeepsBounds(flow, picks) && TotalRate(Kept(flow, Elements(picks))) >= 61994.4
  }

  lemma {:induction false} GoesOn(flow: seq<FlowInfo>, picks: seq<int>)
    requires Unsafe(flow, picks) && Within(flow, picks)
    ensures PicksOn(flow, picks)
  {
    BoundsAre(flow, picks);
  }

  /** Each pick is made only while it is needed, and is the foremost left. */
  ghost predicate PickedRightly(flow: seq<FlowInfo>, picks: seq<int>) {
    forall n | 0 <= n < |picks| :: PicksOn(flow, picks[..n]) && Foremost(flow, picks[..n], picks[n])
  }

  /** What is moved keeps both bounds: it is all picks, and the instance is no longer overloaded, or all but a last
      one that breaks a bound. */
  ghost predicate MovedRightly(flow: seq<FlowInfo>, picks: seq<int>) {
    && KeepsBounds(flow, Moved(flow, picks))
    && if Moved(flow, picks) == picks then TotalRate(Kept(flow, Elements(picks))) < 61994.4
       else picks == Moved(flow, picks) + [picks[|picks| - 1]] && !KeepsBounds(flow, picks)
  }

  ghost predicate GreedilyMoved(flow: seq<FlowInfo>, picks: seq<int>) {
    PickedRightly(flow, picks) && MovedRightly(flow, picks)
  }

  lemma {:induction false} PreferredFirst(flow: seq<FlowInfo>, k: int, i: int, product: real, other: real)
    requires 0 <= k < |flow| && 0 <= i < |flow| && product == Product(flow[k]) && other == Product(flow[i])
    requires i < k ==> Preferred(product, flow[k], other, flow[i])
    requires i > k ==> !Preferred(other, flow[i], product, flow[k])
    ensures ComesBefore(flow, k, i)
  {
    SlackIs(flow[i]);
    SlackIs(flow[k]);
  }

  lemma {:induction false} NextForemost(flow: seq<FlowInfo>, before: seq<int>, k: int)
    requires Next(flow, before, k)
    ensures Foremost(flow, before, k)
  {
    var p := Products(flow, Elements(before));
    MostIsPreferred(p, flow, |flow|);
    ProductsAt(flow, Elements(before));
    forall i | 0 <= i < |flow| && i !in before ensures ComesBefore(flow, k, i) {
      PreferredFirst(flow, k, i, p[k], p[i]);
    }
  }

  lemma {:induction false} PickedForemost(flow: seq<FlowInfo>, picks: seq<int>, n: nat)
    requires Run(flow, picks) && n < |picks|
    ensures PicksOn(flow, picks[..n]) && Foremost(flow, picks[..n], picks[n])
  {
    RunPrefix(flow, picks, n);
    GoesOn(flow, picks[..n]);
    NextForemost(flow, picks[..n], picks[n]);
  }

  lemma {:induction false} RunPicks(flow: seq<FlowInfo>, picks: seq<int>)
    requires Run(flow, picks)
    ensures PickedRightly(flow, picks)
  {
    forall n | 0 <= n < |picks| ensures PicksOn(flow, picks[..n]) && Foremost(flow, picks[..n], picks[n]) {
      PickedForemost(flow, picks, n);
    }
  }

  lemma {:induction false} FinishedRightly(flow: seq<FlowInfo>, picks: seq<int>)
    requires Finished(flow, picks)
    ensures MovedRightly(flow, picks)
  {
    GreedyOutcome(flow, picks);
    BoundsAre(flow, Moved(flow, picks));
    BoundsAre(flow, picks);
  }

  lemma {:induction false} FinishedMoves(flow: seq<FlowInfo>, picks: seq<int>)
    requires Finished(flow, picks)
    ensures GreedilyMoved(flow, picks)
  {
    RunPicks(flow, picks);
    FinishedRightly(flow, picks);
  }

  lemma {:induction false} RunsAgree(flow: seq<FlowInfo>, a: seq<int>, b: seq<int>, n: nat)
    requires Run(flow, a) && Run(flow, b) && n <= |a| && n <= |b|
    ensures a[..n] == b[..n]
  {
    if n > 0 {
      RunsAgree(flow, a, b, n - 1);
      NextOfRun(flow, a, n - 1);
      NextOfRun(flow, b, n - 1);
      OneMore(a, b, n - 1);
    }
  }

  lemma {:induction false} NextOfRun(flow: seq<FlowInfo>, picks: seq<int>, n: nat)
    requires Run(flow, picks) && n < |picks|
    ensures flow != [] && picks[n] == Most(Products(flow, Elements(picks[..n])), flow, |flow|)
  {
    RunPrefix(flow, picks, n);
  }

  lemma {:induction false} OneMore<T>(a: seq<T>, b: seq<T>, n: nat)
    requires n < |a| && n < |b| && a[..n] == b[..n] && a[n] == b[n]
    ensures a[..n + 1] == b[..n + 1]
  {
    assert a[..n + 1] == a[..n] + [a[n]];
    assert b[..n + 1] == b[..n] + [b[n]];
  }

  /** The rules leave the loop no choice: there is one finished run. */
  lemma {:induction false} OneFinishedRun(flow: seq<FlowInfo>, a: seq<int>, b: seq<int>)
    requires Finished(flow, a) && Finished(flow, b)
    ensures a == b
  {
    if |a| <= |b| {
      RunsAgree(flow, a, b, |a|);
      RunEnds(flow, a, b);
    } else {
      RunsAgree(flow, a, b, |b|);
      RunEnds(flow, b, a);
    }
  }

  lemma {:induction false} RunEnds(flow: seq<FlowInfo>, a: seq<int>, b: seq<int>)
    requires Finished(flow, a) && Finished(flow, b) && |a| <= |b| && a[..|a|] == b[..|a|]
    ensures a == b
  {
    assert a[..|a|] == a;
    RunPrefix(flow, b, |a|);
  }
}
