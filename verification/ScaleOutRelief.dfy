/** What the tests of the exhaustive search come to, and whether the set it chooses relieves its source. */
module ScaleOutRelief {
  import opened AlgorithmConstants
  import opened Combinations
  import opened Instances
  import opened LoadBalance
  import opened Migration
  import opened ScaleOutSearch

  // ----- The tests -----

  /** Without the flows at t the source is no longer overloaded. */
  predicate Relieves(flow: seq<FlowInfo>, oldLoad: real, t: seq<int>) {
    oldLoad - LoadOf(Select(flow, t)) <= TH_SAFE
  }

  /** A share below the safe load fits the buffer for any of the times the search tries. */
  lemma {:induction false} ShareFits(n: int, load: real)
    requires 0 <= n <= 5 && 0.0 <= load < TH_SAFE
    ensures BufferSafe(n, load)
  {
    var time := BufferTime(n);
    assert 0.0 <= time <= 1000.0;
    ProductBelow(time, load);
  }

  lemma {:induction false} ProductBelow(x: real, y: real)
    requires 0.0 <= x <= 1000.0 && 0.0 <= y <= 1.0
    ensures x * y <= 1000.0
  {
    ZeroProduct(x, 1.0 - y);
    assert x * (1.0 - y) == x - x * y;
  }

  lemma {:induction false} SelectNonNegative(flow: seq<FlowInfo>, t: seq<int>)
    requires NoneBelowZero(flow) && IndicesOf(flow, t)
    ensures LoadOf(Select(flow, t)) >= 0.0
    decreases |t|
  {
    if t != [] {
      var front, last := t[..|t| - 1], t[|t| - 1];
      SelectNonNegative(flow, front);
      LoadOfSnoc(Select(flow, front), flow[last]);
    }
  }

  /** The three tests come to the two loads: the flows' own is safe, and with the source's it is not. */
  lemma {:induction false} FeasibleExactly(flow: seq<FlowInfo>, oldLoad: real, t: seq<int>)
    requires NoneBelowZero(flow) && IndicesOf(flow, t) && |t| <= 5
    ensures Feasible(flow, oldLoad, t)
       <==> LoadOf(Select(flow, t)) < TH_SAFE && oldLoad + LoadOf(Select(flow, t)) > TH_SAFE
  {
    SelectNonNegative(flow, t);
    if LoadOf(Select(flow, t)) < TH_SAFE {
      ShareFits(|t|, LoadOf(Select(flow, t)));
    }
  }

  /** So for an overloaded source the only test left is that the new instance is not overloaded. */
  lemma {:induction false} FeasibleWhenOverloaded(flow: seq<FlowInfo>, oldLoad: real, t: seq<int>)
    requires NoneBelowZero(flow) && IndicesOf(flow, t) && |t| <= 5 && oldLoad > TH_SAFE
    ensures Feasible(flow, oldLoad, t) <==> LoadOf(Select(flow, t)) < TH_SAFE
  {
    SelectNonNegative(flow, t);
    FeasibleExactly(flow, oldLoad, t);
  }

  // ----- One flow -----

  /** What moving flow f alone costs. */
  function Price(f: FlowInfo): (p: real)
  {
    Charged(Penalty(f, SFMT))
  }

  /** Flow i passes the tests alone. */
  predicate PassesAlone(flow: seq<FlowInfo>, oldLoad: real, i: int) {
    0 <= i < |flow| && Share(flow[i].rate) < TH_SAFE && oldLoad + Share(flow[i].rate) > TH_SAFE
  }

  lemma {:induction false} OneFlow(flow: seq<FlowInfo>, i: int)
    requires 0 <= i < |flow|
    ensures Select(flow, [i]) == [flow[i]] && LoadOf([flow[i]]) == Share(flow[i].rate)
    ensures CostOf(flow, [i], SFMT) == Price(flow[i])
  {
    assert [i][..0] == [] && [] + [flow[i]] == [flow[i]];
    LoadOfSnoc([], flow[i]);
    PenaltiesSnoc([], flow[i], SFMT);
  }

  lemma {:induction false} AloneExactly(flow: seq<FlowInfo>, oldLoad: real, i: int)
    requires 0 <= i < |flow| && flow[i].rate >= 0.0
    ensures Feasible(flow, oldLoad, [i]) <==> PassesAlone(flow, oldLoad, i)
  {
    OneFlow(flow, i);
    if Share(flow[i].rate) < TH_SAFE {
      ShareFits(1, Share(flow[i].rate));
    }
  }

  /** The price is never negative, and nothing if the flow carries nothing or may be delayed that long. */
  lemma {:induction false} PriceSign(f: FlowInfo)
    requires f.rate >= 0.0
    ensures Price(f) >= 0.0
    ensures Price(f) == 0.0 <==> f.rate == 0.0 || f.sla >= SFMT + LA_PROCESS
  {
    var late := R(SFMT + LA_PROCESS - f.sla);
    ZeroProduct(f.rate, late);
  }

  lemma {:induction false} ZeroProduct(x: real, y: real)
    requires x >= 0.0 && y >= 0.0
    ensures x * y >= 0.0 && (x * y == 0.0 <==> x == 0.0 || y == 0.0)
  {
  }

  // ----- Single flows -----

  /** Of the flows below n that pass the tests alone, i is the first of the cheapest, and below the initial bound. */
  ghost predicate FirstCheapest(flow: seq<FlowInfo>, oldLoad: real, n: nat, i: int) {
    && 0 <= i < n <= |flow| && PassesAlone(flow, oldLoad, i) && Price(flow[i]) < MAX_COST
    && forall j | 0 <= j < n && PassesAlone(flow, oldLoad, j) ::
         Price(flow[i]) <= Price(flow[j]) && (j < i ==> Price(flow[i]) < Price(flow[j]))
  }

  /** No flow below n passes the tests alone for less than the initial bound. */
  ghost predicate NoneCheap(flow: seq<FlowInfo>, oldLoad: real, n: nat) {
    n <= |flow| && forall j | 0 <= j < n && PassesAlone(flow, oldLoad, j) :: Price(flow[j]) >= MAX_COST
  }

  /** What is kept when the single flows below n have been weighed. */
  ghost predicate KeptAmong(flow: seq<FlowInfo>, oldLoad: real, n: nat, b: (seq<int>, real)) {
    if b.0 == [] then NoneCheap(flow, oldLoad, n) && b.1 == MAX_COST
    else |b.0| == 1 && FirstCheapest(flow, oldLoad, n, b.0[0]) && b.1 == Price(flow[b.0[0]])
  }

  lemma {:induction false} WeighOneFlow(flow: seq<FlowInfo>, oldLoad: real, n: nat, b: (seq<int>, real))
    requires NoneBelowZero(flow) && n < |flow| && KeptAmong(flow, oldLoad, n, b)
    ensures KeptAmong(flow, oldLoad, n + 1, Better(flow, oldLoad, b, [n]))
  {
    OneFlow(flow, n);
    AloneExactly(flow, oldLoad, n);
  }

  lemma {:induction false} NextFlow(flow: seq<FlowInfo>, oldLoad: real, n: nat)
    requires n < |flow|
    ensures var ts, none := Singletons(Iota(|flow|)), ([], MAX_COST);
      Weigh(flow, oldLoad, none, ts[..n + 1]) == Better(flow, oldLoad, Weigh(flow, oldLoad, none, ts[..n]), [n])
  {
    WeighNext(flow, oldLoad, ([], MAX_COST), Singletons(Iota(|flow|)), n);
    SingletonIs(|flow|, n);
  }

  /** Single flows are weighed first, in the order of the list. */
  lemma {:induction false} CheapestKept(flow: seq<FlowInfo>, oldLoad: real, n: nat)
    requires NoneBelowZero(flow) && n <= |flow|
    ensures KeptAmong(flow, oldLoad, n, Weigh(flow, oldLoad, ([], MAX_COST), Singletons(Iota(|flow|))[..n]))
  {
    if n > 0 {
      CheapestKept(flow, oldLoad, n - 1);
      NextFlow(flow, oldLoad, n - 1);
      var b := Weigh(flow, oldLoad, ([], MAX_COST), Singletons(Iota(|flow|))[..n - 1]);
      WeighOneFlow(flow, oldLoad, n - 1, b);
    }
  }

  lemma {:induction false} BestOfOne(flow: seq<FlowInfo>, oldLoad: real)
    requires NoneBelowZero(flow) && |flow| > 1
    ensures KeptAmong(flow, oldLoad, |flow|, Best(flow, oldLoad, 1))
  {
    CheapestKept(flow, oldLoad, |flow|);
    assert Singletons(Iota(|flow|))[..|flow|] == Singletons(Iota(|flow|)) == Positions(|flow|, 1);
    assert Best(flow, oldLoad, 0) == ([], MAX_COST);
  }

  // ----- Larger sets -----

  /** b costs no more than any flow that passes the tests alone. */
  ghost predicate Undercuts(flow: seq<FlowInfo>, oldLoad: real, b: (seq<int>, real)) {
    forall i | PassesAlone(flow, oldLoad, i) :: b.1 <= Price(flow[i])
  }

  ghost predicate AllIndices(flow: seq<FlowInfo>, ts: seq<seq<int>>) {
    forall i | 0 <= i < |ts| :: IndicesOf(flow, ts[i]) && 1 <= |ts[i]| <= 5
  }

  lemma {:induction false} CostNonNegative(flow: seq<FlowInfo>, t: seq<int>)
    requires NoneBelowZero(flow) && IndicesOf(flow, t)
    ensures CostOf(flow, t, SFMT) >= 0.0
    decreases |t|
  {
    if t != [] {
      var front, last := t[..|t| - 1], t[|t| - 1];
      CostNonNegative(flow, front);
      PenaltiesSnoc(Select(flow, front), flow[last], SFMT);
      PriceSign(flow[last]);
    }
  }

  /** The load and the cost of its last flow are at most those of a set. */
  lemma {:induction false} LastOfMany(flow: seq<FlowInfo>, t: seq<int>)
    requires NoneBelowZero(flow) && IndicesOf(flow, t) && t != []
    ensures Share(flow[t[|t| - 1]].rate) <= LoadOf(Select(flow, t))
    ensures Price(flow[t[|t| - 1]]) <= CostOf(flow, t, SFMT)
  {
    var front, last := t[..|t| - 1], t[|t| - 1];
    SelectNonNegative(flow, front);
    CostNonNegative(flow, front);
    LoadOfSnoc(Select(flow, front), flow[last]);
    PenaltiesSnoc(Select(flow, front), flow[last], SFMT);
  }

  /** A set that an overloaded source may give up holds a flow that it may give up alone, for no more. */
  lemma {:induction false} NotCheaper(flow: seq<FlowInfo>, oldLoad: real, b: (seq<int>, real), t: seq<int>)
    requires NoneBelowZero(flow) && IndicesOf(flow, t) && 1 <= |t| <= 5
    requires oldLoad > TH_SAFE && Undercuts(flow, oldLoad, b)
    ensures Better(flow, oldLoad, b, t) == b
  {
    if Feasible(flow, oldLoad, t) {
      LastOfMany(flow, t);
      FeasibleWhenOverloaded(flow, oldLoad, t);
      assert PassesAlone(flow, oldLoad, t[|t| - 1]);
    }
  }

  lemma {:induction false} OthersInVain(flow: seq<FlowInfo>, oldLoad: real, b: (seq<int>, real), ts: seq<seq<int>>)
    requires NoneBelowZero(flow) && oldLoad > TH_SAFE && Undercuts(flow, oldLoad, b) && AllIndices(flow, ts)
    ensures Weigh(flow, oldLoad, b, ts) == b
    decreases |ts|
  {
    if ts != [] {
      OthersInVain(flow, oldLoad, b, ts[..|ts| - 1]);
      NotCheaper(flow, oldLoad, b, ts[|ts| - 1]);
    }
  }

  lemma {:induction false} PositionsIndices(flow: seq<FlowInfo>, k: nat)
    requires 1 <= k <= |flow| && k <= 5
    ensures AllIndices(flow, Positions(|flow|, k))
  {
    forall i | 0 <= i < |Positions(|flow|, k)|
      ensures IndicesOf(flow, Positions(|flow|, k)[i]) && 1 <= |Positions(|flow|, k)[i]| <= 5
    {
      PositionAt(|flow|, k, i);
    }
  }

  lemma {:induction false} KeptUndercuts(flow: seq<FlowInfo>, oldLoad: real, b: (seq<int>, real))
    requires KeptAmong(flow, oldLoad, |flow|, b)
    ensures Undercuts(flow, oldLoad, b)
  {
  }

  lemma {:induction false} NextSizeInVain(flow: seq<FlowInfo>, oldLoad: real, k: nat, b: (seq<int>, real))
    requires NoneBelowZero(flow) && oldLoad > TH_SAFE && 1 < k <= 5 <= |flow|
    requires Best(flow, oldLoad, k - 1) == b && Undercuts(flow, oldLoad, b)
    ensures Best(flow, oldLoad, k) == b
  {
    PositionsIndices(flow, k);
    OthersInVain(flow, oldLoad, b, Positions(|flow|, k));
  }

  /** The sets of two to five flows of an overloaded source are weighed in vain. */
  lemma {:induction false} OneFlowChosen(flow: seq<FlowInfo>, oldLoad: real, k: nat)
    requires NoneBelowZero(flow) && oldLoad > TH_SAFE && |flow| >= 5 && 1 <= k <= 5
    ensures Best(flow, oldLoad, k) == Best(flow, oldLoad, 1) && |Best(flow, oldLoad, k).0| <= 1
  {
    BestOfOne(flow, oldLoad);
    if k > 1 {
      OneFlowChosen(flow, oldLoad, k - 1);
      KeptUndercuts(flow, oldLoad, Best(flow, oldLoad, 1));
      NextSizeInVain(flow, oldLoad, k, Best(flow, oldLoad, 1));
    }
  }

  lemma {:induction false} FirstCheapestUnique(flow: seq<FlowInfo>, oldLoad: real, n: nat, i: int, j: int)
    requires FirstCheapest(flow, oldLoad, n, i) && FirstCheapest(flow, oldLoad, n, j)
    ensures i == j
  {
  }

  lemma {:induction false} FirstKept(flow: seq<FlowInfo>, oldLoad: real, n: nat, b: (seq<int>, real), i: int)
    requires KeptAmong(flow, oldLoad, n, b) && FirstCheapest(flow, oldLoad, n, i)
    ensures b == ([i], Price(flow[i]))
  {
    if b.0 != [] {
      FirstCheapestUnique(flow, oldLoad, n, i, b.0[0]);
      assert b.0 == [b.0[0]];
    }
  }

  /** What the search chooses for an overloaded source: the first of the cheapest flows below the safe load, or
      nothing if all of those reach the initial bound. */
  lemma {:induction false} ChosenExactly(flow: seq<FlowInfo>, oldLoad: real)
    requires NoneBelowZero(flow) && oldLoad > TH_SAFE && |flow| >= 5
    ensures forall i :: Best(flow, oldLoad, 5).0 == [i] <==> FirstCheapest(flow, oldLoad, |flow|, i)
    ensures forall i | FirstCheapest(flow, oldLoad, |flow|, i) :: Best(flow, oldLoad, 5).1 == Price(flow[i])
    ensures Best(flow, oldLoad, 5) == ([], MAX_COST) <==> NoneCheap(flow, oldLoad, |flow|)
  {
    var b := Best(flow, oldLoad, 5);
    OneFlowChosen(flow, oldLoad, 5);
    BestOfOne(flow, oldLoad);
    forall i | FirstCheapest(flow, oldLoad, |flow|, i) ensures b == ([i], Price(flow[i])) {
      FirstKept(flow, oldLoad, |flow|, b, i);
    }
  }

  // ----- Relief -----

  /** From twice the safe load on, whatever the search chooses leaves the source overloaded. */
  lemma {:induction false} NeverRelieved(flow: seq<FlowInfo>, oldLoad: real, chosen: seq<int>, least: real)
    requires oldLoad >= 2.0 * TH_SAFE && Cheapest(flow, oldLoad, chosen, least)
    ensures !Relieves(flow, oldLoad, chosen)
  {
    if chosen == [] {
      assert Select(flow, chosen) == [];
    }
  }

  /** The source is not overloaded, or its first cheapest flow is one without which it is not. */
  ghost predicate Relievable(flow: seq<FlowInfo>, oldLoad: real) {
    || oldLoad <= TH_SAFE
    || exists i :: FirstCheapest(flow, oldLoad, |flow|, i) && oldLoad - Share(flow[i].rate) <= TH_SAFE
  }

  lemma {:induction false} NothingGiven(flow: seq<FlowInfo>, oldLoad: real)
    requires oldLoad > TH_SAFE && NoneCheap(flow, oldLoad, |flow|)
    ensures !Relieves(flow, oldLoad, []) && !Relievable(flow, oldLoad)
  {
    assert Select(flow, []) == [];
    forall i ensures !FirstCheapest(flow, oldLoad, |flow|, i) {
    }
  }

  lemma {:induction false} OneGiven(flow: seq<FlowInfo>, oldLoad: real, i: int)
    requires oldLoad > TH_SAFE && FirstCheapest(flow, oldLoad, |flow|, i)
    ensures Relieves(flow, oldLoad, [i]) <==> Relievable(flow, oldLoad)
  {
    OneFlow(flow, i);
    forall j | FirstCheapest(flow, oldLoad, |flow|, j) ensures i == j {
      FirstCheapestUnique(flow, oldLoad, |flow|, i, j);
    }
  }

  lemma {:induction false} SafeAlready(flow: seq<FlowInfo>, oldLoad: real, t: seq<int>)
    requires NoneBelowZero(flow) && oldLoad <= TH_SAFE && IsChoice(t, |flow|, |t|)
    ensures Relieves(flow, oldLoad, t)
  {
    ChoiceInRange(t, |flow|, |t|);
    SelectNonNegative(flow, t);
  }

  /** For every load, the choice of the search relieves its source exactly in these cases. */
  lemma {:induction false} RelievedExactly(flow: seq<FlowInfo>, oldLoad: real)
    requires NoneBelowZero(flow) && |flow| >= 5
    ensures Relieves(flow, oldLoad, Best(flow, oldLoad, 5).0) <==> Relievable(flow, oldLoad)
  {
    var t := Best(flow, oldLoad, 5).0;
    if oldLoad <= TH_SAFE {
      BestIsChoice(flow, oldLoad);
      SafeAlready(flow, oldLoad, t);
    } else {
      OneFlowChosen(flow, oldLoad, 5);
      BestOfOne(flow, oldLoad);
      if t == [] {
        NothingGiven(flow, oldLoad);
      } else {
        assert t == [t[0]];
        OneGiven(flow, oldLoad, t[0]);
      }
    }
  }

  /** What is known of the source when `chosen` is given up: an overloaded one gives up at most one flow, and
      when that relieves it. */
  ghost predicate ReliefKnown(flow: seq<FlowInfo>, oldLoad: real, chosen: seq<int>) {
    && (oldLoad >= 2.0 * TH_SAFE ==> !Relieves(flow, oldLoad, chosen))
    && (NoneBelowZero(flow) ==> (Relieves(flow, oldLoad, chosen) <==> Relievable(flow, oldLoad)))
    && (NoneBelowZero(flow) && oldLoad > TH_SAFE ==> |chosen| <= 1)
  }

  lemma {:induction false} SearchRelief(flow: seq<FlowInfo>, oldLoad: real)
    requires |flow| >= 5
    ensures ReliefKnown(flow, oldLoad, Best(flow, oldLoad, 5).0)
  {
    var b := Best(flow, oldLoad, 5);
    BestIsCheapest(flow, oldLoad);
    if oldLoad >= 2.0 * TH_SAFE {
      NeverRelieved(flow, oldLoad, b.0, b.1);
    }
    if NoneBelowZero(flow) {
      RelievedExactly(flow, oldLoad);
      if oldLoad > TH_SAFE {
        OneFlowChosen(flow, oldLoad, 5);
      }
    }
  }

  // ----- Flows that cost nothing -----

  /** Flow i can be moved alone, and its delay costs nothing. */
  predicate Free(flow: seq<FlowInfo>, oldLoad: real, i: int)
    requires 0 <= i < |flow|
  {
    Feasible(flow, oldLoad, [i]) && CostOf(flow, [i], SFMT) == 0.0
  }

  /** A flow is free if its share keeps the two loads, and it carries nothing or may be delayed that long. */
  lemma {:induction false} FreeExactly(flow: seq<FlowInfo>, oldLoad: real, i: int)
    requires 0 <= i < |flow| && flow[i].rate >= 0.0
    ensures Free(flow, oldLoad, i)
       <==> && Share(flow[i].rate) < TH_SAFE && oldLoad + Share(flow[i].rate) > TH_SAFE
            && (flow[i].rate == 0.0 || flow[i].sla >= SFMT + LA_PROCESS)
  {
    OneFlow(flow, i);
    AloneExactly(flow, oldLoad, i);
    PriceSign(flow[i]);
  }

  ghost predicate FirstFree(flow: seq<FlowInfo>, oldLoad: real, i: int) {
    0 <= i < |flow| && Free(flow, oldLoad, i) && forall j | 0 <= j < i :: !Free(flow, oldLoad, j)
  }

  lemma {:induction false} FreeIsCheapest(flow: seq<FlowInfo>, oldLoad: real, i: int)
    requires NoneBelowZero(flow) && FirstFree(flow, oldLoad, i)
    ensures FirstCheapest(flow, oldLoad, |flow|, i) && Price(flow[i]) == 0.0
  {
    OneFlow(flow, i);
    AloneExactly(flow, oldLoad, i);
    forall j | 0 <= j < |flow| && PassesAlone(flow, oldLoad, j)
      ensures Price(flow[j]) >= 0.0 && (j < i ==> Price(flow[j]) > 0.0)
    {
      PriceSign(flow[j]);
      FreeExactly(flow, oldLoad, j);
    }
  }

  /** Nothing takes the place of a set that costs nothing. */
  lemma {:induction false} FreeStays(flow: seq<FlowInfo>, oldLoad: real, b: (seq<int>, real), ts: seq<seq<int>>)
    requires NoneBelowZero(flow) && b.1 == 0.0 && AllIndices(flow, ts)
    ensures Weigh(flow, oldLoad, b, ts) == b
    decreases |ts|
  {
    if ts != [] {
      FreeStays(flow, oldLoad, b, ts[..|ts| - 1]);
      CostNonNegative(flow, ts[|ts| - 1]);
    }
  }

  /** Where some flow is free, the first free one alone is chosen, whatever the load of the source. */
  lemma {:induction false} FreeFlowChosen(flow: seq<FlowInfo>, oldLoad: real, i: int, k: nat)
    requires NoneBelowZero(flow) && |flow| >= 5 && 1 <= k <= 5 && FirstFree(flow, oldLoad, i)
    ensures Best(flow, oldLoad, k) == ([i], 0.0)
    decreases k
  {
    if k == 1 {
      FreeIsCheapest(flow, oldLoad, i);
      BestOfOne(flow, oldLoad);
      FirstKept(flow, oldLoad, |flow|, Best(flow, oldLoad, 1), i);
    } else {
      FreeFlowChosen(flow, oldLoad, i, k - 1);
      PositionsIndices(flow, k);
      FreeStays(flow, oldLoad, ([i], 0.0), Positions(|flow|, k));
    }
  }

  // ----- An instance that stays overloaded -----

  /** One small flow that may be delayed, and four large ones that may not. */
  ghost predicate SmallAndLarge(flow: seq<FlowInfo>) {
    && |flow| == 5 && flow[0].rate == 1000.0 && flow[0].sla == 1000.0
    && forall j | 1 <= j < 5 :: flow[j].rate == 25000.0 && flow[j].sla == 0.0
  }

  lemma {:induction false} LoadOfFive(flow: seq<FlowInfo>)
    requires SmallAndLarge(flow)
    ensures LoadOf(flow) == Share(101000.0)
  {
    var f1, f2, f3, f4 := flow[..1], flow[..2], flow[..3], flow[..4];
    assert f1 == [] + [flow[0]] && f2 == f1 + [flow[1]] && f3 == f2 + [flow[2]] && f4 == f3 + [flow[3]];
    assert flow == f4 + [flow[4]];
    TotalRateSnoc([], flow[0]);
    TotalRateSnoc(f1, flow[1]);
    TotalRateSnoc(f2, flow[2]);
    TotalRateSnoc(f3, flow[3]);
    TotalRateSnoc(f4, flow[4]);
  }

  lemma {:induction false} LoadOfTwo(flow: seq<FlowInfo>)
    requires SmallAndLarge(flow)
    ensures LoadOf(Select(flow, [1, 2])) == Share(50000.0)
  {
    assert [1, 2][..1] == [1];
    OneFlow(flow, 1);
    assert Select(flow, [1, 2]) == [flow[1]] + [flow[2]];
    LoadOfSnoc([flow[1]], flow[2]);
  }

  lemma {:induction false} TwoLargeRelieve(flow: seq<FlowInfo>)
    requires SmallAndLarge(flow)
    ensures Candidate(flow, LoadOf(flow), 5, [1, 2]) && Relieves(flow, LoadOf(flow), [1, 2])
  {
    LoadOfFive(flow);
    LoadOfTwo(flow);
    FeasibleExactly(flow, LoadOf(flow), [1, 2]);
    IncreasingIsChoice([1, 2], 5);
  }

  /** Only the small flow is moved, and the source stays overloaded, although moving two of the others keeps
      the coded tests and would relieve it. */
  lemma {:induction false} StaysOverloaded(flow: seq<FlowInfo>)
    requires SmallAndLarge(flow)
    ensures var oldLoad := LoadOf(flow);
      && Best(flow, oldLoad, 5) == ([0], 0.0) && !Relieves(flow, oldLoad, [0])
      && Candidate(flow, oldLoad, 5, [1, 2]) && Relieves(flow, oldLoad, [1, 2])
  {
    LoadOfFive(flow);
    TwoLargeRelieve(flow);
    FreeExactly(flow, LoadOf(flow), 0);
    FreeFlowChosen(flow, LoadOf(flow), 0, 5);
    OneFlow(flow, 0);
  }

  // ----- A flow that becomes a little late -----

  /** Five flows that all become late, the second only by 2.16. */
  ghost predicate LittleLate(flow: seq<FlowInfo>) {
    && |flow| == 5 && flow[0].rate == 20000.0 && flow[0].sla == 0.0 && flow[1].rate == 30000.0 && flow[1].sla == 90.0
    && forall j | 2 <= j < 5 :: flow[j].rate == 40000.0 && flow[j].sla == 0.0
  }

  lemma {:induction false} LittleLatePrices(flow: seq<FlowInfo>, oldLoad: real)
    requires LittleLate(flow) && oldLoad > TH_SAFE
    ensures FirstCheapest(flow, oldLoad, 5, 1) && Price(flow[1]) == 2731968.0
  {
    assert Price(flow[0]) == 20000.0 * 92.16 * 42.16;
    forall j | 2 <= j < 5 ensures Price(flow[j]) == 40000.0 * 92.16 * 42.16 {
    }
  }

  /** It is what an overloaded source gives up, although another sends less. */
  lemma {:induction false} LittleLateChosen(flow: seq<FlowInfo>, oldLoad: real)
    requires LittleLate(flow) && oldLoad > TH_SAFE
    ensures Best(flow, oldLoad, 5) == ([1], 2731968.0)
  {
    LittleLatePrices(flow, oldLoad);
    ChosenExactly(flow, oldLoad);
  }
}
