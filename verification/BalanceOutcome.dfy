/** What a load-balancing plan guarantees before any flow is moved, and what it leaves after. */
module BalanceOutcome {
  import opened AlgorithmConstants
  import opened BalancedPlans
  import opened Instances
  import opened LightLoads
  import opened LoadBalance
  import opened Migration
  import opened Sorting

  /** What a round of load balancing starts from: the flow lists, the loads, the flows flagged before,
      and the mean load. */
  datatype Round = Round(lists: seq<seq<FlowInfo>>, loads: seq<real>, flagged: set<FlowInfo>, avg: real)

  function LoadKey(loads: seq<real>): (key: int -> real)
  {
    (v: int) => if 0 <= v < |loads| then loads[v] else 0.0
  }

  function MoveRateKey(lists: seq<seq<FlowInfo>>): (key: MigrateTuple -> real)
  {
    (t: MigrateTuple) => RateAt(lists, t)
  }

  /** The instances above the mean, and the others by the loads they have when flows are assigned. */
  function Heavy(b: Round): (heavy: seq<int>)
  {
    Ids(b.loads, b.avg, true, |b.loads|)
  }

  function Light(b: Round, loads: seq<real>): (light: seq<int>)
  {
    SortBy(Ids(b.loads, b.avg, false, |b.loads|), LoadKey(loads))
  }

  /** The moves by the rates of their flows, none assigned yet. */
  function ToAssign(s: Selected): (a: Assignment)
    ensures |a.ts| == |s.plan| && a.loads == s.loads
  {
    Assignment(SortBy(s.plan, MoveRateKey(s.lists)), 0, s.loads)
  }

  /** The two phases: s is what the heavy instances give away, r how the light ones take it. */
  ghost predicate Phases(b: Round, s: Selected, r: Assignment) {
    && s == Away(Selected(b.lists, b.loads, []), Heavy(b), b.flagged, b.avg)
    && r == Assign(s.lists, ToAssign(s), Light(b, s.loads), 0, b.avg)
  }

  ghost predicate ExactLoads(lists: seq<seq<FlowInfo>>, loads: seq<real>) {
    |lists| == |loads| && forall v | 0 <= v < |lists| :: loads[v] == LoadOf(lists[v])
  }

  /** The round starts from exact loads and their mean. */
  ghost predicate Fair(b: Round) {
    ExactLoads(b.lists, b.loads) && b.loads != [] && b.avg == Mean(b.loads) && NonNegative(b.lists)
  }

  /** No move has v as its source or its destination. */
  ghost predicate Aside(plan: seq<MigrateTuple>, v: int) {
    NoneFrom(plan, v) && NoneTo(plan, v)
  }

  /** t goes to an instance that was not above the mean. */
  predicate GoesToLight(loads: seq<real>, t: MigrateTuple, avg: real) {
    0 <= t.dstVNFid < |loads| && loads[t.dstVNFid] <= avg
  }

  ghost predicate AllToLight(loads: seq<real>, plan: seq<MigrateTuple>, avg: real) {
    forall i | 0 <= i < |plan| :: GoesToLight(loads, plan[i], avg)
  }

  /** Every move goes to an instance that was not above the mean, or to instance 0. */
  ghost predicate ToLight(loads: seq<real>, plan: seq<MigrateTuple>, avg: real) {
    forall i | 0 <= i < |plan| :: plan[i].dstVNFid == 0 || GoesToLight(loads, plan[i], avg)
  }

  ghost predicate AsideExact(lists: seq<seq<FlowInfo>>, loads: seq<real>, plan: seq<MigrateTuple>) {
    |lists| == |loads| && forall v | 0 <= v < |lists| && Aside(plan, v) :: loads[v] == LoadOf(lists[v])
  }

  // ----- The plan -----

  lemma {:induction false} LightSorted(loads: seq<real>, avg: real, key: int -> real)
    ensures var light := SortBy(Ids(loads, avg, false, |loads|), key);
      ValidIds(light, |loads|) && forall v :: v in light <==> 0 <= v < |loads| && loads[v] <= avg
  {
    var ids := Ids(loads, avg, false, |loads|);
    IdsDistinct(loads, avg, false, |loads|);
    SortDistinct(ids, key);
    forall v ensures v in SortBy(ids, key) <==> 0 <= v < |loads| && loads[v] <= avg {
      InSorted(ids, key, v);
      InIds(loads, avg, false, |loads|, v);
    }
    forall i | 0 <= i < |SortBy(ids, key)| ensures 0 <= SortBy(ids, key)[i] < |loads| {
      assert SortBy(ids, key)[i] in SortBy(ids, key);
    }
  }

  lemma {:induction false} ReadyToAssign(b: Round, s: Selected)
    requires Named(s.lists, s.plan)
    ensures FlowsAt(s.lists, ToAssign(s).ts)
    ensures forall i | 0 <= i < |Light(b, s.loads)| :: 0 <= Light(b, s.loads)[i] < |b.loads|
  {
    LightSorted(b.loads, b.avg, LoadKey(s.loads));
    SortNamed(s.lists, s.plan, MoveRateKey(s.lists));
    NamedFlowAt(s.lists, ToAssign(s).ts);
  }

  lemma {:induction false} HeavyValid(loads: seq<real>, avg: real)
    ensures var heavy := Ids(loads, avg, true, |loads|);
      ValidIds(heavy, |loads|) && forall v :: v in heavy <==> 0 <= v < |loads| && loads[v] > avg
  {
    var ids := Ids(loads, avg, true, |loads|);
    IdsDistinct(loads, avg, true, |loads|);
    forall v ensures v in ids <==> 0 <= v < |loads| && loads[v] > avg {
      InIds(loads, avg, true, |loads|, v);
    }
    forall i | 0 <= i < |ids| ensures 0 <= ids[i] < |loads| {
      assert ids[i] in ids;
    }
  }

  lemma {:induction false} SomeLight(loads: seq<real>, key: int -> real)
    requires loads != []
    ensures SortBy(Ids(loads, Mean(loads), false, |loads|), key) != []
  {
    SomeAtMostMean(loads);
    var v :| 0 <= v < |loads| && loads[v] <= Mean(loads);
    InIds(loads, Mean(loads), false, |loads|, v);
  }

  lemma {:induction false} HeavyStartsAbove(b: Round)
    requires Fair(b)
    ensures StartAbove(b.lists, b.loads, Heavy(b), b.avg)
  {
    HeavyValid(b.loads, b.avg);
    forall i | 0 <= i < |Heavy(b)|
      ensures b.loads[Heavy(b)[i]] == LoadOf(b.lists[Heavy(b)[i]]) && b.loads[Heavy(b)[i]] >= b.avg
    {
      assert Heavy(b)[i] in Heavy(b);
    }
  }

  lemma {:induction false} HeavyNamed(b: Round)
    requires Fair(b)
    ensures var s := Away(Selected(b.lists, b.loads, []), Heavy(b), b.flagged, b.avg);
      Named(s.lists, s.plan) && |s.lists| == |b.loads|
  {
    HeavyStartsAbove(b);
    AwayProgress(b.lists, b.loads, Heavy(b), b.flagged, b.avg);
  }

  /** What the first phase has come to when all heavy instances have had their turns. */
  lemma {:induction false} PhaseOne(b: Round, s: Selected, r: Assignment)
    requires Phases(b, s, r) && Fair(b)
    ensures Progress(b.lists, b.loads, s, Heavy(b), b.flagged, b.avg)
  {
    HeavyStartsAbove(b);
    AwayProgress(b.lists, b.loads, Heavy(b), b.flagged, b.avg);
  }

  /** The second phase starts with nothing assigned, and with light instances to take it. */
  lemma {:induction false} PhaseTwo(b: Round, s: Selected, r: Assignment)
    requires Phases(b, s, r) && Fair(b)
    ensures var light := Light(b, s.loads);
      && light != [] && ValidIds(light, |s.loads|) && Unassigned(ToAssign(s).ts)
      && forall v :: v in light <==> 0 <= v < |s.loads| && b.loads[v] <= b.avg
  {
    PhaseOne(b, s, r);
    LightSorted(b.loads, b.avg, LoadKey(s.loads));
    SomeLight(b.loads, LoadKey(s.loads));
    SortUnassigned(s.plan, MoveRateKey(s.lists));
  }

  lemma {:induction false} PlanAims(b: Round, s: Selected, r: Assignment)
    requires Phases(b, s, r) && Fair(b)
    ensures ToLight(b.loads, r.ts, b.avg) && Aimed(r.ts, |s.lists|)
  {
    PhaseTwo(b, s, r);
    AssignSettles(s.lists, ToAssign(s), Light(b, s.loads), b.avg);
    AimedAt(r.ts, |s.lists|);
  }

  /** In the last turn a move is left over that the lightest instance does not take. */
  ghost predicate MoveLeftOver(b: Round, s: Selected) {
    var light := Light(b, s.loads);
    light != [] && ValidIds(light, |s.loads|) && LeftOver(s.lists, ToAssign(s), light, b.avg)
  }

  /** All moves go to light instances exactly when instance 0 is one of them or no move is left over. */
  lemma {:induction false} AllLightExactly(b: Round, s: Selected, r: Assignment)
    requires Phases(b, s, r) && Fair(b)
    ensures AllToLight(b.loads, r.ts, b.avg) <==> b.loads[0] <= b.avg || !MoveLeftOver(b, s)
  {
    PhaseTwo(b, s, r);
    AssignSettles(s.lists, ToAssign(s), Light(b, s.loads), b.avg);
    if MoveLeftOver(b, s) && b.loads[0] > b.avg {
      var i :| 0 <= i < |r.ts| && LastTurn(s.lists, ToAssign(s), Light(b, s.loads), b.avg)[i].dstVNFid < 0;
      assert !GoesToLight(b.loads, r.ts[i], b.avg);
    }
  }

  lemma {:induction false} PlanNames(b: Round, s: Selected, r: Assignment)
    requires Phases(b, s, r) && Fair(b)
    ensures Named(s.lists, r.ts) && SameMoves(ToAssign(s).ts, r.ts)
  {
    PhaseOne(b, s, r);
    SortNamed(s.lists, s.plan, MoveRateKey(s.lists));
    AssignSame(s.lists, ToAssign(s), Light(b, s.loads), 0, b.avg);
    NamedSame(s.lists, ToAssign(s).ts, r.ts);
  }

  /** The plan takes from each instance what the first phase gave away. */
  lemma {:induction false} PlanTakes(b: Round, s: Selected, r: Assignment, v: int)
    requires Phases(b, s, r) && Fair(b)
    ensures RemovedFrom(SortBy(r.ts, FlowidKey), v) == RemovedFrom(r.ts, v) == RemovedFrom(s.plan, v)
    ensures v !in Heavy(b) ==> RemovedFrom(s.plan, v) == {}
  {
    PhaseOne(b, s, r);
    PlanNames(b, s, r);
    RemovedSorted(s.plan, MoveRateKey(s.lists), v);
    RemovedSame(ToAssign(s).ts, r.ts, v, 0);
    RemovedSorted(r.ts, FlowidKey, v);
    if v !in Heavy(b) {
      NoneRemoved(s.plan, v, 0);
    }
  }

  lemma {:induction false} PlanLeavesExact(b: Round, s: Selected, r: Assignment)
    requires Phases(b, s, r) && Fair(b)
    ensures AsideExact(s.lists, r.loads, r.ts)
  {
    PhaseOne(b, s, r);
    forall v | 0 <= v < |s.lists| && Aside(r.ts, v) ensures r.loads[v] == LoadOf(s.lists[v]) {
      AssignLoads(s.lists, ToAssign(s), Light(b, s.loads), 0, b.avg, v);
      if v in Heavy(b) {
        PlanTakes(b, s, r, v);
        NoneRemoved(r.ts, v, 0);
        KeptAll(s.lists[v], {});
        assert LeftAbove(s, v, b.flagged, b.avg);
      }
    }
  }

  /** The plan can be carried out, sends nothing to an instance above the mean but instance 0, and the loads
      it does not touch are exact. */
  lemma {:induction false} PlanOutcome(b: Round, s: Selected, r: Assignment)
    requires Phases(b, s, r) && Fair(b)
    ensures SameFlows(b.lists, s.lists) && Movable(s.lists, r.ts) && ToLight(b.loads, r.ts, b.avg)
    ensures AsideExact(s.lists, r.loads, r.ts)
  {
    PhaseOne(b, s, r);
    PlanAims(b, s, r);
    PlanNames(b, s, r);
    PlanLeavesExact(b, s, r);
  }

  lemma {:induction false} PlanLengths(b: Round, s: Selected, r: Assignment)
    requires Phases(b, s, r) && Fair(b)
    ensures SameLengths(b.lists, s.lists)
  {
    PhaseOne(b, s, r);
  }

  // ----- After the moves -----

  lemma {:induction false} FlowSetIn(lists: seq<seq<FlowInfo>>, f: FlowInfo) returns (v: int, i: int)
    requires f in FlowSet(lists)
    ensures 0 <= v < |lists| && 0 <= i < |lists[v]| && lists[v][i] == f
  {
    var last := |lists| - 1;
    if f in lists[last] {
      v := last;
      i :| 0 <= i < |lists[last]| && lists[last][i] == f;
    } else {
      v, i := FlowSetIn(lists[..last], f);
    }
  }

  lemma {:induction false} SameFlowAt(a: seq<seq<FlowInfo>>, b: seq<seq<FlowInfo>>, v: int, i: int)
    requires SameFlows(a, b) && 0 <= v < |b| && 0 <= i < |b[v]|
    ensures b[v][i] in a[v]
  {
    assert b[v][i] in multiset(b[v]);
    assert b[v][i] in multiset(a[v]);
  }

  lemma {:induction false} SameFlowSet(a: seq<seq<FlowInfo>>, b: seq<seq<FlowInfo>>)
    requires SameFlows(a, b)
    ensures forall f | f in FlowSet(b) :: f in FlowSet(a)
  {
    forall f | f in FlowSet(b) ensures f in FlowSet(a) {
      var v, i := FlowSetIn(b, f);
      SameFlowAt(a, b, v, i);
      AllInFlowSet(a, v);
    }
  }

  lemma {:induction false} SameNonNegative(a: seq<seq<FlowInfo>>, b: seq<seq<FlowInfo>>)
    requires SameFlows(a, b) && NonNegative(a)
    ensures NonNegative(b)
  {
    forall v | 0 <= v < |b| ensures NoneBelowZero(b[v]) {
      forall i | 0 <= i < |b[v]| ensures b[v][i].rate >= 0.0 {
        SameFlowAt(a, b, v, i);
        var j :| 0 <= j < |a[v]| && a[v][j] == b[v][i];
        assert NoneBelowZero(a[v]);
      }
    }
  }

  lemma {:induction false} NoneArrived<F>(lists: seq<seq<F>>, ts: seq<MigrateTuple>, v: int, i: nat)
    requires NoneTo(ts, v)
    ensures Arrived(lists, ts, v, i) == []
    decreases |ts| - i
  {
    if i < |ts| {
      NoneArrived(lists, ts, v, i + 1);
    }
  }

  lemma {:induction false} AsideStays(lists: seq<seq<FlowInfo>>, ts: seq<MigrateTuple>, after: seq<seq<FlowInfo>>,
      v: int)
    requires MovedExactly(lists, ts, after) && Aside(ts, v) && 0 <= v < |lists|
    ensures after[v] == lists[v]
  {
    NoneArrived(lists, ts, v, 0);
    NoneRemoved(ts, v, 0);
    KeptAll(lists[v], {});
  }

  lemma {:induction false} AsideSorted(ts: seq<MigrateTuple>, key: MigrateTuple -> real, v: int)
    requires Aside(SortBy(ts, key), v)
    ensures Aside(ts, v)
  {
    forall i | 0 <= i < |ts| ensures ts[i].srcVNFid != v && ts[i].dstVNFid != v {
      InSorted(ts, key, ts[i]);
    }
  }

  /** Without one more of these flows that may move, what is there would be below the mean. */
  ghost predicate GaveAll(flow: seq<FlowInfo>, flagged: set<FlowInfo>, avg: real) {
    forall i | 0 <= i < |flow| && MayMove(flow[i], flagged) :: LoadOf(flow) - Share(flow[i].rate) < avg
  }

  /** The load is at most the mean, or would be without one of the flows from index n on. */
  ghost predicate BelowButOne(flow: seq<FlowInfo>, n: nat, avg: real) {
    LoadOf(flow) <= avg || exists i :: n <= i < |flow| && LoadOf(flow) - Share(flow[i].rate) <= avg
  }

  /** The load that v is sent without being counted: for instance 0 that of the moves left over, else nothing. */
  ghost function UncountedAt(b: Round, s: Selected, v: int): (r: real)
  {
    var light := Light(b, s.loads);
    if light != [] && ValidIds(light, |s.loads|) then Uncounted(s.lists, ToAssign(s), light, b.avg, v) else 0.0
  }

  /** v takes nothing that is not counted: it is not instance 0, or no move is left over. */
  ghost predicate TakesCounted(b: Round, s: Selected, v: int) {
    v != 0 || !MoveLeftOver(b, s)
  }

  /** The flows that the selection leaves at v. */
  function Remaining(s: Selected, v: int): (r: seq<FlowInfo>)
    requires 0 <= v < |s.lists|
  {
    Kept(s.lists[v], RemovedFrom(s.plan, v))
  }

  /** An instance that was above the mean: what is left carries at least the mean and has given away all it
      could, and nothing but uncounted moves is added to it. */
  ghost predicate HeavyEven(b: Round, s: Selected, flow: seq<FlowInfo>, v: int)
    requires 0 <= v < |s.lists|
  {
    var rest := Remaining(s, v);
    && rest <= flow && LoadOf(rest) >= b.avg && GaveAll(rest, b.flagged, b.avg)
    && LoadOf(flow) >= b.avg && LoadOf(flow) == LoadOf(rest) + UncountedAt(b, s, v)
    && (TakesCounted(b, s, v) ==> flow == rest)
  }

  /** An instance that was not: it keeps its flows, and what is counted passes the mean by at most one of the
      flows it is given. */
  ghost predicate LightEven(b: Round, s: Selected, flow: seq<FlowInfo>, v: int)
    requires 0 <= v < |b.lists|
  {
    b.lists[v] <= flow && BelowButOne(flow, |b.lists[v]|, b.avg + UncountedAt(b, s, v))
  }

  /** What a round comes to. */
  ghost predicate Evened(b: Round, s: Selected, after: seq<seq<FlowInfo>>) {
    && |after| == |b.lists| == |b.loads| == |s.lists|
    && (forall v | 0 <= v < |after| ::
         if b.loads[v] > b.avg then HeavyEven(b, s, after[v], v) else LightEven(b, s, after[v], v))
    && forall v | TakesCounted(b, s, v) :: UncountedAt(b, s, v) == 0.0
  }

  lemma {:induction false} KeptFrom<F>(s: seq<F>, removed: set<int>, i: int) returns (j: int)
    requires 0 <= i < |Kept(s, removed)|
    ensures 0 <= j < |s| && j !in removed && s[j] == Kept(s, removed)[i]
    decreases |s|
  {
    var last := |s| - 1;
    if i == |Kept(s[..last], removed)| {
      j := last;
    } else {
      j := KeptFrom(s[..last], removed, i);
    }
  }

  lemma {:induction false} KeptGaveAll(flow: seq<FlowInfo>, load: real, removed: set<int>, flagged: set<FlowInfo>,
      avg: real)
    requires LeftAt(flow, load, removed, flagged, avg)
    ensures GaveAll(Kept(flow, removed), flagged, avg)
  {
    var kept := Kept(flow, removed);
    forall i | 0 <= i < |kept| && MayMove(kept[i], flagged) ensures LoadOf(kept) - Share(kept[i].rate) < avg {
      var j := KeptFrom(flow, removed, i);
    }
  }

  lemma {:induction false} SortedInRange(lists: seq<seq<FlowInfo>>, ts: seq<MigrateTuple>)
    requires Movable(lists, ts)
    ensures AllInRange(lists, SortBy(ts, FlowidKey))
  {
    var plan := SortBy(ts, FlowidKey);
    SortMovable(lists, ts, FlowidKey);
    forall i | 0 <= i < |plan| ensures InRange(lists, plan[i]) {
      NamedAt(lists, plan, i);
    }
  }

  lemma {:induction false} KeptAfter(lists: seq<seq<FlowInfo>>, plan: seq<MigrateTuple>, after: seq<seq<FlowInfo>>,
      v: int)
    requires MovedExactly(lists, plan, after) && AllInRange(lists, plan) && 0 <= v < |lists|
    ensures var rest := Kept(lists[v], RemovedFrom(plan, v));
      && rest <= after[v] && LoadOf(after[v]) == LoadOf(rest) + Bound(lists, plan, v)
      && (NoneTo(plan, v) ==> after[v] == rest)
  {
    var rest := Kept(lists[v], RemovedFrom(plan, v));
    ArrivedBound(lists, plan, v, 0);
    assert plan[..0] == [];
    TotalConcat(rest, Arrived(lists, plan, v), (f: FlowInfo) => f.rate);
    if NoneTo(plan, v) {
      NoneArrived(lists, plan, v, 0);
      assert after[v] == rest + [];
    }
  }

  lemma {:induction false} HeavyApart(b: Round, s: Selected, r: Assignment, v: int)
    requires Phases(b, s, r) && Fair(b) && 0 <= v < |b.loads| && b.loads[v] > b.avg && TakesCounted(b, s, v)
    ensures NoneTo(SortBy(r.ts, FlowidKey), v)
  {
    PlanAims(b, s, r);
    AllLightExactly(b, s, r);
    forall i | 0 <= i < |SortBy(r.ts, FlowidKey)| ensures SortBy(r.ts, FlowidKey)[i].dstVNFid != v {
      InSorted(r.ts, FlowidKey, SortBy(r.ts, FlowidKey)[i]);
    }
  }

  /** Nothing but what is not counted goes to a heavy instance. */
  lemma {:induction false} HeavyBound(b: Round, s: Selected, r: Assignment, v: int)
    requires Phases(b, s, r) && Fair(b) && 0 <= v < |s.loads| && b.loads[v] > b.avg
    ensures Bound(s.lists, SortBy(r.ts, FlowidKey), v) == UncountedAt(b, s, v)
  {
    PhaseTwo(b, s, r);
    NoTurn(s.lists, ToAssign(s), Light(b, s.loads), 0, b.avg, v);
    LightCounted(b, s, r, v);
    BoundSorted(s.lists, r.ts, FlowidKey, v);
  }

  /** What the selection leaves at a heavy instance. */
  lemma {:induction false} HeavyLeft(b: Round, s: Selected, r: Assignment, v: int)
    requires Phases(b, s, r) && Fair(b) && 0 <= v < |s.lists| && b.loads[v] > b.avg
    ensures RemovedFrom(SortBy(r.ts, FlowidKey), v) == RemovedFrom(s.plan, v)
    ensures LoadOf(Remaining(s, v)) >= b.avg && GaveAll(Remaining(s, v), b.flagged, b.avg)
  {
    PhaseOne(b, s, r);
    InIds(b.loads, b.avg, true, |b.loads|, v);
    PlanTakes(b, s, r, v);
    assert LeftAbove(s, v, b.flagged, b.avg);
    KeptGaveAll(s.lists[v], s.loads[v], RemovedFrom(s.plan, v), b.flagged, b.avg);
  }

  lemma {:induction false} HeavyAfter(b: Round, s: Selected, r: Assignment, after: seq<seq<FlowInfo>>, v: int)
    requires Phases(b, s, r) && Fair(b) && MovedExactly(s.lists, SortBy(r.ts, FlowidKey), after)
    requires 0 <= v < |s.lists| && b.loads[v] > b.avg
    ensures HeavyEven(b, s, after[v], v)
  {
    var plan := SortBy(r.ts, FlowidKey);
    HeavyLeft(b, s, r, v);
    PlanOutcome(b, s, r);
    SortedInRange(s.lists, r.ts);
    KeptAfter(s.lists, plan, after, v);
    HeavyBound(b, s, r, v);
    SameNonNegative(b.lists, s.lists);
    LeftAtLeast(s.lists, plan, after, v);
    if TakesCounted(b, s, v) {
      HeavyApart(b, s, r, v);
    }
  }

  lemma {:induction false} LightKept(b: Round, s: Selected, r: Assignment, v: int)
    requires Phases(b, s, r) && Fair(b) && 0 <= v < |s.lists| && b.loads[v] <= b.avg
    ensures s.lists[v] == b.lists[v] && s.loads[v] == b.loads[v] == LoadOf(b.lists[v])
    ensures RemovedFrom(SortBy(r.ts, FlowidKey), v) == {}
  {
    PhaseOne(b, s, r);
    InIds(b.loads, b.avg, true, |b.loads|, v);
    PlanTakes(b, s, r, v);
  }

  /** What a light instance's load is counted up to is, with what is not counted, its load after the moves. */
  lemma {:induction false} LightAfter(b: Round, s: Selected, r: Assignment, after: seq<seq<FlowInfo>>, v: int)
    requires Phases(b, s, r) && Fair(b) && MovedExactly(s.lists, SortBy(r.ts, FlowidKey), after)
    requires 0 <= v < |s.lists| && b.loads[v] <= b.avg
    ensures after[v] == b.lists[v] + Arrived(s.lists, SortBy(r.ts, FlowidKey), v)
    ensures LoadOf(after[v]) == r.loads[v] + UncountedAt(b, s, v)
  {
    LightKept(b, s, r, v);
    PlanOutcome(b, s, r);
    SortedInRange(s.lists, r.ts);
    KeptAll(b.lists[v], {});
    KeptAfter(s.lists, SortBy(r.ts, FlowidKey), after, v);
    BoundSorted(s.lists, r.ts, FlowidKey, v);
    LightCounted(b, s, r, v);
  }

  lemma {:induction false} LightCounted(b: Round, s: Selected, r: Assignment, v: int)
    requires Phases(b, s, r) && Fair(b) && 0 <= v < |s.loads|
    ensures r.loads[v] + UncountedAt(b, s, v) == s.loads[v] + Bound(s.lists, r.ts, v)
  {
    PhaseTwo(b, s, r);
    AssignCounts(s.lists, ToAssign(s), Light(b, s.loads), b.avg, v);
    NothingBound(s.lists, ToAssign(s).ts, v);
  }

  lemma {:induction false} LightModest(b: Round, s: Selected, r: Assignment, v: int)
    requires Phases(b, s, r) && Fair(b) && 0 <= v < |s.loads| && b.loads[v] <= b.avg
    ensures Modest(s.lists, r.ts, r.loads[v], v, b.avg)
  {
    var light := Light(b, s.loads);
    PhaseOne(b, s, r);
    PhaseTwo(b, s, r);
    HeavyValid(b.loads, b.avg);
    forall i | 0 <= i < |light| ensures s.loads[light[i]] <= b.avg {
      assert light[i] in light;
    }
    AssignModest(s.lists, ToAssign(s), light, 0, b.avg);
    assert v in light;
    var i :| 0 <= i < |light| && light[i] == v;
  }

  lemma {:induction false} LightBelow(b: Round, s: Selected, r: Assignment, after: seq<seq<FlowInfo>>, v: int)
    requires Phases(b, s, r) && Fair(b) && MovedExactly(s.lists, SortBy(r.ts, FlowidKey), after)
    requires 0 <= v < |s.lists| && b.loads[v] <= b.avg
    ensures LightEven(b, s, after[v], v)
  {
    var plan := SortBy(r.ts, FlowidKey);
    LightAfter(b, s, r, after, v);
    LightModest(b, s, r, v);
    if r.loads[v] > b.avg {
      var i :| 0 <= i < |r.ts| && r.ts[i].dstVNFid == v && r.loads[v] - Share(RateAt(s.lists, r.ts[i])) <= b.avg;
      PlanOutcome(b, s, r);
      SortedInRange(s.lists, r.ts);
      var j := ArrivesAt(s.lists, r.ts, v, i);
      assert after[v][|b.lists[v]| + j] == Arrived(s.lists, plan, v)[j];
    }
  }

  lemma {:induction false} ArrivesAt(lists: seq<seq<FlowInfo>>, ts: seq<MigrateTuple>, v: int, i: int) returns (j: int)
    requires AllInRange(lists, SortBy(ts, FlowidKey)) && 0 <= i < |ts| && ts[i].dstVNFid == v
    ensures var arrived := Arrived(lists, SortBy(ts, FlowidKey), v);
      0 <= j < |arrived| && arrived[j].rate == RateAt(lists, ts[i])
  {
    var plan := SortBy(ts, FlowidKey);
    InSorted(ts, FlowidKey, ts[i]);
    var k :| 0 <= k < |plan| && plan[k] == ts[i];
    Arrives(lists, plan, v, 0, k);
    var f := lists[plan[k].srcVNFid][plan[k].flowid];
    j :| 0 <= j < |Arrived(lists, plan, v)| && Arrived(lists, plan, v)[j] == f;
  }

  lemma {:induction false} CountedUnlessLeft(b: Round, s: Selected, r: Assignment, v: int)
    requires Phases(b, s, r) && Fair(b) && TakesCounted(b, s, v)
    ensures UncountedAt(b, s, v) == 0.0
  {
    PhaseTwo(b, s, r);
    if v == 0 {
      NothingUncounted(s.lists, ToAssign(s), Light(b, s.loads), b.avg, v);
    }
  }

  lemma {:induction false} RoundEvens(b: Round, s: Selected, r: Assignment, after: seq<seq<FlowInfo>>)
    requires Phases(b, s, r) && Fair(b) && MovedExactly(s.lists, SortBy(r.ts, FlowidKey), after)
    ensures Evened(b, s, after)
  {
    forall v | 0 <= v < |after|
      ensures if b.loads[v] > b.avg then HeavyEven(b, s, after[v], v) else LightEven(b, s, after[v], v)
    {
      if b.loads[v] > b.avg {
        HeavyAfter(b, s, r, after, v);
      } else {
        LightBelow(b, s, r, after, v);
      }
    }
    forall v | TakesCounted(b, s, v) ensures UncountedAt(b, s, v) == 0.0 {
      CountedUnlessLeft(b, s, r, v);
    }
  }

  /** An instance no move touches ends as it was. */
  lemma {:induction false} AsideAfter(lists: seq<seq<FlowInfo>>, loads: seq<real>, plan: seq<MigrateTuple>,
      after: seq<seq<FlowInfo>>, v: int)
    requires AsideExact(lists, loads, plan) && MovedExactly(lists, SortBy(plan, FlowidKey), after) && 0 <= v < |lists|
    requires Aside(SortBy(plan, FlowidKey), v)
    ensures loads[v] == LoadOf(after[v]) && |after[v]| == |lists[v]|
  {
    AsideStays(lists, SortBy(plan, FlowidKey), after, v);
    AsideSorted(plan, FlowidKey, v);
  }
}
