/** A round of load balancing in which a move is left over: it ends at an instance above the mean, an empty one
    stays empty, and the loads lie further apart than before. */
module LeftoverMove {
  import opened AlgorithmConstants
  import opened BalanceOutcome
  import opened Instances
  import opened LightLoads
  import opened LoadBalance
  import opened LoadVariance
  import opened Migration
  import opened Sorting

  /** Two small flows and two large ones, all of which may move. */
  ghost predicate TwoLarge(flow: seq<FlowInfo>) {
    && |flow| == 4 && flow[0].rate == flow[1].rate == 1000.0 && flow[2].rate == flow[3].rate == 14000.0
    && forall i | 0 <= i < 4 :: flow[i].sla == 100.0
  }

  /** Instance 0 with a single large flow, instance 1 with four flows, and two empty instances. */
  ghost predicate Uneven(b: Round) {
    && |b.lists| == 4 && |b.lists[0]| == 1 && b.lists[0][0].rate == 19000.0 && TwoLarge(b.lists[1])
    && b.lists[2] == b.lists[3] == [] && b.avg == Share(12250.0)
    && b.loads == [Share(19000.0), Share(30000.0), 0.0, 0.0]
  }

  lemma {:induction false} TotalOfFour(flow: seq<FlowInfo>)
    requires |flow| == 4
    ensures TotalRate(flow) == flow[0].rate + flow[1].rate + flow[2].rate + flow[3].rate
    ensures TotalRate([]) == 0.0
  {
    var f1, f2, f3 := flow[..1], flow[..2], flow[..3];
    assert f1 == [] + [flow[0]] && f2 == f1 + [flow[1]] && f3 == f2 + [flow[2]] && flow == f3 + [flow[3]];
    TotalRateSnoc([], flow[0]);
    TotalRateSnoc(f1, flow[1]);
    TotalRateSnoc(f2, flow[2]);
    TotalRateSnoc(f3, flow[3]);
  }

  lemma {:induction false} TotalOfOne(flow: seq<FlowInfo>)
    requires |flow| == 1
    ensures TotalRate(flow) == flow[0].rate
  {
    assert flow == [] + [flow[0]];
    TotalRateSnoc([], flow[0]);
  }

  lemma {:induction false} SumsOfFour(s: seq<real>)
    requires |s| == 4
    ensures Sum(s) == s[0] + s[1] + s[2] + s[3]
    ensures SumSquares(s) == Square(s[0]) + Square(s[1]) + Square(s[2]) + Square(s[3])
  {
    var s1, s2, s3 := s[..1], s[..2], s[..3];
    assert s3[..2] == s2 && s2[..1] == s1 && s1[..0] == [];
    assert Sum(s1) == s[0] && Sum(s2) == Sum(s1) + s[1] && Sum(s3) == Sum(s2) + s[2];
    assert SumSquares(s1) == Square(s[0]) && SumSquares(s2) == SumSquares(s1) + Square(s[1]);
    assert SumSquares(s3) == SumSquares(s2) + Square(s[2]);
  }

  lemma {:induction false} StartsFair(b: Round)
    requires Uneven(b)
    ensures Fair(b)
  {
    TotalOfOne(b.lists[0]);
    TotalOfFour(b.lists[1]);
    SumsOfFour(b.loads);
    assert Mean(b.loads) == (Share(19000.0) + Share(30000.0)) / 4.0;
    forall v | 0 <= v < 4 ensures NoneBelowZero(b.lists[v]) {
    }
  }

  // ----- What is given away -----

  lemma {:induction false} SortTwo<T>(x: T, y: T, key: T -> real)
    ensures SortBy([x], key) == [x]
    ensures SortBy([x, y], key) == if key(x) <= key(y) then [x, y] else [y, x]
  {
    assert [x][..0] == [] && [x, y][..1] == [x];
    assert SortBy([x], key) == [x];
    assert SortBy([x, y], key) == Insert([x], y, key);
    if key(x) > key(y) {
      assert Insert([x], y, key) == Insert([], y, key) + [x];
    }
  }

  lemma {:induction false} InOrderAlready<T>(s: seq<T>, key: T -> real)
    requires SortedBy(s, key)
    ensures SortBy(s, key) == s
    decreases |s|
  {
    if s != [] {
      InOrderAlready(s[..|s| - 1], key);
      assert s == s[..|s| - 1] + [s[|s| - 1]];
    }
  }

  lemma {:induction false} FourInOrder(flow: seq<FlowInfo>)
    requires |flow| == 4 && flow[0].rate <= flow[1].rate <= flow[2].rate <= flow[3].rate
    ensures SortBy(flow, RateKey) == flow
  {
    var f2, f3 := flow[..2], flow[..3];
    assert f3[..2] == f2 && SortedBy(f2, RateKey);
    assert SortedBy(f3, RateKey);
    InOrderAlready(flow, RateKey);
  }

  lemma {:induction false} GivesThree(flow: seq<FlowInfo>, flagged: set<FlowInfo>)
    requires TwoLarge(flow)
    ensures GiveAway(flow, flagged, 4, Selection([], Share(30000.0)), Share(12250.0))
         == Selection([3, 1, 0], Share(14000.0))
  {
    var avg := Share(12250.0);
    var s0 := Selection([], Share(30000.0));
    var s3, s2 := Selection([3], Share(16000.0)), Selection([3, 1], Share(15000.0));
    var s1 := Selection([3, 1, 0], Share(14000.0));
    assert forall i | 0 <= i < 4 :: SafeToMove(flow[i]);
    assert GiveOne(flow, flagged, 3, s0, avg) == s3;
    assert GiveOne(flow, flagged, 2, s3, avg) == s3;
    assert GiveOne(flow, flagged, 1, s3, avg) == s2;
    assert GiveOne(flow, flagged, 0, s2, avg) == s1;
    assert GiveAway(flow, flagged, 1, s2, avg) == GiveAway(flow, flagged, 0, s1, avg) == s1;
    assert GiveAway(flow, flagged, 2, s3, avg) == GiveAway(flow, flagged, 1, s2, avg);
    assert GiveAway(flow, flagged, 3, s3, avg) == GiveAway(flow, flagged, 2, s3, avg);
    assert GiveAway(flow, flagged, 4, s0, avg) == GiveAway(flow, flagged, 3, s3, avg);
  }

  lemma {:induction false} GivesNone(flow: seq<FlowInfo>, flagged: set<FlowInfo>)
    requires |flow| == 1 && flow[0].rate == 19000.0
    ensures SortBy(flow, RateKey) == flow
    ensures GiveAway(flow, flagged, 1, Selection([], Share(19000.0)), Share(12250.0))
         == Selection([], Share(19000.0))
  {
    var s0 := Selection([], Share(19000.0));
    assert flow == [flow[0]];
    SortTwo(flow[0], flow[0], RateKey);
    assert GiveOne(flow, flagged, 0, s0, Share(12250.0)) == s0;
    assert GiveAway(flow, flagged, 0, s0, Share(12250.0)) == s0;
  }

  lemma {:induction false} SplitOfFour(b: Round)
    requires Uneven(b)
    ensures Heavy(b) == [0, 1] && Ids(b.loads, b.avg, false, 4) == [2, 3]
  {
    assert b.loads[0] > b.avg && b.loads[1] > b.avg && b.loads[2] <= b.avg && b.loads[3] <= b.avg;
    assert Ids(b.loads, b.avg, true, 0) == [] && Ids(b.loads, b.avg, false, 0) == [];
    assert Ids(b.loads, b.avg, true, 1) == [0] && Ids(b.loads, b.avg, false, 1) == [];
    assert Ids(b.loads, b.avg, true, 2) == [0, 1] && Ids(b.loads, b.avg, false, 2) == [];
    assert Ids(b.loads, b.avg, true, 3) == [0, 1] && Ids(b.loads, b.avg, false, 3) == [2];
    assert Ids(b.loads, b.avg, true, 4) == [0, 1] && Ids(b.loads, b.avg, false, 4) == [2, 3];
  }

  lemma {:induction false} TuplesOfThree(id: int, x: int, y: int, z: int, dst: int)
    ensures Tuples(id, [x, y, z], dst) == [MigrateTuple(id, x, dst), MigrateTuple(id, y, dst), MigrateTuple(id, z, dst)]
  {
  }

  lemma {:induction false} FirstTurn(b: Round, start: Selected)
    requires Uneven(b) && start == Selected(b.lists, b.loads, [])
    ensures AwayOne(start, 0, b.flagged, b.avg) == start
  {
    GivesNone(b.lists[0], b.flagged);
    OneTurn(start, 0, b.flagged, b.avg, Turn(b.lists[0], b.flagged, b.loads[0], b.avg));
    assert b.lists[0 := b.lists[0]] == b.lists && b.loads[0 := b.loads[0]] == b.loads;
  }

  lemma {:induction false} SecondTurn(b: Round, start: Selected)
    requires Uneven(b) && start == Selected(b.lists, b.loads, [])
    ensures var s := AwayOne(start, 1, b.flagged, b.avg);
      && s.lists == b.lists && s.loads == [Share(19000.0), Share(14000.0), 0.0, 0.0]
      && s.plan == [MigrateTuple(1, 3, -1), MigrateTuple(1, 1, -1), MigrateTuple(1, 0, -1)]
  {
    FourInOrder(b.lists[1]);
    GivesThree(b.lists[1], b.flagged);
    TuplesOfThree(1, 3, 1, 0, -1);
    OneTurn(start, 1, b.flagged, b.avg, Turn(b.lists[1], b.flagged, b.loads[1], b.avg));
    assert b.lists[1 := b.lists[1]] == b.lists;
  }

  lemma {:induction false} SelectedThree(b: Round, s: Selected)
    requires Uneven(b) && s == Away(Selected(b.lists, b.loads, []), Heavy(b), b.flagged, b.avg)
    ensures s.lists == b.lists && s.loads == [Share(19000.0), Share(14000.0), 0.0, 0.0]
    ensures s.plan == [MigrateTuple(1, 3, -1), MigrateTuple(1, 1, -1), MigrateTuple(1, 0, -1)]
  {
    var start := Selected(b.lists, b.loads, []);
    SplitOfFour(b);
    FirstTurn(b, start);
    SecondTurn(b, start);
    assert [0, 1][..1] == [0] && [0][..0] == [];
    assert Away(start, [0], b.flagged, b.avg) == AwayOne(Away(start, [], b.flagged, b.avg), 0, b.flagged, b.avg);
    assert s == AwayOne(Away(start, [0], b.flagged, b.avg), 1, b.flagged, b.avg);
  }

  // ----- How it is assigned -----

  lemma {:induction false} MovesByRate(lists: seq<seq<FlowInfo>>, x: MigrateTuple, y: MigrateTuple, z: MigrateTuple)
    requires RateAt(lists, x) == 14000.0 && RateAt(lists, y) == RateAt(lists, z) == 1000.0
    ensures SortBy([x, y, z], MoveRateKey(lists)) == [y, z, x]
  {
    var key := MoveRateKey(lists);
    SortTwo(x, y, key);
    assert [x, y, z][..2] == [x, y];
    assert SortBy([x, y, z], key) == Insert([y, x], z, key);
    assert [y, x][..1] == [y];
    assert Insert([y, x], z, key) == Insert([y], z, key) + [x];
    assert Insert([y], z, key) == [y] + [z];
  }

  /** The turn of the second light instance takes the two small flows. */
  lemma {:induction false} TakesSmall(lists: seq<seq<FlowInfo>>, x: MigrateTuple, y: MigrateTuple, z: MigrateTuple,
      avg: real)
    requires RateAt(lists, x) == 14000.0 && RateAt(lists, y) == RateAt(lists, z) == 1000.0 && avg == Share(12250.0)
    requires x.dstVNFid == y.dstVNFid == z.dstVNFid == -1
    ensures Fill(lists, Filling([y, z, x], 0.0, 0), 3, 3, false, avg)
         == Filling([y.(dstVNFid := 3), z.(dstVNFid := 3), x], Share(2000.0), 1)
  {
    var s0 := Filling([y, z, x], 0.0, 0);
    var s1 := Filling([y, z.(dstVNFid := 3), x], Share(1000.0), 0);
    var s2 := Filling([y.(dstVNFid := 3), z.(dstVNFid := 3), x], Share(2000.0), 1);
    assert Offer(lists, s0, 2, 3, false, avg) == s0;
    assert Offer(lists, s0, 1, 3, false, avg) == s1;
    assert Offer(lists, s1, 0, 3, false, avg) == s2;
    assert Fill(lists, s2, 0, 3, false, avg) == s2;
    assert Fill(lists, s1, 1, 3, false, avg) == s2;
    assert Fill(lists, s0, 2, 3, false, avg) == s2;
  }

  /** The turn of the lightest leaves the large one over. */
  lemma {:induction false} LeavesLarge(lists: seq<seq<FlowInfo>>, x: MigrateTuple, y: MigrateTuple, z: MigrateTuple,
      avg: real)
    requires RateAt(lists, x) == 14000.0 && avg == Share(12250.0)
    requires x.dstVNFid == -1 && y.dstVNFid == z.dstVNFid == 3
    ensures Fill(lists, Filling([y, z, x], 0.0, 1), 3, 2, true, avg) == Filling([y, z, x.(dstVNFid := 0)], 0.0, 1)
  {
    var s0, s1 := Filling([y, z, x], 0.0, 1), Filling([y, z, x.(dstVNFid := 0)], 0.0, 1);
    assert Offer(lists, s0, 2, 2, true, avg) == s1;
    assert Offer(lists, s1, 1, 2, true, avg) == s1 && Offer(lists, s1, 0, 2, true, avg) == s1;
    assert Fill(lists, s1, 0, 2, true, avg) == s1;
    assert Fill(lists, s1, 1, 2, true, avg) == s1;
    assert Fill(lists, s1, 2, 2, true, avg) == s1;
  }

  lemma {:induction false} AssignedThree(b: Round, s: Selected, r: Assignment)
    requires Uneven(b) && Phases(b, s, r)
    ensures ToAssign(s).ts == [MigrateTuple(1, 1, -1), MigrateTuple(1, 0, -1), MigrateTuple(1, 3, -1)]
    ensures r.ts == [MigrateTuple(1, 1, 3), MigrateTuple(1, 0, 3), MigrateTuple(1, 3, 0)]
    ensures r.loads == [Share(19000.0), Share(14000.0), 0.0, Share(2000.0)]
  {
    var x, y, z := MigrateTuple(1, 3, -1), MigrateTuple(1, 1, -1), MigrateTuple(1, 0, -1);
    SelectedThree(b, s);
    SplitOfFour(b);
    SortTwo(2, 3, LoadKey(s.loads));
    MovesByRate(s.lists, x, y, z);
    var a, light := Assignment([y, z, x], 0, s.loads), [2, 3];
    assert ToAssign(s) == a && Light(b, s.loads) == light;
    TakesSmall(s.lists, x, y, z, b.avg);
    var a1 := Assign(s.lists, a, light, 1, b.avg);
    assert a1 == AssignOne(s.lists, Assign(s.lists, a, light, 2, b.avg), 3, false, b.avg);
    assert a1.ts == [y.(dstVNFid := 3), z.(dstVNFid := 3), x] && a1.end == 1;
    assert a1.loads == s.loads[3 := Share(2000.0)] && a1.loads[2] == 0.0;
    LeavesLarge(s.lists, x, a1.ts[0], a1.ts[1], b.avg);
    assert r == AssignOne(s.lists, a1, 2, true, b.avg);
  }

  /** The large flow goes to instance 0, which is above the mean; instance 2 stays empty. */
  lemma {:induction false} LeftoverStays(b: Round, s: Selected, r: Assignment, after: seq<seq<FlowInfo>>)
    requires Uneven(b) && Phases(b, s, r) && MovedExactly(s.lists, SortBy(r.ts, FlowidKey), after)
    ensures Fair(b) && b.loads[0] > b.avg && |r.ts| == 3 && r.ts[2] == MigrateTuple(1, 3, 0)
    ensures !AllToLight(b.loads, r.ts, b.avg) && |after| == 4 && after[2] == []
  {
    StartsFair(b);
    AssignedThree(b, s, r);
    assert !GoesToLight(b.loads, r.ts[2], b.avg);
    SelectedThree(b, s);
    var plan := SortBy(r.ts, FlowidKey);
    forall i | 0 <= i < |plan| ensures plan[i].srcVNFid != 2 && plan[i].dstVNFid != 2 {
      InSorted(r.ts, FlowidKey, plan[i]);
    }
    AsideStays(s.lists, plan, after, 2);
  }

  lemma {:induction false} BoundOfThree(lists: seq<seq<FlowInfo>>, x: MigrateTuple, y: MigrateTuple, z: MigrateTuple,
      v: int)
    ensures Bound(lists, [x, y, z], v) == Part(lists, x, v) + Part(lists, y, v) + Part(lists, z, v)
  {
    BoundSnoc(lists, [], x, v);
    BoundSnoc(lists, [x], y, v);
    BoundSnoc(lists, [x, y], z, v);
    assert [] + [x] == [x] && [x] + [y] == [x, y] && [x, y] + [z] == [x, y, z];
  }

  /** What arrives at instance 0 uncounted is the large flow. */
  lemma {:induction false} LargeUncounted(b: Round, s: Selected, r: Assignment, v: int)
    requires Uneven(b) && Phases(b, s, r) && 0 <= v < 4
    ensures UncountedAt(b, s, v) == if v == 0 then Share(14000.0) else 0.0
  {
    StartsFair(b);
    PhaseTwo(b, s, r);
    SelectedThree(b, s);
    AssignedThree(b, s, r);
    AssignCounts(s.lists, ToAssign(s), Light(b, s.loads), b.avg, 0);
    BoundOfThree(s.lists, MigrateTuple(1, 1, -1), MigrateTuple(1, 0, -1), MigrateTuple(1, 3, -1), 0);
    BoundOfThree(s.lists, MigrateTuple(1, 1, 3), MigrateTuple(1, 0, 3), MigrateTuple(1, 3, 0), 0);
  }

  lemma {:induction false} LeftoverLoads(b: Round, s: Selected, r: Assignment, after: seq<seq<FlowInfo>>,
      loads: seq<real>, v: int)
    requires Uneven(b) && Phases(b, s, r) && MovedExactly(s.lists, SortBy(r.ts, FlowidKey), after)
    requires ExactLoads(after, loads) && 0 <= v < 4
    ensures |loads| == |r.loads| == 4 && loads[v] == r.loads[v] + if v == 0 then Share(14000.0) else 0.0
  {
    StartsFair(b);
    AssignedThree(b, s, r);
    SelectedThree(b, s);
    CountedLoads(b, s, r, after, v);
    LargeUncounted(b, s, r, v);
  }

  lemma {:induction false} VariancesOfFour(before: seq<real>, counted: seq<real>, loads: seq<real>)
    requires before == [Share(19000.0), Share(30000.0), 0.0, 0.0]
    requires counted == [Share(19000.0), Share(14000.0), 0.0, Share(2000.0)]
    requires loads == [Share(33000.0), Share(14000.0), 0.0, Share(2000.0)]
    ensures VarianceOf(counted) < VarianceOf(before) < VarianceOf(loads)
  {
    SumsOfFour(before);
    SumsOfFour(counted);
    SumsOfFour(loads);
  }

  /** The loads are counted as nearer to each other, and come to lie further apart. */
  lemma {:induction false} LeftoverSpreads(b: Round, s: Selected, r: Assignment, after: seq<seq<FlowInfo>>,
      loads: seq<real>)
    requires Uneven(b) && Phases(b, s, r) && MovedExactly(s.lists, SortBy(r.ts, FlowidKey), after)
    requires ExactLoads(after, loads)
    ensures |loads| == |r.loads| == 4 && VarianceOf(r.loads) < VarianceOf(b.loads) < VarianceOf(loads)
  {
    AssignedThree(b, s, r);
    LeftoverLoads(b, s, r, after, loads, 0);
    LeftoverLoads(b, s, r, after, loads, 1);
    LeftoverLoads(b, s, r, after, loads, 2);
    LeftoverLoads(b, s, r, after, loads, 3);
    VariancesOfFour(b.loads, r.loads, loads);
  }
}
