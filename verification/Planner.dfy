/** The flow-migration planner over the global list of instances. */
module Planner {
  import opened AlgorithmConstants
  import opened BalanceOutcome
  import opened BalancedPlans
  import opened Combinations
  import opened DelayCosts
  import opened Distinctness
  import opened Instances
  import opened LoadBalance
  import opened LoadVariance
  import opened Migration
  import opened ScaleOutGreedy
  import opened ScaleOutRelief
  import opened ScaleOutSearch
  import opened Sorting

  /** Some tuple from i on names v. */
  ghost predicate Touched(ts: seq<MigrateTuple>, v: int, i: nat := 0) {
    exists j :: i <= j < |ts| && (ts[j].srcVNFid == v || ts[j].dstVNFid == v)
  }

  /** The cached load and flow count of each instance. */
  ghost function CachesOf(vs: seq<VnfInfo>): (r: seq<(real, int)>)
    reads vs
    ensures |r| == |vs| && forall i | 0 <= i < |vs| :: r[i] == (vs[i].loadPercentage, vs[i].flowNum)
  {
    if vs == [] then [] else CachesOf(vs[..|vs| - 1]) + [(vs[|vs| - 1].loadPercentage, vs[|vs| - 1].flowNum)]
  }

  /** The flow is added at its destination, then removed from its source by index, and both caches are
      refreshed. */
  method MoveFlow(src: VnfInfo, dst: VnfInfo, k: int)
    requires 0 <= k < |src.flow|
    modifies src, dst, src.flow[k]
    ensures src.VNFid == old(src.VNFid) && dst.VNFid == old(dst.VNFid) && src.Exact() && dst.Exact()
    ensures src.flow == RemoveAt(if src == dst then old(src.flow) + [old(src.flow[k])] else old(src.flow), k)
    ensures src != dst ==> dst.flow == old(dst.flow) + [old(src.flow[k])]
  {
    src.flow[k].flowid := dst.flowNum;
    dst.flow := dst.flow + [src.flow[k]];
    dst.Refresh();
    src.flow := RemoveAt(src.flow, k);
    src.Refresh();
  }

  lemma {:induction false} ChosenCost(flow: seq<FlowInfo>, oldLoad: real)
    requires |flow| >= 5
    ensures var b := Best(flow, oldLoad, 5);
      IndicesOf(flow, b.0) && (b.0 != [] ==> b.1 == LateCosts(flow, b.0, 42.16))
  {
    var b := Best(flow, oldLoad, 5);
    BestIsChoice(flow, oldLoad);
    ChoiceInRange(b.0, |flow|, |b.0|);
    BestAttained(flow, oldLoad, 5);
    CostIsLate(flow, b.0, SFMT);
  }

  /** What it costs to delay the flows at t for the time that so many flows take to move. */
  ghost predicate CostsTogether(flow: seq<FlowInfo>, t: seq<int>, cost: real) {
    IndicesOf(flow, t) && cost == LateCosts(flow, t, 39.205 + 2.9545 * |t| as real)
  }

  lemma {:induction false} Together(flow: seq<FlowInfo>, t: seq<int>, cost: real, time: real)
    requires IndicesOf(flow, t) && cost == LateCosts(flow, t, time) && time == 39.205 + 2.9545 * |t| as real
    ensures CostsTogether(flow, t, cost)
  {
  }

  /** The greedy loop has ended with these picks, has moved what its rules say, and costs this. */
  ghost predicate GreedyResult(flow: seq<FlowInfo>, picks: seq<int>, cost: real) {
    Finished(flow, picks) && GreedilyMoved(flow, picks) && CostsTogether(flow, Moved(flow, picks), cost)
  }

  /** That result, and the plan that moves what is to be moved. */
  ghost predicate GreedyPlan(flow: seq<FlowInfo>, picks: seq<int>, cost: real, id: int, dst: int,
      plan: seq<MigrateTuple>)
  {
    GreedyResult(flow, picks, cost) && plan == Tuples(id, Moved(flow, picks), dst)
  }

  lemma {:induction false} GreedyEnds(flow: seq<FlowInfo>, picks: seq<int>, cost: real)
    requires Finished(flow, picks) && cost == CostOf(flow, Moved(flow, picks), MigTime(|Moved(flow, picks)|))
    ensures GreedyResult(flow, picks, cost)
  {
    var moved := Moved(flow, picks);
    var time := MigTime(|moved|);
    FinishedMoves(flow, picks);
    RunIndices(flow, picks);
    CostIsLate(flow, moved, time);
    Together(flow, moved, cost, time);
  }

  class Algorithms {
    var migrateInfo: seq<MigrateTuple>
    var vnfs: seq<VnfInfo>

    /** Every instance is a different object. */
    ghost predicate Valid()
      reads this`vnfs
    {
      Distinct(vnfs)
    }

    function Lists(): (r: seq<seq<FlowInfo>>)
      reads this`vnfs, vnfs
      ensures |r| == |vnfs| && forall i | 0 <= i < |r| :: r[i] == vnfs[i].flow
    {
      FlowLists(vnfs)
    }

    constructor ()
      ensures Valid() && migrateInfo == [] && vnfs == []
    {
      migrateInfo, vnfs := [], [];
    }

    method NewVNFInstance()
      requires Valid()
      modifies this`vnfs
      ensures Valid() && |vnfs| == old(|vnfs|) + 1 && vnfs[..old(|vnfs|)] == old(vnfs)
      ensures fresh(vnfs[old(|vnfs|)]) && vnfs[old(|vnfs|)].flow == [] && vnfs[old(|vnfs|)].Exact()
    {
      var v := new VnfInfo();
      DistinctConcat(vnfs, [v]);
      vnfs := vnfs + [v];
    }

    /** One tuple: the flow moves between the two instances it names. */
    method MoveOne(t: MigrateTuple)
      requires Valid() && InRange(Lists(), t)
      modifies vnfs, vnfs[t.srcVNFid].flow[t.flowid]
      ensures Lists() == Move(old(Lists()), t)
      ensures vnfs[t.srcVNFid].Exact() && vnfs[t.dstVNFid].Exact()
      ensures forall v | 0 <= v < |vnfs| && v != t.srcVNFid && v != t.dstVNFid ::
        vnfs[v].loadPercentage == old(vnfs[v].loadPercentage) && vnfs[v].flowNum == old(vnfs[v].flowNum)
    {
      ghost var before := Lists();
      MoveFlow(vnfs[t.srcVNFid], vnfs[t.dstVNFid], t.flowid);
      DistinctAt(vnfs, t.srcVNFid);
      DistinctAt(vnfs, t.dstVNFid);
      forall v | 0 <= v < |vnfs| ensures Lists()[v] == Move(before, t)[v] {
        MoveAt(before, t, before[t.srcVNFid][t.flowid], v);
      }
    }

    /** The flow objects whose bookkeeping a migration may write. */
    ghost function Flows(): (r: set<FlowInfo>)
      reads this`vnfs, vnfs
    {
      FlowSet(Lists())
    }

    /** The caches of the instances some tuple names are exact, and those of the others as given. */
    ghost predicate Refreshed(ts: seq<MigrateTuple>, caches: seq<(real, int)>, i: nat := 0)
      reads this`vnfs, vnfs
    {
      |caches| == |vnfs|
      && forall v | 0 <= v < |vnfs| ::
        if Touched(ts, v, i) then vnfs[v].Exact() else (vnfs[v].loadPercentage, vnfs[v].flowNum) == caches[v]
    }

    ghost function Caches(): (r: seq<(real, int)>)
      reads this`vnfs, vnfs
    {
      CachesOf(vnfs)
    }

    /** One tuple's move refreshes the caches of the two instances it names. */
    method MoveRefreshed(i: nat, ghost caches: seq<(real, int)>)
      requires Valid() && i < |migrateInfo| && InRange(Lists(), migrateInfo[i])
      requires Refreshed(migrateInfo, caches, i + 1)
      modifies vnfs, vnfs[migrateInfo[i].srcVNFid].flow[migrateInfo[i].flowid]
      ensures Lists() == Move(old(Lists()), migrateInfo[i])
      ensures Refreshed(migrateInfo, caches, i)
    {
      ghost var before := Lists();
      MoveOne(migrateInfo[i]);
      forall v | 0 <= v < |vnfs| && Touched(migrateInfo, v, i) ensures vnfs[v].Exact() {
        if v != migrateInfo[i].srcVNFid && v != migrateInfo[i].dstVNFid {
          assert Lists()[v] == before[v];
        }
      }
    }

    /** Instance v stands as it does when the moves from i on have been made. */
    ghost predicate MovedAt(start: seq<seq<FlowInfo>>, caches: seq<(real, int)>, i: nat, v: int)
      requires 0 <= v < |vnfs| == |start| == |caches|
      reads this, vnfs
    {
      && vnfs[v].flow == MoveAll(start, migrateInfo, i)[v]
      && if Touched(migrateInfo, v, i) then vnfs[v].Exact() else (vnfs[v].loadPercentage, vnfs[v].flowNum) == caches[v]
    }

    /** The plan can be carried out by descending index, and the moves from i on have been made. */
    ghost predicate MovedFrom(start: seq<seq<FlowInfo>>, fs: set<FlowInfo>, caches: seq<(real, int)>, i: nat)
      reads this, vnfs
    {
      && fs == FlowSet(start) && Valid() && i <= |migrateInfo| && WellPlanned(start, migrateInfo)
      && |vnfs| == |start| == |caches| && forall v | 0 <= v < |vnfs| :: MovedAt(start, caches, i, v)
    }

    lemma {:induction false} MovedLists(start: seq<seq<FlowInfo>>, fs: set<FlowInfo>, caches: seq<(real, int)>, i: nat)
      requires MovedFrom(start, fs, caches, i)
      ensures Lists() == MoveAll(start, migrateInfo, i) && Refreshed(migrateInfo, caches, i)
    {
      var lists, moved := Lists(), MoveAll(start, migrateInfo, i);
      assert |lists| == |moved|;
      forall v | 0 <= v < |vnfs|
        ensures lists[v] == moved[v]
        ensures if Touched(migrateInfo, v, i) then vnfs[v].Exact()
                else (vnfs[v].loadPercentage, vnfs[v].flowNum) == caches[v]
      {
        assert MovedAt(start, caches, i, v);
      }
    }

    lemma {:induction false} ListsMoved(start: seq<seq<FlowInfo>>, fs: set<FlowInfo>, caches: seq<(real, int)>, i: nat)
      requires fs == FlowSet(start) && Valid() && i <= |migrateInfo| && WellPlanned(start, migrateInfo)
      requires Lists() == MoveAll(start, migrateInfo, i) && Refreshed(migrateInfo, caches, i)
      ensures MovedFrom(start, fs, caches, i)
    {
      assert |Lists()| == |vnfs| == |start|;
      forall v | 0 <= v < |vnfs| ensures MovedAt(start, caches, i, v) {
        assert Lists()[v] == vnfs[v].flow;
      }
    }

    lemma {:induction false} NothingMoved(start: seq<seq<FlowInfo>>, fs: set<FlowInfo>, caches: seq<(real, int)>)
      requires fs == FlowSet(start)
      requires Valid() && start == Lists() && caches == Caches() && Movable(start, migrateInfo) && ByFlowid(migrateInfo)
      ensures MovedFrom(start, fs, caches, |migrateInfo|)
    {
      AllPlanned(start, migrateInfo);
      ListsMoved(start, fs, caches, |migrateInfo|);
    }

    /** The move of tuple i when all later tuples have been carried out. */
    method MoveNext(i: nat, ghost caches: seq<(real, int)>, ghost start: seq<seq<FlowInfo>>, ghost fs: set<FlowInfo>)
      requires MovedFrom(start, fs, caches, i + 1)
      modifies vnfs, fs
      ensures MovedFrom(start, fs, caches, i)
    {
      MovedLists(start, fs, caches, i + 1);
      assert PlannedAt(start, migrateInfo, i);
      InFlowSet(start, migrateInfo[i].srcVNFid, migrateInfo[i].flowid);
      MoveRefreshed(i, caches);
      ListsMoved(start, fs, caches, i);
    }

    /** Executes all planned moves, by descending index. */
    method MigrateTotal()
      requires Valid() && Movable(Lists(), migrateInfo)
      modifies this`migrateInfo, vnfs, Flows()
      ensures Valid() && vnfs == old(vnfs)
      ensures migrateInfo == SortBy(old(migrateInfo), FlowidKey)
      ensures MovedExactly(old(Lists()), migrateInfo, Lists())
      ensures Lists() == MoveAll(old(Lists()), migrateInfo)
      ensures Refreshed(migrateInfo, old(Caches()))
    {
      ghost var lists, caches := Lists(), Caches();
      SortPlan();
      MoveAsSorted(lists, caches);
      MovesSelected(lists, migrateInfo, 0);
    }

    method SortPlan()
      requires Movable(Lists(), migrateInfo)
      modifies this`migrateInfo
      ensures migrateInfo == SortBy(old(migrateInfo), FlowidKey)
      ensures Movable(old(Lists()), migrateInfo) && ByFlowid(migrateInfo)
      ensures Lists() == old(Lists()) && Caches() == old(Caches())
    {
      ghost var lists := Lists();
      var sorted := SortBy(migrateInfo, FlowidKey);
      SortMovable(lists, migrateInfo, FlowidKey);
      SortByOrders(migrateInfo, FlowidKey);
      SetPlan(sorted);
    }

    method MoveSorted(ghost start: seq<seq<FlowInfo>>, ghost caches: seq<(real, int)>, ghost fs: set<FlowInfo>)
      requires MovedFrom(start, fs, caches, |migrateInfo|)
      modifies vnfs, fs
      ensures MovedFrom(start, fs, caches, 0)
    {
      for i := |migrateInfo| downto 0
        invariant MovedFrom(start, fs, caches, i)
      {
        MoveNext(i, caches, start, fs);
      }
    }

    method MoveAsSorted(ghost start: seq<seq<FlowInfo>>, ghost caches: seq<(real, int)>)
      requires Valid() && start == Lists() && caches == Caches() && Movable(start, migrateInfo) && ByFlowid(migrateInfo)
      modifies vnfs, FlowSet(start)
      ensures Lists() == MoveAll(start, migrateInfo)
      ensures Refreshed(migrateInfo, caches)
    {
      NothingMoved(start, FlowSet(start), caches);
      MoveSorted(start, caches, FlowSet(start));
      MovedLists(start, FlowSet(start), caches, 0);
    }

    method SetPlan(plan: seq<MigrateTuple>)
      modifies this`migrateInfo
      ensures migrateInfo == plan && Lists() == old(Lists()) && Caches() == old(Caches())
    {
      migrateInfo := plan;
    }

    /** Moves the cheapest set of one to five flows that passes the coded tests to the newest instance. If the
        instance is overloaded that is at most one flow, and it stays so unless this flow alone is enough. */
    method ScaleOutBest(id: int) returns (cost: real, ghost chosen: seq<int>)
      requires Valid() && migrateInfo == [] && 0 <= id < |vnfs|
      requires vnfs[id].flowNum == |vnfs[id].flow| >= 5
      modifies this`migrateInfo, vnfs, Flows()
      ensures Valid() && vnfs == old(vnfs)
      ensures Cheapest(old(vnfs[id].flow), old(vnfs[id].loadPercentage), chosen, cost)
      ensures ReliefKnown(old(vnfs[id].flow), old(vnfs[id].loadPercentage), chosen)
      ensures (chosen, cost) == Best(old(vnfs[id].flow), old(vnfs[id].loadPercentage), 5)
      ensures IndicesOf(old(vnfs[id].flow), chosen)
      ensures chosen != [] ==> cost == LateCosts(old(vnfs[id].flow), chosen, 42.16)
      ensures migrateInfo == Tuples(id, chosen, old(|vnfs|) - 1)
      ensures MovedExactly(old(Lists()), migrateInfo, Lists())
      ensures Lists() == MoveAll(old(Lists()), migrateInfo)
      ensures Refreshed(migrateInfo, old(Caches()))
    {
      cost, chosen := PlanBest(id, |vnfs| - 1);
      MigrateTotal();
    }

    method PlanBest(id: int, dst: int) returns (cost: real, ghost chosen: seq<int>)
      requires migrateInfo == [] && 0 <= id < |vnfs| && 0 <= dst < |vnfs|
      requires vnfs[id].flowNum == |vnfs[id].flow| >= 5
      modifies this`migrateInfo
      ensures Cheapest(old(vnfs[id].flow), old(vnfs[id].loadPercentage), chosen, cost)
      ensures ReliefKnown(old(vnfs[id].flow), old(vnfs[id].loadPercentage), chosen)
      ensures (chosen, cost) == Best(old(vnfs[id].flow), old(vnfs[id].loadPercentage), 5)
      ensures IndicesOf(old(vnfs[id].flow), chosen)
      ensures chosen != [] ==> cost == LateCosts(old(vnfs[id].flow), chosen, 42.16)
      ensures migrateInfo == SortBy(migrateInfo, FlowidKey) == Tuples(id, chosen, dst)
      ensures Movable(Lists(), migrateInfo)
      ensures Lists() == old(Lists()) && Caches() == old(Caches())
    {
      var result;
      result, cost := Search(vnfs[id].flow, vnfs[id].flowNum, vnfs[id].loadPercentage);
      chosen := result;
      BestIsChoice(vnfs[id].flow, vnfs[id].loadPercentage);
      BestIsCheapest(vnfs[id].flow, vnfs[id].loadPercentage);
      SearchRelief(vnfs[id].flow, vnfs[id].loadPercentage);
      ChosenCost(vnfs[id].flow, vnfs[id].loadPercentage);
      PlanInOrder(id, result, |vnfs[id].flow|, |result|, dst);
      ChoiceMovable(Lists(), id, result, dst);
      AddTuples(id, result, dst);
    }

    /** Moves the greedily picked flows to the newest instance; the result is what the delay costs. */
    method ScaleOut(id: int) returns (cost: real, ghost picks: seq<int>, ghost plan: seq<MigrateTuple>)
      requires Valid() && migrateInfo == [] && 0 <= id < |vnfs|
      requires forall i | 0 <= i < |vnfs[id].flow| :: Product(vnfs[id].flow[i]) > PICKED
      modifies this`migrateInfo, vnfs, Flows()
      ensures Valid() && vnfs == old(vnfs)
      ensures GreedyPlan(old(vnfs[id].flow), picks, cost, id, old(|vnfs|) - 1, plan)
      ensures migrateInfo == SortBy(plan, FlowidKey)
      ensures MovedExactly(old(Lists()), migrateInfo, Lists())
      ensures Lists() == MoveAll(old(Lists()), migrateInfo)
      ensures Refreshed(migrateInfo, old(Caches()))
    {
      cost, picks := PlanGreedy(id, |vnfs| - 1);
      plan := migrateInfo;
      MigrateTotal();
    }

    method PlanGreedy(id: int, dst: int) returns (cost: real, ghost picks: seq<int>)
      requires migrateInfo == [] && 0 <= id < |vnfs| && 0 <= dst < |vnfs|
      requires forall i | 0 <= i < |vnfs[id].flow| :: Product(vnfs[id].flow[i]) > PICKED
      modifies this`migrateInfo
      ensures GreedyPlan(old(vnfs[id].flow), picks, cost, id, dst, migrateInfo)
      ensures Movable(Lists(), migrateInfo)
      ensures Lists() == old(Lists()) && Caches() == old(Caches())
    {
      var plan;
      plan, cost, picks := PlanOf(vnfs[id].flow, id, dst);
      GreedyEnds(vnfs[id].flow, picks, cost);
      MovedMovable(Lists(), id, picks, dst);
      SetPlan(plan);
    }

    // ----- Load balancing -----

    function Loads(): (r: seq<real>)
      reads this`vnfs, vnfs
    {
      LoadList(vnfs)
    }

    method LoadsNow(ghost all: seq<real>) returns (loads: seq<real>)
      requires all == Loads()
      ensures loads == all
    {
      loads := [];
      for i := 0 to |vnfs|
        invariant loads == all[..i]
      {
        loads := loads + [vnfs[i].loadPercentage];
        assert all[..i + 1] == all[..i] + [all[i]];
      }
      assert all[..|all|] == all;
    }

    method MeanLoad(ghost loads: seq<real>) returns (avgLoad: real)
      requires vnfs != [] && loads == Loads()
      ensures avgLoad == Mean(loads)
    {
      avgLoad := 0.0;
      for i := 0 to |vnfs|
        invariant avgLoad == Sum(loads[..i])
      {
        assert loads[..i + 1][..i] == loads[..i];
        avgLoad := avgLoad + vnfs[i].loadPercentage;
      }
      assert loads[..|loads|] == loads;
      avgLoad := avgLoad / |vnfs| as real;
    }

    method Split(avgLoad: real, ghost loads: seq<real>) returns (heavy: seq<int>, light: seq<int>)
      requires loads == Loads()
      ensures heavy == Ids(loads, avgLoad, true, |loads|) && light == Ids(loads, avgLoad, false, |loads|)
    {
      heavy, light := [], [];
      for i := 0 to |vnfs|
        invariant heavy == Ids(loads, avgLoad, true, i) && light == Ids(loads, avgLoad, false, i)
      {
        if vnfs[i].loadPercentage > avgLoad {
          heavy := heavy + [i];
        } else {
          light := light + [i];
        }
      }
    }

    /** The mean, and who is above it. */
    method MeanAndSplit(ghost b: Round)
      returns (loadBefore: seq<real>, avgLoad: real, heavy: seq<int>, light: seq<int>)
      requires vnfs != [] && b.loads == Loads() && b.avg == Mean(b.loads)
      ensures loadBefore == b.loads
      ensures avgLoad == b.avg && heavy == Heavy(b) && light == Ids(b.loads, b.avg, false, |b.loads|)
    {
      loadBefore := LoadsNow(b.loads);
      avgLoad := MeanLoad(b.loads);
      heavy, light := Split(avgLoad, b.loads);
    }

    /** The flows flagged as safe to migrate. */
    ghost function Flagged(): (r: set<FlowInfo>)
      reads this`vnfs, vnfs, Flows()
    {
      set f | f in Flows() && f.migrateFlag
    }

    lemma {:induction false} FlagsKnown()
      ensures Known(Flows(), Flagged())
    {
    }

    /** The state as the selection sees it. */
    ghost function Selecting(): (s: Selected)
      reads this`vnfs, this`migrateInfo, vnfs
    {
      Selected(Lists(), Loads(), migrateInfo)
    }

    /** One heavy instance's turn. */
    method SelectOne(id: int, avgLoad: real, ghost s: Selected, ghost fs: set<FlowInfo>, ghost flagged: set<FlowInfo>)
      requires Valid() && 0 <= id < |vnfs| && vnfs[id].VNFid == id && s == Selecting()
      requires Known(fs, flagged) && forall f | f in vnfs[id].flow :: f in fs
      modifies this`migrateInfo, {vnfs[id]}`flow, {vnfs[id]}`loadPercentage, vnfs[id].flow`migrateFlag
      ensures Known(fs, flagged) && Selecting() == AwayOne(s, id, flagged, avgLoad)
    {
      DistinctAt(vnfs, id);
      var plan;
      ghost var r;
      plan, r := PlanAway(vnfs[id], avgLoad, fs, flagged);
      migrateInfo := migrateInfo + plan;
      ListsUpdated(vnfs, s.lists, s.loads, id);
      OneTurn(s, id, flagged, avgLoad, r);
    }

    /** Every instance's id is its index, and its flow count is exact. */
    ghost predicate Numbered()
      reads this`vnfs, vnfs
    {
      forall v | 0 <= v < |vnfs| :: vnfs[v].VNFid == v && vnfs[v].flowNum == |vnfs[v].flow|
    }

    /** All heavy instances in turn. */
    method SelectAll(heavy: seq<int>, avgLoad: real, ghost start: Selected, ghost fs: set<FlowInfo>,
        ghost flagged: set<FlowInfo>)
      requires Valid() && Numbered() && start == Selecting() && ValidIds(heavy, |vnfs|)
      requires Known(fs, flagged) && fs == Flows()
      modifies this`migrateInfo, vnfs`flow, vnfs`loadPercentage, fs`migrateFlag
      ensures Selecting() == Away(start, heavy, flagged, avgLoad)
    {
      for i := 0 to |heavy|
        invariant Known(fs, flagged) && Selecting() == Away(start, heavy[..i], flagged, avgLoad)
      {
        DistinctAt(heavy, i);
        AwayOthers(start, heavy[..i], flagged, avgLoad, heavy[i]);
        AllInFlowSet(start.lists, heavy[i]);
        AwaySnoc(start, heavy, i, flagged, avgLoad);
        SelectOne(heavy[i], avgLoad, Selecting(), fs, flagged);
      }
      assert heavy[..|heavy|] == heavy;
    }

    /** The turn of the light instance light[d]. */
    method AssignTo(light: seq<int>, d: nat, end: int, avgLoad: real,
        ghost lists: seq<seq<FlowInfo>>, ghost start: Assignment, ghost cur: Assignment)
      returns (newEnd: int, ghost r: Assignment)
      requires Valid() && d < |light| && 0 <= light[d] < |vnfs| && vnfs[light[d]].VNFid == light[d]
      requires Lists() == lists && FlowsAt(lists, migrateInfo)
      requires cur.ts == migrateInfo && cur.end == end && cur.loads == Loads()
      requires cur == Assign(lists, start, light, d + 1, avgLoad)
      modifies this`migrateInfo, {vnfs[light[d]]}`loadPercentage
      ensures Lists() == lists && FlowsAt(lists, migrateInfo)
      ensures r.ts == migrateInfo && r.end == newEnd && r.loads == Loads()
      ensures r == Assign(lists, start, light, d, avgLoad)
    {
      ghost var loads := Loads();
      var dst := vnfs[light[d]];
      DistinctAt(vnfs, light[d]);
      var filled := FillOne(Lists(), migrateInfo, dst.loadPercentage, end, dst.VNFid, d, avgLoad);
      r := AssignOne(lists, cur, light[d], d == 0, avgLoad);
      AssignOneFlows(lists, cur, light[d], d == 0, avgLoad);
      migrateInfo, newEnd := filled.ts, filled.end;
      dst.loadPercentage := filled.load;
      ListsUpdated(vnfs, lists, loads, light[d]);
    }

    /** The light instances in turn, from the most loaded one down. */
    method AssignAll(light: seq<int>, avgLoad: real, ghost lists: seq<seq<FlowInfo>>, ghost start: Assignment)
      returns (ghost r: Assignment)
      requires Valid() && (forall v | 0 <= v < |vnfs| :: vnfs[v].VNFid == v)
      requires forall i | 0 <= i < |light| :: 0 <= light[i] < |vnfs|
      requires lists == Lists() && start == Assignment(migrateInfo, 0, Loads()) && FlowsAt(lists, migrateInfo)
      modifies this`migrateInfo, vnfs`loadPercentage
      ensures Lists() == lists && migrateInfo == r.ts && Loads() == r.loads
      ensures r == Assign(lists, start, light, 0, avgLoad)
    {
      var end := 0;
      r := start;
      for d := |light| downto 0
        invariant Lists() == lists && FlowsAt(lists, migrateInfo)
        invariant r.ts == migrateInfo && r.end == end && r.loads == Loads()
        invariant r == Assign(lists, start, light, d, avgLoad)
      {
        end, r := AssignTo(light, d, end, avgLoad, lists, start, r);
      }
    }

    /** The light instances take what the heavy ones give away. */
    method Distribute(light: seq<int>, avgLoad: real, ghost b: Round, ghost s: Selected)
      returns (loadAfter: seq<real>, ghost r: Assignment)
      requires Valid() && (forall v | 0 <= v < |vnfs| :: vnfs[v].VNFid == v)
      requires s == Selecting() && Named(s.lists, s.plan)
      requires avgLoad == b.avg && light == Ids(b.loads, b.avg, false, |b.loads|) && |b.loads| == |vnfs|
      modifies this`migrateInfo, vnfs`loadPercentage
      ensures Lists() == s.lists && migrateInfo == r.ts && Loads() == r.loads == loadAfter
      ensures r == Assign(s.lists, ToAssign(s), Light(b, s.loads), 0, b.avg)
    {
      ReadyToAssign(b, s);
      var lightVNFs := SortBy(light, LoadKey(Loads()));
      assert lightVNFs == Light(b, s.loads);
      migrateInfo := SortBy(migrateInfo, MoveRateKey(Lists()));
      r := AssignAll(lightVNFs, avgLoad, s.lists, ToAssign(s));
      loadAfter := LoadsNow(r.loads);
    }

    /** What load balancing starts from. */
    ghost function Start(): (b: Round)
      requires vnfs != []
      reads this`vnfs, vnfs, Flows()
    {
      Round(Lists(), Loads(), Flagged(), Mean(Loads()))
    }

    /** The mean, the light instances, and the turns of the heavy ones. */
    method PlanHeavy(ghost b: Round, ghost fs: set<FlowInfo>)
      returns (loadBefore: seq<real>, light: seq<int>, avgLoad: real)
      requires Valid() && Numbered() && vnfs != [] && Known(fs, b.flagged) && fs == Flows()
      requires Selecting() == Selected(b.lists, b.loads, []) && b.avg == Mean(b.loads)
      modifies this`migrateInfo, vnfs`flow, vnfs`loadPercentage, fs`migrateFlag
      ensures loadBefore == b.loads && avgLoad == b.avg && light == Ids(b.loads, b.avg, false, |b.loads|)
      ensures Selecting() == Away(Selected(b.lists, b.loads, []), Heavy(b), b.flagged, b.avg)
    {
      var heavy;
      loadBefore, avgLoad, heavy, light := MeanAndSplit(b);
      HeavyValid(b.loads, b.avg);
      SelectAll(heavy, avgLoad, Selected(b.lists, b.loads, []), fs, b.flagged);
    }

    /** Selection and assignment, one after the other; the loads before them, and as they are counted after. */
    method PlanPhases(ghost b: Round, ghost fs: set<FlowInfo>)
      returns (loadBefore: seq<real>, loadAfter: seq<real>, ghost s: Selected, ghost r: Assignment)
      requires Valid() && Numbered() && vnfs != [] && Known(fs, b.flagged) && fs == Flows()
      requires Selecting() == Selected(b.lists, b.loads, []) && Fair(b)
      modifies this`migrateInfo, vnfs`flow, vnfs`loadPercentage, fs`migrateFlag
      ensures Phases(b, s, r) && s.lists == Lists() && loadBefore == b.loads && loadAfter == r.loads
      ensures migrateInfo == r.ts && Loads() == r.loads
    {
      var light, avgLoad;
      loadBefore, light, avgLoad := PlanHeavy(b, fs);
      HeavyNamed(b);
      s := Away(Selected(b.lists, b.loads, []), Heavy(b), b.flagged, b.avg);
      loadAfter, r := Distribute(light, avgLoad, b, s);
    }

    /** The plan, and that sorting the flows has not changed their number. */
    method PlanRound(ghost b: Round, ghost fs: set<FlowInfo>)
      returns (loadBefore: seq<real>, loadAfter: seq<real>, ghost s: Selected, ghost r: Assignment)
      requires Valid() && Numbered() && vnfs != [] && Known(fs, b.flagged) && fs == Flows()
      requires Selecting() == Selected(b.lists, b.loads, []) && Fair(b)
      modifies this`migrateInfo, vnfs`flow, vnfs`loadPercentage, fs`migrateFlag
      ensures Phases(b, s, r) && Selecting() == Selected(s.lists, r.loads, r.ts) && Numbered()
      ensures loadBefore == b.loads && loadAfter == r.loads
    {
      assert NumberedAs(b.lists);
      loadBefore, loadAfter, s, r := PlanPhases(b, fs);
      PlanLengths(b, s, r);
      StillNumbered(b.lists, s.lists);
    }

    /** Every instance's id is its index, and its flow count that of a list. */
    ghost predicate NumberedAs(lists: seq<seq<FlowInfo>>)
      reads this`vnfs, vnfs`VNFid, vnfs`flowNum
    {
      |lists| == |vnfs| && forall v | 0 <= v < |vnfs| :: vnfs[v].VNFid == v && vnfs[v].flowNum == |lists[v]|
    }

    lemma {:induction false} StillNumbered(before: seq<seq<FlowInfo>>, lists: seq<seq<FlowInfo>>)
      requires NumberedAs(before) && SameLengths(before, lists) && lists == Lists()
      ensures Numbered()
    {
    }

    /** Plans and executes one round of load balancing: what is selected, how it is assigned, that the moves
        are carried out as planned, what that comes to, and how the loads as counted have come nearer. */
    method LoadBalancingCheck() returns (ratio: Ratio, ghost b: Round, ghost s: Selected, ghost r: Assignment)
      requires Valid() && Numbered() && vnfs != [] && migrateInfo == [] && Fair(Start())
      modifies this`migrateInfo, vnfs, Flows()
      ensures Valid() && vnfs == old(vnfs) && b == old(Start()) && Phases(b, s, r)
      ensures migrateInfo == SortBy(r.ts, FlowidKey) && MovedExactly(s.lists, migrateInfo, Lists())
      ensures AllOf(Lists()) == AllOf(b.lists) && TotalRates(Lists()) == TotalRates(b.lists)
      ensures forall v | 0 <= v < |vnfs| :: vnfs[v].Exact()
      ensures Balanced(b, s, r, Lists(), ratio)
    {
      b := Start();
      FlagsKnown();
      var loadBefore, loadAfter;
      loadBefore, loadAfter, s, r := PlanRound(b, Flows());
      PlanMovable(b, s, r);
      ratio := MigrateMeasured(s.lists, r.loads, loadBefore, loadAfter);
      RoundBalanced(b, s, r, Lists(), ratio);
    }

    lemma {:induction false} PlanMovable(b: Round, s: Selected, r: Assignment)
      requires Phases(b, s, r) && Fair(b)
      ensures Movable(s.lists, r.ts) && AsideExact(s.lists, r.loads, r.ts) && |r.loads| == |b.loads|
      ensures AllOf(s.lists) == AllOf(b.lists) && TotalRates(s.lists) == TotalRates(b.lists)
      ensures forall f | f in FlowSet(s.lists) :: f in FlowSet(b.lists)
    {
      PlanOutcome(b, s, r);
      SameFlowSet(b.lists, s.lists);
      SameFlowsSum(b.lists, s.lists);
    }

    /** Executes a plan, and returns by how much the loads given have come nearer. */
    method MigrateMeasured(ghost lists: seq<seq<FlowInfo>>, ghost loads: seq<real>, loadBefore: seq<real>,
        loadAfter: seq<real>) returns (ratio: Ratio)
      requires Valid() && Numbered() && lists == Lists() && loads == Loads()
      requires Movable(lists, migrateInfo) && AsideExact(lists, loads, migrateInfo)
      requires loadBefore != [] && loadAfter != []
      modifies this`migrateInfo, vnfs, Flows()
      ensures Valid() && vnfs == old(vnfs) && migrateInfo == SortBy(old(migrateInfo), FlowidKey)
      ensures MovedExactly(lists, migrateInfo, Lists())
      ensures AllOf(Lists()) == AllOf(lists) && TotalRates(Lists()) == TotalRates(lists)
      ensures forall v | 0 <= v < |vnfs| :: vnfs[v].Exact()
      ensures ratio == RatioOf(VarianceOf(loadBefore), VarianceOf(loadAfter))
    {
      // The loads have been kept aside, so it does not matter that the ratio is taken first.
      ratio := VarianceRatio(loadBefore, loadAfter);
      MigrateBalanced(lists, loads);
    }

    /** Executes a plan that leaves the loads exact where it moves nothing. */
    method MigrateBalanced(ghost lists: seq<seq<FlowInfo>>, ghost loads: seq<real>)
      requires Valid() && Numbered() && lists == Lists() && loads == Loads()
      requires Movable(lists, migrateInfo) && AsideExact(lists, loads, migrateInfo)
      modifies this`migrateInfo, vnfs, Flows()
      ensures Valid() && vnfs == old(vnfs) && migrateInfo == SortBy(old(migrateInfo), FlowidKey)
      ensures MovedExactly(lists, migrateInfo, Lists())
      ensures AllOf(Lists()) == AllOf(lists) && TotalRates(Lists()) == TotalRates(lists)
      ensures forall v | 0 <= v < |vnfs| :: vnfs[v].Exact()
    {
      ghost var plan, caches := migrateInfo, Caches();
      CachesKnown(lists, loads);
      MigrateTotal();
      MoveAllConserves(lists, migrateInfo, 0, (f: FlowInfo) => f.rate);
      AllExact(lists, loads, plan, caches);
    }

    lemma {:induction false} AllExact(lists: seq<seq<FlowInfo>>, loads: seq<real>, plan: seq<MigrateTuple>,
        caches: seq<(real, int)>)
      requires |caches| == |lists| == |loads| && migrateInfo == SortBy(plan, FlowidKey)
      requires forall v | 0 <= v < |lists| :: caches[v] == (loads[v], |lists[v]|)
      requires AsideExact(lists, loads, plan) && MovedExactly(lists, migrateInfo, Lists())
      requires Refreshed(migrateInfo, caches)
      ensures forall v | 0 <= v < |vnfs| :: vnfs[v].Exact()
    {
      forall v | 0 <= v < |vnfs| ensures vnfs[v].Exact() {
        if !Touched(migrateInfo, v) {
          UntouchedAfter(lists, loads, plan, Lists(), v);
        }
      }
    }

    lemma {:induction false} CachesKnown(lists: seq<seq<FlowInfo>>, loads: seq<real>)
      requires Numbered() && lists == Lists() && loads == Loads()
      ensures forall v | 0 <= v < |vnfs| :: Caches()[v] == (loads[v], |lists[v]|)
    {
    }

    method AddTuples(id: int, result: seq<int>, dst: int)
      requires migrateInfo == []
      modifies this`migrateInfo
      ensures migrateInfo == Tuples(id, result, dst)
      ensures Lists() == old(Lists()) && Caches() == old(Caches())
    {
      for i := 0 to |result|
        invariant migrateInfo == Tuples(id, result[..i], dst)
      {
        assert result[..i + 1] == result[..i] + [result[i]];
        TuplesSnoc(id, result[..i], result[i], dst);
        migrateInfo := migrateInfo + [MigrateTuple(id, result[i], dst)];
      }
      assert result[..|result|] == result;
    }
  }

  lemma {:induction false} UntouchedAfter(lists: seq<seq<FlowInfo>>, loads: seq<real>, plan: seq<MigrateTuple>,
      after: seq<seq<FlowInfo>>, v: int)
    requires AsideExact(lists, loads, plan) && MovedExactly(lists, SortBy(plan, FlowidKey), after) && 0 <= v < |lists|
    requires !Touched(SortBy(plan, FlowidKey), v)
    ensures loads[v] == LoadOf(after[v]) && |after[v]| == |lists[v]|
  {
    assert Aside(SortBy(plan, FlowidKey), v);
    AsideAfter(lists, loads, plan, after, v);
  }

  lemma {:induction false} ChoiceDistinct(t: seq<int>, n: int, k: nat)
    requires IsChoice(t, n, k)
    ensures Distinct(t)
    decreases k
  {
    if k > 0 {
      ChoiceDistinct(t[..k - 1], t[k - 1], k - 1);
      ChoiceInRange(t[..k - 1], t[k - 1], k - 1);
    }
  }

  lemma {:induction false} ChoiceMovable<F>(lists: seq<seq<F>>, id: int, t: seq<int>, dst: int)
    requires 0 <= id < |lists| && 0 <= dst < |lists| && IsChoice(t, |lists[id]|, |t|)
    ensures Movable(lists, Tuples(id, t, dst))
  {
    ChoiceInRange(t, |lists[id]|, |t|);
    ChoiceDistinct(t, |lists[id]|, |t|);
    ChosenMovable(lists, id, t, dst);
  }

  /** Moves by increasing index are in order already. */
  lemma {:induction false} PlanInOrder(id: int, t: seq<int>, n: int, k: nat, dst: int)
    requires IsChoice(t, n, k)
    ensures SortBy(Tuples(id, t, dst), FlowidKey) == Tuples(id, t, dst)
    decreases k
  {
    if k > 0 {
      PlanInOrder(id, t[..k - 1], t[k - 1], k - 1, dst);
    }
  }
}
