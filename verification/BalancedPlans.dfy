/** What a plan takes from each instance, however it is ordered and wherever it sends the flows. */
module BalancedPlans {
  import opened Distinctness
  import opened Instances
  import opened LoadBalance
  import opened Migration
  import opened Sorting

  // ----- The indices a plan takes -----

  lemma {:induction false} RemovedSnoc(a: seq<MigrateTuple>, t: MigrateTuple, v: int, i: nat)
    requires i <= |a|
    ensures RemovedFrom(a + [t], v, i) == RemovedFrom(a, v, i) + Takes(t, v)
    decreases |a| - i
  {
    if i < |a| {
      RemovedSnoc(a, t, v, i + 1);
    } else {
      assert RemovedFrom(a + [t], v, i + 1) == {};
    }
  }

  lemma {:induction false} RemovedLast(a: seq<MigrateTuple>, v: int)
    requires a != []
    ensures RemovedFrom(a, v) == RemovedFrom(a[..|a| - 1], v) + Takes(a[|a| - 1], v)
  {
    RemovedSnoc(a[..|a| - 1], a[|a| - 1], v, 0);
    assert a == a[..|a| - 1] + [a[|a| - 1]];
  }

  lemma {:induction false} RemovedConcat(a: seq<MigrateTuple>, b: seq<MigrateTuple>, v: int)
    ensures RemovedFrom(a + b, v) == RemovedFrom(a, v) + RemovedFrom(b, v)
    decreases |b|
  {
    if b == [] {
      assert a + b == a;
    } else {
      var front, last := b[..|b| - 1], b[|b| - 1];
      RemovedConcat(a, front, v);
      RemovedSnoc(a + front, last, v, 0);
      RemovedLast(b, v);
      assert a + b == a + front + [last];
    }
  }

  lemma {:induction false} RemovedInserted(s: seq<MigrateTuple>, x: MigrateTuple, key: MigrateTuple -> real, v: int)
    ensures RemovedFrom(Insert(s, x, key), v) == RemovedFrom(s, v) + Takes(x, v)
  {
    if s == [] || key(s[|s| - 1]) <= key(x) {
      RemovedSnoc(s, x, v, 0);
    } else {
      RemovedInserted(s[..|s| - 1], x, key, v);
      RemovedSnoc(Insert(s[..|s| - 1], x, key), s[|s| - 1], v, 0);
      RemovedLast(s, v);
    }
  }

  /** Sorting a plan does not change what it takes. */
  lemma {:induction false} RemovedSorted(ts: seq<MigrateTuple>, key: MigrateTuple -> real, v: int)
    ensures RemovedFrom(SortBy(ts, key), v) == RemovedFrom(ts, v)
  {
    if ts != [] {
      RemovedSorted(ts[..|ts| - 1], key, v);
      RemovedInserted(SortBy(ts[..|ts| - 1], key), ts[|ts| - 1], key, v);
      RemovedLast(ts, v);
    }
  }

  lemma {:induction false} RemovedSame(a: seq<MigrateTuple>, b: seq<MigrateTuple>, v: int, i: nat)
    requires SameMoves(a, b)
    ensures RemovedFrom(a, v, i) == RemovedFrom(b, v, i)
    decreases |a| - i
  {
    if i < |a| {
      RemovedSame(a, b, v, i + 1);
    }
  }

  lemma {:induction false} RemovedTuples(id: int, t: seq<int>, dst: int, v: int)
    ensures RemovedFrom(Tuples(id, t, dst), v) == if v == id then Elements(t) else {}
    decreases |t|
  {
    if t != [] {
      var front, last := t[..|t| - 1], t[|t| - 1];
      RemovedTuples(id, front, dst, v);
      RemovedSnoc(Tuples(id, front, dst), MigrateTuple(id, last, dst), v, 0);
      assert t == front + [last];
      ElementsSnoc(front, last);
    }
  }

  // ----- The flows a plan names -----

  lemma {:induction false} NamedSame<F>(lists: seq<seq<F>>, a: seq<MigrateTuple>, b: seq<MigrateTuple>)
    requires SameMoves(a, b) && Named(lists, a)
    ensures Named(lists, b)
    decreases |a|
  {
    if a != [] {
      NamedSame(lists, a[..|a| - 1], b[..|b| - 1]);
    }
  }

  ghost predicate SameLengths<F>(a: seq<seq<F>>, b: seq<seq<F>>) {
    |a| == |b| && forall v | 0 <= v < |a| :: |a[v]| == |b[v]|
  }

  lemma {:induction false} NamedLengths<F>(a: seq<seq<F>>, b: seq<seq<F>>, ts: seq<MigrateTuple>)
    requires SameLengths(a, b) && Named(a, ts)
    ensures Named(b, ts)
    decreases |ts|
  {
    if ts != [] {
      NamedLengths(a, b, ts[..|ts| - 1]);
    }
  }

  ghost predicate NoneFrom(ts: seq<MigrateTuple>, v: int) {
    forall i | 0 <= i < |ts| :: ts[i].srcVNFid != v
  }

  lemma {:induction false} NoneRemoved(ts: seq<MigrateTuple>, v: int, i: nat)
    requires NoneFrom(ts, v)
    ensures RemovedFrom(ts, v, i) == {}
    decreases |ts| - i
  {
    if i < |ts| {
      NoneRemoved(ts, v, i + 1);
    }
  }

  lemma {:induction false} NamedTuples<F>(lists: seq<seq<F>>, ts: seq<MigrateTuple>, id: int, t: seq<int>, dst: int)
    requires Named(lists, ts) && NoneFrom(ts, id) && 0 <= id < |lists| && Distinct(t) && IndicesOf(lists[id], t)
    ensures Named(lists, ts + Tuples(id, t, dst))
    decreases |t|
  {
    if t == [] {
      assert ts + [] == ts;
    } else {
      var front, last := t[..|t| - 1], t[|t| - 1];
      var x := MigrateTuple(id, last, dst);
      NamedTuples(lists, ts, id, front, dst);
      DistinctAt(t, |t| - 1);
      assert Unnamed(ts + Tuples(id, front, dst), x);
      NamedSnoc(lists, ts + Tuples(id, front, dst), x);
      assert ts + Tuples(id, t, dst) == ts + Tuples(id, front, dst) + [x];
    }
  }

  // ----- Sorted lists hold the same flows -----

  lemma {:induction false} TotalInserted<F>(s: seq<F>, x: F, key: F -> real, rate: F -> real)
    ensures Total(Insert(s, x, key), rate) == Total(s, rate) + rate(x)
  {
    if s == [] || key(s[|s| - 1]) <= key(x) {
      TotalSnoc(s, x, rate);
    } else {
      TotalInserted(s[..|s| - 1], x, key, rate);
      TotalSnoc(Insert(s[..|s| - 1], x, key), s[|s| - 1], rate);
    }
  }

  lemma {:induction false} TotalSorted<F>(s: seq<F>, key: F -> real, rate: F -> real)
    ensures Total(SortBy(s, key), rate) == Total(s, rate)
  {
    if s != [] {
      TotalSorted(s[..|s| - 1], key, rate);
      TotalInserted(SortBy(s[..|s| - 1], key), s[|s| - 1], key, rate);
    }
  }

  /** Pointwise the same flows, and the same total rate. */
  ghost predicate SameFlows(a: seq<seq<FlowInfo>>, b: seq<seq<FlowInfo>>) {
    |a| == |b| && forall v | 0 <= v < |a| ::
      multiset(a[v]) == multiset(b[v]) && |a[v]| == |b[v]| && TotalRate(a[v]) == TotalRate(b[v])
  }

  function TotalRates(lists: seq<seq<FlowInfo>>): (r: real)
  {
    TotalAll(lists, (f: FlowInfo) => f.rate)
  }

  lemma {:induction false} SameFlowsSum(a: seq<seq<FlowInfo>>, b: seq<seq<FlowInfo>>)
    requires SameFlows(a, b)
    ensures AllOf(a) == AllOf(b) && TotalRates(a) == TotalRates(b)
    decreases |a|
  {
    if a != [] {
      SameFlowsSum(a[..|a| - 1], b[..|b| - 1]);
    }
  }

  // ----- A heavy instance stays heavy -----

  ghost predicate NonNegative(lists: seq<seq<FlowInfo>>) {
    forall v | 0 <= v < |lists| :: NoneBelowZero(lists[v])
  }

  lemma {:induction false} ArrivedNonNegative(lists: seq<seq<FlowInfo>>, ts: seq<MigrateTuple>, v: int, i: nat)
    requires NonNegative(lists)
    ensures TotalRate(Arrived(lists, ts, v, i)) >= 0.0
    decreases |ts| - i
  {
    if i < |ts| {
      ArrivedNonNegative(lists, ts, v, i + 1);
      if Arrival(lists, ts[i], v) == [] {
        assert Arrived(lists, ts, v, i) == Arrived(lists, ts, v, i + 1);
      } else {
        TotalRateSnoc(Arrived(lists, ts, v, i + 1), lists[ts[i].srcVNFid][ts[i].flowid]);
      }
    }
  }

  /** After the moves an instance carries at least what the plan left it. */
  lemma {:induction false} LeftAtLeast(lists: seq<seq<FlowInfo>>, ts: seq<MigrateTuple>, after: seq<seq<FlowInfo>>,
      v: int)
    requires MovedExactly(lists, ts, after) && NonNegative(lists) && 0 <= v < |lists|
    ensures LoadOf(after[v]) >= LoadOf(Kept(lists[v], RemovedFrom(ts, v)))
  {
    ArrivedNonNegative(lists, ts, v, 0);
    TotalConcat(Kept(lists[v], RemovedFrom(ts, v)), Arrived(lists, ts, v), (f: FlowInfo) => f.rate);
  }

  // ----- A plan under construction -----

  ghost predicate Unassigned(ts: seq<MigrateTuple>) {
    forall i | 0 <= i < |ts| :: ts[i].dstVNFid == -1
  }

  ghost predicate FromOnly(ts: seq<MigrateTuple>, ids: seq<int>) {
    forall i | 0 <= i < |ts| :: ts[i].srcVNFid in ids
  }

  /** What stays at v is as its turn left it. */
  ghost predicate LeftAbove(s: Selected, v: int, flagged: set<FlowInfo>, avg: real) {
    0 <= v < |s.lists| == |s.loads| && LeftAt(s.lists[v], s.loads[v], RemovedFrom(s.plan, v), flagged, avg)
  }

  /** The plan gives away flows of the instances in `done`, and leaves each of them the mean. */
  ghost predicate Planned(s: Selected, done: seq<int>, flagged: set<FlowInfo>, avg: real) {
    && |s.lists| == |s.loads| && Named(s.lists, s.plan) && Unassigned(s.plan) && FromOnly(s.plan, done)
    && forall v | v in done :: LeftAbove(s, v, flagged, avg)
  }

  /** The state with the turn of instance id, which then has the flows and the load given. */
  function With(s: Selected, id: int, flow: seq<FlowInfo>, t: Selection): (r: Selected)
    requires 0 <= id < |s.lists| == |s.loads|
  {
    Selected(s.lists[id := flow], s.loads[id := t.load], s.plan + Tuples(id, t.picked, -1))
  }

  lemma {:induction false} WithRemoves(plan: seq<MigrateTuple>, id: int, picked: seq<int>, v: int)
    requires NoneFrom(plan, id)
    ensures RemovedFrom(plan + Tuples(id, picked, -1), v) == if v == id then Elements(picked) else RemovedFrom(plan, v)
  {
    RemovedConcat(plan, Tuples(id, picked, -1), v);
    RemovedTuples(id, picked, -1, v);
    if v == id {
      NoneRemoved(plan, id, 0);
    }
  }

  lemma {:induction false} PlannedStep(s: Selected, done: seq<int>, flagged: set<FlowInfo>, avg: real, id: int,
      flow: seq<FlowInfo>, t: Selection)
    requires Planned(s, done, flagged, avg) && id !in done && 0 <= id < |s.lists| && |flow| == |s.lists[id]|
    requires Distinct(t.picked) && IndicesOf(flow, t.picked) && LeftAt(flow, t.load, Elements(t.picked), flagged, avg)
    ensures Planned(With(s, id, flow, t), done + [id], flagged, avg)
  {
    var r := With(s, id, flow, t);
    NamedLengths(s.lists, r.lists, s.plan);
    NamedTuples(r.lists, s.plan, id, t.picked, -1);
    forall v | v in done + [id] ensures LeftAbove(r, v, flagged, avg) {
      WithRemoves(s.plan, id, t.picked, v);
      if v != id {
        assert LeftAbove(s, v, flagged, avg);
      }
    }
  }

  lemma {:induction false} SortedSameFlows(lists: seq<seq<FlowInfo>>, v: int)
    requires 0 <= v < |lists|
    ensures SameFlows(lists, lists[v := SortBy(lists[v], RateKey)])
  {
    SortByKeeps(lists[v], RateKey);
    TotalSorted(lists[v], RateKey, (f: FlowInfo) => f.rate);
  }

  lemma {:induction false} SortedNonNegative(flow: seq<FlowInfo>)
    requires NoneBelowZero(flow)
    ensures NoneBelowZero(SortBy(flow, RateKey))
  {
    forall i | 0 <= i < |flow| ensures SortBy(flow, RateKey)[i].rate >= 0.0 {
      InSorted(flow, RateKey, SortBy(flow, RateKey)[i]);
    }
  }

  /** One more heavy instance has had its turn. */
  lemma {:induction false} AwayStep(s: Selected, done: seq<int>, flagged: set<FlowInfo>, avg: real, id: int)
    requires Planned(s, done, flagged, avg) && id !in done && 0 <= id < |s.lists|
    requires s.loads[id] == LoadOf(s.lists[id]) && s.loads[id] >= avg && NoneBelowZero(s.lists[id])
    ensures Planned(AwayOne(s, id, flagged, avg), done + [id], flagged, avg)
  {
    var flow := SortBy(s.lists[id], RateKey);
    TotalSorted(s.lists[id], RateKey, (f: FlowInfo) => f.rate);
    SortedNonNegative(s.lists[id]);
    TurnLeaves(flow, flagged, avg);
    PlannedStep(s, done, flagged, avg, id, flow, Turn(s.lists[id], flagged, s.loads[id], avg));
  }

  /** Where the heavy instances stand when those in `done` have had their turn. */
  ghost predicate Progress(start: seq<seq<FlowInfo>>, startLoads: seq<real>, s: Selected, done: seq<int>,
      flagged: set<FlowInfo>, avg: real) {
    && SameFlows(start, s.lists) && Planned(s, done, flagged, avg) && |startLoads| == |start|
    && forall v | 0 <= v < |start| && v !in done :: s.lists[v] == start[v] && s.loads[v] == startLoads[v]
  }

  lemma {:induction false} ProgressStep(start: seq<seq<FlowInfo>>, startLoads: seq<real>, s: Selected, done: seq<int>,
      flagged: set<FlowInfo>, avg: real, id: int)
    requires Progress(start, startLoads, s, done, flagged, avg) && id !in done && 0 <= id < |start|
    requires startLoads[id] == LoadOf(start[id]) && startLoads[id] >= avg && NoneBelowZero(start[id])
    ensures Progress(start, startLoads, AwayOne(s, id, flagged, avg), done + [id], flagged, avg)
  {
    AwayStep(s, done, flagged, avg, id);
    SortedSameFlows(s.lists, id);
  }

  lemma {:induction false} ProgressNone(start: seq<seq<FlowInfo>>, startLoads: seq<real>, flagged: set<FlowInfo>,
      avg: real)
    requires |start| == |startLoads|
    ensures Progress(start, startLoads, Selected(start, startLoads, []), [], flagged, avg)
  {
  }

  lemma {:induction false} ValidFront(heavy: seq<int>, n: int)
    requires heavy != [] && ValidIds(heavy, n)
    ensures var last := heavy[|heavy| - 1];
      ValidIds(heavy[..|heavy| - 1], n) && 0 <= last < n && last !in heavy[..|heavy| - 1]
      && heavy == heavy[..|heavy| - 1] + [last]
  {
  }

  /** These instances start with at least the mean, and their loads are exact. */
  ghost predicate StartAbove(start: seq<seq<FlowInfo>>, startLoads: seq<real>, heavy: seq<int>, avg: real) {
    && |start| == |startLoads| && ValidIds(heavy, |start|) && NonNegative(start)
    && forall i | 0 <= i < |heavy| :: startLoads[heavy[i]] == LoadOf(start[heavy[i]]) && startLoads[heavy[i]] >= avg
  }

  /** The turns of the heavy instances. */
  lemma {:induction false} AwayProgress(start: seq<seq<FlowInfo>>, startLoads: seq<real>, heavy: seq<int>,
      flagged: set<FlowInfo>, avg: real)
    requires StartAbove(start, startLoads, heavy, avg)
    ensures Progress(start, startLoads, Away(Selected(start, startLoads, []), heavy, flagged, avg), heavy, flagged, avg)
    decreases |heavy|
  {
    if heavy == [] {
      ProgressNone(start, startLoads, flagged, avg);
    } else {
      var front, last := heavy[..|heavy| - 1], heavy[|heavy| - 1];
      ValidFront(heavy, |start|);
      AwayProgress(start, startLoads, front, flagged, avg);
      var s := Away(Selected(start, startLoads, []), front, flagged, avg);
      ProgressStep(start, startLoads, s, front, flagged, avg, last);
    }
  }

  lemma {:induction false} SortUnassigned(ts: seq<MigrateTuple>, key: MigrateTuple -> real)
    requires Unassigned(ts)
    ensures Unassigned(SortBy(ts, key))
  {
    forall i | 0 <= i < |SortBy(ts, key)| ensures SortBy(ts, key)[i].dstVNFid == -1 {
      InSorted(ts, key, SortBy(ts, key)[i]);
    }
  }

  lemma {:induction false} NamedFlowAt<F>(lists: seq<seq<F>>, ts: seq<MigrateTuple>)
    requires Named(lists, ts)
    ensures FlowsAt(lists, ts)
    decreases |ts|
  {
    if ts != [] {
      NamedFlowAt(lists, ts[..|ts| - 1]);
    }
  }
}
