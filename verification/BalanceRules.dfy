/** The rules of a round of load balancing, said of its outcome: what each heavy instance gives away, in which
    order moves and light instances have their turns, and which moves each light instance takes. */
module BalanceRules {
  import opened AlgorithmConstants
  import opened BalancedPlans
  import opened BalanceOutcome
  import opened Distinctness
  import opened Instances
  import opened LoadBalance
  import opened Migration
  import opened Sorting

  // ----- What is given away -----

  /** A flow may be moved if its service level leaves room for 92.16 time units, and what is sent in 142.16 of
      them fits the buffer. */
  lemma {:induction false} MayMoveExactly(f: FlowInfo, flagged: set<FlowInfo>)
    ensures MayMove(f, flagged) <==> f in flagged || (f.sla >= 92.16 && 142.16 * f.rate <= 100000000.0)
  {
  }

  /** The share of the flows among those picked whose index is at least k. */
  function GivenFrom(flow: seq<FlowInfo>, picked: set<int>, k: nat): (r: real)
    decreases |flow| - k
  {
    if k >= |flow| then 0.0
    else GivenFrom(flow, picked, k + 1) + if k in picked then Share(flow[k].rate) else 0.0
  }

  /** Flow k leaves: it may, and without it and what left before it the rest is at least the mean. */
  predicate Leaves(flow: seq<FlowInfo>, flagged: set<FlowInfo>, load: real, avg: real, picked: set<int>, k: nat)
    requires k < |flow|
  {
    MayMove(flow[k], flagged) && load - GivenFrom(flow, picked, k + 1) - Share(flow[k].rate) >= avg
  }

  /** The flows from the last one down leave whenever they can. */
  ghost predicate GivesAway(flow: seq<FlowInfo>, flagged: set<FlowInfo>, load: real, avg: real, picked: set<int>,
      n: nat := 0)
  {
    && (forall k | k in picked :: n <= k < |flow|)
    && forall k: nat | n <= k < |flow| :: k in picked <==> Leaves(flow, flagged, load, avg, picked, k)
  }

  lemma {:induction false} GivenSame(flow: seq<FlowInfo>, p: set<int>, q: set<int>, k: nat)
    requires forall j | k <= j :: j in p <==> j in q
    ensures GivenFrom(flow, p, k) == GivenFrom(flow, q, k)
    decreases |flow| - k
  {
    if k < |flow| {
      GivenSame(flow, p, q, k + 1);
    }
  }

  /** Flows picked by descending index. */
  ghost predicate Descending(t: seq<int>, n: int) {
    t == [] || (Descending(t[..|t| - 1], t[|t| - 1] + 1) && t[|t| - 1] >= n)
  }

  lemma {:induction false} DescendingBelow(t: seq<int>, m: int, n: int)
    requires Descending(t, m) && n <= m
    ensures Descending(t, n)
  {
  }

  lemma {:induction false} DescendingAt(t: seq<int>, n: int, i: int)
    requires Descending(t, n) && 0 <= i < |t|
    ensures t[i] >= n && t[i] >= t[|t| - 1]
    decreases |t|
  {
    if i < |t| - 1 {
      DescendingAt(t[..|t| - 1], t[|t| - 1] + 1, i);
    }
  }

  /** Where the selection stands when the flows from n on have had their turns. */
  ghost predicate Giving(flow: seq<FlowInfo>, flagged: set<FlowInfo>, load: real, avg: real, s: Selection, n: nat) {
    && Descending(s.picked, n) && GivesAway(flow, flagged, load, avg, Elements(s.picked), n)
    && s.load == load - GivenFrom(flow, Elements(s.picked), n)
  }

  lemma {:induction false} LeavesSame(flow: seq<FlowInfo>, flagged: set<FlowInfo>, load: real, avg: real, p: set<int>,
      q: set<int>, k: nat)
    requires k < |flow| && forall j | k < j :: j in p <==> j in q
    ensures Leaves(flow, flagged, load, avg, p, k) <==> Leaves(flow, flagged, load, avg, q, k)
  {
    GivenSame(flow, p, q, k + 1);
  }

  /** Flow m has had its turn as well. */
  lemma {:induction false} GivesOneMore(flow: seq<FlowInfo>, flagged: set<FlowInfo>, load: real, avg: real, p: set<int>,
      q: set<int>, m: nat)
    requires m < |flow| && GivesAway(flow, flagged, load, avg, p, m + 1)
    requires q == p + if Leaves(flow, flagged, load, avg, p, m) then {m} else {}
    ensures GivesAway(flow, flagged, load, avg, q, m)
    ensures GivenFrom(flow, q, m)
         == GivenFrom(flow, p, m + 1) + if Leaves(flow, flagged, load, avg, p, m) then Share(flow[m].rate) else 0.0
  {
    forall k: nat | m <= k < |flow| ensures k in q <==> Leaves(flow, flagged, load, avg, q, k) {
      LeavesSame(flow, flagged, load, avg, p, q, k);
      if k > m {
        assert k in p <==> Leaves(flow, flagged, load, avg, p, k);
      }
    }
    GivenSame(flow, p, q, m + 1);
  }

  lemma {:induction false} DescendingSnoc(t: seq<int>, n: int, m: int)
    requires Descending(t, n) && m < n
    ensures Descending(t + [m], m) && Descending(t, m)
  {
    assert (t + [m])[..|t|] == t;
    DescendingBelow(t, n, m + 1);
  }

  lemma {:induction false} OnePicked(flow: seq<FlowInfo>, flagged: set<FlowInfo>, load: real, avg: real, s: Selection,
      m: nat)
    requires m < |flow| && s.load == load - GivenFrom(flow, Elements(s.picked), m + 1)
    ensures GiveOne(flow, flagged, m, s, avg)
         == if Leaves(flow, flagged, load, avg, Elements(s.picked), m)
            then Selection(s.picked + [m], s.load - Share(flow[m].rate)) else s
  {
  }

  lemma {:induction false} GivingOn(flow: seq<FlowInfo>, flagged: set<FlowInfo>, load: real, avg: real, s: Selection,
      m: nat)
    requires m < |flow| && Giving(flow, flagged, load, avg, s, m + 1)
    requires !Leaves(flow, flagged, load, avg, Elements(s.picked), m)
    ensures Giving(flow, flagged, load, avg, s, m)
  {
    DescendingBelow(s.picked, m + 1, m);
    GivesOneMore(flow, flagged, load, avg, Elements(s.picked), Elements(s.picked), m);
  }

  lemma {:induction false} GivingMore(flow: seq<FlowInfo>, flagged: set<FlowInfo>, load: real, avg: real, s: Selection,
      m: nat)
    requires m < |flow| && Giving(flow, flagged, load, avg, s, m + 1)
    requires Leaves(flow, flagged, load, avg, Elements(s.picked), m)
    ensures Giving(flow, flagged, load, avg, Selection(s.picked + [m], s.load - Share(flow[m].rate)), m)
  {
    DescendingSnoc(s.picked, m + 1, m);
    ElementsSnoc(s.picked, m);
    GivesOneMore(flow, flagged, load, avg, Elements(s.picked), Elements(s.picked) + {m}, m);
  }

  lemma {:induction false} GiveOneRule(flow: seq<FlowInfo>, flagged: set<FlowInfo>, load: real, avg: real, s: Selection,
      n: nat)
    requires 0 < n <= |flow| && Giving(flow, flagged, load, avg, s, n)
    ensures Giving(flow, flagged, load, avg, GiveOne(flow, flagged, n - 1, s, avg), n - 1)
  {
    OnePicked(flow, flagged, load, avg, s, n - 1);
    if Leaves(flow, flagged, load, avg, Elements(s.picked), n - 1) {
      GivingMore(flow, flagged, load, avg, s, n - 1);
    } else {
      GivingOn(flow, flagged, load, avg, s, n - 1);
    }
  }

  lemma {:induction false} GiveAwayRule(flow: seq<FlowInfo>, flagged: set<FlowInfo>, load: real, avg: real,
      s: Selection, n: nat)
    requires n <= |flow| && Giving(flow, flagged, load, avg, s, n)
    ensures Giving(flow, flagged, load, avg, GiveAway(flow, flagged, n, s, avg), 0)
    decreases n
  {
    if n > 0 {
      GiveOneRule(flow, flagged, load, avg, s, n);
      GiveAwayRule(flow, flagged, load, avg, GiveOne(flow, flagged, n - 1, s, avg), n - 1);
    }
  }

  // ----- Flows by rate -----

  function OfRate(flow: seq<FlowInfo>, rate: real): (r: seq<FlowInfo>)
  {
    if flow == [] then []
    else OfRate(flow[..|flow| - 1], rate) + if flow[|flow| - 1].rate == rate then [flow[|flow| - 1]] else []
  }

  /** t holds the flows of s by their rates, those of equal rate as they stood. */
  ghost predicate ByRate(s: seq<FlowInfo>, t: seq<FlowInfo>) {
    && (forall i, j | 0 <= i < j < |t| :: t[i].rate <= t[j].rate)
    && forall rate :: OfRate(t, rate) == OfRate(s, rate)
  }

  lemma {:induction false} OfRateIs(s: seq<FlowInfo>, rate: real)
    ensures OfRate(s, rate) == WithKey(s, RateKey, rate)
  {
    if s != [] {
      OfRateIs(s[..|s| - 1], rate);
    }
  }

  lemma {:induction false} SortedByRate(s: seq<FlowInfo>)
    ensures ByRate(s, SortBy(s, RateKey))
  {
    var t := SortBy(s, RateKey);
    SortIsStable(s, RateKey);
    forall i, j | 0 <= i < j < |t| ensures t[i].rate <= t[j].rate {
      assert RateKey(t[i]) <= RateKey(t[j]);
    }
    forall rate ensures OfRate(t, rate) == OfRate(s, rate) {
      OfRateIs(t, rate);
      OfRateIs(s, rate);
      assert WithKey(t, RateKey, rate) == WithKey(s, RateKey, rate);
    }
  }

  // ----- The first phase -----

  /** Instance v has had its turn: its flows are by rate, and what it gives away follows the rule. */
  ghost predicate GivenBy(start: Selected, s: Selected, v: int, flagged: set<FlowInfo>, avg: real) {
    && 0 <= v < |start.lists| == |start.loads| == |s.lists|
    && ByRate(start.lists[v], s.lists[v])
    && GivesAway(s.lists[v], flagged, start.loads[v], avg, RemovedFrom(s.plan, v))
  }

  /** Moves by the instance they leave, and within one by descending index. */
  function PlanOrder(): (before: (MigrateTuple, MigrateTuple) -> bool)
  {
    (t: MigrateTuple, u: MigrateTuple) =>
      t.srcVNFid < u.srcVNFid || (t.srcVNFid == u.srcVNFid && t.flowid > u.flowid)
  }

  ghost predicate Given(start: Selected, s: Selected, done: seq<int>, flagged: set<FlowInfo>, avg: real) {
    && FromOnly(s.plan, done) && InTurn(s.plan, PlanOrder())
    && forall v | v in done :: GivenBy(start, s, v, flagged, avg)
  }

  lemma {:induction false} TurnRule(flow: seq<FlowInfo>, flagged: set<FlowInfo>, load: real, avg: real)
    ensures var t := Turn(flow, flagged, load, avg);
      Descending(t.picked, 0) && GivesAway(SortBy(flow, RateKey), flagged, load, avg, Elements(t.picked))
  {
    var sorted := SortBy(flow, RateKey);
    GiveAwayRule(sorted, flagged, load, avg, Selection([], load), |sorted|);
  }

  lemma {:induction false} TuplesInTurn(plan: seq<MigrateTuple>, v: int, picked: seq<int>)
    requires InTurn(plan, PlanOrder()) && Descending(picked, 0)
    requires forall i | 0 <= i < |plan| :: plan[i].srcVNFid < v
    ensures InTurn(plan + Tuples(v, picked, -1), PlanOrder())
    decreases |picked|
  {
    if picked == [] {
      assert plan + [] == plan;
    } else {
      var front, last := picked[..|picked| - 1], picked[|picked| - 1];
      DescendingBelow(front, last + 1, 0);
      TuplesInTurn(plan, v, front);
      var before, x := plan + Tuples(v, front, -1), MigrateTuple(v, last, -1);
      assert (before + [x])[..|before|] == before;
      assert plan + Tuples(v, picked, -1) == before + [x];
      forall i | 0 <= i < |before| ensures PlanOrder()(before[i], x) {
        if i >= |plan| {
          DescendingAt(front, last + 1, i - |plan|);
        }
      }
    }
  }

  /** The ids in ascending order. */
  ghost predicate Ascending(ids: seq<int>) {
    forall i, j | 0 <= i < j < |ids| :: ids[i] < ids[j]
  }

  lemma {:induction false} IdsAscend(loads: seq<real>, avg: real, heavy: bool, n: nat)
    requires n <= |loads|
    ensures Ascending(Ids(loads, avg, heavy, n))
  {
    if n > 0 {
      IdsAscend(loads, avg, heavy, n - 1);
      var ids := Ids(loads, avg, heavy, n - 1);
      forall i | 0 <= i < |ids| ensures ids[i] < n - 1 {
        InIds(loads, avg, heavy, n - 1, ids[i]);
      }
    }
  }

  lemma {:induction false} AwayOneGiven(start: Selected, s: Selected, done: seq<int>, v: int, flagged: set<FlowInfo>,
      avg: real)
    requires Given(start, s, done, flagged, avg) && Ascending(done + [v])
    requires 0 <= v < |start.lists| == |start.loads| == |s.lists| == |s.loads|
    requires s.lists[v] == start.lists[v] && s.loads[v] == start.loads[v]
    ensures Given(start, AwayOne(s, v, flagged, avg), done + [v], flagged, avg)
  {
    var t := Turn(s.lists[v], flagged, s.loads[v], avg);
    var r := AwayOne(s, v, flagged, avg);
    OneTurn(s, v, flagged, avg, t);
    TurnRule(s.lists[v], flagged, s.loads[v], avg);
    SortedByRate(s.lists[v]);
    forall i | 0 <= i < |s.plan| ensures s.plan[i].srcVNFid < v {
      BeforeLast(done, v, s.plan[i].srcVNFid);
    }
    TuplesInTurn(s.plan, v, t.picked);
    forall u | u in done + [v] ensures GivenBy(start, r, u, flagged, avg) {
      WithRemoves(s.plan, v, t.picked, u);
      if u in done {
        BeforeLast(done, v, u);
        assert GivenBy(start, s, u, flagged, avg);
      }
    }
  }

  lemma {:induction false} BeforeLast(done: seq<int>, v: int, u: int)
    requires Ascending(done + [v]) && u in done
    ensures u < v
  {
    var i :| 0 <= i < |done| && done[i] == u;
    assert (done + [v])[i] < (done + [v])[|done|];
  }

  lemma {:induction false} AwayGiven(start: Selected, heavy: seq<int>, flagged: set<FlowInfo>, avg: real)
    requires start.plan == [] && |start.lists| == |start.loads| && Ascending(heavy)
    requires forall i | 0 <= i < |heavy| :: 0 <= heavy[i] < |start.lists|
    ensures Given(start, Away(start, heavy, flagged, avg), heavy, flagged, avg)
    decreases |heavy|
  {
    if heavy != [] {
      var front, last := heavy[..|heavy| - 1], heavy[|heavy| - 1];
      assert heavy == front + [last];
      AwayGiven(start, front, flagged, avg);
      if last in front {
        BeforeLast(front, last, last);
      }
      AwayOthers(start, front, flagged, avg, last);
      AwayOneGiven(start, Away(start, front, flagged, avg), front, last, flagged, avg);
    }
  }

  // ----- Which moves a light instance takes -----

  /** The share of the moves among those taken, from index lo to below hi. */
  function TakenShare(lists: seq<seq<FlowInfo>>, ts: seq<MigrateTuple>, taken: set<int>, lo: int, hi: int): (r: real)
    requires 0 <= lo && hi <= |ts|
    decreases hi - lo
  {
    if lo >= hi then 0.0
    else TakenShare(lists, ts, taken, lo, hi - 1) + if hi - 1 in taken then Share(RateAt(lists, ts[hi - 1])) else 0.0
  }

  /** Move i is taken, if with the load so far it stays below the mean or it is the one that is due. */
  predicate Fitting(lists: seq<seq<FlowInfo>>, ts: seq<MigrateTuple>, load: real, end: int, avg: real, taken: set<int>,
      i: int, n: int)
    requires 0 <= i < n <= |ts|
  {
    load + TakenShare(lists, ts, taken, i + 1, n) + Share(RateAt(lists, ts[i])) < avg || i == end
  }

  /** From the last move down, what has no destination is taken if it fits; what is not goes to instance 0 if
      this is the last turn. */
  ghost predicate TakesMoves(lists: seq<seq<FlowInfo>>, before: Filling, after: Filling, id: int, lightest: bool,
      avg: real, taken: set<int>, n: nat)
  {
    && |after.ts| == |before.ts| >= n
    && (forall i | i in taken :: 0 <= i < n)
    && (forall i | n <= i < |before.ts| :: after.ts[i] == before.ts[i])
    && (forall i | 0 <= i < n :: TakenAt(lists, before, after, id, lightest, avg, taken, i, n))
    && after.load == before.load + TakenShare(lists, before.ts, taken, 0, n)
    && after.end == if before.end in taken then before.end + 1 else before.end
  }

  predicate TakenAt(lists: seq<seq<FlowInfo>>, before: Filling, after: Filling, id: int, lightest: bool, avg: real,
      taken: set<int>, i: int, n: int)
    requires 0 <= i < n <= |before.ts| == |after.ts|
  {
    if before.ts[i].dstVNFid >= 0 then i !in taken && after.ts[i] == before.ts[i]
    else
      && (i in taken <==> Fitting(lists, before.ts, before.load, before.end, avg, taken, i, n))
      && after.ts[i] == if i in taken then before.ts[i].(dstVNFid := id)
                        else if lightest then before.ts[i].(dstVNFid := 0) else before.ts[i]
  }

  lemma {:induction false} TakenShareSame(lists: seq<seq<FlowInfo>>, ts: seq<MigrateTuple>, us: seq<MigrateTuple>,
      p: set<int>, q: set<int>, lo: int, hi: int)
    requires 0 <= lo && hi <= |ts| == |us| && (forall i | lo <= i < hi :: i in p <==> i in q)
    requires forall i | 0 <= i < hi :: us[i] == ts[i]
    ensures TakenShare(lists, ts, p, lo, hi) == TakenShare(lists, us, q, lo, hi)
    decreases hi - lo
  {
    if lo < hi {
      TakenShareSame(lists, ts, us, p, q, lo, hi - 1);
    }
  }

  predicate OfferTakes(lists: seq<seq<FlowInfo>>, s: Filling, m: int, avg: real)
    requires 0 <= m < |s.ts|
  {
    s.ts[m].dstVNFid < 0 && (s.load + Share(RateAt(lists, s.ts[m])) < avg || m == s.end)
  }

  /** Whether an earlier move fits is the same before and after move m has had its turn. */
  lemma {:induction false} FittingBefore(lists: seq<seq<FlowInfo>>, s: Filling, m: int, id: int, lightest: bool,
      avg: real, rest: set<int>, taken: set<int>, i: int)
    requires 0 <= i < m < |s.ts| && m !in rest && taken == rest + if OfferTakes(lists, s, m, avg) then {m} else {}
    ensures var t := Offer(lists, s, m, id, lightest, avg);
      Fitting(lists, t.ts, t.load, t.end, avg, rest, i, m)
      <==> Fitting(lists, s.ts, s.load, s.end, avg, taken, i, m + 1)
  {
    var t := Offer(lists, s, m, id, lightest, avg);
    TakenShareSame(lists, t.ts, s.ts, rest, taken, i + 1, m);
  }

  lemma {:induction false} OneMoreTaken(lists: seq<seq<FlowInfo>>, s: Filling, r: Filling, m: int, id: int,
      lightest: bool, avg: real, rest: set<int>, taken: set<int>)
    requires 0 <= m < |s.ts| && id >= 0
    requires TakesMoves(lists, Offer(lists, s, m, id, lightest, avg), r, id, lightest, avg, rest, m)
    requires taken == rest + if OfferTakes(lists, s, m, avg) then {m} else {}
    ensures TakesMoves(lists, s, r, id, lightest, avg, taken, m + 1)
  {
    var t := Offer(lists, s, m, id, lightest, avg);
    assert m !in rest;
    var n := m + 1;
    forall i | 0 <= i < n ensures TakenAt(lists, s, r, id, lightest, avg, taken, i, n) {
      if i < m {
        assert TakenAt(lists, t, r, id, lightest, avg, rest, i, m);
        FittingBefore(lists, s, m, id, lightest, avg, rest, taken, i);
      } else {
        assert r.ts[m] == t.ts[m];
      }
    }
    TakenShareSame(lists, t.ts, s.ts, rest, taken, 0, m);
  }

  /** The moves that one turn takes. */
  lemma {:induction false} FillRule(lists: seq<seq<FlowInfo>>, s: Filling, n: nat, id: int, lightest: bool, avg: real)
    returns (taken: set<int>)
    requires n <= |s.ts| && id >= 0
    ensures TakesMoves(lists, s, Fill(lists, s, n, id, lightest, avg), id, lightest, avg, taken, n)
    decreases n
  {
    if n == 0 {
      taken := {};
    } else {
      var t := Offer(lists, s, n - 1, id, lightest, avg);
      var rest := FillRule(lists, t, n - 1, id, lightest, avg);
      taken := rest + if OfferTakes(lists, s, n - 1, avg) then {n - 1} else {};
      OneMoreTaken(lists, s, Fill(lists, t, n - 1, id, lightest, avg), n - 1, id, lightest, avg, rest, taken);
    }
  }

  /** The turn of the light instance id. */
  ghost predicate HasTurn(lists: seq<seq<FlowInfo>>, before: Assignment, after: Assignment, id: int, lightest: bool,
      avg: real)
  {
    && 0 <= id < |before.loads| && |after.loads| == |before.loads|
    && after.loads == before.loads[id := after.loads[id]]
    && exists taken :: TakesMoves(lists, Filling(before.ts, before.loads[id], before.end),
                             Filling(after.ts, after.loads[id], after.end), id, lightest, avg, taken, |before.ts|)
  }

  /** The light instances from d on have had their turns, the last of them first. */
  ghost predicate Distributed(lists: seq<seq<FlowInfo>>, start: Assignment, light: seq<int>, d: nat, r: Assignment,
      avg: real)
    decreases |light| - d
  {
    if d >= |light| then r == start
    else
      var next, lightest := d + 1, d == 0;
      exists before :: Distributed(lists, start, light, next, before, avg)
                       && HasTurn(lists, before, r, light[d], lightest, avg)
  }

  lemma {:induction false} AssignOneRule(lists: seq<seq<FlowInfo>>, a: Assignment, id: int, lightest: bool, avg: real)
    requires 0 <= id < |a.loads|
    ensures HasTurn(lists, a, AssignOne(lists, a, id, lightest, avg), id, lightest, avg)
  {
    var taken := FillRule(lists, Filling(a.ts, a.loads[id], a.end), |a.ts|, id, lightest, avg);
  }

  lemma {:induction false} AssignRule(lists: seq<seq<FlowInfo>>, a: Assignment, light: seq<int>, d: nat, avg: real)
    requires forall i | 0 <= i < |light| :: 0 <= light[i] < |a.loads|
    ensures Distributed(lists, a, light, d, Assign(lists, a, light, d, avg), avg)
    decreases |light| - d
  {
    if d < |light| {
      AssignRule(lists, a, light, d + 1, avg);
      AssignOneRule(lists, Assign(lists, a, light, d + 1, avg), light[d], d == 0, avg);
    }
  }

  // ----- The order of turns and moves -----

  /** The instances not above the mean, by their loads, those of equal load by their numbers. */
  ghost predicate LightInTurn(b: Round, loads: seq<real>, light: seq<int>) {
    && |loads| == |b.loads| && ValidIds(light, |loads|)
    && (forall v :: v in light <==> 0 <= v < |loads| && b.loads[v] <= b.avg)
    && forall i, j | 0 <= i < j < |light| ::
         loads[light[i]] < loads[light[j]] || (loads[light[i]] == loads[light[j]] && light[i] < light[j])
  }

  /** The moves of the plan by their rates, those of equal rate by instance and descending index. */
  ghost predicate MovesInTurn(s: Selected, ts: seq<MigrateTuple>) {
    && multiset(ts) == multiset(s.plan)
    && forall i, j | 0 <= i < j < |ts| ::
         RateAt(s.lists, ts[i]) < RateAt(s.lists, ts[j])
         || (RateAt(s.lists, ts[i]) == RateAt(s.lists, ts[j]) && PlanOrder()(ts[i], ts[j]))
  }

  lemma {:induction false} AscendingInTurn(ids: seq<int>)
    requires Ascending(ids)
    ensures InTurn(ids, (v: int, w: int) => v < w)
    decreases |ids|
  {
    if ids != [] {
      AscendingInTurn(ids[..|ids| - 1]);
    }
  }

  lemma {:induction false} LightFollows(b: Round, s: Selected, r: Assignment)
    requires Phases(b, s, r) && Fair(b)
    ensures LightInTurn(b, s.loads, Light(b, s.loads))
  {
    var ids, light, key := Ids(b.loads, b.avg, false, |b.loads|), Light(b, s.loads), LoadKey(s.loads);
    var before := (v: int, w: int) => v < w;
    PhaseTwo(b, s, r);
    IdsAscend(b.loads, b.avg, false, |b.loads|);
    AscendingInTurn(ids);
    SortInTurn(ids, key, before);
    forall i, j | 0 <= i < j < |light|
      ensures s.loads[light[i]] < s.loads[light[j]] || (s.loads[light[i]] == s.loads[light[j]] && light[i] < light[j])
    {
      InTurnAt(light, ByKey(key, before), i, j);
      assert light[i] in light && light[j] in light;
    }
  }

  lemma {:induction false} MovesFollow(s: Selected)
    requires InTurn(s.plan, PlanOrder())
    ensures MovesInTurn(s, ToAssign(s).ts)
  {
    var ts, key := ToAssign(s).ts, MoveRateKey(s.lists);
    SortByKeeps(s.plan, key);
    SortInTurn(s.plan, key, PlanOrder());
    forall i, j | 0 <= i < j < |ts|
      ensures RateAt(s.lists, ts[i]) < RateAt(s.lists, ts[j])
              || (RateAt(s.lists, ts[i]) == RateAt(s.lists, ts[j]) && PlanOrder()(ts[i], ts[j]))
    {
      InTurnAt(ts, ByKey(key, PlanOrder()), i, j);
    }
  }

  /** The round follows the rules. */
  ghost predicate ByTheRules(b: Round, s: Selected, r: Assignment) {
    && (forall v | 0 <= v < |b.loads| && b.loads[v] > b.avg ::
          GivenBy(Selected(b.lists, b.loads, []), s, v, b.flagged, b.avg))
    && InTurn(s.plan, PlanOrder())
    && exists ts, light :: MovesInTurn(s, ts) && LightInTurn(b, s.loads, light)
                           && Distributed(s.lists, Assignment(ts, 0, s.loads), light, 0, r, b.avg)
  }

  lemma {:induction false} HeavyGiven(b: Round, s: Selected, r: Assignment)
    requires Phases(b, s, r) && Fair(b)
    ensures InTurn(s.plan, PlanOrder())
    ensures forall v | 0 <= v < |b.loads| && b.loads[v] > b.avg ::
      GivenBy(Selected(b.lists, b.loads, []), s, v, b.flagged, b.avg)
  {
    IdsAscend(b.loads, b.avg, true, |b.loads|);
    HeavyValid(b.loads, b.avg);
    AwayGiven(Selected(b.lists, b.loads, []), Heavy(b), b.flagged, b.avg);
  }

  lemma {:induction false} RoundFollows(b: Round, s: Selected, r: Assignment)
    requires Phases(b, s, r) && Fair(b)
    ensures ByTheRules(b, s, r)
  {
    HeavyGiven(b, s, r);
    MovesFollow(s);
    LightFollows(b, s, r);
    PhaseTwo(b, s, r);
    AssignRule(s.lists, ToAssign(s), Light(b, s.loads), 0, b.avg);
  }

  // ----- The first move -----

  /** The move of the smallest rate goes to a light instance, and to none with a smaller load than another. */
  ghost predicate FirstMoveAt(b: Round, r: Assignment) {
    r.ts != [] ==>
      var v := r.ts[0].dstVNFid;
      && 0 <= v < |b.loads| && b.loads[v] <= b.avg
      && forall w | 0 <= w < |b.loads| && b.loads[w] <= b.avg :: b.loads[w] <= b.loads[v]
  }

  /** What has a destination keeps it in the turns that follow. */
  lemma {:induction false} AssignKeeps(lists: seq<seq<FlowInfo>>, a: Assignment, light: seq<int>, d: nat, e: nat,
      avg: real, i: int)
    requires d <= e <= |light| && 0 <= i < |a.ts| && Assign(lists, a, light, e, avg).ts[i].dstVNFid >= 0
    ensures Assign(lists, a, light, d, avg).ts[i].dstVNFid == Assign(lists, a, light, e, avg).ts[i].dstVNFid
    decreases e - d
  {
    if d < e {
      AssignKeeps(lists, a, light, d + 1, e, avg, i);
      var b := Assign(lists, a, light, d + 1, avg);
      if 0 <= light[d] < |b.loads| {
        FillKeeps(lists, Filling(b.ts, b.loads[light[d]], b.end), |b.ts|, light[d], d == 0, avg);
      }
    }
  }

  lemma {:induction false} FirstTurnTakes(lists: seq<seq<FlowInfo>>, a: Assignment, id: int, lightest: bool, avg: real)
    requires 0 <= id < |a.loads| && a.ts != [] && a.ts[0].dstVNFid < 0 && a.end == 0
    ensures AssignOne(lists, a, id, lightest, avg).ts[0].dstVNFid == id
  {
    var s := Filling(a.ts, a.loads[id], a.end);
    var taken := FillRule(lists, s, |a.ts|, id, lightest, avg);
    assert TakenAt(lists, s, Fill(lists, s, |a.ts|, id, lightest, avg), id, lightest, avg, taken, 0, |a.ts|);
  }

  lemma {:induction false} FirstGoesLast(b: Round, s: Selected, r: Assignment)
    requires Phases(b, s, r) && Fair(b) && r.ts != []
    ensures var light := Light(b, s.loads); light != [] && r.ts[0].dstVNFid == light[|light| - 1]
  {
    var light, a := Light(b, s.loads), ToAssign(s);
    var last := |light| - 1;
    PhaseTwo(b, s, r);
    assert a.ts[0].dstVNFid == -1;
    FirstTurnTakes(s.lists, a, light[last], last == 0, b.avg);
    assert Assign(s.lists, a, light, last + 1, b.avg) == a;
    AssignKeeps(s.lists, a, light, 0, last, b.avg, 0);
  }

  lemma {:induction false} LightAsBefore(b: Round, s: Selected, r: Assignment, v: int)
    requires Phases(b, s, r) && Fair(b) && 0 <= v < |b.loads| && b.loads[v] <= b.avg
    ensures |s.loads| == |b.loads| && s.loads[v] == b.loads[v]
  {
    PhaseOne(b, s, r);
    HeavyValid(b.loads, b.avg);
  }

  lemma {:induction false} GreatestLast(b: Round, loads: seq<real>, light: seq<int>, w: int)
    requires LightInTurn(b, loads, light) && light != [] && w in light
    ensures loads[w] <= loads[light[|light| - 1]]
  {
    var i :| 0 <= i < |light| && light[i] == w;
  }

  lemma {:induction false} FirstMove(b: Round, s: Selected, r: Assignment)
    requires Phases(b, s, r) && Fair(b)
    ensures FirstMoveAt(b, r)
  {
    if r.ts != [] {
      var light := Light(b, s.loads);
      FirstGoesLast(b, s, r);
      LightFollows(b, s, r);
      var v := light[|light| - 1];
      assert v in light;
      LightAsBefore(b, s, r, v);
      forall w | 0 <= w < |b.loads| && b.loads[w] <= b.avg ensures b.loads[w] <= b.loads[v] {
        LightAsBefore(b, s, r, w);
        GreatestLast(b, s.loads, light, w);
      }
    }
  }
}
