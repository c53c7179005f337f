/** Evening out the load: what heavy instances give away, and which light instance takes it. */
module LoadBalance {
  import opened AlgorithmConstants
  import opened Distinctness
  import opened Instances
  import opened Migration
  import opened Sorting

  // ----- The mean -----

  function Sum(s: seq<real>): (r: real)
  {
    if s == [] then 0.0 else Sum(s[..|s| - 1]) + s[|s| - 1]
  }

  function Mean(s: seq<real>): (m: real)
    requires s != []
  {
    Sum(s) / |s| as real
  }

  lemma {:induction false} SumAbove(s: seq<real>, a: real)
    requires s != [] && forall i | 0 <= i < |s| :: s[i] > a
    ensures Sum(s) > a * |s| as real
    decreases |s|
  {
    if |s| > 1 {
      SumAbove(s[..|s| - 1], a);
      assert a * |s| as real == a * (|s| - 1) as real + a;
    }
  }

  /** Not every load is above the mean. */
  lemma {:induction false} SomeAtMostMean(s: seq<real>)
    requires s != []
    ensures exists i :: 0 <= i < |s| && s[i] <= Mean(s)
  {
    assert Mean(s) * |s| as real == Sum(s);
    if forall i | 0 <= i < |s| :: s[i] > Mean(s) {
      SumAbove(s, Mean(s));
    }
  }

  /** The indices below n whose load is above (or not above) the mean. */
  function Ids(loads: seq<real>, avg: real, heavy: bool, n: nat): (r: seq<int>)
    requires n <= |loads|
  {
    if n == 0 then []
    else Ids(loads, avg, heavy, n - 1) + (if (loads[n - 1] > avg) == heavy then [n - 1] else [])
  }

  lemma {:induction false} InIds(loads: seq<real>, avg: real, heavy: bool, n: nat, v: int)
    requires n <= |loads|
    ensures v in Ids(loads, avg, heavy, n) <==> 0 <= v < n && (loads[v] > avg) == heavy
  {
    if n > 0 {
      InIds(loads, avg, heavy, n - 1, v);
    }
  }

  lemma {:induction false} IdsDistinct(loads: seq<real>, avg: real, heavy: bool, n: nat)
    requires n <= |loads|
    ensures Distinct(Ids(loads, avg, heavy, n))
  {
    if n > 0 {
      IdsDistinct(loads, avg, heavy, n - 1);
      InIds(loads, avg, heavy, n - 1, n - 1);
      DistinctUnlessSnoc(Ids(loads, avg, heavy, n - 1), n - 1, (loads[n - 1] > avg) == heavy);
    }
  }

  lemma {:induction false} DistinctUnlessSnoc(s: seq<int>, x: int, more: bool)
    requires Distinct(s) && x !in s
    ensures Distinct(s + if more then [x] else [])
  {
    if more {
      DistinctSnoc(s, x);
    } else {
      assert s + [] == s;
    }
  }

  // ----- What a heavy instance gives away -----

  /** The service level allows the delay, and the packets of the meantime fit the buffer. */
  predicate SafeToMove(f: FlowInfo) {
    SFMT <= f.sla - LA_PROCESS && BUFFERED_TIME * f.rate <= BUFFER_SIZE
  }

  function RateKey(f: FlowInfo): (k: real)
  {
    f.rate
  }

  /** The flow was flagged before, or is safe to move. */
  predicate MayMove(f: FlowInfo, flagged: set<FlowInfo>) {
    f in flagged || SafeToMove(f)
  }

  /** The flags of fs lie between what was flagged at first and what may move. */
  ghost predicate Known(fs: set<FlowInfo>, flagged: set<FlowInfo>)
    reads fs
  {
    forall f | f in fs :: (f in flagged ==> f.migrateFlag) && (f.migrateFlag ==> MayMove(f, flagged))
  }

  method FlagSafe(flow: seq<FlowInfo>, ghost fs: set<FlowInfo>, ghost flagged: set<FlowInfo>)
    requires Known(fs, flagged) && forall f | f in flow :: f in fs
    modifies flow`migrateFlag
    ensures Known(fs, flagged) && forall f | f in flow :: f.migrateFlag == MayMove(f, flagged)
  {
    for i := 0 to |flow|
      invariant Known(fs, flagged) && forall j | 0 <= j < i :: flow[j].migrateFlag == MayMove(flow[j], flagged)
    {
      if SafeToMove(flow[i]) {
        flow[i].migrateFlag := true;
      }
    }
  }

  datatype Selection = Selection(picked: seq<int>, load: real)

  /** Flow k leaves if it may and what stays is at least the mean. */
  function GiveOne(flow: seq<FlowInfo>, flagged: set<FlowInfo>, k: nat, s: Selection, avg: real): (r: Selection)
    requires k < |flow|
  {
    var load := s.load - Share(flow[k].rate);
    if MayMove(flow[k], flagged) && load >= avg then Selection(s.picked + [k], load) else s
  }

  /** The flows below n have their turns, from the last one down. */
  function GiveAway(flow: seq<FlowInfo>, flagged: set<FlowInfo>, n: nat, s: Selection, avg: real): (r: Selection)
    requires n <= |flow|
  {
    if n == 0 then s else GiveAway(flow, flagged, n - 1, GiveOne(flow, flagged, n - 1, s, avg), avg)
  }

  method SelectFlows(id: int, flow: seq<FlowInfo>, load: real, avg: real, ghost flagged: set<FlowInfo>)
    returns (plan: seq<MigrateTuple>, newLoad: real)
    requires forall i | 0 <= i < |flow| :: flow[i].migrateFlag == MayMove(flow[i], flagged)
    ensures var r := GiveAway(flow, flagged, |flow|, Selection([], load), avg);
      plan == Tuples(id, r.picked, -1) && newLoad == r.load
  {
    plan, newLoad := [], load;
    ghost var picked := [];
    for f := |flow| downto 0
      invariant GiveAway(flow, flagged, |flow|, Selection([], load), avg)
             == GiveAway(flow, flagged, f, Selection(picked, newLoad), avg)
      invariant plan == Tuples(id, picked, -1)
    {
      if !flow[f].migrateFlag {
      } else if newLoad - Share(flow[f].rate) < avg {
      } else {
        TuplesSnoc(id, picked, f, -1);
        plan := plan + [MigrateTuple(id, f, -1)];
        newLoad := newLoad - Share(flow[f].rate);
        picked := picked + [f];
      }
    }
  }

  /** What an instance with these flows and this load gives away, as indices of its flows by rate. */
  function Turn(flow: seq<FlowInfo>, flagged: set<FlowInfo>, load: real, avg: real): (r: Selection)
  {
    GiveAway(SortBy(flow, RateKey), flagged, |flow|, Selection([], load), avg)
  }

  /** What one heavy instance gives away: its flows are sorted by rate, and its load is lowered by what
      is planned to leave. */
  method PlanAway(srcVNF: VnfInfo, avgLoad: real, ghost fs: set<FlowInfo>, ghost flagged: set<FlowInfo>)
    returns (plan: seq<MigrateTuple>, ghost r: Selection)
    requires Known(fs, flagged) && forall f | f in srcVNF.flow :: f in fs
    modifies srcVNF`flow, srcVNF`loadPercentage, srcVNF.flow`migrateFlag
    ensures Known(fs, flagged) && srcVNF.flow == SortBy(old(srcVNF.flow), RateKey)
    ensures r == Turn(old(srcVNF.flow), flagged, old(srcVNF.loadPercentage), avgLoad)
    ensures srcVNF.loadPercentage == r.load && plan == Tuples(srcVNF.VNFid, r.picked, -1)
  {
    ghost var flow := srcVNF.flow;
    FlagSafe(srcVNF.flow, fs, flagged);
    var sorted := SortBy(srcVNF.flow, RateKey);
    SortedKnown(flow, sorted, flagged);
    srcVNF.flow := sorted;
    r := Turn(flow, flagged, srcVNF.loadPercentage, avgLoad);
    var load;
    plan, load := SelectFlows(srcVNF.VNFid, sorted, srcVNF.loadPercentage, avgLoad, flagged);
    srcVNF.loadPercentage := load;
  }

  lemma {:induction false} SortedKnown(flow: seq<FlowInfo>, sorted: seq<FlowInfo>, flagged: set<FlowInfo>)
    requires sorted == SortBy(flow, RateKey) && forall f | f in flow :: f.migrateFlag == MayMove(f, flagged)
    ensures forall i | 0 <= i < |sorted| :: sorted[i].migrateFlag == MayMove(sorted[i], flagged)
  {
    forall i | 0 <= i < |sorted| ensures sorted[i].migrateFlag == MayMove(sorted[i], flagged) {
      InSorted(flow, RateKey, sorted[i]);
    }
  }

  /** The selection so far names different flows from index n on, and its load is what stays. */
  ghost predicate Tracks(flow: seq<FlowInfo>, s: Selection, n: int) {
    && Distinct(s.picked)
    && (forall i | 0 <= i < |s.picked| :: n <= s.picked[i] < |flow|)
    && s.load == LoadOf(Kept(flow, Elements(s.picked)))
  }

  /** The flows picked are different, their share is given away, and the mean is kept. */
  lemma {:induction false} GiveAwayTracks(flow: seq<FlowInfo>, flagged: set<FlowInfo>, n: nat, s: Selection, avg: real)
    requires n <= |flow| && Tracks(flow, s, n)
    ensures Tracks(flow, GiveAway(flow, flagged, n, s, avg), 0)
    ensures s.load >= avg ==> GiveAway(flow, flagged, n, s, avg).load >= avg
  {
    if n > 0 {
      PickKeepsTrack(flow, s, n);
      GiveAwayTracks(flow, flagged, n - 1, GiveOne(flow, flagged, n - 1, s, avg), avg);
    }
  }

  lemma {:induction false} PickKeepsTrack(flow: seq<FlowInfo>, s: Selection, n: nat)
    requires 0 < n <= |flow| && Tracks(flow, s, n)
    ensures Tracks(flow, Selection(s.picked + [n - 1], s.load - Share(flow[n - 1].rate)), n - 1)
    ensures Tracks(flow, s, n - 1)
  {
    DistinctSnoc(s.picked, n - 1);
    ElementsSnoc(s.picked, n - 1);
    ShareKept(flow, Elements(s.picked), n - 1);
  }

  lemma {:induction false} ShareKept(flow: seq<FlowInfo>, removed: set<int>, k: int)
    requires 0 <= k < |flow| && k !in removed
    ensures LoadOf(Kept(flow, removed + {k})) == LoadOf(Kept(flow, removed)) - Share(flow[k].rate)
  {
    TotalKept(flow, removed, k, (f: FlowInfo) => f.rate);
  }

  ghost predicate NoneBelowZero(flow: seq<FlowInfo>) {
    forall i | 0 <= i < |flow| :: flow[i].rate >= 0.0
  }

  lemma {:induction false} GiveAwayLowers(flow: seq<FlowInfo>, flagged: set<FlowInfo>, n: nat, s: Selection, avg: real)
    requires n <= |flow| && NoneBelowZero(flow)
    ensures GiveAway(flow, flagged, n, s, avg).load <= s.load
    ensures forall k | k in s.picked :: k in GiveAway(flow, flagged, n, s, avg).picked
  {
    if n > 0 {
      GiveAwayLowers(flow, flagged, n - 1, GiveOne(flow, flagged, n - 1, s, avg), avg);
    }
  }

  /** Nothing more could be given away: a flow that may move but stays would take the load below the mean. */
  lemma {:induction false} GiveAwayMaximal(flow: seq<FlowInfo>, flagged: set<FlowInfo>, n: nat, s: Selection,
      avg: real, j: int)
    requires n <= |flow| && NoneBelowZero(flow)
    requires 0 <= j < n && MayMove(flow[j], flagged) && j !in GiveAway(flow, flagged, n, s, avg).picked
    ensures GiveAway(flow, flagged, n, s, avg).load - Share(flow[j].rate) < avg
  {
    var t := GiveOne(flow, flagged, n - 1, s, avg);
    if j == n - 1 {
      GiveAwayLowers(flow, flagged, n - 1, t, avg);
    } else {
      GiveAwayMaximal(flow, flagged, n - 1, t, avg, j);
    }
  }

  /** Where the removed flows have left, `load` stays; it is at least the mean, and without one more flow
      that may move it would not be. */
  ghost predicate LeftAt(flow: seq<FlowInfo>, load: real, removed: set<int>, flagged: set<FlowInfo>, avg: real) {
    && load == LoadOf(Kept(flow, removed)) && load >= avg
    && forall j | 0 <= j < |flow| && j !in removed && MayMove(flow[j], flagged) :: load - Share(flow[j].rate) < avg
  }

  lemma {:induction false} TurnLeaves(flow: seq<FlowInfo>, flagged: set<FlowInfo>, avg: real)
    requires LoadOf(flow) >= avg && NoneBelowZero(flow)
    ensures var r := GiveAway(flow, flagged, |flow|, Selection([], LoadOf(flow)), avg);
      Distinct(r.picked) && IndicesOf(flow, r.picked) && LeftAt(flow, r.load, Elements(r.picked), flagged, avg)
  {
    var s := Selection([], LoadOf(flow));
    var r := GiveAway(flow, flagged, |flow|, s, avg);
    KeptAll(flow, Elements([]));
    GiveAwayTracks(flow, flagged, |flow|, s, avg);
    forall j | 0 <= j < |flow| && j !in Elements(r.picked) && MayMove(flow[j], flagged)
      ensures r.load - Share(flow[j].rate) < avg
    {
      GiveAwayMaximal(flow, flagged, |flow|, s, avg, j);
    }
  }

  datatype Selected = Selected(lists: seq<seq<FlowInfo>>, loads: seq<real>, plan: seq<MigrateTuple>)

  /** The turn of instance v. */
  function AwayOne(s: Selected, v: int, flagged: set<FlowInfo>, avg: real): (r: Selected)
    ensures |r.lists| == |s.lists| && |r.loads| == |s.loads|
  {
    if !(0 <= v < |s.lists| && v < |s.loads|) then s
    else
      var t := Turn(s.lists[v], flagged, s.loads[v], avg);
      Selected(s.lists[v := SortBy(s.lists[v], RateKey)], s.loads[v := t.load], s.plan + Tuples(v, t.picked, -1))
  }

  lemma {:induction false} OneTurn(s: Selected, v: int, flagged: set<FlowInfo>, avg: real, t: Selection)
    requires 0 <= v < |s.lists| == |s.loads| && t == Turn(s.lists[v], flagged, s.loads[v], avg)
    ensures AwayOne(s, v, flagged, avg)
         == Selected(s.lists[v := SortBy(s.lists[v], RateKey)], s.loads[v := t.load], s.plan + Tuples(v, t.picked, -1))
  {
  }

  /** The turns of all heavy instances. */
  function Away(s: Selected, heavy: seq<int>, flagged: set<FlowInfo>, avg: real): (r: Selected)
    ensures |r.lists| == |s.lists| && |r.loads| == |s.loads|
  {
    if heavy == [] then s
    else AwayOne(Away(s, heavy[..|heavy| - 1], flagged, avg), heavy[|heavy| - 1], flagged, avg)
  }

  lemma {:induction false} AwaySnoc(s: Selected, heavy: seq<int>, i: nat, flagged: set<FlowInfo>, avg: real)
    requires i < |heavy|
    ensures Away(s, heavy[..i + 1], flagged, avg) == AwayOne(Away(s, heavy[..i], flagged, avg), heavy[i], flagged, avg)
  {
    assert heavy[..i + 1][..i] == heavy[..i];
  }

  /** Who has had no turn is as before. */
  lemma {:induction false} AwayOthers(s: Selected, heavy: seq<int>, flagged: set<FlowInfo>, avg: real, v: int)
    requires v !in heavy && 0 <= v < |s.lists| == |s.loads|
    ensures var r := Away(s, heavy, flagged, avg); r.lists[v] == s.lists[v] && r.loads[v] == s.loads[v]
    decreases |heavy|
  {
    if heavy != [] {
      AwayOthers(s, heavy[..|heavy| - 1], flagged, avg, v);
    }
  }

  // ----- Which light instance takes a flow -----

  function RateAt(lists: seq<seq<FlowInfo>>, t: MigrateTuple): (r: real)
  {
    if FlowAt(lists, t) then lists[t.srcVNFid][t.flowid].rate else 0.0
  }

  datatype Filling = Filling(ts: seq<MigrateTuple>, load: real, end: int)

  /** One planned move is offered to the instance id; the lightest instance (last in turn) also settles
      what it does not take. */
  function Offer(lists: seq<seq<FlowInfo>>, s: Filling, f: int, id: int, lightest: bool, avg: real): (r: Filling)
    requires 0 <= f < |s.ts|
    ensures |r.ts| == |s.ts|
  {
    var share := Share(RateAt(lists, s.ts[f]));
    if s.ts[f].dstVNFid >= 0 then s
    else if s.load + share < avg || f == s.end then
      Filling(s.ts[f := s.ts[f].(dstVNFid := id)], s.load + share, if f == s.end then s.end + 1 else s.end)
    else if lightest then s.(ts := s.ts[f := s.ts[f].(dstVNFid := 0)])
    else s
  }

  function Fill(lists: seq<seq<FlowInfo>>, s: Filling, n: nat, id: int, lightest: bool, avg: real): (r: Filling)
    requires n <= |s.ts|
    ensures |r.ts| == |s.ts|
    decreases n
  {
    if n == 0 then s else Fill(lists, Offer(lists, s, n - 1, id, lightest, avg), n - 1, id, lightest, avg)
  }

  method OfferOne(lists: seq<seq<FlowInfo>>, s: Filling, f: int, id: int, d: int, avg: real) returns (r: Filling)
    requires 0 <= f < |s.ts| && FlowAt(lists, s.ts[f])
    ensures r == Offer(lists, s, f, id, d == 0, avg)
  {
    var ts, dstLoad, end := s.ts, s.load, s.end;
    if ts[f].dstVNFid >= 0 {
      return s;
    }
    if d == 0 {
      ts := ts[f := ts[f].(dstVNFid := d)];
    }
    var share := Share(lists[ts[f].srcVNFid][ts[f].flowid].rate);
    if dstLoad + share < avg || f == end {
      ts := ts[f := ts[f].(dstVNFid := id)];
      dstLoad := dstLoad + share;
      if f == end {
        end := end + 1;
      }
    }
    r := Filling(ts, dstLoad, end);
  }

  method FillOne(lists: seq<seq<FlowInfo>>, ts: seq<MigrateTuple>, load: real, end: int, id: int, d: int, avg: real)
    returns (r: Filling)
    requires FlowsAt(lists, ts)
    ensures r == Fill(lists, Filling(ts, load, end), |ts|, id, d == 0, avg)
  {
    r := Filling(ts, load, end);
    for f := |ts| downto 0
      invariant |r.ts| == |ts| && FlowsAt(lists, r.ts)
      invariant Fill(lists, Filling(ts, load, end), |ts|, id, d == 0, avg) == Fill(lists, r, f, id, d == 0, avg)
    {
      r := OfferOne(lists, r, f, id, d, avg);
    }
  }

  /** The same moves, up to their destinations. */
  ghost predicate SameMoves(a: seq<MigrateTuple>, b: seq<MigrateTuple>) {
    |a| == |b| && forall i | 0 <= i < |a| :: a[i].srcVNFid == b[i].srcVNFid && a[i].flowid == b[i].flowid
  }

  datatype Assignment = Assignment(ts: seq<MigrateTuple>, end: int, loads: seq<real>)

  /** The state after the turns of the instances light[|light| - 1] down to light[d]. */
  function Assign(lists: seq<seq<FlowInfo>>, a: Assignment, light: seq<int>, d: nat, avg: real): (r: Assignment)
    ensures |r.ts| == |a.ts| && |r.loads| == |a.loads|
    decreases |light| - d
  {
    if d >= |light| then a else AssignOne(lists, Assign(lists, a, light, d + 1, avg), light[d], d == 0, avg)
  }

  function AssignOne(lists: seq<seq<FlowInfo>>, a: Assignment, id: int, lightest: bool, avg: real): (r: Assignment)
    ensures |r.ts| == |a.ts| && |r.loads| == |a.loads|
  {
    if !(0 <= id < |a.loads|) then a
    else
      var s := Fill(lists, Filling(a.ts, a.loads[id], a.end), |a.ts|, id, lightest, avg);
      Assignment(s.ts, s.end, a.loads[id := s.load])
  }

  // ----- Every planned move gets a destination -----

  lemma {:induction false} FillSame(lists: seq<seq<FlowInfo>>, s: Filling, n: nat, id: int, lightest: bool, avg: real)
    requires n <= |s.ts|
    ensures SameMoves(s.ts, Fill(lists, s, n, id, lightest, avg).ts)
    decreases n
  {
    if n > 0 {
      FillSame(lists, Offer(lists, s, n - 1, id, lightest, avg), n - 1, id, lightest, avg);
    }
  }

  /** Unassigned moves have the destination -1; the others go to one of ids. */
  ghost predicate Among(ts: seq<MigrateTuple>, ids: seq<int>) {
    forall i | 0 <= i < |ts| :: ts[i].dstVNFid == -1 || ts[i].dstVNFid in ids
  }

  lemma {:induction false} FillAmong(lists: seq<seq<FlowInfo>>, s: Filling, n: nat, id: int, avg: real, ids: seq<int>)
    requires n <= |s.ts| && Among(s.ts, ids) && id in ids
    ensures Among(Fill(lists, s, n, id, false, avg).ts, ids)
    decreases n
  {
    if n > 0 {
      FillAmong(lists, Offer(lists, s, n - 1, id, false, avg), n - 1, id, avg, ids);
    }
  }

  /** The lightest instance's filling p against the ordinary one q, when the moves from n on have been
      offered: where q leaves a move unassigned, p sends it to instance 0. */
  ghost predicate Settles(p: Filling, q: Filling, n: int) {
    && |p.ts| == |q.ts| && p.load == q.load && p.end == q.end
    && forall i | 0 <= i < |p.ts| ::
         p.ts[i] == if i >= n && q.ts[i].dstVNFid < 0 then q.ts[i].(dstVNFid := 0) else q.ts[i]
  }

  lemma {:induction false} FillSettles(lists: seq<seq<FlowInfo>>, p: Filling, q: Filling, n: nat, id: int, avg: real)
    requires n <= |p.ts| && id >= 0 && Settles(p, q, n)
    ensures Settles(Fill(lists, p, n, id, true, avg), Fill(lists, q, n, id, false, avg), 0)
    decreases n
  {
    if n > 0 {
      FillSettles(lists, Offer(lists, p, n - 1, id, true, avg), Offer(lists, q, n - 1, id, false, avg), n - 1, id, avg);
    }
  }

  /** What has a destination keeps it. */
  lemma {:induction false} FillKeeps(lists: seq<seq<FlowInfo>>, s: Filling, n: nat, id: int, lightest: bool, avg: real)
    requires n <= |s.ts|
    ensures var r := Fill(lists, s, n, id, lightest, avg);
      forall i | 0 <= i < |r.ts| && s.ts[i].dstVNFid >= 0 :: r.ts[i].dstVNFid == s.ts[i].dstVNFid
    decreases n
  {
    if n > 0 {
      FillKeeps(lists, Offer(lists, s, n - 1, id, lightest, avg), n - 1, id, lightest, avg);
    }
  }

  /** The load counted for an instance changes only if some move goes there. */
  lemma {:induction false} FillLoads(lists: seq<seq<FlowInfo>>, s: Filling, n: nat, id: int, lightest: bool, avg: real)
    requires n <= |s.ts| && id >= 0
    ensures var r := Fill(lists, s, n, id, lightest, avg);
      r.load == s.load || exists i :: 0 <= i < |r.ts| && r.ts[i].dstVNFid == id
    decreases n
  {
    if n > 0 {
      var t := Offer(lists, s, n - 1, id, lightest, avg);
      FillLoads(lists, t, n - 1, id, lightest, avg);
      FillKeeps(lists, t, n - 1, id, lightest, avg);
      if t.load != s.load {
        assert t.ts[n - 1].dstVNFid == id;
        assert Fill(lists, t, n - 1, id, lightest, avg).ts[n - 1].dstVNFid == id;
      }
    }
  }

  ghost predicate Settled(ts: seq<MigrateTuple>, end: int) {
    0 <= end <= |ts| && forall i | 0 <= i < end :: ts[i].dstVNFid >= 0
  }

  /** No light instance is planned to reach the mean but by the last flow it is given. */
  lemma {:induction false} FillBelowMean(lists: seq<seq<FlowInfo>>, s: Filling, n: nat, id: int, lightest: bool,
      avg: real)
    requires n <= |s.ts| && id >= 0 && Settled(s.ts, s.end)
    ensures var r := Fill(lists, s, n, id, lightest, avg);
      && Settled(r.ts, r.end) && s.end <= r.end <= s.end + 1 && (n <= s.end ==> r == s)
      && (r.end == s.end ==> r.load == s.load || r.load < avg)
      && (r.end == s.end + 1 ==>
           var before := r.load - Share(RateAt(lists, s.ts[s.end]));
           r.ts[s.end].dstVNFid == id && (before == s.load || before < avg))
    decreases n
  {
    if n > 0 {
      FillBelowMean(lists, Offer(lists, s, n - 1, id, lightest, avg), n - 1, id, lightest, avg);
    }
  }

  // ----- The whole assignment -----

  ghost predicate ValidIds(light: seq<int>, n: int) {
    Distinct(light) && forall i | 0 <= i < |light| :: 0 <= light[i] < n
  }

  lemma {:induction false} AssignSame(lists: seq<seq<FlowInfo>>, a: Assignment, light: seq<int>, d: nat, avg: real)
    ensures SameMoves(a.ts, Assign(lists, a, light, d, avg).ts)
    decreases |light| - d
  {
    if d < |light| {
      AssignSame(lists, a, light, d + 1, avg);
      var b := Assign(lists, a, light, d + 1, avg);
      if 0 <= light[d] < |b.loads| {
        FillSame(lists, Filling(b.ts, b.loads[light[d]], b.end), |b.ts|, light[d], d == 0, avg);
      }
    }
  }

  lemma {:induction false} AssignOneFlows(lists: seq<seq<FlowInfo>>, a: Assignment, id: int, lightest: bool, avg: real)
    requires FlowsAt(lists, a.ts)
    ensures FlowsAt(lists, AssignOne(lists, a, id, lightest, avg).ts)
  {
    if 0 <= id < |a.loads| {
      FillSame(lists, Filling(a.ts, a.loads[id], a.end), |a.ts|, id, lightest, avg);
    }
  }

  ghost predicate NoneTo(ts: seq<MigrateTuple>, v: int) {
    forall i | 0 <= i < |ts| :: ts[i].dstVNFid != v
  }

  lemma {:induction false} AssignAmong(lists: seq<seq<FlowInfo>>, a: Assignment, light: seq<int>, d: nat, avg: real)
    requires d > 0 && ValidIds(light, |a.loads|) && Among(a.ts, light)
    ensures Among(Assign(lists, a, light, d, avg).ts, light)
    decreases |light| - d
  {
    if d < |light| {
      AssignAmong(lists, a, light, d + 1, avg);
      var b := Assign(lists, a, light, d + 1, avg);
      FillAmong(lists, Filling(b.ts, b.loads[light[d]], b.end), |b.ts|, light[d], avg, light);
    }
  }

  /** The moves after the lightest instance's turn, if it took them as the others do. */
  ghost function LastTurn(lists: seq<seq<FlowInfo>>, a: Assignment, light: seq<int>, avg: real): (ts: seq<MigrateTuple>)
    requires light != [] && ValidIds(light, |a.loads|)
    ensures |ts| == |a.ts|
  {
    var b := Assign(lists, a, light, 1, avg);
    Fill(lists, Filling(b.ts, b.loads[light[0]], b.end), |b.ts|, light[0], false, avg).ts
  }

  /** In the last turn a move is left over that the lightest instance does not take. */
  ghost predicate LeftOver(lists: seq<seq<FlowInfo>>, a: Assignment, light: seq<int>, avg: real)
    requires light != [] && ValidIds(light, |a.loads|)
  {
    exists i :: 0 <= i < |a.ts| && LastTurn(lists, a, light, avg)[i].dstVNFid < 0
  }

  /** Every move ends with a destination: one of the light instances, or instance 0 if it is left over. */
  lemma {:induction false} AssignSettles(lists: seq<seq<FlowInfo>>, a: Assignment, light: seq<int>, avg: real)
    requires light != [] && ValidIds(light, |a.loads|) && Among(a.ts, light)
    ensures var ts, last := Assign(lists, a, light, 0, avg).ts, LastTurn(lists, a, light, avg);
      forall i | 0 <= i < |ts| ::
        if last[i].dstVNFid < 0 then ts[i].dstVNFid == 0
        else ts[i].dstVNFid == last[i].dstVNFid && ts[i].dstVNFid in light
  {
    var b := Assign(lists, a, light, 1, avg);
    var s := Filling(b.ts, b.loads[light[0]], b.end);
    AssignAmong(lists, a, light, 1, avg);
    FillAmong(lists, s, |b.ts|, light[0], avg, light);
    FillSettles(lists, s, s, |b.ts|, light[0], avg);
  }

  /** An instance to which no move goes keeps its load. */
  lemma {:induction false} AssignLoads(lists: seq<seq<FlowInfo>>, a: Assignment, light: seq<int>, d: nat, avg: real,
      v: int)
    requires 0 <= v < |a.loads| && NoneTo(Assign(lists, a, light, d, avg).ts, v)
    ensures Assign(lists, a, light, d, avg).loads[v] == a.loads[v]
    decreases |light| - d
  {
    if d < |light| {
      var b := Assign(lists, a, light, d + 1, avg);
      if 0 <= light[d] < |b.loads| {
        var s := Filling(b.ts, b.loads[light[d]], b.end);
        FillKeeps(lists, s, |b.ts|, light[d], d == 0, avg);
        FillLoads(lists, s, |b.ts|, light[d], d == 0, avg);
        NoneToBefore(b.ts, Assign(lists, a, light, d, avg).ts, v);
      }
      AssignLoads(lists, a, light, d + 1, avg, v);
    }
  }

  lemma {:induction false} NoneToBefore(before: seq<MigrateTuple>, after: seq<MigrateTuple>, v: int)
    requires |before| == |after| && NoneTo(after, v) && v >= 0
    requires forall i | 0 <= i < |after| && before[i].dstVNFid >= 0 :: after[i].dstVNFid == before[i].dstVNFid
    ensures NoneTo(before, v)
  {
    forall i | 0 <= i < |before| ensures before[i].dstVNFid != v {
      assert after[i].dstVNFid != v;
    }
  }
}
