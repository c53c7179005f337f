/** What the loads of the light instances come to. */
module LightLoads {
  import opened AlgorithmConstants
  import opened Distinctness
  import opened Instances
  import opened LoadBalance
  import opened Migration
  import opened Sorting

  // ----- What the moves bring -----

  /** What a move brings to v. */
  function Part(lists: seq<seq<FlowInfo>>, t: MigrateTuple, v: int): (r: real)
  {
    if t.dstVNFid == v then Share(RateAt(lists, t)) else 0.0
  }

  /** What the moves bring to v together. */
  function Bound(lists: seq<seq<FlowInfo>>, ts: seq<MigrateTuple>, v: int): (r: real)
  {
    if ts == [] then 0.0 else Bound(lists, ts[..|ts| - 1], v) + Part(lists, ts[|ts| - 1], v)
  }

  lemma {:induction false} BoundSnoc(lists: seq<seq<FlowInfo>>, ts: seq<MigrateTuple>, t: MigrateTuple, v: int)
    ensures Bound(lists, ts + [t], v) == Bound(lists, ts, v) + Part(lists, t, v)
  {
    assert (ts + [t])[..|ts|] == ts;
  }

  lemma {:induction false} BoundUpdate(lists: seq<seq<FlowInfo>>, ts: seq<MigrateTuple>, f: int, t: MigrateTuple,
      v: int)
    requires 0 <= f < |ts|
    ensures Bound(lists, ts[f := t], v) == Bound(lists, ts, v) - Part(lists, ts[f], v) + Part(lists, t, v)
    decreases |ts|
  {
    var last, front := |ts| - 1, ts[..|ts| - 1];
    if f < last {
      BoundUpdate(lists, front, f, t, v);
      assert ts[f := t][..last] == front[f := t];
    } else {
      assert ts[f := t][..last] == front;
    }
  }

  lemma {:induction false} NothingBound(lists: seq<seq<FlowInfo>>, ts: seq<MigrateTuple>, v: int)
    requires NoneTo(ts, v)
    ensures Bound(lists, ts, v) == 0.0
    decreases |ts|
  {
    if ts != [] {
      NothingBound(lists, ts[..|ts| - 1], v);
    }
  }

  lemma {:induction false} BoundInserted(lists: seq<seq<FlowInfo>>, s: seq<MigrateTuple>, x: MigrateTuple,
      key: MigrateTuple -> real, v: int)
    ensures Bound(lists, Insert(s, x, key), v) == Bound(lists, s, v) + Part(lists, x, v)
    decreases |s|
  {
    if s == [] || key(s[|s| - 1]) <= key(x) {
      BoundSnoc(lists, s, x, v);
    } else {
      BoundInserted(lists, s[..|s| - 1], x, key, v);
      BoundSnoc(lists, Insert(s[..|s| - 1], x, key), s[|s| - 1], v);
    }
  }

  /** In whatever order. */
  lemma {:induction false} BoundSorted(lists: seq<seq<FlowInfo>>, ts: seq<MigrateTuple>, key: MigrateTuple -> real,
      v: int)
    ensures Bound(lists, SortBy(ts, key), v) == Bound(lists, ts, v)
    decreases |ts|
  {
    if ts != [] {
      BoundSorted(lists, ts[..|ts| - 1], key, v);
      BoundInserted(lists, SortBy(ts[..|ts| - 1], key), ts[|ts| - 1], key, v);
    }
  }

  ghost predicate AllInRange(lists: seq<seq<FlowInfo>>, ts: seq<MigrateTuple>) {
    forall i | 0 <= i < |ts| :: InRange(lists, ts[i])
  }

  /** It is the load of the flows that arrive. */
  lemma {:induction false} ArrivedBound(lists: seq<seq<FlowInfo>>, ts: seq<MigrateTuple>, v: int, i: nat)
    requires AllInRange(lists, ts) && i <= |ts|
    ensures LoadOf(Arrived(lists, ts, v, i)) + Bound(lists, ts[..i], v) == Bound(lists, ts, v)
    decreases |ts| - i
  {
    if i == |ts| {
      assert ts[..i] == ts;
    } else {
      ArrivedBound(lists, ts, v, i + 1);
      BoundSnoc(lists, ts[..i], ts[i], v);
      assert ts[..i + 1] == ts[..i] + [ts[i]];
      ArrivalPart(lists, Arrived(lists, ts, v, i + 1), ts[i], v);
    }
  }

  lemma {:induction false} ArrivalPart(lists: seq<seq<FlowInfo>>, s: seq<FlowInfo>, t: MigrateTuple, v: int)
    requires InRange(lists, t)
    ensures LoadOf(s + Arrival(lists, t, v)) == LoadOf(s) + Part(lists, t, v)
  {
    if t.dstVNFid == v {
      TotalRateSnoc(s, lists[t.srcVNFid][t.flowid]);
    } else {
      assert s + [] == s;
    }
  }

  lemma {:induction false} Arrives(lists: seq<seq<FlowInfo>>, ts: seq<MigrateTuple>, v: int, i: nat, k: int)
    requires AllInRange(lists, ts) && i <= k < |ts| && ts[k].dstVNFid == v
    ensures lists[ts[k].srcVNFid][ts[k].flowid] in Arrived(lists, ts, v, i)
    decreases |ts| - i
  {
    if i < k {
      Arrives(lists, ts, v, i + 1, k);
    }
  }

  // ----- The loads as they are counted -----

  lemma {:induction false} OfferCounts(lists: seq<seq<FlowInfo>>, s: Filling, f: int, id: int, lightest: bool,
      avg: real, v: int)
    requires 0 <= f < |s.ts| && v >= 0 && (v > 0 || !lightest)
    ensures var r := Offer(lists, s, f, id, lightest, avg);
      Bound(lists, r.ts, v) - Bound(lists, s.ts, v) == if v == id then r.load - s.load else 0.0
  {
    BoundUpdate(lists, s.ts, f, s.ts[f].(dstVNFid := id), v);
    BoundUpdate(lists, s.ts, f, s.ts[f].(dstVNFid := 0), v);
  }

  lemma {:induction false} FillCounts(lists: seq<seq<FlowInfo>>, s: Filling, n: nat, id: int, lightest: bool, avg: real,
      v: int)
    requires n <= |s.ts| && v >= 0 && (v > 0 || !lightest)
    ensures var r := Fill(lists, s, n, id, lightest, avg);
      Bound(lists, r.ts, v) - Bound(lists, s.ts, v) == if v == id then r.load - s.load else 0.0
    decreases n
  {
    if n > 0 {
      OfferCounts(lists, s, n - 1, id, lightest, avg, v);
      FillCounts(lists, Offer(lists, s, n - 1, id, lightest, avg), n - 1, id, lightest, avg, v);
    }
  }

  /** Before the last turn, and for all instances but 0 in it too, a load grows by what the moves bring. */
  lemma {:induction false} TurnsCount(lists: seq<seq<FlowInfo>>, a: Assignment, light: seq<int>, d: nat, avg: real,
      v: int)
    requires 0 <= v < |a.loads| && (v > 0 || d > 0)
    ensures var r := Assign(lists, a, light, d, avg);
      r.loads[v] - a.loads[v] == Bound(lists, r.ts, v) - Bound(lists, a.ts, v)
    decreases |light| - d
  {
    if d < |light| {
      TurnsCount(lists, a, light, d + 1, avg, v);
      var b := Assign(lists, a, light, d + 1, avg);
      if 0 <= light[d] < |b.loads| {
        FillCounts(lists, Filling(b.ts, b.loads[light[d]], b.end), |b.ts|, light[d], d == 0, avg, v);
      }
    }
  }

  lemma {:induction false} NoTurn(lists: seq<seq<FlowInfo>>, a: Assignment, light: seq<int>, d: nat, avg: real, v: int)
    requires v !in light && 0 <= v < |a.loads|
    ensures Assign(lists, a, light, d, avg).loads[v] == a.loads[v]
    decreases |light| - d
  {
    if d < |light| {
      NoTurn(lists, a, light, d + 1, avg, v);
    }
  }

  /** The load of the moves that have no destination. */
  function Unplaced(lists: seq<seq<FlowInfo>>, ts: seq<MigrateTuple>): (r: real)
  {
    if ts == [] then 0.0
    else
      var t := ts[|ts| - 1];
      Unplaced(lists, ts[..|ts| - 1]) + if t.dstVNFid < 0 then Share(RateAt(lists, t)) else 0.0
  }

  lemma {:induction false} AllPlaced(lists: seq<seq<FlowInfo>>, ts: seq<MigrateTuple>)
    requires forall i | 0 <= i < |ts| :: ts[i].dstVNFid >= 0
    ensures Unplaced(lists, ts) == 0.0
    decreases |ts|
  {
    if ts != [] {
      AllPlaced(lists, ts[..|ts| - 1]);
    }
  }

  /** The same moves, but those without a destination go to instance 0. */
  ghost predicate ZeroForNone(ts: seq<MigrateTuple>, us: seq<MigrateTuple>) {
    && |ts| == |us|
    && forall i | 0 <= i < |ts| :: ts[i] == if us[i].dstVNFid < 0 then us[i].(dstVNFid := 0) else us[i]
  }

  lemma {:induction false} ZeroTakesUnplaced(lists: seq<seq<FlowInfo>>, ts: seq<MigrateTuple>, us: seq<MigrateTuple>)
    requires ZeroForNone(ts, us)
    ensures Bound(lists, ts, 0) == Bound(lists, us, 0) + Unplaced(lists, us)
    decreases |ts|
  {
    if ts != [] {
      ZeroTakesUnplaced(lists, ts[..|ts| - 1], us[..|us| - 1]);
    }
  }

  /** What goes to v without being counted: to instance 0 what the last turn leaves over, else nothing. */
  ghost function Uncounted(lists: seq<seq<FlowInfo>>, a: Assignment, light: seq<int>, avg: real, v: int): (r: real)
    requires light != [] && ValidIds(light, |a.loads|)
  {
    if v == 0 then Unplaced(lists, LastTurn(lists, a, light, avg)) else 0.0
  }

  /** Over all turns a load grows by what the moves bring, but for what goes there uncounted. */
  lemma {:induction false} AssignCounts(lists: seq<seq<FlowInfo>>, a: Assignment, light: seq<int>, avg: real, v: int)
    requires light != [] && ValidIds(light, |a.loads|) && 0 <= v < |a.loads|
    ensures var r := Assign(lists, a, light, 0, avg);
      r.loads[v] - a.loads[v] + Uncounted(lists, a, light, avg, v) == Bound(lists, r.ts, v) - Bound(lists, a.ts, v)
  {
    if v > 0 {
      TurnsCount(lists, a, light, 0, avg, v);
    } else {
      var b := Assign(lists, a, light, 1, avg);
      var s := Filling(b.ts, b.loads[light[0]], b.end);
      TurnsCount(lists, a, light, 1, avg, 0);
      FillCounts(lists, s, |b.ts|, light[0], false, avg, 0);
      FillSettles(lists, s, s, |b.ts|, light[0], avg);
      ZeroTakesUnplaced(lists, Assign(lists, a, light, 0, avg).ts, LastTurn(lists, a, light, avg));
    }
  }

  /** Nothing goes anywhere uncounted unless a move is left over. */
  lemma {:induction false} NothingUncounted(lists: seq<seq<FlowInfo>>, a: Assignment, light: seq<int>, avg: real,
      v: int)
    requires light != [] && ValidIds(light, |a.loads|) && !LeftOver(lists, a, light, avg)
    ensures Uncounted(lists, a, light, avg, v) == 0.0
  {
    AllPlaced(lists, LastTurn(lists, a, light, avg));
  }

  // ----- The mean is not passed but by one flow -----

  /** The load is at most the mean, or would be without one of the flows that go to id. */
  ghost predicate Modest(lists: seq<seq<FlowInfo>>, ts: seq<MigrateTuple>, load: real, id: int, avg: real) {
    load <= avg
    || exists i :: 0 <= i < |ts| && ts[i].dstVNFid == id && load - Share(RateAt(lists, ts[i])) <= avg
  }

  lemma {:induction false} FillModest(lists: seq<seq<FlowInfo>>, s: Filling, id: int, lightest: bool, avg: real)
    requires id >= 0 && Settled(s.ts, s.end) && s.load <= avg
    ensures var r := Fill(lists, s, |s.ts|, id, lightest, avg);
      Settled(r.ts, r.end) && Modest(lists, r.ts, r.load, id, avg)
  {
    FillBelowMean(lists, s, |s.ts|, id, lightest, avg);
    FillSame(lists, s, |s.ts|, id, lightest, avg);
    var r := Fill(lists, s, |s.ts|, id, lightest, avg);
    if r.end == s.end + 1 {
      assert RateAt(lists, r.ts[s.end]) == RateAt(lists, s.ts[s.end]);
    }
  }

  lemma {:induction false} ModestKept(lists: seq<seq<FlowInfo>>, ts: seq<MigrateTuple>, us: seq<MigrateTuple>,
      load: real,
      id: int, avg: real)
    requires Modest(lists, ts, load, id, avg) && id >= 0 && SameMoves(ts, us)
    requires forall i | 0 <= i < |us| && ts[i].dstVNFid >= 0 :: us[i].dstVNFid == ts[i].dstVNFid
    ensures Modest(lists, us, load, id, avg)
  {
    if load > avg {
      var i :| 0 <= i < |ts| && ts[i].dstVNFid == id && load - Share(RateAt(lists, ts[i])) <= avg;
      assert us[i].dstVNFid == id && RateAt(lists, us[i]) == RateAt(lists, ts[i]);
    }
  }

  /** The instances before light[d] have had no turn; those from it on have modest loads. */
  ghost predicate ModestFrom(lists: seq<seq<FlowInfo>>, a: Assignment, r: Assignment, light: seq<int>, d: int,
      avg: real) {
    && |r.loads| == |a.loads| && ValidIds(light, |a.loads|) && Settled(r.ts, r.end)
    && (forall i | 0 <= i < |light| && i < d :: r.loads[light[i]] == a.loads[light[i]])
    && forall i | 0 <= i < |light| && d <= i :: Modest(lists, r.ts, r.loads[light[i]], light[i], avg)
  }

  lemma {:induction false} AssignModest(lists: seq<seq<FlowInfo>>, a: Assignment, light: seq<int>, d: nat, avg: real)
    requires ValidIds(light, |a.loads|) && Settled(a.ts, a.end) && d <= |light|
    requires forall i | 0 <= i < |light| :: a.loads[light[i]] <= avg
    ensures ModestFrom(lists, a, Assign(lists, a, light, d, avg), light, d, avg)
    decreases |light| - d
  {
    if d < |light| {
      AssignModest(lists, a, light, d + 1, avg);
      AssignOneModest(lists, a, Assign(lists, a, light, d + 1, avg), light, d, avg);
    }
  }

  lemma {:induction false} AssignOneModest(lists: seq<seq<FlowInfo>>, a: Assignment, b: Assignment, light: seq<int>,
      d: nat,
      avg: real)
    requires d < |light| && ModestFrom(lists, a, b, light, d + 1, avg) && a.loads[light[d]] <= avg
    ensures ModestFrom(lists, a, AssignOne(lists, b, light[d], d == 0, avg), light, d, avg)
  {
    var s := Filling(b.ts, b.loads[light[d]], b.end);
    var r := AssignOne(lists, b, light[d], d == 0, avg);
    DistinctAt(light, d);
    FillModest(lists, s, light[d], d == 0, avg);
    FillSame(lists, s, |b.ts|, light[d], d == 0, avg);
    FillKeeps(lists, s, |b.ts|, light[d], d == 0, avg);
    forall i | d <= i < |light| ensures Modest(lists, r.ts, r.loads[light[i]], light[i], avg) {
      if i > d {
        ModestKept(lists, b.ts, r.ts, b.loads[light[i]], light[i], avg);
      }
    }
  }
}
