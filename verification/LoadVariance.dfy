/** How far apart the loads lie before and after a round of load balancing. */
module LoadVariance {
  import opened AlgorithmConstants
  import opened BalancedPlans
  import opened BalanceOutcome
  import opened BalanceRules
  import opened Instances
  import opened LightLoads
  import opened LoadBalance
  import opened Migration
  import opened Sorting

  // ----- Variance -----

  function Square(x: real): (r: real)
  {
    x * x
  }

  function SumSquares(x: seq<real>): (r: real)
  {
    if x == [] then 0.0 else SumSquares(x[..|x| - 1]) + Square(x[|x| - 1])
  }

  function MeanSquare(x: seq<real>): (r: real)
    requires x != []
  {
    SumSquares(x) / |x| as real
  }

  /** As the code computes it: the mean of the squares without the square of the mean. */
  function VarianceOf(x: seq<real>): (r: real)
    requires x != []
  {
    MeanSquare(x) - Square(Mean(x))
  }

  method Variance(x: seq<real>) returns (v: real)
    requires x != []
    ensures v == VarianceOf(x)
  {
    var a, b := 0.0, 0.0;
    for i := 0 to |x|
      invariant a == SumSquares(x[..i]) && b == Sum(x[..i])
    {
      assert x[..i + 1][..i] == x[..i];
      a, b := a + x[i] * x[i], b + x[i];
    }
    assert x[..|x|] == x;
    v := a / |x| as real - Square(b / |x| as real);
  }

  /** The squares of the distances from c. */
  function Spread(x: seq<real>, c: real): (r: real)
  {
    if x == [] then 0.0 else Spread(x[..|x| - 1], c) + Square(x[|x| - 1] - c)
  }

  lemma {:induction false} SquareOfDifference(x: real, c: real)
    ensures Square(x - c) == Square(x) - 2.0 * c * x + Square(c)
  {
  }

  lemma {:induction false} Times(c: real, a: real, b: real)
    ensures 2.0 * c * (a + b) == 2.0 * c * a + 2.0 * c * b
  {
  }

  lemma {:induction false} OneMore(n: nat, q: real)
    ensures (n + 1) as real * q == n as real * q + q
  {
  }

  function Expansion(n: real, squares: real, sum: real, c: real): (r: real)
  {
    squares - 2.0 * c * sum + n * Square(c)
  }

  lemma {:induction false} SpreadExpands(x: seq<real>, c: real)
    ensures Spread(x, c) == Expansion(|x| as real, SumSquares(x), Sum(x), c)
    decreases |x|
  {
    if x == [] {
      assert Sum(x) == 0.0;
    } else {
      var n, front, last := |x| - 1, x[..|x| - 1], x[|x| - 1];
      SpreadExpands(front, c);
      SquareOfDifference(last, c);
      Times(c, Sum(front), last);
      OneMore(n, Square(c));
    }
  }

  lemma {:induction false} Quotient(x: real, n: real)
    requires n > 0.0
    ensures n * (x / n) == x
  {
  }

  lemma {:induction false} QuotientBack(x: real, n: real, q: real)
    requires n > 0.0 && x == n * q
    ensures x / n == q
  {
  }

  lemma {:induction false} Around(n: real, squares: real, sum: real, square: real, mean: real, c: real, q: real)
    requires sum == n * mean && squares == n * square && q == square - Square(mean) + Square(mean - c)
    ensures Expansion(n, squares, sum, c) == n * q
  {
    assert 2.0 * c * sum == n * (2.0 * c * mean);
    assert Expansion(n, squares, sum, c) == n * (square - 2.0 * c * mean + Square(c));
    SquareOfDifference(mean, c);
  }

  lemma {:induction false} AroundEach(n: real, squares: real, sum: real, square: real, mean: real, c: real, q: real)
    requires n > 0.0 && square == squares / n && mean == sum / n && q == square - Square(mean) + Square(mean - c)
    ensures Expansion(n, squares, sum, c) / n == q
  {
    Quotient(sum, n);
    Quotient(squares, n);
    Around(n, squares, sum, square, mean, c, q);
    QuotientBack(Expansion(n, squares, sum, c), n, q);
  }

  /** The spread around any value is, for each load, the variance and the square of the mean's distance. */
  lemma {:induction false} SpreadAround(x: seq<real>, c: real)
    requires x != []
    ensures Spread(x, c) / |x| as real == VarianceOf(x) + Square(Mean(x) - c)
  {
    SpreadExpands(x, c);
    var q := VarianceOf(x) + Square(Mean(x) - c);
    AroundEach(|x| as real, SumSquares(x), Sum(x), MeanSquare(x), Mean(x), c, q);
  }

  function Multiplied(x: real, y: real): (r: real)
  {
    x * y
  }

  lemma {:induction false} TimesPositive(x: real, y: real)
    requires x > 0.0 && y > 0.0
    ensures Multiplied(x, y) > 0.0
  {
  }

  lemma {:induction false} TimesNegated(x: real, y: real)
    ensures Multiplied(-x, -y) == Multiplied(x, y)
  {
  }

  lemma {:induction false} SquareSign(x: real)
    ensures Square(x) >= 0.0 && (Square(x) == 0.0 <==> x == 0.0)
  {
    assert Square(x) == Multiplied(x, x);
    if x > 0.0 {
      TimesPositive(x, x);
    } else if x < 0.0 {
      TimesPositive(-x, -x);
      TimesNegated(x, x);
    }
  }

  lemma {:induction false} SpreadSign(x: seq<real>, c: real)
    ensures Spread(x, c) >= 0.0
    ensures Spread(x, c) == 0.0 <==> forall i | 0 <= i < |x| :: x[i] == c
    decreases |x|
  {
    if x != [] {
      SpreadSign(x[..|x| - 1], c);
      SquareSign(x[|x| - 1] - c);
      if Spread(x, c) == 0.0 {
        assert forall i | 0 <= i < |x| - 1 :: x[i] == x[..|x| - 1][i];
      }
    }
  }

  lemma {:induction false} QuotientSign(x: real, n: real)
    requires n > 0.0 && x >= 0.0
    ensures x / n >= 0.0 && (x / n == 0.0 <==> x == 0.0)
  {
    Quotient(x, n);
  }

  /** No variance is negative, and only that of equal loads is zero. */
  lemma {:induction false} VarianceSign(x: seq<real>)
    requires x != []
    ensures VarianceOf(x) >= 0.0
    ensures VarianceOf(x) == 0.0 <==> forall i | 0 <= i < |x| :: x[i] == Mean(x)
  {
    SpreadAround(x, Mean(x));
    SquareSign(Mean(x) - Mean(x));
    SpreadSign(x, Mean(x));
    QuotientSign(Spread(x, Mean(x)), |x| as real);
  }

  lemma {:induction false} QuotientKeeps(x: real, y: real, n: real)
    requires n > 0.0 && x <= y
    ensures x / n <= y / n
  {
  }

  lemma {:induction false} SmallerSpread(x: seq<real>, y: seq<real>)
    requires |x| == |y| > 0 && Spread(y, Mean(x)) <= Spread(x, Mean(x))
    ensures VarianceOf(y) <= VarianceOf(x)
  {
    SpreadAround(x, Mean(x));
    SpreadAround(y, Mean(x));
    SquareSign(Mean(x) - Mean(x));
    SquareSign(Mean(y) - Mean(x));
    QuotientKeeps(Spread(y, Mean(x)), Spread(x, Mean(x)), |x| as real);
  }

  lemma {:induction false} SpreadUpdate(x: seq<real>, v: int, load: real, c: real)
    requires 0 <= v < |x|
    ensures Spread(x[v := load], c) == Spread(x, c) - Square(x[v] - c) + Square(load - c)
    decreases |x|
  {
    var last, front := |x| - 1, x[..|x| - 1];
    if v < last {
      SpreadUpdate(front, v, load, c);
      assert x[v := load][..last] == front[v := load];
    } else {
      assert x[v := load][..last] == front;
    }
  }

  // ----- The moves on their way -----

  /** The square of a move's share, while it has no destination. */
  function OpenSquare(lists: seq<seq<FlowInfo>>, t: MigrateTuple): (r: real)
  {
    if t.dstVNFid < 0 then Square(Share(RateAt(lists, t))) else 0.0
  }

  function OpenSquares(lists: seq<seq<FlowInfo>>, ts: seq<MigrateTuple>): (r: real)
  {
    if ts == [] then 0.0 else OpenSquares(lists, ts[..|ts| - 1]) + OpenSquare(lists, ts[|ts| - 1])
  }

  lemma {:induction false} OpenSign(lists: seq<seq<FlowInfo>>, ts: seq<MigrateTuple>)
    ensures OpenSquares(lists, ts) >= 0.0
    decreases |ts|
  {
    if ts != [] {
      OpenSign(lists, ts[..|ts| - 1]);
      SquareSign(Share(RateAt(lists, ts[|ts| - 1])));
    }
  }

  lemma {:induction false} OpenSnoc(lists: seq<seq<FlowInfo>>, ts: seq<MigrateTuple>, t: MigrateTuple)
    ensures OpenSquares(lists, ts + [t]) == OpenSquares(lists, ts) + OpenSquare(lists, t)
  {
    assert (ts + [t])[..|ts|] == ts;
  }

  lemma {:induction false} OpenUpdate(lists: seq<seq<FlowInfo>>, ts: seq<MigrateTuple>, f: int, t: MigrateTuple)
    requires 0 <= f < |ts|
    ensures OpenSquares(lists, ts[f := t])
         == OpenSquares(lists, ts) - OpenSquare(lists, ts[f]) + OpenSquare(lists, t)
    decreases |ts|
  {
    var last, front := |ts| - 1, ts[..|ts| - 1];
    if f < last {
      OpenUpdate(lists, front, f, t);
      assert ts[f := t][..last] == front[f := t];
    } else {
      assert ts[f := t][..last] == front;
    }
  }

  lemma {:induction false} OpenInserted(lists: seq<seq<FlowInfo>>, s: seq<MigrateTuple>, x: MigrateTuple,
      key: MigrateTuple -> real)
    ensures OpenSquares(lists, Insert(s, x, key)) == OpenSquares(lists, s) + OpenSquare(lists, x)
    decreases |s|
  {
    if s == [] || key(s[|s| - 1]) <= key(x) {
      OpenSnoc(lists, s, x);
    } else {
      OpenInserted(lists, s[..|s| - 1], x, key);
      OpenSnoc(lists, Insert(s[..|s| - 1], x, key), s[|s| - 1]);
    }
  }

  lemma {:induction false} OpenSorted(lists: seq<seq<FlowInfo>>, ts: seq<MigrateTuple>, key: MigrateTuple -> real)
    ensures OpenSquares(lists, SortBy(ts, key)) == OpenSquares(lists, ts)
    decreases |ts|
  {
    if ts != [] {
      OpenSorted(lists, ts[..|ts| - 1], key);
      OpenInserted(lists, SortBy(ts[..|ts| - 1], key), ts[|ts| - 1], key);
    }
  }

  lemma {:induction false} OpenConcat(lists: seq<seq<FlowInfo>>, a: seq<MigrateTuple>, b: seq<MigrateTuple>)
    ensures OpenSquares(lists, a + b) == OpenSquares(lists, a) + OpenSquares(lists, b)
    decreases |b|
  {
    if b == [] {
      assert a + b == a;
    } else {
      var front, last := b[..|b| - 1], b[|b| - 1];
      OpenConcat(lists, a, front);
      OpenSnoc(lists, a + front, last);
      assert a + b == a + front + [last];
    }
  }

  // ----- What heavy instances give away -----

  /** Lowering a load that stays at least c brings it nearer by at least the square of the difference. */
  lemma {:induction false} Nearer(load: real, share: real, c: real)
    requires share >= 0.0 && load - share >= c
    ensures Square(load - share - c) + Square(share) <= Square(load - c)
  {
    var rest := load - share - c;
    assert Square(rest + share) == Square(rest) + 2.0 * (rest * share) + Square(share);
    assert rest * share >= 0.0;
  }

  /** Raising a load that is at most c takes it away by at most that. */
  lemma {:induction false} Farther(load: real, share: real, c: real)
    requires share >= 0.0 && load <= c
    ensures Square(load + share - c) <= Square(load - c) + Square(share)
  {
    var gap := c - load;
    assert Square(share - gap) == Square(share) - 2.0 * (gap * share) + Square(gap);
    assert gap * share >= 0.0;
    assert Square(load - c) == Square(gap);
  }

  function PickedSquares(flow: seq<FlowInfo>, picked: seq<int>): (r: real)
    requires IndicesOf(flow, picked)
  {
    if picked == [] then 0.0
    else PickedSquares(flow, picked[..|picked| - 1]) + Square(Share(flow[picked[|picked| - 1]].rate))
  }

  function GivePotential(flow: seq<FlowInfo>, s: Selection, avg: real): (r: real)
    requires IndicesOf(flow, s.picked)
  {
    Square(s.load - avg) + PickedSquares(flow, s.picked)
  }

  lemma {:induction false} GiveOneNearer(flow: seq<FlowInfo>, flagged: set<FlowInfo>, k: nat, s: Selection, avg: real)
    requires k < |flow| && NoneBelowZero(flow) && IndicesOf(flow, s.picked) && s.load >= avg
    ensures var r := GiveOne(flow, flagged, k, s, avg);
      IndicesOf(flow, r.picked) && r.load >= avg && GivePotential(flow, r, avg) <= GivePotential(flow, s, avg)
  {
    var share := Share(flow[k].rate);
    if GiveOne(flow, flagged, k, s, avg) != s {
      assert (s.picked + [k])[..|s.picked|] == s.picked;
      Nearer(s.load, share, avg);
    }
  }

  lemma {:induction false} GiveAwayNearer(flow: seq<FlowInfo>, flagged: set<FlowInfo>, n: nat, s: Selection, avg: real)
    requires n <= |flow| && NoneBelowZero(flow) && IndicesOf(flow, s.picked) && s.load >= avg
    ensures var r := GiveAway(flow, flagged, n, s, avg);
      IndicesOf(flow, r.picked) && GivePotential(flow, r, avg) <= GivePotential(flow, s, avg)
  {
    if n > 0 {
      GiveOneNearer(flow, flagged, n - 1, s, avg);
      GiveAwayNearer(flow, flagged, n - 1, GiveOne(flow, flagged, n - 1, s, avg), avg);
    }
  }

  lemma {:induction false} OpenTuples(lists: seq<seq<FlowInfo>>, v: int, picked: seq<int>)
    requires 0 <= v < |lists| && IndicesOf(lists[v], picked)
    ensures OpenSquares(lists, Tuples(v, picked, -1)) == PickedSquares(lists[v], picked)
    decreases |picked|
  {
    if picked != [] {
      OpenTuples(lists, v, picked[..|picked| - 1]);
    }
  }

  lemma {:induction false} OpenElsewhere(lists: seq<seq<FlowInfo>>, v: int, flow: seq<FlowInfo>, ts: seq<MigrateTuple>)
    requires 0 <= v < |lists| && NoneFrom(ts, v)
    ensures OpenSquares(lists[v := flow], ts) == OpenSquares(lists, ts)
    decreases |ts|
  {
    if ts != [] {
      OpenElsewhere(lists, v, flow, ts[..|ts| - 1]);
    }
  }

  /** The spread of the loads and the moves on their way. */
  function Potential(lists: seq<seq<FlowInfo>>, loads: seq<real>, ts: seq<MigrateTuple>, avg: real): (r: real)
  {
    Spread(loads, avg) + OpenSquares(lists, ts)
  }

  lemma {:induction false} TurnNearer(flow: seq<FlowInfo>, flagged: set<FlowInfo>, load: real, avg: real)
    requires NoneBelowZero(flow) && load >= avg
    ensures var sorted, t := SortBy(flow, RateKey), Turn(flow, flagged, load, avg);
      IndicesOf(sorted, t.picked) && Square(t.load - avg) + PickedSquares(sorted, t.picked) <= Square(load - avg)
  {
    var sorted := SortBy(flow, RateKey);
    SortedNonNegative(flow);
    SortByKeeps(flow, RateKey);
    GiveAwayNearer(sorted, flagged, |sorted|, Selection([], load), avg);
  }

  lemma {:induction false} PlanOpen(lists: seq<seq<FlowInfo>>, plan: seq<MigrateTuple>, v: int, flow: seq<FlowInfo>,
      picked: seq<int>)
    requires 0 <= v < |lists| && NoneFrom(plan, v) && IndicesOf(flow, picked)
    ensures OpenSquares(lists[v := flow], plan + Tuples(v, picked, -1))
         == OpenSquares(lists, plan) + PickedSquares(flow, picked)
  {
    OpenConcat(lists[v := flow], plan, Tuples(v, picked, -1));
    OpenTuples(lists[v := flow], v, picked);
    OpenElsewhere(lists, v, flow, plan);
  }

  lemma {:induction false} AwayOneNearer(s: Selected, v: int, flagged: set<FlowInfo>, avg: real)
    requires 0 <= v < |s.lists| == |s.loads| && NoneBelowZero(s.lists[v]) && NoneFrom(s.plan, v) && s.loads[v] >= avg
    ensures var r := AwayOne(s, v, flagged, avg);
      Potential(r.lists, r.loads, r.plan, avg) <= Potential(s.lists, s.loads, s.plan, avg)
  {
    var t := Turn(s.lists[v], flagged, s.loads[v], avg);
    TurnNearer(s.lists[v], flagged, s.loads[v], avg);
    OneTurn(s, v, flagged, avg, t);
    PlanOpen(s.lists, s.plan, v, SortBy(s.lists[v], RateKey), t.picked);
    SpreadUpdate(s.loads, v, t.load, avg);
  }

  lemma {:induction false} AwayNearer(start: seq<seq<FlowInfo>>, loads: seq<real>, heavy: seq<int>,
      flagged: set<FlowInfo>, avg: real)
    requires StartAbove(start, loads, heavy, avg)
    ensures var r := Away(Selected(start, loads, []), heavy, flagged, avg);
      Potential(r.lists, r.loads, r.plan, avg) <= Spread(loads, avg)
    decreases |heavy|
  {
    if heavy != [] {
      var front, last := heavy[..|heavy| - 1], heavy[|heavy| - 1];
      ValidFront(heavy, |start|);
      AwayNearer(start, loads, front, flagged, avg);
      AwayProgress(start, loads, front, flagged, avg);
      var s := Away(Selected(start, loads, []), front, flagged, avg);
      FromFront(s.plan, front, last);
      AwayOneNearer(s, last, flagged, avg);
    }
  }

  lemma {:induction false} FromFront(ts: seq<MigrateTuple>, front: seq<int>, last: int)
    requires FromOnly(ts, front) && last !in front
    ensures NoneFrom(ts, last)
  {
  }

  // ----- What light instances take -----

  /** The distance of the load from the mean, squared, and the moves that have no destination. */
  function FillPotential(lists: seq<seq<FlowInfo>>, s: Filling, avg: real): (r: real)
  {
    Square(s.load - avg) + OpenSquares(lists, s.ts)
  }

  lemma {:induction false} OfferFarther(lists: seq<seq<FlowInfo>>, s: Filling, f: int, id: int, lightest: bool,
      avg: real)
    requires 0 <= f < |s.ts| && id >= 0 && s.load <= avg && RateAt(lists, s.ts[f]) >= 0.0
    ensures FillPotential(lists, Offer(lists, s, f, id, lightest, avg), avg) <= FillPotential(lists, s, avg)
  {
    var share := Share(RateAt(lists, s.ts[f]));
    OpenUpdate(lists, s.ts, f, s.ts[f].(dstVNFid := id));
    OpenUpdate(lists, s.ts, f, s.ts[f].(dstVNFid := 0));
    SquareSign(share);
    Farther(s.load, share, avg);
  }

  ghost predicate NoRateBelowZero(lists: seq<seq<FlowInfo>>, ts: seq<MigrateTuple>) {
    forall i | 0 <= i < |ts| :: RateAt(lists, ts[i]) >= 0.0
  }

  lemma {:induction false} OfferRates(lists: seq<seq<FlowInfo>>, s: Filling, f: int, id: int, lightest: bool,
      avg: real)
    requires 0 <= f < |s.ts| && NoRateBelowZero(lists, s.ts)
    ensures NoRateBelowZero(lists, Offer(lists, s, f, id, lightest, avg).ts)
  {
  }

  lemma {:induction false} OfferSettled(lists: seq<seq<FlowInfo>>, s: Filling, f: int, id: int, lightest: bool,
      avg: real)
    requires 0 <= f < |s.ts| && id >= 0 && Settled(s.ts, s.end) && s.load <= avg
    ensures var r := Offer(lists, s, f, id, lightest, avg);
      Settled(r.ts, r.end) && (r.end == s.end || r.end == f + 1) && (r.end == s.end ==> r.load <= avg)
  {
  }

  lemma {:induction false} FillFarther(lists: seq<seq<FlowInfo>>, s: Filling, n: nat, id: int, lightest: bool,
      avg: real)
    requires n <= |s.ts| && id >= 0 && Settled(s.ts, s.end) && NoRateBelowZero(lists, s.ts) && s.load <= avg
    ensures FillPotential(lists, Fill(lists, s, n, id, lightest, avg), avg) <= FillPotential(lists, s, avg)
    decreases n
  {
    if n > 0 {
      var t := Offer(lists, s, n - 1, id, lightest, avg);
      OfferFarther(lists, s, n - 1, id, lightest, avg);
      OfferSettled(lists, s, n - 1, id, lightest, avg);
      if t.end == s.end {
        OfferRates(lists, s, n - 1, id, lightest, avg);
        FillFarther(lists, t, n - 1, id, lightest, avg);
      } else {
        FillBelowMean(lists, t, n - 1, id, lightest, avg);
      }
    }
  }

  lemma {:induction false} RatesSame(lists: seq<seq<FlowInfo>>, ts: seq<MigrateTuple>, us: seq<MigrateTuple>)
    requires SameMoves(ts, us) && NoRateBelowZero(lists, ts)
    ensures NoRateBelowZero(lists, us)
  {
    forall i | 0 <= i < |us| ensures RateAt(lists, us[i]) >= 0.0 {
      assert RateAt(lists, us[i]) == RateAt(lists, ts[i]);
    }
  }

  /** One light instance's turn. */
  lemma {:induction false} TurnFarther(lists: seq<seq<FlowInfo>>, b: Assignment, id: int, lightest: bool, avg: real)
    requires 0 <= id < |b.loads| && Settled(b.ts, b.end) && NoRateBelowZero(lists, b.ts) && b.loads[id] <= avg
    ensures var r := AssignOne(lists, b, id, lightest, avg);
      Potential(lists, r.loads, r.ts, avg) <= Potential(lists, b.loads, b.ts, avg)
  {
    var s := Filling(b.ts, b.loads[id], b.end);
    FillFarther(lists, s, |b.ts|, id, lightest, avg);
    SpreadUpdate(b.loads, id, Fill(lists, s, |b.ts|, id, lightest, avg).load, avg);
  }

  lemma {:induction false} AssignFarther(lists: seq<seq<FlowInfo>>, a: Assignment, light: seq<int>, d: nat, avg: real)
    requires ValidIds(light, |a.loads|) && Settled(a.ts, a.end) && d <= |light| && NoRateBelowZero(lists, a.ts)
    requires forall i | 0 <= i < |light| :: a.loads[light[i]] <= avg
    ensures var r := Assign(lists, a, light, d, avg);
      Potential(lists, r.loads, r.ts, avg) <= Potential(lists, a.loads, a.ts, avg)
    decreases |light| - d
  {
    if d < |light| {
      AssignFarther(lists, a, light, d + 1, avg);
      AssignModest(lists, a, light, d + 1, avg);
      AssignSame(lists, a, light, d + 1, avg);
      var b := Assign(lists, a, light, d + 1, avg);
      RatesSame(lists, a.ts, b.ts);
      TurnFarther(lists, b, light[d], d == 0, avg);
    }
  }

  // ----- The round -----

  lemma {:induction false} RatesAt(lists: seq<seq<FlowInfo>>, ts: seq<MigrateTuple>)
    requires NonNegative(lists)
    ensures NoRateBelowZero(lists, ts)
  {
    forall i | 0 <= i < |ts| ensures RateAt(lists, ts[i]) >= 0.0 {
      if FlowAt(lists, ts[i]) {
        assert NoneBelowZero(lists[ts[i].srcVNFid]);
      }
    }
  }

  /** The loads as they are counted never lie further apart after a round. */
  lemma {:induction false} VarianceFalls(b: Round, s: Selected, r: Assignment)
    requires Phases(b, s, r) && Fair(b)
    ensures |r.loads| == |b.loads| && VarianceOf(r.loads) <= VarianceOf(b.loads)
  {
    var light, a := Light(b, s.loads), ToAssign(s);
    HeavyStartsAbove(b);
    AwayNearer(b.lists, b.loads, Heavy(b), b.flagged, b.avg);
    PhaseOne(b, s, r);
    PhaseTwo(b, s, r);
    SameNonNegative(b.lists, s.lists);
    RatesAt(s.lists, a.ts);
    OpenSorted(s.lists, s.plan, MoveRateKey(s.lists));
    LightLoadsKept(b, s, r);
    AssignFarther(s.lists, a, light, 0, b.avg);
    OpenSign(s.lists, r.ts);
    SmallerSpread(b.loads, r.loads);
  }

  lemma {:induction false} LightLoadsKept(b: Round, s: Selected, r: Assignment)
    requires Phases(b, s, r) && Fair(b)
    ensures var light := Light(b, s.loads);
      forall i | 0 <= i < |light| :: 0 <= light[i] < |s.loads| && s.loads[light[i]] <= b.avg
  {
    var light := Light(b, s.loads);
    PhaseOne(b, s, r);
    PhaseTwo(b, s, r);
    HeavyValid(b.loads, b.avg);
    forall i | 0 <= i < |light| ensures 0 <= light[i] < |s.loads| && s.loads[light[i]] <= b.avg {
      assert light[i] in light;
    }
  }

  /** The counted loads are those of the flows that arrive, but for what goes to instance 0 uncounted. */
  lemma {:induction false} CountedLoads(b: Round, s: Selected, r: Assignment, after: seq<seq<FlowInfo>>, v: int)
    requires Phases(b, s, r) && Fair(b) && MovedExactly(s.lists, SortBy(r.ts, FlowidKey), after)
    requires 0 <= v < |s.lists|
    ensures |after| == |r.loads| == |s.lists| && LoadOf(after[v]) == r.loads[v] + UncountedAt(b, s, v)
  {
    PhaseOne(b, s, r);
    PhaseTwo(b, s, r);
    if b.loads[v] > b.avg {
      HeavyAfter(b, s, r, after, v);
      HeavyValid(b.loads, b.avg);
      assert LeftAbove(s, v, b.flagged, b.avg);
      NoTurn(s.lists, ToAssign(s), Light(b, s.loads), 0, b.avg, v);
    } else {
      LightAfter(b, s, r, after, v);
    }
  }

  // ----- The ratio of the variances -----

  /** The quotient of two doubles: of zeros it is not a number, and otherwise by zero infinite. */
  datatype Ratio = Finite(value: real) | Infinite | NotANumber

  function RatioOf(x: real, y: real): (r: Ratio)
  {
    if y != 0.0 then Finite(x / y) else if x == 0.0 then NotANumber else Infinite
  }

  ghost predicate Even(loads: seq<real>)
    requires loads != []
  {
    forall i | 0 <= i < |loads| :: loads[i] == Mean(loads)
  }

  lemma {:induction false} AtLeastOne(x: real, y: real)
    requires x >= y > 0.0
    ensures x / y >= 1.0 && x / y * y == x
  {
  }

  method VarianceRatio(loadBefore: seq<real>, loadAfter: seq<real>) returns (ratio: Ratio)
    requires loadBefore != [] && loadAfter != []
    ensures ratio == RatioOf(VarianceOf(loadBefore), VarianceOf(loadAfter))
  {
    var x := Variance(loadBefore);
    var y := Variance(loadAfter);
    ratio := RatioOf(x, y);
  }

  /** At least one, or infinite if the loads have become even, or not a number if they were. */
  ghost predicate RatioSound(ratio: Ratio, before: seq<real>, after: seq<real>)
    requires before != [] && after != []
  {
    match ratio
    case Finite(value) =>
      !Even(after) && !Even(before) && value >= 1.0 && value * VarianceOf(after) == VarianceOf(before)
    case Infinite => Even(after) && !Even(before)
    case NotANumber => Even(after) && Even(before)
  }

  /** The ratio that a round returns. */
  lemma {:induction false} RatioAtLeastOne(b: Round, s: Selected, r: Assignment)
    requires Phases(b, s, r) && Fair(b)
    ensures |r.loads| == |b.loads|
    ensures RatioSound(RatioOf(VarianceOf(b.loads), VarianceOf(r.loads)), b.loads, r.loads)
  {
    VarianceFalls(b, s, r);
    VarianceSign(b.loads);
    VarianceSign(r.loads);
    if VarianceOf(r.loads) > 0.0 {
      AtLeastOne(VarianceOf(b.loads), VarianceOf(r.loads));
    }
  }

  /** Unless a move is left over, the loads are counted as they come to be. */
  lemma {:induction false} CountedExactly(b: Round, s: Selected, r: Assignment, after: seq<seq<FlowInfo>>)
    requires Phases(b, s, r) && Fair(b) && MovedExactly(s.lists, SortBy(r.ts, FlowidKey), after)
    requires !MoveLeftOver(b, s)
    ensures ExactLoads(after, r.loads)
  {
    PhaseTwo(b, s, r);
    PlanOutcome(b, s, r);
    RoundEvens(b, s, r, after);
    assert |after| == |r.loads|;
    forall v | 0 <= v < |after| ensures r.loads[v] == LoadOf(after[v]) {
      CountedLoads(b, s, r, after, v);
      assert TakesCounted(b, s, v);
    }
  }

  // ----- The loads that come to be -----

  /** The loads of these flow lists. */
  function LoadsOf(lists: seq<seq<FlowInfo>>): (r: seq<real>)
    ensures |r| == |lists| && forall v | 0 <= v < |lists| :: r[v] == LoadOf(lists[v])
  {
    if lists == [] then [] else LoadsOf(lists[..|lists| - 1]) + [LoadOf(lists[|lists| - 1])]
  }

  lemma {:induction false} LoadsSum(lists: seq<seq<FlowInfo>>)
    ensures Sum(LoadsOf(lists)) == Share(TotalRates(lists))
    decreases |lists|
  {
    if lists != [] {
      LoadsSum(lists[..|lists| - 1]);
      assert LoadsOf(lists)[..|lists| - 1] == LoadsOf(lists[..|lists| - 1]);
    }
  }

  lemma {:induction false} MovedIsMoveAll(lists: seq<seq<FlowInfo>>, ts: seq<MigrateTuple>, after: seq<seq<FlowInfo>>)
    requires Movable(lists, ts) && ByFlowid(ts) && MovedExactly(lists, ts, after)
    ensures TotalRates(after) == TotalRates(lists)
  {
    MovesSelected(lists, ts, 0);
    assert after == MoveAll(lists, ts);
    MoveAllConserves(lists, ts, 0, (f: FlowInfo) => f.rate);
  }

  lemma {:induction false} TotalsKept(b: Round, s: Selected, r: Assignment, after: seq<seq<FlowInfo>>)
    requires Phases(b, s, r) && Fair(b) && MovedExactly(s.lists, SortBy(r.ts, FlowidKey), after)
    ensures |after| == |b.lists| && TotalRates(after) == TotalRates(b.lists)
  {
    PlanOutcome(b, s, r);
    SameFlowsSum(b.lists, s.lists);
    SortMovable(s.lists, r.ts, FlowidKey);
    SortByOrders(r.ts, FlowidKey);
    MovedIsMoveAll(s.lists, SortBy(r.ts, FlowidKey), after);
  }

  lemma {:induction false} ExactAreLoads(lists: seq<seq<FlowInfo>>, loads: seq<real>)
    requires ExactLoads(lists, loads)
    ensures LoadsOf(lists) == loads
  {
  }

  lemma {:induction false} MeansEqual(x: seq<real>, y: seq<real>)
    requires |x| == |y| > 0 && Sum(x) == Sum(y)
    ensures Mean(x) == Mean(y)
  {
  }

  /** A round does not change the sum of the loads. */
  lemma {:induction false} SameSum(b: Round, s: Selected, r: Assignment, after: seq<seq<FlowInfo>>)
    requires Phases(b, s, r) && Fair(b) && MovedExactly(s.lists, SortBy(r.ts, FlowidKey), after)
    ensures |after| == |b.loads| && Sum(LoadsOf(after)) == Sum(b.loads)
  {
    TotalsKept(b, s, r, after);
    LoadsSum(after);
    LoadsSum(b.lists);
    ExactAreLoads(b.lists, b.loads);
  }

  lemma {:induction false} OthersCounted(b: Round, s: Selected, v: int)
    requires v != 0
    ensures UncountedAt(b, s, v) == 0.0
  {
  }

  lemma {:induction false} RealLoad(b: Round, s: Selected, r: Assignment, after: seq<seq<FlowInfo>>, v: int)
    requires Phases(b, s, r) && Fair(b) && MovedExactly(s.lists, SortBy(r.ts, FlowidKey), after)
    requires 0 <= v < |s.lists|
    ensures |after| == |r.loads| == |s.lists|
    ensures LoadOf(after[v]) == Raised(r.loads, UncountedAt(b, s, 0), v)
  {
    CountedLoads(b, s, r, after, v);
    if v != 0 {
      OthersCounted(b, s, v);
    }
  }

  /** The loads that come to be are the counted ones, with what instance 0 takes uncounted. */
  lemma {:induction false} RealLoads(b: Round, s: Selected, r: Assignment, after: seq<seq<FlowInfo>>)
    requires Phases(b, s, r) && Fair(b) && MovedExactly(s.lists, SortBy(r.ts, FlowidKey), after)
    ensures |after| == |r.loads| == |b.loads|
    ensures LoadsOf(after) == r.loads[0 := r.loads[0] + UncountedAt(b, s, 0)]
  {
    LengthsKept(b, s, r);
    RealLoad(b, s, r, after, 0);
    forall v | 0 <= v < |r.loads| ensures LoadsOf(after)[v] == Raised(r.loads, UncountedAt(b, s, 0), v) {
      RealLoad(b, s, r, after, v);
    }
    RaisedFirst(r.loads, LoadsOf(after), UncountedAt(b, s, 0));
  }

  function Raised(counted: seq<real>, uncounted: real, v: int): (r: real)
    requires 0 <= v < |counted|
  {
    if v == 0 then counted[v] + uncounted else counted[v]
  }

  lemma {:induction false} RaisedFirst(counted: seq<real>, loads: seq<real>, uncounted: real)
    requires |loads| == |counted| > 0 && forall v | 0 <= v < |counted| :: loads[v] == Raised(counted, uncounted, v)
    ensures loads == counted[0 := counted[0] + uncounted]
  {
  }

  lemma {:induction false} LengthsKept(b: Round, s: Selected, r: Assignment)
    requires Phases(b, s, r) && Fair(b)
    ensures |s.lists| == |b.loads| == |r.loads| > 0
  {
    PhaseOne(b, s, r);
  }

  /** What the uncounted moves add to the spread around the mean, with load the one instance 0 is counted to have. */
  function Pushed(load: real, uncounted: real, avg: real): (r: real)
  {
    Square(load + uncounted - avg) - Square(load - avg)
  }

  lemma {:induction false} AroundMean(x: seq<real>)
    requires x != []
    ensures VarianceOf(x) == Spread(x, Mean(x)) / |x| as real
  {
    SpreadAround(x, Mean(x));
    SquareSign(Mean(x) - Mean(x));
  }

  lemma {:induction false} QuotientOrder(x: real, y: real, n: real)
    requires n > 0.0
    ensures x / n > y / n <==> x > y
  {
    Quotient(x, n);
    Quotient(y, n);
    if x <= y {
      QuotientKeeps(x, y, n);
    } else {
      QuotientKeeps(y, x, n);
    }
  }

  lemma {:induction false} VarianceOrder(x: seq<real>, y: seq<real>, c: real)
    requires |x| == |y| > 0 && Mean(x) == Mean(y) == c
    ensures VarianceOf(x) > VarianceOf(y) <==> Spread(x, c) > Spread(y, c)
  {
    AroundMean(x);
    AroundMean(y);
    QuotientOrder(Spread(x, c), Spread(y, c), |x| as real);
  }

  /** The loads lie further apart than before exactly if instance 0 is pushed away from the mean by more than the
      round is counted to take from the spread. */
  predicate RisesAt(before: seq<real>, counted: seq<real>, loads: seq<real>, uncounted: real, avg: real)
    requires |before| == |counted| == |loads| > 0
  {
    VarianceOf(loads) > VarianceOf(before)
    <==> Pushed(counted[0], uncounted, avg) > Spread(before, avg) - Spread(counted, avg)
  }

  /** The loads are the counted ones, with more at instance 0, and their sum is as before. */
  ghost predicate PushedOnly(before: seq<real>, counted: seq<real>, loads: seq<real>, uncounted: real) {
    && |before| == |counted| > 0 && loads == counted[0 := counted[0] + uncounted]
    && Sum(before) == Sum(loads)
  }

  lemma {:induction false} PushedFurther(before: seq<real>, counted: seq<real>, loads: seq<real>, uncounted: real)
    requires PushedOnly(before, counted, loads, uncounted)
    ensures RisesAt(before, counted, loads, uncounted, Mean(before))
  {
    SpreadUpdate(counted, 0, counted[0] + uncounted, Mean(before));
    MeansEqual(before, loads);
    VarianceOrder(loads, before, Mean(before));
  }

  lemma {:induction false} RoundPushes(b: Round, s: Selected, r: Assignment, after: seq<seq<FlowInfo>>)
    requires Phases(b, s, r) && Fair(b) && MovedExactly(s.lists, SortBy(r.ts, FlowidKey), after)
    ensures PushedOnly(b.loads, r.loads, LoadsOf(after), UncountedAt(b, s, 0))
  {
    SameSum(b, s, r, after);
    RealLoads(b, s, r, after);
  }

  /** The variance of the loads that come to be rises exactly if the uncounted moves add more to the spread than
      the round is counted to take from it. */
  lemma {:induction false} VarianceRisesExactly(b: Round, s: Selected, r: Assignment, after: seq<seq<FlowInfo>>)
    requires Phases(b, s, r) && Fair(b) && MovedExactly(s.lists, SortBy(r.ts, FlowidKey), after)
    ensures |after| == |r.loads| == |b.loads| > 0
    ensures RisesAt(b.loads, r.loads, LoadsOf(after), UncountedAt(b, s, 0), Mean(b.loads))
  {
    RoundPushes(b, s, r, after);
    PushedFurther(b.loads, r.loads, LoadsOf(after), UncountedAt(b, s, 0));
  }

  /** What a round comes to when `after` are the lists after its moves: by which rules, where the flows go, the
      loads, the ratio of the variances, and that the loads are counted exactly unless a move is left over. */
  ghost predicate Balanced(b: Round, s: Selected, r: Assignment, after: seq<seq<FlowInfo>>, ratio: Ratio) {
    && ByTheRules(b, s, r) && FirstMoveAt(b, r) && ToLight(b.loads, r.ts, b.avg) && Evened(b, s, after)
    && |r.loads| == |b.loads| > 0
    && (AllToLight(b.loads, r.ts, b.avg) <==> b.loads[0] <= b.avg || !MoveLeftOver(b, s))
    && ratio == RatioOf(VarianceOf(b.loads), VarianceOf(r.loads)) && RatioSound(ratio, b.loads, r.loads)
    && (!MoveLeftOver(b, s) ==> ExactLoads(after, r.loads))
    && |after| == |b.loads| && RisesAt(b.loads, r.loads, LoadsOf(after), UncountedAt(b, s, 0), Mean(b.loads))
  }

  lemma {:induction false} RoundBalanced(b: Round, s: Selected, r: Assignment, after: seq<seq<FlowInfo>>, ratio: Ratio)
    requires Phases(b, s, r) && Fair(b) && MovedExactly(s.lists, SortBy(r.ts, FlowidKey), after)
    requires |r.loads| == |b.loads| && ratio == RatioOf(VarianceOf(b.loads), VarianceOf(r.loads))
    ensures Balanced(b, s, r, after, ratio)
  {
    RoundFollows(b, s, r);
    FirstMove(b, s, r);
    PlanOutcome(b, s, r);
    RoundEvens(b, s, r, after);
    AllLightExactly(b, s, r);
    RatioAtLeastOne(b, s, r);
    VarianceRisesExactly(b, s, r, after);
    if !MoveLeftOver(b, s) {
      CountedExactly(b, s, r, after);
    }
  }
}
