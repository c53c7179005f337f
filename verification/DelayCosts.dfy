/** What it costs to delay flows while they move, and when the packets of the meantime fit the buffer. */
module DelayCosts {
  import opened AlgorithmConstants
  import opened Combinations
  import opened Instances
  import opened Migration
  import opened ScaleOutSearch

  lemma {:induction false} CostOfOne(flow: seq<FlowInfo>, i: int, time: real)
    requires 0 <= i < |flow|
    ensures CostOf(flow, [i], time) == Charged(Penalty(flow[i], time))
  {
    assert [i][..0] == [] && [] + [flow[i]] == [flow[i]];
    PenaltiesSnoc([], flow[i], time);
  }

  lemma {:induction false} LateExactly(f: FlowInfo, time: real)
    ensures Penalty(f, time) == if time + 50.0 > f.sla then f.rate * (time + 50.0 - f.sla) else 0.0
  {
  }

  lemma {:induction false} ChargedExactly(p: real)
    ensures Charged(p) == p * 42.16
  {
  }

  /** The cost of delaying a flow of this rate and service level. */
  function LateCost(rate: real, sla: real, time: real): (c: real)
  {
    if time + 50.0 > sla then rate * (time + 50.0 - sla) * 42.16 else 0.0
  }

  lemma {:induction false} ChargedLate(c: real, f: FlowInfo, time: real)
    requires c == Charged(Penalty(f, time))
    ensures c == LateCost(f.rate, f.sla, time)
  {
    LateExactly(f, time);
    ChargedExactly(Penalty(f, time));
  }

  /** A flow that is delayed beyond its service level costs its rate times how late it becomes, times 42.16; any
      other costs nothing. */
  lemma {:induction false} CostExactly(flow: seq<FlowInfo>, i: int, time: real)
    requires 0 <= i < |flow|
    ensures CostOf(flow, [i], time) == LateCost(flow[i].rate, flow[i].sla, time)
  {
    CostOfOne(flow, i, time);
    ChargedLate(CostOf(flow, [i], time), flow[i], time);
  }

  /** A set costs what its flows cost. */
  lemma {:induction false} CostAdds(flow: seq<FlowInfo>, t: seq<int>, i: int, time: real)
    requires IndicesOf(flow, t) && 0 <= i < |flow|
    ensures CostOf(flow, t + [i], time) == CostOf(flow, t, time) + CostOf(flow, [i], time)
    ensures CostOf(flow, [], time) == 0.0
  {
    CostOfOne(flow, i, time);
    assert (t + [i])[..|t|] == t;
    PenaltiesSnoc(Select(flow, t), flow[i], time);
  }

  /** The cost of delaying the flows at t. */
  function LateCosts(flow: seq<FlowInfo>, t: seq<int>, time: real): (c: real)
    requires IndicesOf(flow, t)
  {
    if t == [] then 0.0
    else
      var f := flow[t[|t| - 1]];
      LateCosts(flow, t[..|t| - 1], time) + LateCost(f.rate, f.sla, time)
  }

  lemma {:induction false} CostIsLate(flow: seq<FlowInfo>, t: seq<int>, time: real)
    requires IndicesOf(flow, t)
    ensures CostOf(flow, t, time) == LateCosts(flow, t, time)
    decreases |t|
  {
    if t == [] {
      assert Select(flow, t) == [];
    } else {
      var front, last := t[..|t| - 1], t[|t| - 1];
      CostIsLate(flow, front, time);
      CostAdds(flow, front, last, time);
      CostExactly(flow, last, time);
      assert t == front + [last];
    }
  }

  lemma {:induction false} ProductOrder(x: real, a: real, b: real)
    requires x > 0.0 && a < b
    ensures x * a < x * b
  {
    PositiveProduct(x, b - a);
    assert x * (b - a) == x * b - x * a;
  }

  lemma {:induction false} PositiveProduct(x: real, y: real)
    requires x > 0.0 && y > 0.0
    ensures x * y > 0.0
  {
  }

  /** Of two flows that send as much, the one that becomes later costs more. */
  lemma {:induction false} LaterCostsMore(rate: real, sla: real, other: real, time: real)
    requires rate > 0.0 && sla < other && sla < time + 50.0
    ensures LateCost(rate, sla, time) > LateCost(rate, other, time)
  {
    var late := time + 50.0 - sla;
    assert LateCost(rate, sla, time) == rate * late * 42.16;
    if time + 50.0 > other {
      ProductOrder(rate, time + 50.0 - other, late);
    } else {
      PositiveProduct(rate, late);
    }
  }

  /** The cost is proportional to the rate. */
  lemma {:induction false} CostProportional(rate: real, sla: real, time: real, k: real)
    ensures LateCost(k * rate, sla, time) == k * LateCost(rate, sla, time)
  {
    var late := time + 50.0 - sla;
    assert k * rate * late == k * (rate * late);
  }

  /** A load of the safe size fits the buffer while at most 498 flows move. */
  lemma {:induction false} BufferBinds(n: nat)
    ensures BufferSafe(n, 61994.4) <==> n <= 498
  {
  }
}
