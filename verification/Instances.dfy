/** Flows and the network function instances that carry them. */
module Instances {
  import opened AlgorithmConstants
  import opened Migration

  class FlowInfo {
    const rate: real
    const sla: real
    var flowid: int
    var migrateFlag: bool

    constructor (rate: real, sla: real)
      ensures this.rate == rate && this.sla == sla && !migrateFlag
    {
      this.rate, this.sla := rate, sla;
      flowid, migrateFlag := 0, false;
    }
  }

  function TotalRate(s: seq<FlowInfo>): (r: real)
  {
    Total(s, (f: FlowInfo) => f.rate)
  }

  function LoadOf(s: seq<FlowInfo>): (r: real)
  {
    Share(TotalRate(s))
  }

  /** A load is the rate of all flows together as a part of 103324. */
  lemma {:induction false} LoadExactly(s: seq<FlowInfo>, f: FlowInfo)
    ensures LoadOf([]) == 0.0 && LoadOf(s + [f]) == LoadOf(s) + f.rate / 103324.0
  {
    TotalRateSnoc(s, f);
  }

  lemma {:induction false} TotalRateSnoc(s: seq<FlowInfo>, f: FlowInfo)
    ensures TotalRate(s + [f]) == TotalRate(s) + f.rate
  {
    TotalSnoc(s, f, (f: FlowInfo) => f.rate);
  }

  class VnfInfo {
    var VNFid: int
    var flow: seq<FlowInfo>
    var loadPercentage: real
    var flowNum: int

    constructor ()
      ensures flow == [] && loadPercentage == 0.0 && flowNum == 0 && VNFid == 0
    {
      VNFid, flow, loadPercentage, flowNum := 0, [], 0.0, 0;
    }

    /** The cached load and count agree with the flow list. */
    ghost predicate Exact()
      reads this
    {
      loadPercentage == LoadOf(flow) && flowNum == |flow|
    }

    method Refresh()
      modifies this`loadPercentage, this`flowNum
      ensures Exact()
    {
      var totalBandwidth := 0.0;
      for i := 0 to |flow|
        invariant totalBandwidth == TotalRate(flow[..i])
      {
        TotalRateSnoc(flow[..i], flow[i]);
        assert flow[..i + 1] == flow[..i] + [flow[i]];
        totalBandwidth := totalBandwidth + flow[i].rate;
      }
      assert flow[..|flow|] == flow;
      loadPercentage := Share(totalBandwidth);
      flowNum := |flow|;
    }
  }

  /** The flow lists of a list of instances. */
  function FlowLists(vs: seq<VnfInfo>): (r: seq<seq<FlowInfo>>)
    reads vs
    ensures |r| == |vs| && forall i | 0 <= i < |vs| :: r[i] == vs[i].flow
  {
    if vs == [] then [] else FlowLists(vs[..|vs| - 1]) + [vs[|vs| - 1].flow]
  }

  /** The cached loads of a list of instances. */
  function LoadList(vs: seq<VnfInfo>): (r: seq<real>)
    reads vs
    ensures |r| == |vs| && forall i | 0 <= i < |vs| :: r[i] == vs[i].loadPercentage
  {
    if vs == [] then [] else LoadList(vs[..|vs| - 1]) + [vs[|vs| - 1].loadPercentage]
  }

  lemma {:induction false} ListsUpdated(vs: seq<VnfInfo>, lists: seq<seq<FlowInfo>>, loads: seq<real>, id: int)
    requires |lists| == |loads| == |vs| && 0 <= id < |vs|
    requires forall v | 0 <= v < |vs| && v != id :: vs[v].flow == lists[v] && vs[v].loadPercentage == loads[v]
    ensures FlowLists(vs) == lists[id := vs[id].flow] && LoadList(vs) == loads[id := vs[id].loadPercentage]
  {
  }

  ghost function FlowSet(lists: seq<seq<FlowInfo>>): (r: set<FlowInfo>)
  {
    if lists == [] then {}
    else
      var last := lists[|lists| - 1];
      FlowSet(lists[..|lists| - 1]) + (set f | f in last)
  }

  lemma {:induction false} InFlowSet(lists: seq<seq<FlowInfo>>, i: int, j: int)
    requires 0 <= i < |lists| && 0 <= j < |lists[i]|
    ensures lists[i][j] in FlowSet(lists)
  {
    var last := |lists| - 1;
    if i < last {
      InFlowSet(lists[..last], i, j);
    } else {
      assert lists[i][j] in lists[last];
    }
  }

  lemma {:induction false} AllInFlowSet(lists: seq<seq<FlowInfo>>, v: int)
    requires 0 <= v < |lists|
    ensures forall f | f in lists[v] :: f in FlowSet(lists)
  {
    forall f | f in lists[v] ensures f in FlowSet(lists) {
      var j :| 0 <= j < |lists[v]| && lists[v][j] == f;
      InFlowSet(lists, v, j);
    }
  }
}
