/** Moving flows between the lists of several instances by index. */
module Migration {
  import opened Distinctness
  import opened Sorting

  /** One planned move: the flow at an index of the source's list goes to the destination. */
  datatype MigrateTuple = MigrateTuple(srcVNFid: int, flowid: int, dstVNFid: int)

  predicate FlowAt<F>(lists: seq<seq<F>>, t: MigrateTuple) {
    0 <= t.srcVNFid < |lists| && 0 <= t.flowid < |lists[t.srcVNFid]|
  }

  predicate InRange<F>(lists: seq<seq<F>>, t: MigrateTuple) {
    FlowAt(lists, t) && 0 <= t.dstVNFid < |lists|
  }

  /** The move as the code does it: added at the destination first, then removed by index. */
  function Move<F>(lists: seq<seq<F>>, t: MigrateTuple): (r: seq<seq<F>>)
    ensures |r| == |lists|
  {
    if !InRange(lists, t) then lists
    else
      var added := lists[t.dstVNFid := lists[t.dstVNFid] + [lists[t.srcVNFid][t.flowid]]];
      added[t.srcVNFid := RemoveAt(added[t.srcVNFid], t.flowid)]
  }

  function RemoveAt<F>(s: seq<F>, i: int): (r: seq<F>)
    requires 0 <= i < |s|
    ensures |r| == |s| - 1
  {
    s[..i] + s[i + 1..]
  }

  /** All moves from tuple i on, the last one first. */
  function MoveAll<F>(lists: seq<seq<F>>, ts: seq<MigrateTuple>, i: nat := 0): (r: seq<seq<F>>)
    ensures |r| == |lists|
    decreases |ts| - i
  {
    if i >= |ts| then lists else Move(MoveAll(lists, ts, i + 1), ts[i])
  }

  // ----- What is moved -----

  /** The elements of s whose original positions are not in `removed`. */
  function Kept<F>(s: seq<F>, removed: set<int>): (r: seq<F>)
    ensures |r| <= |s|
  {
    if s == [] then []
    else if |s| - 1 in removed then Kept(s[..|s| - 1], removed)
    else Kept(s[..|s| - 1], removed) + [s[|s| - 1]]
  }

  function Takes(t: MigrateTuple, v: int): (r: set<int>)
  {
    if t.srcVNFid == v then {t.flowid} else {}
  }

  /** The indices that the tuples from i on take from v. */
  function RemovedFrom(ts: seq<MigrateTuple>, v: int, i: nat := 0): (removed: set<int>)
    decreases |ts| - i
  {
    if i >= |ts| then {} else RemovedFrom(ts, v, i + 1) + Takes(ts[i], v)
  }

  /** The flows that go to v, as they stood in the lists at the start. */
  function Arrived<F>(lists: seq<seq<F>>, ts: seq<MigrateTuple>, v: int, i: nat := 0): (r: seq<F>)
    decreases |ts| - i
  {
    if i >= |ts| then [] else Arrived(lists, ts, v, i + 1) + Arrival(lists, ts[i], v)
  }

  function Arrival<F>(lists: seq<seq<F>>, t: MigrateTuple, v: int): (r: seq<F>)
  {
    if InRange(lists, t) && t.dstVNFid == v then [lists[t.srcVNFid][t.flowid]] else []
  }

  /** No tuple of ts names the flow that t names. */
  ghost predicate Unnamed(ts: seq<MigrateTuple>, t: MigrateTuple) {
    forall i | 0 <= i < |ts| :: ts[i].srcVNFid != t.srcVNFid || ts[i].flowid != t.flowid
  }

  /** Moves that name existing flows, each flow at most once. */
  ghost predicate Named<F>(lists: seq<seq<F>>, ts: seq<MigrateTuple>) {
    ts == []
    || (Named(lists, ts[..|ts| - 1]) && FlowAt(lists, ts[|ts| - 1]) && Unnamed(ts[..|ts| - 1], ts[|ts| - 1]))
  }

  ghost predicate FlowsAt<F>(lists: seq<seq<F>>, ts: seq<MigrateTuple>) {
    forall i | 0 <= i < |ts| :: FlowAt(lists, ts[i])
  }

  /** Moves whose destinations are among the first n instances. */
  ghost predicate Aimed(ts: seq<MigrateTuple>, n: int) {
    ts == [] || (Aimed(ts[..|ts| - 1], n) && 0 <= ts[|ts| - 1].dstVNFid < n)
  }

  /** Moves that can be carried out. */
  ghost predicate Movable<F>(lists: seq<seq<F>>, ts: seq<MigrateTuple>) {
    Named(lists, ts) && Aimed(ts, |lists|)
  }

  function FlowidKey(t: MigrateTuple): (k: real)
  {
    t.flowid as real
  }

  /** Moves in the order of their indices. */
  ghost predicate ByFlowid(ts: seq<MigrateTuple>) {
    SortedBy(ts, FlowidKey)
  }

  lemma {:induction false} AimedAt(ts: seq<MigrateTuple>, n: int)
    ensures Aimed(ts, n) <==> forall i | 0 <= i < |ts| :: 0 <= ts[i].dstVNFid < n
    decreases |ts|
  {
    if ts != [] {
      AimedAt(ts[..|ts| - 1], n);
      assert forall i | 0 <= i < |ts| - 1 :: ts[..|ts| - 1][i] == ts[i];
    }
  }

  lemma {:induction false} NamedAt<F>(lists: seq<seq<F>>, ts: seq<MigrateTuple>, i: nat)
    requires Movable(lists, ts) && i < |ts|
    ensures InRange(lists, ts[i])
    decreases |ts|
  {
    if i < |ts| - 1 {
      NamedAt(lists, ts[..|ts| - 1], i);
    }
  }

  /** A later tuple names another flow, and no smaller index. */
  lemma {:induction false} LaterMove<F>(lists: seq<seq<F>>, ts: seq<MigrateTuple>, i: nat, j: nat)
    requires Named(lists, ts) && ByFlowid(ts) && i < j < |ts|
    ensures ts[i].srcVNFid != ts[j].srcVNFid || ts[i].flowid != ts[j].flowid
    ensures ts[i].flowid <= ts[j].flowid
    decreases |ts|
  {
    SortedAt(ts, FlowidKey, j);
    assert FlowidKey(ts[i]) <= FlowidKey(ts[j]);
    if j < |ts| - 1 {
      LaterMove(lists, ts[..|ts| - 1], i, j);
    }
  }

  lemma {:induction false} KeptPrefix<F>(s: seq<F>, removed: set<int>, k: int)
    requires 0 <= k < |s| && forall x | x in removed :: x > k
    ensures |Kept(s, removed)| > k && Kept(s, removed)[..k + 1] == s[..k + 1]
    decreases |s|
  {
    var last := |s| - 1;
    if k == last {
      KeptAll(s, removed);
      assert s[..k + 1] == s;
    } else {
      KeptPrefix(s[..last], removed, k);
      assert s[..last][..k + 1] == s[..k + 1];
    }
  }

  lemma {:induction false} KeptAll<F>(s: seq<F>, removed: set<int>)
    requires forall x | x in removed :: x >= |s|
    ensures Kept(s, removed) == s
    decreases |s|
  {
    if s != [] {
      KeptAll(s[..|s| - 1], removed);
      assert s == s[..|s| - 1] + [s[|s| - 1]];
    }
  }

  /** Taking out the element at k, when everything taken out before lies behind it. */
  lemma {:induction false} KeptRemove<F>(s: seq<F>, removed: set<int>, k: int)
    requires 0 <= k < |s| && forall x | x in removed :: x > k
    requires |Kept(s, removed)| > k
    ensures Kept(s, removed + {k}) == RemoveAt(Kept(s, removed), k)
    decreases |s|
  {
    var last, front := |s| - 1, s[..|s| - 1];
    if k == last {
      KeptAll(s, removed);
      KeptAll(front, removed + {k});
    } else {
      KeptPrefix(front, removed, k);
      KeptRemove(front, removed, k);
      if last !in removed {
        RemoveAtFront(Kept(front, removed), [s[last]], k);
      }
    }
  }

  lemma {:induction false} InRemovedFrom(ts: seq<MigrateTuple>, v: int, i: nat, x: int)
    requires x in RemovedFrom(ts, v, i)
    ensures exists j :: i <= j < |ts| && ts[j].srcVNFid == v && ts[j].flowid == x
    decreases |ts| - i
  {
    if x in RemovedFrom(ts, v, i + 1) {
      InRemovedFrom(ts, v, i + 1, x);
    }
  }

  lemma {:induction false} LaterRemoved<F>(lists: seq<seq<F>>, ts: seq<MigrateTuple>, i: nat, x: int)
    requires Named(lists, ts) && ByFlowid(ts) && i < |ts| && x in RemovedFrom(ts, ts[i].srcVNFid, i + 1)
    ensures x > ts[i].flowid
  {
    InRemovedFrom(ts, ts[i].srcVNFid, i + 1, x);
    var j :| i < j < |ts| && ts[j].srcVNFid == ts[i].srcVNFid && ts[j].flowid == x;
    LaterMove(lists, ts, i, j);
  }

  /** Each list is what the tuples from i on leave of it, followed by what they bring. */
  ghost predicate MovedExactly<F>(lists: seq<seq<F>>, ts: seq<MigrateTuple>, after: seq<seq<F>>, i: nat := 0)
  {
    |after| == |lists|
    && forall v | 0 <= v < |lists| :: after[v] == Kept(lists[v], RemovedFrom(ts, v, i)) + Arrived(lists, ts, v, i)
  }

  /** In the order of their indices, the moves take away exactly the flows that stood at those
      indices before any move, and bring each to its destination: also when an instance is both
      a source and a destination. */
  lemma {:induction false} MovesSelected<F>(lists: seq<seq<F>>, ts: seq<MigrateTuple>, i: nat)
    requires Movable(lists, ts) && ByFlowid(ts) && i <= |ts|
    ensures MovedExactly(lists, ts, MoveAll(lists, ts, i), i)
    decreases |ts| - i
  {
    if i == |ts| {
      forall v | 0 <= v < |lists| ensures Kept(lists[v], {}) == lists[v] {
        KeptAll(lists[v], {});
      }
    } else {
      MovesSelected(lists, ts, i + 1);
      NextMove(lists, ts, i, MoveAll(lists, ts, i + 1));
    }
  }

  /** The next flow to move still stands where the plan found it. */
  lemma {:induction false} NextMove<F>(lists: seq<seq<F>>, ts: seq<MigrateTuple>, i: nat, cur: seq<seq<F>>)
    requires Movable(lists, ts) && ByFlowid(ts) && i < |ts| && MovedExactly(lists, ts, cur, i + 1)
    ensures InRange(lists, ts[i]) && InRange(cur, ts[i])
    ensures cur[ts[i].srcVNFid][ts[i].flowid] == lists[ts[i].srcVNFid][ts[i].flowid]
    ensures MovedExactly(lists, ts, Move(cur, ts[i]), i)
  {
    var t := ts[i];
    NamedAt(lists, ts, i);
    var s, k := t.srcVNFid, t.flowid;
    var removed := RemovedFrom(ts, s, i + 1);
    forall x | x in removed ensures x > k {
      LaterRemoved(lists, ts, i, x);
    }
    KeptPrefix(lists[s], removed, k);
    KeptRemove(lists[s], removed, k);
    var kept := Kept(lists[s], removed);
    assert kept[k] == kept[..k + 1][k] == lists[s][k];
    assert cur[s] == kept + Arrived(lists, ts, s, i + 1);
    forall v | 0 <= v < |lists|
      ensures Move(cur, t)[v] == Kept(lists[v], RemovedFrom(ts, v, i)) + Arrived(lists, ts, v, i)
    {
      MoveAt(cur, t, lists[s][k], v);
      MovedAt(lists, t, cur[v], Kept(lists[v], RemovedFrom(ts, v, i + 1)), Arrived(lists, ts, v, i + 1), v);
      assert v != s ==> RemovedFrom(ts, v, i) == RemovedFrom(ts, v, i + 1);
    }
  }

  lemma {:induction false} NextPlanned<F>(lists: seq<seq<F>>, ts: seq<MigrateTuple>, i: nat)
    requires Movable(lists, ts) && ByFlowid(ts) && i < |ts|
    ensures var cur := MoveAll(lists, ts, i + 1);
      && InRange(lists, ts[i]) && InRange(cur, ts[i])
      && cur[ts[i].srcVNFid][ts[i].flowid] == lists[ts[i].srcVNFid][ts[i].flowid]
  {
    MovesSelected(lists, ts, i + 1);
    NextMove(lists, ts, i, MoveAll(lists, ts, i + 1));
  }

  /** When the later moves have been made, move i still finds the flow it names where it names it. */
  ghost predicate PlannedAt<F>(lists: seq<seq<F>>, ts: seq<MigrateTuple>, i: nat)
    requires i < |ts|
  {
    var cur := MoveAll(lists, ts, i + 1);
    && InRange(lists, ts[i]) && InRange(cur, ts[i])
    && cur[ts[i].srcVNFid][ts[i].flowid] == lists[ts[i].srcVNFid][ts[i].flowid]
  }

  ghost predicate WellPlanned<F>(lists: seq<seq<F>>, ts: seq<MigrateTuple>) {
    forall i | 0 <= i < |ts| :: PlannedAt(lists, ts, i)
  }

  lemma {:induction false} AllPlanned<F>(lists: seq<seq<F>>, ts: seq<MigrateTuple>)
    requires Movable(lists, ts) && ByFlowid(ts)
    ensures WellPlanned(lists, ts)
  {
    forall i: nat | 0 <= i < |ts| ensures PlannedAt(lists, ts, i) {
      NextPlanned(lists, ts, i);
    }
  }

  lemma {:induction false} MoveAt<F>(cur: seq<seq<F>>, t: MigrateTuple, x: F, v: int)
    requires InRange(cur, t) && x == cur[t.srcVNFid][t.flowid] && 0 <= v < |cur|
    ensures var added := cur[v] + (if t.dstVNFid == v then [x] else []);
            Move(cur, t)[v] == if v == t.srcVNFid then RemoveAt(added, t.flowid) else added
  {
    assert cur[v] + [] == cur[v];
  }

  /** One list after the move, when it was what is kept followed by what has arrived. */
  lemma {:induction false} MovedAt<F>(lists: seq<seq<F>>, t: MigrateTuple, l: seq<F>, kept: seq<F>, arrived: seq<F>,
      v: int)
    requires InRange(lists, t) && l == kept + arrived
    requires v == t.srcVNFid ==> t.flowid < |kept|
    ensures var added := l + Arrival(lists, t, v);
            (if v == t.srcVNFid then RemoveAt(added, t.flowid) else added)
            == (if v == t.srcVNFid then RemoveAt(kept, t.flowid) else kept) + (arrived + Arrival(lists, t, v))
  {
    assert l + Arrival(lists, t, v) == kept + (arrived + Arrival(lists, t, v));
    if v == t.srcVNFid {
      RemoveAtFront(kept, arrived + Arrival(lists, t, v), t.flowid);
    }
  }

  lemma {:induction false} RemoveAtFront<F>(a: seq<F>, b: seq<F>, k: int)
    requires 0 <= k < |a|
    ensures RemoveAt(a + b, k) == RemoveAt(a, k) + b
  {
  }

  // ----- What is conserved -----

  /** All flows of all instances. */
  function AllOf<F>(lists: seq<seq<F>>): (m: multiset<F>)
  {
    if lists == [] then multiset{} else multiset(lists[|lists| - 1]) + AllOf(lists[..|lists| - 1])
  }

  function Total<F>(s: seq<F>, rate: F -> real): (r: real)
  {
    if s == [] then 0.0 else Total(s[..|s| - 1], rate) + rate(s[|s| - 1])
  }

  function TotalAll<F>(lists: seq<seq<F>>, rate: F -> real): (r: real)
  {
    if lists == [] then 0.0 else Total(lists[|lists| - 1], rate) + TotalAll(lists[..|lists| - 1], rate)
  }

  lemma {:induction false} AddInFront<F>(m: multiset<F>, a: multiset<F>, x: multiset<F>, b: multiset<F>, y: multiset<F>)
    requires a + x == b + y
    ensures (m + a) + x == (m + b) + y
  {
    assert (m + a) + x == m + (a + x);
    assert (m + b) + y == m + (b + y);
  }

  lemma {:induction false} Cancel<F>(a: multiset<F>, x: multiset<F>, b: multiset<F>)
    requires a + x == b + x
    ensures a == b
  {
    assert a == (a + x) - x;
    assert b == (b + x) - x;
  }

  lemma {:induction false} AllOfUpdate<F>(lists: seq<seq<F>>, v: int, l: seq<F>)
    requires 0 <= v < |lists|
    ensures AllOf(lists[v := l]) + multiset(lists[v]) == AllOf(lists) + multiset(l)
    decreases |lists|
  {
    var last, front := |lists| - 1, lists[..|lists| - 1];
    var updated := lists[v := l];
    if v < last {
      AllOfUpdate(front, v, l);
      assert updated[..last] == front[v := l];
      AddInFront(multiset(lists[last]), AllOf(front[v := l]), multiset(lists[v]), AllOf(front), multiset(l));
    } else {
      assert updated[..last] == front;
      assert AllOf(updated) == multiset(l) + AllOf(front);
    }
  }

  lemma {:induction false} TotalAllUpdate<F>(lists: seq<seq<F>>, v: int, l: seq<F>, rate: F -> real)
    requires 0 <= v < |lists|
    ensures TotalAll(lists[v := l], rate) + Total(lists[v], rate) == TotalAll(lists, rate) + Total(l, rate)
    decreases |lists|
  {
    var last, front := |lists| - 1, lists[..|lists| - 1];
    if v < last {
      TotalAllUpdate(front, v, l, rate);
      assert lists[v := l][..last] == front[v := l];
    } else {
      assert lists[v := l][..last] == front;
    }
  }

  lemma {:induction false} TotalConcat<F>(a: seq<F>, b: seq<F>, rate: F -> real)
    ensures Total(a + b, rate) == Total(a, rate) + Total(b, rate)
    decreases |b|
  {
    if b == [] {
      assert a + b == a;
    } else {
      TotalConcat(a, b[..|b| - 1], rate);
      assert (a + b)[..|a + b| - 1] == a + b[..|b| - 1];
    }
  }

  lemma {:induction false} TotalRemoveAt<F>(s: seq<F>, k: int, rate: F -> real)
    requires 0 <= k < |s|
    ensures Total(RemoveAt(s, k), rate) == Total(s, rate) - rate(s[k])
    ensures multiset(s) == multiset(RemoveAt(s, k)) + multiset{s[k]}
  {
    assert s == s[..k] + ([s[k]] + s[k + 1..]);
    TotalConcat(s[..k], [s[k]] + s[k + 1..], rate);
    TotalConcat([s[k]], s[k + 1..], rate);
    TotalConcat(s[..k], s[k + 1..], rate);
    assert [s[k]][..0] == [];
  }

  lemma {:induction false} AddThenRemove<F>(all: multiset<F>, l: multiset<F>, added: multiset<F>, x: multiset<F>,
      moved: multiset<F>, r: multiset<F>)
    requires added + l == all + (l + x)
    requires moved + (r + x) == added + r
    ensures moved == all
  {
    assert added + l == (all + x) + l;
    Cancel(added, l, all + x);
    assert (moved + x) + r == moved + (r + x);
    Cancel(moved + x, r, added);
    Cancel(moved, x, all);
  }

  lemma {:induction false} MoveConserves<F>(lists: seq<seq<F>>, t: MigrateTuple)
    ensures AllOf(Move(lists, t)) == AllOf(lists)
  {
    if InRange(lists, t) {
      var x, d := lists[t.srcVNFid][t.flowid], t.dstVNFid;
      var added := lists[d := lists[d] + [x]];
      AllOfUpdate(lists, d, lists[d] + [x]);
      var s := added[t.srcVNFid];
      assert s[t.flowid] == x;
      TotalRemoveAt(s, t.flowid, _ => 0.0);
      AllOfUpdate(added, t.srcVNFid, RemoveAt(s, t.flowid));
      AddThenRemove(AllOf(lists), multiset(lists[d]), AllOf(added), multiset{x},
                    AllOf(Move(lists, t)), multiset(RemoveAt(s, t.flowid)));
    }
  }

  lemma {:induction false} MoveKeepsTotal<F>(lists: seq<seq<F>>, t: MigrateTuple, rate: F -> real)
    ensures TotalAll(Move(lists, t), rate) == TotalAll(lists, rate)
  {
    if InRange(lists, t) {
      var x, d := lists[t.srcVNFid][t.flowid], t.dstVNFid;
      var added := lists[d := lists[d] + [x]];
      TotalAllUpdate(lists, d, lists[d] + [x], rate);
      TotalSnoc(lists[d], x, rate);
      var s := added[t.srcVNFid];
      assert s[t.flowid] == x;
      TotalRemoveAt(s, t.flowid, rate);
      TotalAllUpdate(added, t.srcVNFid, RemoveAt(s, t.flowid), rate);
    }
  }

  lemma {:induction false} TotalSnoc<F>(s: seq<F>, x: F, rate: F -> real)
    ensures Total(s + [x], rate) == Total(s, rate) + rate(x)
  {
    assert (s + [x])[..|s|] == s;
  }

  /** No flow is lost or doubled, whatever the tuples are. */
  lemma {:induction false} MoveAllConserves<F>(lists: seq<seq<F>>, ts: seq<MigrateTuple>, i: nat, rate: F -> real)
    ensures AllOf(MoveAll(lists, ts, i)) == AllOf(lists)
    ensures TotalAll(MoveAll(lists, ts, i), rate) == TotalAll(lists, rate)
    decreases |ts| - i
  {
    if i < |ts| {
      MoveAllConserves(lists, ts, i + 1, rate);
      MoveConserves(MoveAll(lists, ts, i + 1), ts[i]);
      MoveKeepsTotal(MoveAll(lists, ts, i + 1), ts[i], rate);
    }
  }

  /** Taking one more position out lowers the total by that element. */
  lemma {:induction false} TotalKept<F>(s: seq<F>, removed: set<int>, k: int, rate: F -> real)
    requires 0 <= k < |s| && k !in removed
    ensures Total(Kept(s, removed + {k}), rate) == Total(Kept(s, removed), rate) - rate(s[k])
    decreases |s|
  {
    var last, front := |s| - 1, s[..|s| - 1];
    if k == last {
      KeptSame(front, removed, removed + {k});
      TotalKeptSnoc(s, removed, rate);
    } else {
      TotalKept(front, removed, k, rate);
      TotalKeptSnoc(s, removed, rate);
      TotalKeptSnoc(s, removed + {k}, rate);
    }
  }

  lemma {:induction false} TotalKeptSnoc<F>(s: seq<F>, removed: set<int>, rate: F -> real)
    requires s != []
    ensures Total(Kept(s, removed), rate)
         == Total(Kept(s[..|s| - 1], removed), rate) + (if |s| - 1 in removed then 0.0 else rate(s[|s| - 1]))
  {
    TotalSnoc(Kept(s[..|s| - 1], removed), s[|s| - 1], rate);
  }

  lemma {:induction false} KeptSame<F>(s: seq<F>, a: set<int>, b: set<int>)
    requires forall i | 0 <= i < |s| :: i in a <==> i in b
    ensures Kept(s, a) == Kept(s, b)
    decreases |s|
  {
    if s != [] {
      KeptSame(s[..|s| - 1], a, b);
    }
  }

  // ----- Plans with one source and one destination -----

  ghost predicate IndicesOf<F>(s: seq<F>, t: seq<int>) {
    forall i | 0 <= i < |t| :: 0 <= t[i] < |s|
  }

  function Tuples(src: int, t: seq<int>, dst: int): (r: seq<MigrateTuple>)
    ensures |r| == |t| && forall i | 0 <= i < |t| :: r[i] == MigrateTuple(src, t[i], dst)
  {
    if t == [] then [] else Tuples(src, t[..|t| - 1], dst) + [MigrateTuple(src, t[|t| - 1], dst)]
  }

  lemma {:induction false} TuplesSnoc(src: int, t: seq<int>, k: int, dst: int)
    ensures Tuples(src, t + [k], dst) == Tuples(src, t, dst) + [MigrateTuple(src, k, dst)]
  {
    assert (t + [k])[..|t|] == t;
  }

  lemma {:induction false} NamedSnoc<F>(lists: seq<seq<F>>, ts: seq<MigrateTuple>, t: MigrateTuple)
    requires Named(lists, ts) && FlowAt(lists, t) && Unnamed(ts, t)
    ensures Named(lists, ts + [t])
  {
    assert (ts + [t])[..|ts|] == ts;
  }

  lemma {:induction false} UnnamedInserted(s: seq<MigrateTuple>, x: MigrateTuple, key: MigrateTuple -> real,
      t: MigrateTuple)
    requires Unnamed(s + [x], t)
    ensures Unnamed(Insert(s, x, key), t)
  {
    if !(s == [] || key(s[|s| - 1]) <= key(x)) {
      var front := s[..|s| - 1];
      assert forall i | 0 <= i < |front| :: (s + [x])[i] == front[i];
      assert (s + [x])[|s|] == x;
      assert (s + [x])[|s| - 1] == s[|s| - 1];
      UnnamedInserted(front, x, key, t);
    }
  }

  lemma {:induction false} InsertNamed<F>(lists: seq<seq<F>>, s: seq<MigrateTuple>, x: MigrateTuple,
      key: MigrateTuple -> real)
    requires Named(lists, s) && FlowAt(lists, x) && Unnamed(s, x)
    ensures Named(lists, Insert(s, x, key))
  {
    if s == [] || key(s[|s| - 1]) <= key(x) {
      NamedSnoc(lists, s, x);
    } else {
      var front, last := s[..|s| - 1], s[|s| - 1];
      InsertNamed(lists, front, x, key);
      UnnamedInserted(front, x, key, last);
      NamedSnoc(lists, Insert(front, x, key), last);
    }
  }

  lemma {:induction false} InsertAimed(s: seq<MigrateTuple>, x: MigrateTuple, key: MigrateTuple -> real, n: int)
    requires Aimed(s, n) && 0 <= x.dstVNFid < n
    ensures Aimed(Insert(s, x, key), n)
  {
    if s == [] || key(s[|s| - 1]) <= key(x) {
      assert (s + [x])[..|s|] == s;
    } else {
      InsertAimed(s[..|s| - 1], x, key, n);
    }
  }

  lemma {:induction false} UnnamedSorted(ts: seq<MigrateTuple>, key: MigrateTuple -> real, t: MigrateTuple)
    requires Unnamed(ts, t)
    ensures Unnamed(SortBy(ts, key), t)
  {
    if ts != [] {
      UnnamedSorted(ts[..|ts| - 1], key, t);
      UnnamedInserted(SortBy(ts[..|ts| - 1], key), ts[|ts| - 1], key, t);
    }
  }

  lemma {:induction false} SortNamed<F>(lists: seq<seq<F>>, ts: seq<MigrateTuple>, key: MigrateTuple -> real)
    requires Named(lists, ts)
    ensures Named(lists, SortBy(ts, key))
  {
    if ts != [] {
      SortNamed(lists, ts[..|ts| - 1], key);
      UnnamedSorted(ts[..|ts| - 1], key, ts[|ts| - 1]);
      InsertNamed(lists, SortBy(ts[..|ts| - 1], key), ts[|ts| - 1], key);
    }
  }

  lemma {:induction false} SortAimed(ts: seq<MigrateTuple>, key: MigrateTuple -> real, n: int)
    requires Aimed(ts, n)
    ensures Aimed(SortBy(ts, key), n)
  {
    if ts != [] {
      SortAimed(ts[..|ts| - 1], key, n);
      InsertAimed(SortBy(ts[..|ts| - 1], key), ts[|ts| - 1], key, n);
    }
  }

  /** Sorting the moves, by any key, keeps them movable. */
  lemma {:induction false} SortMovable<F>(lists: seq<seq<F>>, ts: seq<MigrateTuple>, key: MigrateTuple -> real)
    requires Movable(lists, ts)
    ensures Movable(lists, SortBy(ts, key))
  {
    SortNamed(lists, ts, key);
    SortAimed(ts, key, |lists|);
  }

  /** Moves that take different indices of one list are movable. */
  lemma {:induction false} ChosenMovable<F>(lists: seq<seq<F>>, id: int, t: seq<int>, dst: int)
    requires 0 <= id < |lists| && 0 <= dst < |lists| && Distinct(t) && IndicesOf(lists[id], t)
    ensures Movable(lists, Tuples(id, t, dst))
    decreases |t|
  {
    if t != [] {
      var last, front := t[|t| - 1], t[..|t| - 1];
      ChosenMovable(lists, id, front, dst);
      DistinctAt(t, |t| - 1);
    }
  }
}
