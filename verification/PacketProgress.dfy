/** When the packet threads and a release come to rest. */
module PacketProgress {
  import opened Basics
  import opened EventFilters
  import opened PacketBuffers
  import opened PacketProtocol
  import opened PacketRuns

  // ----- A measure -----

  /** More than the steps a thread can still take with its packet; a packet that can be queued yet counts for
      its release too. */
  function Weight(p: Phase): (w: nat)
  {
    match p
    case Idle => 0
    case Wants(_, injected) => if injected then 3 else 16
    case Inside(_, injected) => if injected then 2 else 15
    case Queueing(_, _) => 14
    case Linking(_, _) => 13
    case Linked(_) => 2
    case Stopped => 1
    case Passing(_, _) => 1
  }

  function ReleaseWeight(r: Release): (w: nat)
  {
    match r
    case NoRelease => 0
    case AtHead(_) => 6
    case Out(_, _) => 5
    case Handed(_, _) => 1
  }

  function Weights(threads: seq<Phase>): (w: nat)
  {
    if threads == [] then 0 else Weights(threads[..|threads| - 1]) + Weight(threads[|threads| - 1])
  }

  function Queued(buffers: seq<Buffer>): (n: nat)
  {
    if buffers == [] then 0 else Queued(buffers[..|buffers| - 1]) + |buffers[|buffers| - 1].queue|
  }

  function Measure(s: State): (m: nat)
  {
    Weights(s.threads) + 10 * Queued(s.buffers) + ReleaseWeight(s.release)
  }

  lemma {:induction false} WeightsUpdate(threads: seq<Phase>, t: nat, p: Phase)
    requires t < |threads|
    ensures Weights(threads[t := p]) == Weights(threads) - Weight(threads[t]) + Weight(p)
    decreases |threads|
  {
    var last, front := |threads| - 1, threads[..|threads| - 1];
    if t < last {
      WeightsUpdate(front, t, p);
      assert threads[t := p][..last] == front[t := p];
    } else {
      assert threads[t := p][..last] == front;
    }
  }

  lemma {:induction false} QueuedUpdate(buffers: seq<Buffer>, k: nat, b: Buffer)
    requires k < |buffers|
    ensures Queued(buffers[k := b]) == Queued(buffers) - |buffers[k].queue| + |b.queue|
    decreases |buffers|
  {
    var last, front := |buffers| - 1, buffers[..|buffers| - 1];
    if k < last {
      QueuedUpdate(front, k, b);
      assert buffers[k := b][..last] == front[k := b];
    } else {
      assert buffers[k := b][..last] == front;
    }
  }

  // ----- Every step lowers it -----

  /** No new work, and a packet handed on is processed again only as injected. */
  predicate Quiet(a: Action) {
    !a.Arrive? && !a.StartRelease? && (a.HandOn? && a.processed ==> a.injected)
  }

  lemma {:induction false} DecideLowers(fs: seq<Filter>, s: State, a: Action)
    requires Enabled(fs, s, a) && a.Decide?
    ensures Measure(Do(fs, s, a)) < Measure(s)
  {
    var pkt, injected := s.threads[a.t].pkt, s.threads[a.t].injected;
    var d := Outcome(fs, pkt, injected, a.stop, a.event);
    var p := DecisionMoves(s, a.t, d, FirstMatch(fs, pkt.key));
    assert injected ==> !d.verdict.Queue?;
    WeightsUpdate(s.threads, a.t, p);
  }

  lemma {:induction false} OnwardLowers(fs: seq<Filter>, s: State, a: Action)
    requires Enabled(fs, s, a) && (a.Lock? || a.Unlock? || a.Finish?)
    ensures Measure(Do(fs, s, a)) < Measure(s)
  {
    var p := if a.Lock? then Inside(s.threads[a.t].pkt, s.threads[a.t].injected) else Idle;
    WeightsUpdate(s.threads, a.t, p);
  }

  lemma {:induction false} LinkLowers(fs: seq<Filter>, s: State, a: Action)
    requires Enabled(fs, s, a) && (a.LockBuffer? || a.Link? || a.UnlockBuffer?)
    ensures Measure(Do(fs, s, a)) < Measure(s)
  {
    var r, k := Do(fs, s, a), s.threads[a.t].k;
    WeightsUpdate(s.threads, a.t, r.threads[a.t]);
    QueuedUpdate(s.buffers, k, r.buffers[k]);
  }

  lemma {:induction false} HandLowers(fs: seq<Filter>, s: State, a: Action)
    requires Enabled(fs, s, a) && a.HandOn? && Quiet(a)
    ensures Measure(Do(fs, s, a)) < Measure(s)
  {
    var k, pkt := s.release.k, s.release.pkt;
    if BufferAt(s, k) {
      QueuedUpdate(s.buffers, k, s.buffers[k].(handed := s.buffers[k].handed + [pkt]));
    }
    if a.processed {
      WeightsUpdate(s.threads, RELEASER, Wants(pkt, a.injected));
    }
  }

  lemma {:induction false} ReleaseLowers(fs: seq<Filter>, s: State, a: Action)
    requires Enabled(fs, s, a) && (a.TakeHead? || a.PopHead? || a.EndRelease?)
    ensures Measure(Do(fs, s, a)) < Measure(s)
  {
    var r, k := Do(fs, s, a), s.release.k;
    QueuedUpdate(s.buffers, k, r.buffers[k]);
  }

  lemma {:induction false} StepLowers(fs: seq<Filter>, s: State, a: Action)
    requires Enabled(fs, s, a) && Quiet(a)
    ensures Measure(Do(fs, s, a)) < Measure(s)
  {
    if a.Decide? {
      DecideLowers(fs, s, a);
    } else if a.Lock? || a.Unlock? || a.Finish? {
      OnwardLowers(fs, s, a);
    } else if a.HandOn? {
      HandLowers(fs, s, a);
    } else if OfRelease(a) {
      ReleaseLowers(fs, s, a);
    } else {
      LinkLowers(fs, s, a);
    }
  }

  // ----- Continuing a run -----

  /** The state after more actions; one that is not enabled does nothing. */
  function From(fs: seq<Filter>, s: State, more: seq<Action>): (r: State)
  {
    if more == [] then s
    else
      var r := From(fs, s, more[..|more| - 1]);
      if Enabled(fs, r, more[|more| - 1]) then Do(fs, r, more[|more| - 1]) else r
  }

  /** Each of the actions is enabled in its turn. */
  predicate Taken(fs: seq<Filter>, s: State, more: seq<Action>) {
    more == []
    || (Taken(fs, s, more[..|more| - 1]) && Enabled(fs, From(fs, s, more[..|more| - 1]), more[|more| - 1]))
  }

  ghost predicate AllQuiet(more: seq<Action>) {
    forall i | 0 <= i < |more| :: Quiet(more[i])
  }

  lemma {:induction false} Next(fs: seq<Filter>, s: State, more: seq<Action>, a: Action)
    requires Taken(fs, s, more) && Enabled(fs, From(fs, s, more), a)
    ensures Taken(fs, s, more + [a]) && From(fs, s, more + [a]) == Do(fs, From(fs, s, more), a)
  {
    assert (more + [a])[..|more|] == more;
  }

  lemma {:induction false} Continued(fs: seq<Filter>, n: nat, actions: seq<Action>, more: seq<Action>)
    ensures After(fs, n, actions + more) == From(fs, After(fs, n, actions), more)
    decreases |more|
  {
    if more == [] {
      assert actions + more == actions;
    } else {
      Continued(fs, n, actions, more[..|more| - 1]);
      assert (actions + more)[..|actions + more| - 1] == actions + more[..|more| - 1];
    }
  }

  /** No run without new work is longer than the measure of its start. */
  lemma {:induction false} QuietEnds(fs: seq<Filter>, s: State, more: seq<Action>)
    requires Taken(fs, s, more) && AllQuiet(more)
    ensures Measure(From(fs, s, more)) + |more| <= Measure(s)
    decreases |more|
  {
    if more != [] {
      var front := more[..|more| - 1];
      QuietEnds(fs, s, front);
      StepLowers(fs, From(fs, s, front), more[|more| - 1]);
    }
  }

  ghost predicate Resting(s: State) {
    AllIdle(s.threads) && s.release.NoRelease?
  }

  /** From every moment of every run, steps without new work lead to rest, and no others can be taken on the
      way for ever: a release ends. */
  lemma {:induction false} ComesToRest(fs: seq<Filter>, n: nat, actions: seq<Action>) returns (more: seq<Action>)
    ensures var s := After(fs, n, actions); Taken(fs, s, more) && AllQuiet(more) && |more| <= Measure(s)
    ensures Resting(After(fs, n, actions + more))
  {
    var s := After(fs, n, actions);
    more := [];
    Continued(fs, n, actions, more);
    while !Resting(From(fs, s, more))
      invariant Taken(fs, s, more) && AllQuiet(more)
      invariant After(fs, n, actions + more) == From(fs, s, more)
      decreases Measure(From(fs, s, more))
    {
      var a := QuietStep(fs, n, actions + more);
      StepLowers(fs, From(fs, s, more), a);
      Next(fs, s, more, a);
      more := more + [a];
      Continued(fs, n, actions, more);
    }
    QuietEnds(fs, s, more);
  }

  lemma {:induction false} QuietStep(fs: seq<Filter>, n: nat, actions: seq<Action>) returns (a: Action)
    requires !Resting(After(fs, n, actions))
    ensures Enabled(fs, After(fs, n, actions), a) && Quiet(a)
  {
    a := NoDeadlock(fs, n, actions);
  }

  // ----- A release that does not end -----

  /** A thread that takes packets on. */
  const PACKETS := 1

  /** One packet arrives and is queued, and a release starts; then, over and over, the packet is handed on, processed
      again as not injected, and queued again before the head is taken out. */
  function TurnAction(k: int, pkt: Packet, i: nat): (a: Action)
    requires i < 17
  {
    match i
    case 0 => Arrive(PACKETS, pkt, false)
    case 1 => Lock(PACKETS)
    case 2 => Decide(PACKETS, true, 0)
    case 3 => LockBuffer(PACKETS)
    case 4 => Link(PACKETS)
    case 5 => UnlockBuffer(PACKETS)
    case 6 => Unlock(PACKETS)
    case 7 => StartRelease(k)
    case 8 => TakeHead
    case 9 => HandOn(true, false)
    case 10 => Lock(RELEASER)
    case 11 => Decide(RELEASER, true, 0)
    case 12 => LockBuffer(RELEASER)
    case 13 => Link(RELEASER)
    case 14 => UnlockBuffer(RELEASER)
    case 15 => Unlock(RELEASER)
    case _ => PopHead
  }

  /** The turn of step m: eight steps up to the release, then rounds of nine. */
  function Turn(m: nat): (i: nat)
    ensures i < 17
  {
    if m < 8 then m else 8 + (m - 8) % 9
  }

  function Rounds(k: int, pkt: Packet, m: nat): (more: seq<Action>)
    ensures |more| == m
  {
    if m == 0 then [] else Rounds(k, pkt, m - 1) + [TurnAction(k, pkt, Turn(m - 1))]
  }

  /** The thread whose turn it is and where it stands, what is queued, and which locks are free. */
  datatype Standing = Standing(t: int, phase: Phase, release: Release, queue: seq<Packet>, free: bool,
                               pktLock: Option<int>)

  /** Where it stands before turn i. */
  function Place(k: int, pkt: Packet, i: nat): (p: Standing)
    requires i < 17
  {
    var out, taken, held := Handed(k, pkt), Some(PACKETS), Some(RELEASER);
    match i
    case 0 => Standing(PACKETS, Idle, NoRelease, [], true, None)
    case 1 => Standing(PACKETS, Wants(pkt, false), NoRelease, [], true, None)
    case 2 => Standing(PACKETS, Inside(pkt, false), NoRelease, [], true, taken)
    case 3 => Standing(PACKETS, Queueing(pkt, k), NoRelease, [], true, taken)
    case 4 => Standing(PACKETS, Linking(pkt, k), NoRelease, [], false, taken)
    case 5 => Standing(PACKETS, Linked(k), NoRelease, [pkt], false, taken)
    case 6 => Standing(PACKETS, Stopped, NoRelease, [pkt], true, taken)
    case 7 => Standing(RELEASER, Idle, NoRelease, [pkt], true, None)
    case 8 => Standing(RELEASER, Idle, AtHead(k), [pkt], false, None)
    case 9 => Standing(RELEASER, Idle, Out(k, pkt), [pkt], true, None)
    case 10 => Standing(RELEASER, Wants(pkt, false), out, [pkt], true, None)
    case 11 => Standing(RELEASER, Inside(pkt, false), out, [pkt], true, held)
    case 12 => Standing(RELEASER, Queueing(pkt, k), out, [pkt], true, held)
    case 13 => Standing(RELEASER, Linking(pkt, k), out, [pkt], false, held)
    case 14 => Standing(RELEASER, Linked(k), out, [pkt, pkt], false, held)
    case 15 => Standing(RELEASER, Stopped, out, [pkt, pkt], true, held)
    case _ => Standing(RELEASER, Idle, out, [pkt, pkt], true, None)
  }

  ghost predicate Stands(s: State, k: int, p: Standing) {
    && At(s, RELEASER) && At(s, p.t) && s.threads[p.t] == p.phase && (p.t != RELEASER ==> s.threads[RELEASER].Idle?)
    && s.release == p.release && s.pktLock == p.pktLock
    && BufferAt(s, k) && s.buffers[k].queue == p.queue && (p.free ==> s.buffers[k].lock.None?)
  }

  /** Filter k buffers the packet. */
  predicate Buffers(fs: seq<Filter>, k: int, pkt: Packet) {
    0 <= k < |fs| && FirstMatch(fs, pkt.key) == k && fs[k].action == ACTION_BUFFER && !pkt.doNotBuffer
  }

  function Following(i: nat): (j: nat)
    requires i < 17
    ensures j < 17
  {
    if i < 16 then i + 1 else 8
  }

  lemma {:induction false} TurnGoes(fs: seq<Filter>, s: State, k: int, pkt: Packet, i: nat)
    requires Buffers(fs, k, pkt) && i < 17 && Stands(s, k, Place(k, pkt, i))
    ensures var a := TurnAction(k, pkt, i);
      Enabled(fs, s, a) && Stands(Do(fs, s, a), k, Place(k, pkt, Following(i)))
  {
    if i < 2 {
      TurnArrives(fs, s, k, pkt, i);
    } else if i == 2 || i == 11 {
      TurnDecides(fs, s, k, pkt, i);
    } else if i == 3 || i == 12 || i == 4 || i == 13 {
      TurnQueues(fs, s, k, pkt, i);
    } else if i == 5 || i == 14 || i == 6 || i == 15 {
      TurnUnlocks(fs, s, k, pkt, i);
    } else if i == 9 || i == 10 {
      TurnHandsOn(fs, s, k, pkt, i);
    } else {
      TurnReleases(fs, s, k, pkt, i);
    }
  }

  lemma {:induction false} TurnArrives(fs: seq<Filter>, s: State, k: int, pkt: Packet, i: nat)
    requires i < 2 && Stands(s, k, Place(k, pkt, i))
    ensures var a := TurnAction(k, pkt, i); Enabled(fs, s, a) && Stands(Do(fs, s, a), k, Place(k, pkt, Following(i)))
  {
  }

  lemma {:induction false} TurnDecides(fs: seq<Filter>, s: State, k: int, pkt: Packet, i: nat)
    requires Buffers(fs, k, pkt) && (i == 2 || i == 11) && Stands(s, k, Place(k, pkt, i))
    ensures var a := TurnAction(k, pkt, i); Enabled(fs, s, a) && Stands(Do(fs, s, a), k, Place(k, pkt, Following(i)))
  {
  }

  lemma {:induction false} TurnQueues(fs: seq<Filter>, s: State, k: int, pkt: Packet, i: nat)
    requires (i == 3 || i == 12 || i == 4 || i == 13) && Stands(s, k, Place(k, pkt, i))
    ensures var a := TurnAction(k, pkt, i); Enabled(fs, s, a) && Stands(Do(fs, s, a), k, Place(k, pkt, Following(i)))
  {
  }

  lemma {:induction false} TurnUnlocks(fs: seq<Filter>, s: State, k: int, pkt: Packet, i: nat)
    requires (i == 5 || i == 14 || i == 6 || i == 15) && Stands(s, k, Place(k, pkt, i))
    ensures var a := TurnAction(k, pkt, i); Enabled(fs, s, a) && Stands(Do(fs, s, a), k, Place(k, pkt, Following(i)))
  {
  }

  lemma {:induction false} TurnReleases(fs: seq<Filter>, s: State, k: int, pkt: Packet, i: nat)
    requires (i == 7 || i == 8 || i == 16) && Stands(s, k, Place(k, pkt, i))
    ensures var a := TurnAction(k, pkt, i); Enabled(fs, s, a) && Stands(Do(fs, s, a), k, Place(k, pkt, Following(i)))
  {
  }

  lemma {:induction false} TurnHandsOn(fs: seq<Filter>, s: State, k: int, pkt: Packet, i: nat)
    requires (i == 9 || i == 10) && Stands(s, k, Place(k, pkt, i))
    ensures var a := TurnAction(k, pkt, i); Enabled(fs, s, a) && Stands(Do(fs, s, a), k, Place(k, pkt, Following(i)))
  {
  }

  lemma {:induction false} GoesOn(fs: seq<Filter>, n: nat, k: int, pkt: Packet, m: nat)
    requires Buffers(fs, k, pkt) && n > 0
    ensures var more := Rounds(k, pkt, m);
      Taken(fs, Start(fs, n), more) && Stands(From(fs, Start(fs, n), more), k, Place(k, pkt, Turn(m)))
  {
    if m > 0 {
      GoesOn(fs, n, k, pkt, m - 1);
      OneTurn(fs, Start(fs, n), Rounds(k, pkt, m - 1), k, pkt, Turn(m - 1));
      TurnFollows(m);
    }
  }

  lemma {:induction false} OneTurn(fs: seq<Filter>, s: State, more: seq<Action>, k: int, pkt: Packet, i: nat)
    requires Buffers(fs, k, pkt) && i < 17 && Taken(fs, s, more) && Stands(From(fs, s, more), k, Place(k, pkt, i))
    ensures var all := more + [TurnAction(k, pkt, i)];
      Taken(fs, s, all) && Stands(From(fs, s, all), k, Place(k, pkt, Following(i)))
  {
    TurnGoes(fs, From(fs, s, more), k, pkt, i);
    Next(fs, s, more, TurnAction(k, pkt, i));
  }

  lemma {:induction false} TurnFollows(m: nat)
    requires m > 0
    ensures Turn(m) == Following(Turn(m - 1))
  {
  }

  /** The release is under way and the packet still queued. */
  ghost predicate Underway(s: State, k: int, pkt: Packet) {
    !s.release.NoRelease? && BufferAt(s, k) && pkt in s.buffers[k].queue
  }

  lemma {:induction false} PlaceUnderway(s: State, k: int, pkt: Packet, i: nat)
    requires 8 <= i < 17 && Stands(s, k, Place(k, pkt, i))
    ensures Underway(s, k, pkt)
  {
  }

  lemma {:induction false} OneArrival(k: int, pkt: Packet, m: nat)
    ensures forall i | 8 <= i < m :: !Rounds(k, pkt, m)[i].Arrive? && !Rounds(k, pkt, m)[i].StartRelease?
  {
    if m > 0 {
      OneArrival(k, pkt, m - 1);
    }
  }

  lemma {:induction false} FromStart(fs: seq<Filter>, n: nat, more: seq<Action>)
    ensures After(fs, n, more) == From(fs, Start(fs, n), more)
  {
    Continued(fs, n, [], more);
    assert [] + more == more;
  }

  /** So when packets are handed on as not injected, one packet and one release make runs of any length in which
      every step is enabled and the release never ends. */
  lemma {:induction false} ReleaseGoesOn(fs: seq<Filter>, n: nat, k: int, pkt: Packet, m: nat)
    requires Buffers(fs, k, pkt) && n > 0 && m >= 8
    ensures Taken(fs, Start(fs, n), Rounds(k, pkt, m)) && Underway(After(fs, n, Rounds(k, pkt, m)), k, pkt)
    ensures forall i | 8 <= i < m :: !Rounds(k, pkt, m)[i].Arrive? && !Rounds(k, pkt, m)[i].StartRelease?
  {
    GoesOn(fs, n, k, pkt, m);
    FromStart(fs, n, Rounds(k, pkt, m));
    PlaceUnderway(From(fs, Start(fs, n), Rounds(k, pkt, m)), k, pkt, Turn(m));
    OneArrival(k, pkt, m);
  }
}
