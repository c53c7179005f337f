/** What holds in every run of the packet threads. */
module PacketRuns {
  import opened Basics
  import opened EventFilters
  import opened PacketBuffers
  import opened PacketEvents
  import opened PacketProtocol

  // ----- Every packet is decided once -----

  /** A packet, and whether it is taken on as injected. */
  type Arrival = (Packet, bool)

  function Part(p: Phase, x: Arrival): (n: nat)
  {
    if (p.Wants? || p.Inside?) && (p.pkt, p.injected) == x then 1 else 0
  }

  /** How often x is with a thread that has taken it on without a decision so far. */
  function Undecided(threads: seq<Phase>, x: Arrival): (n: nat)
  {
    if threads == [] then 0 else Undecided(threads[..|threads| - 1], x) + Part(threads[|threads| - 1], x)
  }

  function IsFor(d: Decided, x: Arrival): (n: nat)
  {
    if (d.pkt, d.injected) == x then 1 else 0
  }

  /** How often x has been decided about. */
  function DecidedFor(done: seq<Decided>, x: Arrival): (n: nat)
  {
    if done == [] then 0 else DecidedFor(done[..|done| - 1], x) + IsFor(done[|done| - 1], x)
  }

  predicate Counted(s: State, x: Arrival) {
    s.started[x] == DecidedFor(s.done, x) + Undecided(s.threads, x)
  }

  ghost predicate CountInv(s: State) {
    forall x :: Counted(s, x)
  }

  lemma {:induction false} UndecidedUpdate(threads: seq<Phase>, t: nat, p: Phase, x: Arrival)
    requires t < |threads|
    ensures Undecided(threads[t := p], x) + Part(threads[t], x) == Undecided(threads, x) + Part(p, x)
    decreases |threads|
  {
    var last, front := |threads| - 1, threads[..|threads| - 1];
    if t < last {
      UndecidedUpdate(front, t, p, x);
      assert threads[t := p][..last] == front[t := p];
    } else {
      assert threads[t := p][..last] == front;
    }
  }

  lemma {:induction false} DecidedOnce(done: seq<Decided>, d: Decided, x: Arrival)
    ensures DecidedFor(done + [d], x) == DecidedFor(done, x) + IsFor(d, x)
  {
    assert (done + [d])[..|done|] == done;
  }

  lemma {:induction false} CountStepStart(s: State, t: int, pkt: Packet, injected: bool, r: State)
    requires CountInv(s) && At(s, t) && s.threads[t].Idle?
    requires r.threads == s.threads[t := Wants(pkt, injected)] && r.done == s.done
    requires r.started == s.started + multiset{(pkt, injected)}
    ensures CountInv(r)
  {
    forall x ensures Counted(r, x) {
      assert Counted(s, x);
      UndecidedUpdate(s.threads, t, Wants(pkt, injected), x);
    }
  }

  lemma {:induction false} CountStepDecide(s: State, t: int, d: Decided, p: Phase, r: State)
    requires CountInv(s) && At(s, t) && s.threads[t] == Inside(d.pkt, d.injected) && !p.Wants? && !p.Inside?
    requires r.threads == s.threads[t := p] && r.done == s.done + [d] && r.started == s.started
    ensures CountInv(r)
  {
    forall x ensures Counted(r, x) {
      assert Counted(s, x);
      UndecidedUpdate(s.threads, t, p, x);
      DecidedOnce(s.done, d, x);
    }
  }

  lemma {:induction false} CountStepSame(s: State, t: int, p: Phase, r: State)
    requires CountInv(s) && At(s, t) && forall x :: Part(p, x) == Part(s.threads[t], x)
    requires r.threads == s.threads[t := p] && r.done == s.done && r.started == s.started
    ensures CountInv(r)
  {
    forall x ensures Counted(r, x) {
      assert Counted(s, x);
      UndecidedUpdate(s.threads, t, p, x);
    }
  }

  /** Steps that neither take a packet on nor decide about one. */
  predicate Onward(a: Action) {
    a.Lock? || a.LockBuffer? || a.Link? || a.UnlockBuffer? || a.Unlock? || a.Finish?
  }

  lemma {:induction false} OnwardMoves(fs: seq<Filter>, s: State, a: Action) returns (p: Phase)
    requires Enabled(fs, s, a) && Onward(a)
    ensures Do(fs, s, a).threads == s.threads[a.t := p] && forall x :: Part(p, x) == Part(s.threads[a.t], x)
    ensures Do(fs, s, a).done == s.done && Do(fs, s, a).started == s.started
  {
    match a
    case Lock(t) => p := Inside(s.threads[t].pkt, s.threads[t].injected);
    case LockBuffer(t) => p := Linking(s.threads[t].pkt, s.threads[t].k);
    case Link(t) => p := Linked(s.threads[t].k);
    case UnlockBuffer(_) => p := Stopped;
    case _ => p := Idle;
  }

  lemma {:induction false} CountStep(fs: seq<Filter>, s: State, a: Action)
    requires CountInv(s) && Enabled(fs, s, a)
    ensures CountInv(Do(fs, s, a))
  {
    var r := Do(fs, s, a);
    if a.Decide? {
      var pkt, injected := s.threads[a.t].pkt, s.threads[a.t].injected;
      var d := Outcome(fs, pkt, injected, a.stop, a.event);
      var p := DecisionMoves(s, a.t, d, FirstMatch(fs, pkt.key));
      CountStepDecide(s, a.t, d, p, r);
    } else if a.Arrive? {
      CountStepStart(s, a.t, a.pkt, a.injected, r);
    } else if a.HandOn? && a.processed {
      CountStepStart(s, RELEASER, s.release.pkt, a.injected, r);
    } else if Onward(a) {
      var p := OnwardMoves(fs, s, a);
      CountStepSame(s, a.t, p, r);
    } else {
      forall x ensures Counted(r, x) {
        assert Counted(s, x);
      }
    }
  }

  // ----- Runs -----

  ghost predicate Inv(fs: seq<Filter>, s: State) {
    LockInv(s) && BufferInv(s) && QueueInv(s) && EventInv(fs, s) && ArrivalInv(fs, s) && CountInv(s)
  }

  function Idles(n: nat): (r: seq<Phase>)
    ensures |r| == n && forall i | 0 <= i < n :: r[i] == Idle
  {
    if n == 0 then [] else Idles(n - 1) + [Idle]
  }

  function EmptyBuffers(n: nat): (r: seq<Buffer>)
    ensures |r| == n && forall i | 0 <= i < n :: r[i] == Buffer([], [], [], [], None)
  {
    if n == 0 then [] else EmptyBuffers(n - 1) + [Buffer([], [], [], [], None)]
  }

  /** n packet threads and the one that releases buffers, nothing under way. */
  function Start(fs: seq<Filter>, n: nat): (s: State)
  {
    State(Idles(n + 1), NoRelease, None, EmptyBuffers(|fs|), multiset{}, [], [])
  }

  /** The state after the actions in turn; one that is not enabled does nothing. */
  function After(fs: seq<Filter>, n: nat, actions: seq<Action>): (s: State)
  {
    if actions == [] then Start(fs, n)
    else
      var s := After(fs, n, actions[..|actions| - 1]);
      if Enabled(fs, s, actions[|actions| - 1]) then Do(fs, s, actions[|actions| - 1]) else s
  }

  ghost predicate AllIdle(threads: seq<Phase>) {
    forall t | 0 <= t < |threads| :: threads[t].Idle?
  }

  lemma {:induction false} NothingUndecided(threads: seq<Phase>)
    requires AllIdle(threads)
    ensures forall x :: Undecided(threads, x) == 0
    decreases |threads|
  {
    if threads != [] {
      NothingUndecided(threads[..|threads| - 1]);
    }
  }

  lemma {:induction false} StartInv(fs: seq<Filter>, n: nat)
    ensures Inv(fs, Start(fs, n))
  {
    NothingUndecided(Start(fs, n).threads);
  }

  /** Under every interleaving, at every moment of every run. */
  lemma {:induction false} RunInv(fs: seq<Filter>, n: nat, actions: seq<Action>)
    ensures Inv(fs, After(fs, n, actions))
    decreases |actions|
  {
    if actions == [] {
      StartInv(fs, n);
    } else {
      var s, a := After(fs, n, actions[..|actions| - 1]), actions[|actions| - 1];
      RunInv(fs, n, actions[..|actions| - 1]);
      if Enabled(fs, s, a) {
        LockStep(fs, s, a);
        BufferStep(fs, s, a);
        QueueStep(fs, s, a);
        EventStep(fs, s, a);
        ArrivalStep(fs, s, a);
        CountStep(fs, s, a);
      }
    }
  }

  /** Two threads are never both between a preprocess that did not stop and its postprocess, nor both
      inside one. */
  lemma {:induction false} OneInside(fs: seq<Filter>, n: nat, actions: seq<Action>, t: int, u: int)
    requires var s := After(fs, n, actions); At(s, t) && At(s, u) && HoldsPkt(s.threads[t]) && HoldsPkt(s.threads[u])
    ensures t == u
  {
    RunInv(fs, n, actions);
  }

  /** When a release ends, everything buffered at the filter so far has been handed on, in the order in
      which the packets were decided. */
  lemma {:induction false} ReleaseEndsEmpty(fs: seq<Filter>, n: nat, actions: seq<Action>, k: int)
    requires var s := After(fs, n, actions); s.release == AtHead(k) && Enabled(fs, s, EndRelease)
    ensures var s := After(fs, n, actions);
      BufferAt(s, k) && s.buffers[k].queue == [] && s.buffers[k].handed == s.buffers[k].buffered
      && s.buffers[k].handed + PendingPacket(s, k) == QueuedFor(fs, s.done, k)
  {
    RunInv(fs, n, actions);
    var s := After(fs, n, actions);
    assert FirstInFirstOut(s.buffers[k], s.release, k);
  }

  /** At rest, each packet taken on has been decided once, every event called for has been raised once, in
      the order of the decisions, and each packet to be queued has been queued. */
  lemma {:induction false} AtRest(fs: seq<Filter>, n: nat, actions: seq<Action>)
    requires AllIdle(After(fs, n, actions).threads)
    ensures var s := After(fs, n, actions);
      && s.pktLock.None? && (forall x :: s.started[x] == DecidedFor(s.done, x)) && s.raised == EventsOf(s.done)
      && |s.buffers| == |fs| && forall k | 0 <= k < |fs| :: s.buffers[k].buffered == QueuedFor(fs, s.done, k)
  {
    var s := After(fs, n, actions);
    RunInv(fs, n, actions);
    NothingUndecided(s.threads);
    assert PendingEvent(s) == [];
    forall x ensures s.started[x] == DecidedFor(s.done, x) {
      assert Counted(s, x);
    }
    forall k | 0 <= k < |fs| ensures s.buffers[k].buffered == QueuedFor(fs, s.done, k) {
      assert PendingPacket(s, k) == [];
    }
  }

  /** What a decision raises, for the filter that matched: a drop exactly the filter's event; a process, or a
      packet that is exempt, exactly that event if the id fits a positive char, and only then; a packet
      that is queued or was queued before nothing. */
  lemma {:induction false} EventOfDecision(fs: seq<Filter>, n: nat, actions: seq<Action>, i: nat)
    requires i < |After(fs, n, actions).done|
    ensures var d := After(fs, n, actions).done[i];
      var k := FirstMatch(fs, d.pkt.key);
      && (k == |fs| ==> Events(Raised(d.verdict), d.pkt) == [])
      && (k < |fs| && fs[k].action == ACTION_DROP && !d.pkt.doNotDrop ==>
           Events(Raised(d.verdict), d.pkt) == [Event(fs[k].id, d.pkt)])
      && (k < |fs| && Deferred(fs[k].action, d.pkt) ==>
           (Events(Raised(d.verdict), d.pkt) == [Event(fs[k].id, d.pkt)] <==> 1 <= fs[k].id <= 127))
      && (k < |fs| && fs[k].action == ACTION_BUFFER && !d.pkt.doNotBuffer ==> Events(Raised(d.verdict), d.pkt) == [])
  {
    RunInv(fs, n, actions);
    var d := After(fs, n, actions).done[i];
    var k := FirstMatch(fs, d.pkt.key);
    NoEvent(d.pkt);
    if k < |fs| {
      RaisesItsId(fs[k].action, fs[k].id, d.pkt, d.injected);
    }
  }

  // ----- No deadlock -----

  /** The next action of a thread that holds lock_processing_pkt, or of the releaser if that holds the
      buffer lock the thread waits for. */
  lemma {:induction false} HolderMoves(fs: seq<Filter>, s: State, t: int) returns (a: Action)
    requires Inv(fs, s) && At(s, t) && HoldsPkt(s.threads[t])
    ensures Enabled(fs, s, a) && !a.Arrive? && !a.StartRelease? && (a.HandOn? ==> a.injected)
  {
    match s.threads[t]
    case Inside(_, _) => a := Decide(t, true, 0);
    case Linking(_, _) => a := Link(t);
    case Linked(_) => a := UnlockBuffer(t);
    case Stopped => a := Unlock(t);
    case Passing(_, _) => a := Finish(t);
    case Queueing(_, k) =>
      if s.buffers[k].lock.None? {
        a := LockBuffer(t);
      } else if s.buffers[k].queue == [] {
        a := EndRelease;
      } else {
        a := TakeHead;
      }
    case _ =>
  }

  /** Unless everything is at rest, some step other than new work can be taken. */
  lemma {:induction false} NoDeadlock(fs: seq<Filter>, n: nat, actions: seq<Action>) returns (a: Action)
    requires var s := After(fs, n, actions); !s.release.NoRelease? || exists t :: At(s, t) && !s.threads[t].Idle?
    ensures Enabled(fs, After(fs, n, actions), a) && !a.Arrive? && !a.StartRelease? && (a.HandOn? ==> a.injected)
  {
    var s := After(fs, n, actions);
    RunInv(fs, n, actions);
    if s.pktLock.Some? {
      a := HolderMoves(fs, s, s.pktLock.value);
    } else if exists t :: At(s, t) && s.threads[t].Wants? {
      var t :| At(s, t) && s.threads[t].Wants?;
      a := Lock(t);
    } else {
      a := ReleaserMoves(fs, s);
    }
  }

  lemma {:induction false} ReleaserMoves(fs: seq<Filter>, s: State) returns (a: Action)
    requires Inv(fs, s) && !s.release.NoRelease? && AllIdle(s.threads)
    ensures Enabled(fs, s, a) && !a.Arrive? && !a.StartRelease? && (a.HandOn? ==> a.injected)
  {
    var k := s.release.k;
    assert FirstInFirstOut(s.buffers[k], s.release, k);
    match s.release
    case AtHead(_) => a := if s.buffers[k].queue == [] then EndRelease else TakeHead;
    case Out(_, _) => a := HandOn(true, true);
    case Handed(_, _) => a := PopHead;
  }
}
