/** Packet threads and the thread that releases a filter's buffer, step by step under their locks. */
module PacketProtocol {
  import opened Basics
  import opened EventFilters
  import opened PacketBuffers
  import opened PacketEvents

  /** Where a thread stands with a packet. Every phase but the first two holds lock_processing_pkt;
      Linking and Linked also hold the buffer lock of filter k. */
  datatype Phase =
    | Idle
    | Wants(pkt: Packet, injected: bool)
    | Inside(pkt: Packet, injected: bool)
    | Queueing(pkt: Packet, k: int)
    | Linking(pkt: Packet, k: int)
    | Linked(k: int)
    | Stopped
    | Passing(pkt: Packet, event: int)

  /** Where the releasing thread stands: at the head of its loop with the buffer lock of filter k, or with
      the lock let go while the head's packet is out, before or after it is handed on. */
  datatype Release = NoRelease | AtHead(k: int) | Out(k: int, pkt: Packet) | Handed(k: int, pkt: Packet)

  /** A packet with the decision taken about it. */
  datatype Decided = Decided(pkt: Packet, injected: bool, verdict: Verdict)

  /** One filter's buffer: what is queued, and what was ever queued, handed on and taken out again. */
  datatype Buffer = Buffer(queue: seq<Packet>, buffered: seq<Packet>, handed: seq<Packet>, released: seq<Packet>,
                           lock: Option<int>)

  datatype State = State(threads: seq<Phase>, release: Release, pktLock: Option<int>, buffers: seq<Buffer>,
                         started: multiset<(Packet, bool)>, done: seq<Decided>, raised: seq<Event>)

  /** The thread that releases buffers. The others take packets on, one of them those that the controller sends
      to be processed again; this one may do so too while it releases nothing. */
  const RELEASER := 0

  /** Arrive carries the injected flag of the thread's context; Decide the stop flag and the event that this
      context holds from before; HandOn whether the packet is processed again, and the injected flag it then has. */
  datatype Action =
    | Arrive(t: int, pkt: Packet, injected: bool) | Lock(t: int) | Decide(t: int, stop: bool, event: int)
    | LockBuffer(t: int) | Link(t: int) | UnlockBuffer(t: int) | Unlock(t: int) | Finish(t: int)
    | StartRelease(k: int) | TakeHead | HandOn(processed: bool, injected: bool) | PopHead | EndRelease

  function VerdictFor(fs: seq<Filter>, pkt: Packet, injected: bool): (v: Verdict)
  {
    var k := FirstMatch(fs, pkt.key);
    if k == |fs| then Pass(0) else Judge(fs[k].action, fs[k].id, pkt, injected)
  }

  /** An action that is none of the three leaves the context as it was, and the packet goes on with it. */
  function Settled(v: Verdict, stop: bool, event: int): (d: Verdict)
  {
    if v.Unset? && !stop then Pass(event) else v
  }

  /** What is decided about a packet under the given context. */
  function Outcome(fs: seq<Filter>, pkt: Packet, injected: bool, stop: bool, event: int): (d: Decided)
  {
    Decided(pkt, injected, Settled(VerdictFor(fs, pkt, injected), stop, event))
  }

  function Events(ids: seq<int>, pkt: Packet): (r: seq<Event>)
  {
    if ids == [] then [] else Events(ids[..|ids| - 1], pkt) + [Event(ids[|ids| - 1], pkt)]
  }

  predicate At(s: State, t: int) {
    0 <= t < |s.threads|
  }

  predicate BufferAt(s: State, k: int) {
    0 <= k < |s.buffers|
  }

  predicate Enabled(fs: seq<Filter>, s: State, a: Action) {
    match a
    case Arrive(t, _, _) => At(s, t) && s.threads[t].Idle? && (t == RELEASER ==> s.release.NoRelease?)
    case Lock(t) => At(s, t) && s.threads[t].Wants? && s.pktLock.None?
    case Decide(t, _, event) => At(s, t) && s.threads[t].Inside? && -128 <= event <= 127
    case LockBuffer(t) =>
      At(s, t) && s.threads[t].Queueing? && BufferAt(s, s.threads[t].k) && s.buffers[s.threads[t].k].lock.None?
    case Link(t) => At(s, t) && s.threads[t].Linking? && BufferAt(s, s.threads[t].k)
    case UnlockBuffer(t) => At(s, t) && s.threads[t].Linked? && BufferAt(s, s.threads[t].k)
    case Unlock(t) => At(s, t) && s.threads[t].Stopped?
    case Finish(t) => At(s, t) && s.threads[t].Passing?
    case StartRelease(k) =>
      && s.release.NoRelease? && At(s, RELEASER) && s.threads[RELEASER].Idle?
      && BufferAt(s, k) && s.buffers[k].lock.None?
    case TakeHead => s.release.AtHead? && BufferAt(s, s.release.k) && s.buffers[s.release.k].queue != []
    case HandOn(_, _) => s.release.Out? && At(s, RELEASER) && s.threads[RELEASER].Idle?
    case PopHead =>
      && s.release.Handed? && At(s, RELEASER) && s.threads[RELEASER].Idle? && BufferAt(s, s.release.k)
      && s.buffers[s.release.k].lock.None? && s.buffers[s.release.k].queue != []
    case EndRelease => s.release.AtHead? && BufferAt(s, s.release.k) && s.buffers[s.release.k].queue == []
  }

  function Put(s: State, t: int, p: Phase): (r: State)
    requires At(s, t)
  {
    s.(threads := s.threads[t := p])
  }

  function PutBuffer(s: State, k: int, b: Buffer): (r: State)
    requires BufferAt(s, k)
  {
    s.(buffers := s.buffers[k := b])
  }

  /** The decision under lock_processing_pkt: a dropped packet raises its event and lets the lock go. */
  function Decision(s: State, t: int, d: Decided, k: int): (r: State)
    requires At(s, t)
  {
    var decided := s.(done := s.done + [d]);
    match d.verdict
    case Pass(e) => Put(decided, t, Passing(d.pkt, e))
    case Queue => Put(decided, t, Queueing(d.pkt, k))
    case Discard(id) => Put(decided, t, Idle).(raised := s.raised + [Event(id, d.pkt)], pktLock := None)
    case Unset => Put(decided, t, Stopped)
  }

  /** The releaser itself processes the packet that it hands on. */
  function Again(s: State, pkt: Packet, injected: bool): (r: State)
    requires At(s, RELEASER)
  {
    Put(s, RELEASER, Wants(pkt, injected)).(started := s.started + multiset{(pkt, injected)})
  }

  function Do(fs: seq<Filter>, s: State, a: Action): (r: State)
    requires Enabled(fs, s, a)
  {
    match a
    case Arrive(t, pkt, injected) =>
      Put(s, t, Wants(pkt, injected)).(started := s.started + multiset{(pkt, injected)})
    case Lock(t) => Put(s, t, Inside(s.threads[t].pkt, s.threads[t].injected)).(pktLock := Some(t))
    case Decide(t, stop, event) =>
      var pkt, injected := s.threads[t].pkt, s.threads[t].injected;
      Decision(s, t, Outcome(fs, pkt, injected, stop, event), FirstMatch(fs, pkt.key))
    case LockBuffer(t) =>
      var k := s.threads[t].k;
      PutBuffer(Put(s, t, Linking(s.threads[t].pkt, k)), k, s.buffers[k].(lock := Some(t)))
    case Link(t) =>
      var k, pkt, b := s.threads[t].k, s.threads[t].pkt, s.buffers[s.threads[t].k];
      PutBuffer(Put(s, t, Linked(k)), k, b.(queue := b.queue + [pkt], buffered := b.buffered + [pkt]))
    case UnlockBuffer(t) =>
      var k := s.threads[t].k;
      PutBuffer(Put(s, t, Stopped), k, s.buffers[k].(lock := None))
    case Unlock(t) => Put(s, t, Idle).(pktLock := None)
    case Finish(t) =>
      var pkt, e := s.threads[t].pkt, s.threads[t].event;
      Put(s, t, Idle).(pktLock := None, raised := s.raised + Events(Raised(Pass(e)), pkt))
    case StartRelease(k) => PutBuffer(s.(release := AtHead(k)), k, s.buffers[k].(lock := Some(RELEASER)))
    case TakeHead =>
      var k, b := s.release.k, s.buffers[s.release.k];
      PutBuffer(s.(release := Out(k, b.queue[0])), k, b.(lock := None))
    case HandOn(processed, injected) =>
      var k, pkt := s.release.k, s.release.pkt;
      var out := s.(release := Handed(k, pkt));
      var b := if BufferAt(s, k) then PutBuffer(out, k, s.buffers[k].(handed := s.buffers[k].handed + [pkt])) else out;
      if processed then Again(b, pkt, injected) else b
    case PopHead =>
      var k, b := s.release.k, s.buffers[s.release.k];
      PutBuffer(s.(release := AtHead(k)), k,
                b.(lock := Some(RELEASER), queue := b.queue[1..], released := b.released + [b.queue[0]]))
    case EndRelease => PutBuffer(s.(release := NoRelease), s.release.k, s.buffers[s.release.k].(lock := None))
  }

  // ----- Invariants -----

  /** The steps of the releasing thread. */
  predicate OfRelease(a: Action) {
    a.StartRelease? || a.TakeHead? || a.HandOn? || a.PopHead? || a.EndRelease?
  }

  predicate HoldsPkt(p: Phase) {
    !p.Idle? && !p.Wants?
  }

  /** lock_processing_pkt is held exactly by the one thread between taking it and letting it go. */
  ghost predicate LockInv(s: State) {
    && (forall t | 0 <= t < |s.threads| && HoldsPkt(s.threads[t]) :: s.pktLock == Some(t))
    && (s.pktLock.Some? ==> At(s, s.pktLock.value) && HoldsPkt(s.threads[s.pktLock.value]))
  }

  lemma {:induction false} LockKept(s: State, t: int, p: Phase, r: State)
    requires LockInv(s) && At(s, t) && r.threads == s.threads[t := p] && r.pktLock == s.pktLock
    requires HoldsPkt(p) == HoldsPkt(s.threads[t])
    ensures LockInv(r)
  {
  }

  lemma {:induction false} LockTaken(s: State, t: int, p: Phase, r: State)
    requires LockInv(s) && At(s, t) && r.threads == s.threads[t := p] && s.pktLock.None? && r.pktLock == Some(t)
    requires HoldsPkt(p)
    ensures LockInv(r)
  {
  }

  lemma {:induction false} LockLeft(s: State, t: int, p: Phase, r: State)
    requires LockInv(s) && At(s, t) && r.threads == s.threads[t := p] && r.pktLock.None?
    requires HoldsPkt(s.threads[t]) && !HoldsPkt(p)
    ensures LockInv(r)
  {
  }

  lemma {:induction false} LockDecision(s: State, t: int, d: Decided, k: int)
    requires LockInv(s) && At(s, t) && s.threads[t].Inside?
    ensures LockInv(Decision(s, t, d, k))
  {
    var r := Decision(s, t, d, k);
    match d.verdict
    case Pass(e) => LockKept(s, t, Passing(d.pkt, e), r);
    case Queue => LockKept(s, t, Queueing(d.pkt, k), r);
    case Discard(_) => LockLeft(s, t, Idle, r);
    case Unset => LockKept(s, t, Stopped, r);
  }

  lemma {:induction false} LockStepRelease(fs: seq<Filter>, s: State, a: Action)
    requires LockInv(s) && Enabled(fs, s, a) && OfRelease(a)
    ensures LockInv(Do(fs, s, a))
  {
    var r := Do(fs, s, a);
    if a.HandOn? && a.processed {
      LockKept(s, RELEASER, Wants(s.release.pkt, a.injected), r);
    } else {
      assert r.threads == s.threads && r.pktLock == s.pktLock;
    }
  }

  lemma {:induction false} LockStep(fs: seq<Filter>, s: State, a: Action)
    requires LockInv(s) && Enabled(fs, s, a)
    ensures LockInv(Do(fs, s, a))
  {
    if OfRelease(a) {
      LockStepRelease(fs, s, a);
    } else if a.Decide? {
      var pkt, injected := s.threads[a.t].pkt, s.threads[a.t].injected;
      LockDecision(s, a.t, Outcome(fs, pkt, injected, a.stop, a.event), FirstMatch(fs, pkt.key));
    } else {
      LockStepThread(fs, s, a);
    }
  }

  lemma {:induction false} LockStepThread(fs: seq<Filter>, s: State, a: Action)
    requires LockInv(s) && Enabled(fs, s, a) && !OfRelease(a) && !a.Decide?
    ensures LockInv(Do(fs, s, a))
  {
    var r := Do(fs, s, a);
    match a
    case Arrive(t, pkt, injected) => LockKept(s, t, Wants(pkt, injected), r);
    case Lock(t) => LockTaken(s, t, Inside(s.threads[t].pkt, s.threads[t].injected), r);
    case LockBuffer(t) => LockKept(s, t, Linking(s.threads[t].pkt, s.threads[t].k), r);
    case Link(t) => LockKept(s, t, Linked(s.threads[t].k), r);
    case UnlockBuffer(t) => LockKept(s, t, Stopped, r);
    case Unlock(t) => LockLeft(s, t, Idle, r);
    case Finish(t) => LockLeft(s, t, Idle, r);
  }

  predicate Holds(p: Phase, k: int) {
    (p.Linking? || p.Linked?) && p.k == k
  }

  /** The lock of a buffer is held exactly by a thread that links a packet into it, or by the releaser at
      the head of its loop; and during a release the releaser works on packets only while one is handed on. */
  ghost predicate BufferInv(s: State) {
    && At(s, RELEASER) && (s.release.AtHead? || s.release.Out? ==> s.threads[RELEASER].Idle?)
    && (forall t | 0 <= t < |s.threads| && (s.threads[t].Queueing? || s.threads[t].Linking? || s.threads[t].Linked?) ::
         BufferAt(s, s.threads[t].k))
    && (forall t | 0 <= t < |s.threads| && (s.threads[t].Linking? || s.threads[t].Linked?) ::
         s.buffers[s.threads[t].k].lock == Some(t))
    && (s.release.AtHead? ==> BufferAt(s, s.release.k) && s.buffers[s.release.k].lock == Some(RELEASER))
    && (forall k | 0 <= k < |s.buffers| && s.buffers[k].lock.Some? ::
         var t := s.buffers[k].lock.value;
         (At(s, t) && Holds(s.threads[t], k)) || (t == RELEASER && s.release == AtHead(k)))
  }

  /** A thread moves on without a buffer lock before or after. */
  lemma {:induction false} MoveWithoutBuffer(s: State, t: int, p: Phase, r: State)
    requires BufferInv(s) && At(s, t)
    requires r.threads == s.threads[t := p] && r.buffers == s.buffers && r.release == s.release
    requires !s.threads[t].Linking? && !s.threads[t].Linked? && !p.Linking? && !p.Linked?
    requires p.Queueing? ==> BufferAt(s, p.k)
    requires t == RELEASER && (s.release.AtHead? || s.release.Out?) ==> p.Idle?
    ensures BufferInv(r)
  {
  }

  lemma {:induction false} DecisionMoves(s: State, t: int, d: Decided, k: int) returns (p: Phase)
    requires At(s, t)
    ensures var r := Decision(s, t, d, k);
      r.threads == s.threads[t := p] && r.started == s.started && r.release == s.release && r.buffers == s.buffers
    ensures !p.Wants? && !p.Inside? && !p.Linking? && !p.Linked? && (p.Queueing? ==> d.verdict.Queue? && p.k == k)
  {
    p := Decision(s, t, d, k).threads[t];
  }

  lemma {:induction false} QueueHasFilter(fs: seq<Filter>, pkt: Packet, injected: bool, stop: bool, event: int)
    requires Outcome(fs, pkt, injected, stop, event).verdict.Queue?
    ensures FirstMatch(fs, pkt.key) < |fs|
  {
  }

  lemma {:induction false} BufferStepIn(fs: seq<Filter>, s: State, a: Action)
    requires BufferInv(s) && LockInv(s) && |s.buffers| == |fs| && Enabled(fs, s, a) && (a.Arrive? || a.Lock?)
    ensures BufferInv(Do(fs, s, a)) && |Do(fs, s, a).buffers| == |fs|
  {
    var r := Do(fs, s, a);
    match a
    case Arrive(t, pkt, injected) => MoveWithoutBuffer(s, t, Wants(pkt, injected), r);
    case Lock(t) => MoveWithoutBuffer(s, t, Inside(s.threads[t].pkt, s.threads[t].injected), r);
  }

  lemma {:induction false} BufferStepDecide(fs: seq<Filter>, s: State, a: Action)
    requires BufferInv(s) && LockInv(s) && |s.buffers| == |fs| && Enabled(fs, s, a) && a.Decide?
    ensures BufferInv(Do(fs, s, a)) && |Do(fs, s, a).buffers| == |fs|
  {
    var pkt, injected := s.threads[a.t].pkt, s.threads[a.t].injected;
    var d := Outcome(fs, pkt, injected, a.stop, a.event);
    var p := DecisionMoves(s, a.t, d, FirstMatch(fs, pkt.key));
    if p.Queueing? {
      QueueHasFilter(fs, pkt, injected, a.stop, a.event);
    }
    MoveWithoutBuffer(s, a.t, p, Do(fs, s, a));
  }

  lemma {:induction false} BufferStepOut(fs: seq<Filter>, s: State, a: Action)
    requires BufferInv(s) && LockInv(s) && |s.buffers| == |fs| && Enabled(fs, s, a) && (a.Unlock? || a.Finish?)
    ensures BufferInv(Do(fs, s, a)) && |Do(fs, s, a).buffers| == |fs|
  {
    MoveWithoutBuffer(s, a.t, Idle, Do(fs, s, a));
  }

  lemma {:induction false} BufferStepLink(fs: seq<Filter>, s: State, a: Action)
    requires BufferInv(s) && LockInv(s) && |s.buffers| == |fs| && Enabled(fs, s, a) && (a.Link? || a.LockBuffer?)
    ensures BufferInv(Do(fs, s, a)) && |Do(fs, s, a).buffers| == |fs|
  {
    var t := a.t;
    var pkt, k, b := s.threads[t].pkt, s.threads[t].k, s.buffers[s.threads[t].k];
    match a
    case LockBuffer(_) => TakesBuffer(s, t, Linking(pkt, k), k, b.(lock := Some(t)), Do(fs, s, a));
    case Link(_) =>
      TakesBuffer(s, t, Linked(k), k, b.(queue := b.queue + [pkt], buffered := b.buffered + [pkt]), Do(fs, s, a));
  }

  /** A thread has the lock of buffer k from now on, and had it before or nobody did. */
  lemma {:induction false} TakesBuffer(s: State, t: int, p: Phase, k: int, b: Buffer, r: State)
    requires BufferInv(s) && At(s, t) && BufferAt(s, k) && r.release == s.release
    requires r.threads == s.threads[t := p] && r.buffers == s.buffers[k := b]
    requires Holds(p, k) && b.lock == Some(t) && (s.buffers[k].lock.None? || Holds(s.threads[t], k))
    requires !s.threads[t].Idle? && (Holds(s.threads[t], k) || !(s.threads[t].Linking? || s.threads[t].Linked?))
    ensures BufferInv(r)
  {
  }

  lemma {:induction false} BufferStepUnlink(fs: seq<Filter>, s: State, a: Action)
    requires BufferInv(s) && LockInv(s) && |s.buffers| == |fs| && Enabled(fs, s, a) && a.UnlockBuffer?
    ensures BufferInv(Do(fs, s, a)) && |Do(fs, s, a).buffers| == |fs|
  {
  }

  lemma {:induction false} BufferStepHead(fs: seq<Filter>, s: State, a: Action)
    requires BufferInv(s) && LockInv(s) && |s.buffers| == |fs| && Enabled(fs, s, a)
    requires a.StartRelease? || a.TakeHead? || a.EndRelease?
    ensures BufferInv(Do(fs, s, a)) && |Do(fs, s, a).buffers| == |fs|
  {
  }

  lemma {:induction false} BufferStepHand(fs: seq<Filter>, s: State, a: Action)
    requires BufferInv(s) && LockInv(s) && |s.buffers| == |fs| && Enabled(fs, s, a) && a.HandOn?
    ensures BufferInv(Do(fs, s, a)) && |Do(fs, s, a).buffers| == |fs|
  {
    HandKeepsLocks(s, if a.processed then Wants(s.release.pkt, a.injected) else Idle, Do(fs, s, a));
  }

  /** The releaser has handed a packet on, and no lock has changed hands. */
  lemma {:induction false} HandKeepsLocks(s: State, p: Phase, r: State)
    requires BufferInv(s) && s.release.Out? && r.release.Handed? && (p.Wants? || p.Idle?)
    requires r.threads == s.threads[RELEASER := p] && |r.buffers| == |s.buffers|
    requires forall k | 0 <= k < |s.buffers| :: r.buffers[k].lock == s.buffers[k].lock
    ensures BufferInv(r)
  {
  }

  lemma {:induction false} BufferStepPop(fs: seq<Filter>, s: State, a: Action)
    requires BufferInv(s) && LockInv(s) && |s.buffers| == |fs| && Enabled(fs, s, a) && a.PopHead?
    ensures BufferInv(Do(fs, s, a)) && |Do(fs, s, a).buffers| == |fs|
  {
  }

  lemma {:induction false} BufferStep(fs: seq<Filter>, s: State, a: Action)
    requires BufferInv(s) && LockInv(s) && |s.buffers| == |fs| && Enabled(fs, s, a)
    ensures BufferInv(Do(fs, s, a)) && |Do(fs, s, a).buffers| == |fs|
  {
    if a.Arrive? || a.Lock? {
      BufferStepIn(fs, s, a);
    } else if a.Decide? {
      BufferStepDecide(fs, s, a);
    } else if a.LockBuffer? || a.Link? {
      BufferStepLink(fs, s, a);
    } else if a.UnlockBuffer? {
      BufferStepUnlink(fs, s, a);
    } else if a.Unlock? || a.Finish? {
      BufferStepOut(fs, s, a);
    } else if a.HandOn? {
      BufferStepHand(fs, s, a);
    } else if a.PopHead? {
      BufferStepPop(fs, s, a);
    } else {
      BufferStepHead(fs, s, a);
    }
  }

  /** What was handed on, and the one packet that is out but not taken out of the queue yet. */
  predicate FirstInFirstOut(b: Buffer, r: Release, k: int) {
    && b.released + b.queue == b.buffered
    && (r.Out? && r.k == k ==> b.queue != [] && b.queue[0] == r.pkt)
    && (r.Handed? && r.k == k ==> b.queue != [] && b.queue[0] == r.pkt && b.handed == b.released + [r.pkt])
    && (!(r.Handed? && r.k == k) ==> b.handed == b.released)
  }

  ghost predicate QueueInv(s: State) {
    && (s.release.NoRelease? || BufferAt(s, s.release.k))
    && forall k | 0 <= k < |s.buffers| :: FirstInFirstOut(s.buffers[k], s.release, k)
  }

  lemma {:induction false} QueueStepPacket(fs: seq<Filter>, s: State, a: Action)
    requires QueueInv(s) && BufferInv(s) && |s.buffers| == |fs| && Enabled(fs, s, a)
    requires !OfRelease(a) && !a.Link?
    ensures QueueInv(Do(fs, s, a))
  {
  }

  lemma {:induction false} QueueStepLink(fs: seq<Filter>, s: State, a: Action)
    requires QueueInv(s) && BufferInv(s) && |s.buffers| == |fs| && Enabled(fs, s, a) && a.Link?
    ensures QueueInv(Do(fs, s, a))
  {
  }

  lemma {:induction false} QueueStepRelease(fs: seq<Filter>, s: State, a: Action)
    requires QueueInv(s) && BufferInv(s) && |s.buffers| == |fs| && Enabled(fs, s, a)
    requires OfRelease(a)
    ensures QueueInv(Do(fs, s, a))
  {
  }

  lemma {:induction false} QueueStep(fs: seq<Filter>, s: State, a: Action)
    requires QueueInv(s) && BufferInv(s) && |s.buffers| == |fs| && Enabled(fs, s, a)
    ensures QueueInv(Do(fs, s, a))
  {
    if OfRelease(a) {
      QueueStepRelease(fs, s, a);
    } else if a.Link? {
      QueueStepLink(fs, s, a);
    } else {
      QueueStepPacket(fs, s, a);
    }
  }

  // ----- Decisions and events -----

  /** The events of all decisions, in the order in which they were taken. */
  function EventsOf(done: seq<Decided>): (r: seq<Event>)
  {
    if done == [] then []
    else EventsOf(done[..|done| - 1]) + Events(Raised(done[|done| - 1].verdict), done[|done| - 1].pkt)
  }

  /** The packets that the decisions send to filter k. */
  function QueuedFor(fs: seq<Filter>, done: seq<Decided>, k: int): (r: seq<Packet>)
  {
    if done == [] then []
    else
      var d := done[|done| - 1];
      QueuedFor(fs, done[..|done| - 1], k)
      + if d.verdict.Queue? && FirstMatch(fs, d.pkt.key) == k then [d.pkt] else []
  }

  /** The event that waits for the end of processing. */
  function PendingEvent(s: State): (r: seq<Event>)
  {
    if s.pktLock.Some? && At(s, s.pktLock.value) && s.threads[s.pktLock.value].Passing? then
      Events(Raised(Pass(s.threads[s.pktLock.value].event)), s.threads[s.pktLock.value].pkt)
    else []
  }

  /** The packet that is decided but not linked into buffer k yet. */
  function PendingPacket(s: State, k: int): (r: seq<Packet>)
  {
    if s.pktLock.Some? && At(s, s.pktLock.value)
       && (s.threads[s.pktLock.value].Queueing? || s.threads[s.pktLock.value].Linking?)
       && s.threads[s.pktLock.value].k == k
    then [s.threads[s.pktLock.value].pkt]
    else []
  }

  /** The decision is the one called for; for an action that is none of the three it is what the context held. */
  predicate CalledFor(fs: seq<Filter>, d: Decided) {
    var v := VerdictFor(fs, d.pkt, d.injected);
    d.verdict == v || (v.Unset? && d.verdict.Pass? && -128 <= d.verdict.event <= 127)
  }

  /** Each decision is the one the filters call for, and raises its events once: now or at the end of
      the processing that is under way. */
  ghost predicate EventInv(fs: seq<Filter>, s: State) {
    && (forall i | 0 <= i < |s.done| :: CalledFor(fs, s.done[i]))
    && s.raised + PendingEvent(s) == EventsOf(s.done)
  }

  /** Each packet that is to be queued is queued once, in the order of the decisions. */
  ghost predicate ArrivalInv(fs: seq<Filter>, s: State) {
    |s.buffers| == |fs|
    && forall k | 0 <= k < |s.buffers| :: s.buffers[k].buffered + PendingPacket(s, k) == QueuedFor(fs, s.done, k)
  }

  lemma {:induction false} DecideOnce(fs: seq<Filter>, done: seq<Decided>, d: Decided, k: int)
    ensures EventsOf(done + [d]) == EventsOf(done) + Events(Raised(d.verdict), d.pkt)
    ensures QueuedFor(fs, done + [d], k)
         == QueuedFor(fs, done, k) + if d.verdict.Queue? && FirstMatch(fs, d.pkt.key) == k then [d.pkt] else []
  {
    assert (done + [d])[..|done|] == done;
  }

  lemma {:induction false} NoEvent(pkt: Packet)
    ensures Events([], pkt) == []
    ensures forall id :: Events([id], pkt) == [Event(id, pkt)]
  {
    forall id ensures Events([id], pkt) == [Event(id, pkt)] {
      assert [id][..0] == [];
    }
  }

  lemma {:induction false} DecisionRaises(s: State, t: int, d: Decided, k: int)
    requires LockInv(s) && At(s, t) && s.threads[t].Inside?
    ensures var r := Decision(s, t, d, k);
      PendingEvent(s) == [] && r.done == s.done + [d]
      && r.raised + PendingEvent(r) == s.raised + Events(Raised(d.verdict), d.pkt)
  {
    var r := Decision(s, t, d, k);
    NoEvent(d.pkt);
    match d.verdict
    case Pass(e) => assert PendingEvent(r) == Events(Raised(d.verdict), d.pkt);
    case Discard(id) => assert r.raised == s.raised + Events(Raised(d.verdict), d.pkt);
    case Queue => assert PendingEvent(r) == [];
    case Unset => assert PendingEvent(r) == [];
  }

  lemma {:induction false} EventStepDecide(fs: seq<Filter>, s: State, a: Action)
    requires EventInv(fs, s) && LockInv(s) && Enabled(fs, s, a) && a.Decide?
    ensures EventInv(fs, Do(fs, s, a))
  {
    var pkt, injected := s.threads[a.t].pkt, s.threads[a.t].injected;
    var d := Outcome(fs, pkt, injected, a.stop, a.event);
    DecisionRaises(s, a.t, d, FirstMatch(fs, pkt.key));
    DecideOnce(fs, s.done, d, 0);
    assert CalledFor(fs, d);
  }

  lemma {:induction false} EventStepFinish(fs: seq<Filter>, s: State, a: Action)
    requires EventInv(fs, s) && LockInv(s) && Enabled(fs, s, a) && a.Finish?
    ensures EventInv(fs, Do(fs, s, a))
  {
    assert s.pktLock == Some(a.t);
    assert Do(fs, s, a).raised == s.raised + PendingEvent(s);
    assert PendingEvent(Do(fs, s, a)) == [];
  }

  lemma {:induction false} EventStepOther(fs: seq<Filter>, s: State, a: Action)
    requires EventInv(fs, s) && LockInv(s) && Enabled(fs, s, a) && !a.Finish? && !a.Decide?
    ensures EventInv(fs, Do(fs, s, a))
  {
    var r := Do(fs, s, a);
    assert r.raised == s.raised && r.done == s.done;
    PendingEventKept(fs, s, a);
  }

  lemma {:induction false} PendingEventKept(fs: seq<Filter>, s: State, a: Action)
    requires LockInv(s) && Enabled(fs, s, a) && !a.Finish? && !a.Decide?
    ensures PendingEvent(Do(fs, s, a)) == PendingEvent(s)
  {
  }

  lemma {:induction false} EventStep(fs: seq<Filter>, s: State, a: Action)
    requires EventInv(fs, s) && LockInv(s) && Enabled(fs, s, a)
    ensures EventInv(fs, Do(fs, s, a))
  {
    if a.Decide? {
      EventStepDecide(fs, s, a);
    } else if a.Finish? {
      EventStepFinish(fs, s, a);
    } else {
      EventStepOther(fs, s, a);
    }
  }

  lemma {:induction false} DecisionPending(s: State, t: int, d: Decided, at: int, k: int)
    requires LockInv(s) && At(s, t) && s.threads[t].Inside?
    ensures var r := Decision(s, t, d, at);
      PendingPacket(s, k) == [] && r.done == s.done + [d] && r.buffers == s.buffers
      && PendingPacket(r, k) == if d.verdict.Queue? && at == k then [d.pkt] else []
  {
  }

  lemma {:induction false} ArrivalStepDecide(fs: seq<Filter>, s: State, a: Action, k: int)
    requires LockInv(s) && Enabled(fs, s, a) && a.Decide? && 0 <= k < |s.buffers|
    requires s.buffers[k].buffered + PendingPacket(s, k) == QueuedFor(fs, s.done, k)
    ensures var r := Do(fs, s, a);
      r.buffers == s.buffers && s.buffers[k].buffered + PendingPacket(r, k) == QueuedFor(fs, r.done, k)
  {
    var pkt, injected := s.threads[a.t].pkt, s.threads[a.t].injected;
    var d := Outcome(fs, pkt, injected, a.stop, a.event);
    DecisionPending(s, a.t, d, FirstMatch(fs, pkt.key), k);
    DecideOnce(fs, s.done, d, k);
    assert s.buffers[k].buffered == QueuedFor(fs, s.done, k);
  }

  lemma {:induction false} ArrivalStepLink(fs: seq<Filter>, s: State, a: Action, k: int)
    requires LockInv(s) && Enabled(fs, s, a) && a.Link? && 0 <= k < |s.buffers| == |fs|
    requires s.buffers[k].buffered + PendingPacket(s, k) == QueuedFor(fs, s.done, k)
    ensures Do(fs, s, a).buffers[k].buffered + PendingPacket(Do(fs, s, a), k) == QueuedFor(fs, Do(fs, s, a).done, k)
  {
    assert s.pktLock == Some(a.t);
    assert PendingPacket(Do(fs, s, a), k) == [];
  }

  lemma {:induction false} ArrivalStepThread(fs: seq<Filter>, s: State, a: Action, k: int)
    requires LockInv(s) && Enabled(fs, s, a) && !OfRelease(a) && !a.Decide? && !a.Link? && 0 <= k < |s.buffers|
    ensures |Do(fs, s, a).buffers| == |s.buffers| && Do(fs, s, a).buffers[k].buffered == s.buffers[k].buffered
    ensures PendingPacket(Do(fs, s, a), k) == PendingPacket(s, k) && Do(fs, s, a).done == s.done
  {
  }

  lemma {:induction false} ArrivalStepRelease(fs: seq<Filter>, s: State, a: Action, k: int)
    requires LockInv(s) && Enabled(fs, s, a) && OfRelease(a) && 0 <= k < |s.buffers|
    ensures |Do(fs, s, a).buffers| == |s.buffers| && Do(fs, s, a).buffers[k].buffered == s.buffers[k].buffered
    ensures PendingPacket(Do(fs, s, a), k) == PendingPacket(s, k) && Do(fs, s, a).done == s.done
  {
  }

  lemma {:induction false} ArrivalStep(fs: seq<Filter>, s: State, a: Action)
    requires ArrivalInv(fs, s) && LockInv(s) && Enabled(fs, s, a)
    ensures ArrivalInv(fs, Do(fs, s, a))
  {
    var r := Do(fs, s, a);
    assert |r.buffers| == |s.buffers|;
    forall k | 0 <= k < |s.buffers| ensures r.buffers[k].buffered + PendingPacket(r, k) == QueuedFor(fs, r.done, k) {
      if a.Decide? {
        ArrivalStepDecide(fs, s, a, k);
      } else if a.Link? {
        ArrivalStepLink(fs, s, a, k);
      } else if OfRelease(a) {
        ArrivalStepRelease(fs, s, a, k);
      } else {
        ArrivalStepThread(fs, s, a, k);
      }
    }
  }
}
