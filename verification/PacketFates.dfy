/** What becomes of a packet in every run: under which filters it can pass, and under which it is queued. */
module PacketFates {
  import opened Basics
  import opened EventFilters
  import opened PacketBuffers
  import opened PacketEvents
  import opened PacketProtocol
  import opened PacketRuns

  /** The newest filter that matches the packet drops it, and it is not exempt. */
  predicate DropsIt(fs: seq<Filter>, pkt: Packet) {
    var k := FirstMatch(fs, pkt.key);
    k < |fs| && fs[k].action == ACTION_DROP && !pkt.doNotDrop
  }

  /** The newest filter that matches the packet is k, it buffers, and the packet is not exempt. */
  predicate BuffersIt(fs: seq<Filter>, pkt: Packet, k: int) {
    k == FirstMatch(fs, pkt.key) < |fs| && fs[k].action == ACTION_BUFFER && !pkt.doNotBuffer
  }

  /** A packet that is to be dropped is not on its way to processing, and one on its way into a queue is to be
      buffered there. */
  predicate RightPhase(fs: seq<Filter>, p: Phase) {
    && (p.Passing? ==> !DropsIt(fs, p.pkt))
    && (p.Queueing? || p.Linking? ==> BuffersIt(fs, p.pkt, p.k))
  }

  ghost predicate RightPhases(fs: seq<Filter>, s: State) {
    forall t | 0 <= t < |s.threads| :: RightPhase(fs, s.threads[t])
  }

  /** What a decision does, for each action and exemption. */
  ghost predicate Decides(s: State, r: State, a: Action, pkt: Packet, injected: bool, k: int, filter: Filter) {
    && a.Decide? && At(s, a.t) && At(r, a.t)
    && r.threads == s.threads[a.t := r.threads[a.t]] && r.buffers == s.buffers && r.release == s.release
    && if filter.action == ACTION_DROP && !pkt.doNotDrop then
         r.threads[a.t] == Idle && r.pktLock.None? && r.raised == s.raised + [Event(filter.id, pkt)]
       else
         && r.raised == s.raised && r.pktLock == s.pktLock
         && if filter.action == ACTION_BUFFER && !pkt.doNotBuffer then
              r.threads[a.t] == if injected then Passing(pkt, 0) else Queueing(pkt, k)
            else if filter.action == ACTION_BUFFER || filter.action == ACTION_DROP || filter.action == ACTION_PROCESS
            then
              r.threads[a.t].Passing? && r.threads[a.t].pkt == pkt
              && -128 <= r.threads[a.t].event <= 127 && (r.threads[a.t].event - filter.id) % 256 == 0
            else r.threads[a.t] == if a.stop then Stopped else Passing(pkt, a.event)
  }

  lemma {:induction false} DecidesExactly(fs: seq<Filter>, s: State, a: Action)
    requires Enabled(fs, s, a) && a.Decide?
    ensures var pkt, injected, r := s.threads[a.t].pkt, s.threads[a.t].injected, Do(fs, s, a);
      var k := FirstMatch(fs, pkt.key);
      if k < |fs| then Decides(s, r, a, pkt, injected, k, fs[k])
      else r.threads == s.threads[a.t := Passing(pkt, 0)] && r.raised == s.raised && r.pktLock == s.pktLock
  {
  }

  lemma {:induction false} RightDecision(fs: seq<Filter>, s: State, a: Action)
    requires RightPhases(fs, s) && Enabled(fs, s, a) && a.Decide?
    ensures RightPhases(fs, Do(fs, s, a))
  {
    var pkt, injected := s.threads[a.t].pkt, s.threads[a.t].injected;
    var d := Outcome(fs, pkt, injected, a.stop, a.event);
    var r := Do(fs, s, a);
    assert d.verdict == Settled(VerdictFor(fs, pkt, injected), a.stop, a.event);
    assert r.threads == s.threads[a.t := r.threads[a.t]];
    assert RightPhase(fs, r.threads[a.t]);
  }

  lemma {:induction false} RightOnward(fs: seq<Filter>, s: State, a: Action)
    requires RightPhases(fs, s) && Enabled(fs, s, a) && !a.Decide? && !OfRelease(a)
    ensures RightPhases(fs, Do(fs, s, a))
  {
    var r := Do(fs, s, a);
    assert RightPhase(fs, s.threads[a.t]);
    assert RightPhase(fs, r.threads[a.t]);
    forall t | 0 <= t < |r.threads| ensures RightPhase(fs, r.threads[t]) {
      if t != a.t {
        assert r.threads[t] == s.threads[t];
      }
    }
  }

  lemma {:induction false} RightRelease(fs: seq<Filter>, s: State, a: Action)
    requires RightPhases(fs, s) && Enabled(fs, s, a) && OfRelease(a)
    ensures RightPhases(fs, Do(fs, s, a))
  {
    var r := Do(fs, s, a);
    forall t | 0 <= t < |r.threads| ensures RightPhase(fs, r.threads[t]) {
      assert RightPhase(fs, s.threads[t]);
    }
  }

  lemma {:induction false} PhasesInRun(fs: seq<Filter>, n: nat, actions: seq<Action>)
    ensures RightPhases(fs, After(fs, n, actions))
    decreases |actions|
  {
    if actions != [] {
      var s, a := After(fs, n, actions[..|actions| - 1]), actions[|actions| - 1];
      PhasesInRun(fs, n, actions[..|actions| - 1]);
      if Enabled(fs, s, a) {
        if a.Decide? {
          RightDecision(fs, s, a);
        } else if OfRelease(a) {
          RightRelease(fs, s, a);
        } else {
          RightOnward(fs, s, a);
        }
      }
    }
  }

  /** In no run is a packet processed that a filter drops. */
  lemma {:induction false} NeverPasses(fs: seq<Filter>, n: nat, actions: seq<Action>, t: int)
    requires At(After(fs, n, actions), t) && After(fs, n, actions).threads[t].Passing?
    ensures !DropsIt(fs, After(fs, n, actions).threads[t].pkt)
  {
    PhasesInRun(fs, n, actions);
    assert RightPhase(fs, After(fs, n, actions).threads[t]);
  }

  lemma {:induction false} QueuedIn(fs: seq<Filter>, done: seq<Decided>, k: int, i: nat)
    requires i < |done| && done[i].verdict.Queue? && FirstMatch(fs, done[i].pkt.key) == k
    ensures done[i].pkt in QueuedFor(fs, done, k)
    decreases |done|
  {
    if i < |done| - 1 {
      QueuedIn(fs, done[..|done| - 1], k, i);
    }
  }

  lemma {:induction false} QueuedOnly(fs: seq<Filter>, done: seq<Decided>, k: int, pkt: Packet) returns (i: nat)
    requires pkt in QueuedFor(fs, done, k)
    ensures i < |done| && done[i].verdict.Queue? && FirstMatch(fs, done[i].pkt.key) == k && done[i].pkt == pkt
    decreases |done|
  {
    var front := done[..|done| - 1];
    if pkt in QueuedFor(fs, front, k) {
      i := QueuedOnly(fs, front, k, pkt);
    } else {
      i := |done| - 1;
    }
  }

  /** In every run a packet that a filter buffers, unless it was injected, is in that filter's buffer, or is the one
      on its way there. */
  lemma {:induction false} AlwaysQueued(fs: seq<Filter>, n: nat, actions: seq<Action>, i: nat, k: int)
    requires i < |After(fs, n, actions).done|
    requires var d := After(fs, n, actions).done[i]; BuffersIt(fs, d.pkt, k) && !d.injected
    ensures var s := After(fs, n, actions);
      k < |s.buffers| && (s.done[i].pkt in s.buffers[k].buffered || PendingPacket(s, k) == [s.done[i].pkt])
  {
    var s := After(fs, n, actions);
    RunInv(fs, n, actions);
    assert CalledFor(fs, s.done[i]);
    QueuedIn(fs, s.done, k, i);
    assert s.buffers[k].buffered + PendingPacket(s, k) == QueuedFor(fs, s.done, k);
  }

  /** And nothing else gets there: what is buffered was decided about, as not injected, and is to be buffered. */
  lemma {:induction false} OnlyQueued(fs: seq<Filter>, n: nat, actions: seq<Action>, k: int, pkt: Packet)
    returns (i: nat)
    requires 0 <= k < |After(fs, n, actions).buffers| && pkt in After(fs, n, actions).buffers[k].buffered
    ensures var s := After(fs, n, actions);
      i < |s.done| && s.done[i].pkt == pkt && !s.done[i].injected && BuffersIt(fs, pkt, k)
  {
    var s := After(fs, n, actions);
    RunInv(fs, n, actions);
    assert s.buffers[k].buffered + PendingPacket(s, k) == QueuedFor(fs, s.done, k);
    i := QueuedOnly(fs, s.done, k, pkt);
    assert CalledFor(fs, s.done[i]);
  }
}
