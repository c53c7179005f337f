/** A filter's queue of buffered packets, linked from head to tail. */
module PacketBuffers {
  import opened Basics
  import opened PerflowKeys

  /** A packet: its key as built from its headers, the two flag bits of its service field, its bytes. */
  datatype Packet = Packet(key: PerflowKey, doNotBuffer: bool, doNotDrop: bool, bytes: Bytes)

  class BufferedPkt {
    const pkt: Packet
    var next: BufferedPkt?

    constructor (pkt: Packet)
      ensures this.pkt == pkt && next == null
    {
      this.pkt, next := pkt, null;
    }
  }

  /** The packets of a list of entries. */
  function Packets(entries: seq<BufferedPkt>): (r: seq<Packet>)
    ensures |r| == |entries| && forall i | 0 <= i < |r| :: r[i] == entries[i].pkt
  {
    if entries == [] then [] else Packets(entries[..|entries| - 1]) + [entries[|entries| - 1].pkt]
  }

  /** The next of entry i, if it is not the last, is the one after it. */
  ghost predicate LinkedAt(entries: seq<BufferedPkt>, i: nat)
    reads entries
  {
    i < |entries| - 1 ==> entries[i].next == entries[i + 1]
  }

  /** From index n on, each entry is linked to the one after it. */
  ghost predicate Chain(entries: seq<BufferedPkt>, n: nat)
    reads entries
  {
    forall i: nat | n <= i :: LinkedAt(entries, i)
  }

  lemma {:induction false} ChainGrows(entries: seq<BufferedPkt>, e: BufferedPkt, n: nat)
    requires Chain(entries, n) && (n < |entries| ==> entries[|entries| - 1].next == e)
    ensures Chain(entries + [e], n) && (e !in entries ==> e !in (entries + [e])[..|entries|])
  {
    assert (entries + [e])[..|entries|] == entries;
    forall i: nat | n <= i ensures LinkedAt(entries + [e], i) {
      assert LinkedAt(entries, i);
    }
  }

  lemma {:induction false} PacketsSnoc(entries: seq<BufferedPkt>, e: BufferedPkt)
    ensures Packets(entries + [e]) == Packets(entries) + [e.pkt]
  {
    assert (entries + [e])[..|entries|] == entries;
  }

  /** The queue. Everything ever buffered is in `entries`; the first `released` of it has left again. */
  class PacketBuffer {
    var bufferHead: BufferedPkt?
    var bufferTail: BufferedPkt?
    ghost var entries: seq<BufferedPkt>
    ghost var released: nat
    ghost var repr: set<BufferedPkt>

    /** Head and tail are both null, or the two ends of the chain of what is still queued. */
    ghost predicate Valid()
      reads this, entries
    {
      && released <= |entries| && (entries != [] ==> entries[|entries| - 1] !in entries[..|entries| - 1])
      && bufferHead == (if released == |entries| then null else entries[released])
      && bufferTail == (if released == |entries| then null else entries[|entries| - 1])
      && Chain(entries, released)
      && (released < |entries| ==> entries[|entries| - 1].next == null)
      && (entries != [] ==> entries[|entries| - 1] in repr)
    }

    /** All packets buffered so far. */
    ghost function Buffered(): (r: seq<Packet>)
      reads this
    {
      Packets(entries)
    }

    /** All packets buffered so far, if the chain is whole. */
    ghost function Contents(): (r: Option<seq<Packet>>)
      reads this, entries
      ensures r.Some? <==> Valid()
    {
      if Valid() then Some(Buffered()) else None
    }

    constructor ()
      ensures Valid() && entries == [] && released == 0 && repr == {}
    {
      bufferHead, bufferTail, entries, released, repr := null, null, [], 0, {};
    }

    /** Adds a packet at the tail. */
    method Append(pkt: Packet)
      requires Valid()
      modifies this, repr
      ensures Valid() && fresh(repr - old(repr)) && released == old(released)
      ensures Buffered() == old(Buffered()) + [pkt]
    {
      var entry := new BufferedPkt(pkt);
      ghost var was := entries;
      Link(entry);
      Extend(was, entry);
    }

    /** The entry that is linked already counts as buffered from now on. */
    ghost method Extend(was: seq<BufferedPkt>, e: BufferedPkt)
      requires was == entries && released <= |was| && e !in was && e.next == null
      requires bufferTail == e && bufferHead == if released == |was| then e else was[released]
      requires Chain(was, released) && (released < |was| ==> was[|was| - 1].next == e)
      modifies this`entries, this`repr
      ensures Valid() && repr == old(repr) + {e} && Buffered() == Packets(was) + [e.pkt]
    {
      entries, repr := was + [e], repr + {e};
      Grown(was, e);
    }

    lemma {:induction false} Grown(was: seq<BufferedPkt>, e: BufferedPkt)
      requires released <= |was| && entries == was + [e] && e !in was && e in repr && e.next == null
      requires bufferTail == e && bufferHead == if released == |was| then e else was[released]
      requires Chain(was, released) && (released < |was| ==> was[|was| - 1].next == e)
      ensures Valid() && Buffered() == Packets(was) + [e.pkt]
    {
      PacketsSnoc(was, e);
      ChainGrows(was, e, released);
    }

    /** Makes an entry the tail of the chain. */
    method Link(entry: BufferedPkt)
      requires Valid() && entry !in entries && entry.next == null
      modifies this`bufferHead, this`bufferTail, repr`next
      ensures bufferTail == entry && entry.next == null
      ensures bufferHead == if released == |entries| then entry else entries[released]
      ensures Chain(entries, released) && (released < |entries| ==> entries[|entries| - 1].next == entry)
    {
      if bufferTail == null {
        bufferHead, bufferTail := entry, entry;
      } else {
        bufferTail.next := entry;
        bufferTail := entry;
        forall i: nat | released <= i ensures LinkedAt(entries, i) {
          assert old(LinkedAt(entries, i));
          assert i < |entries| - 1 ==> entries[i] in entries[..|entries| - 1];
        }
      }
    }

    /** Takes out the head entry, when its packet has been handed on. */
    method Pop()
      requires Valid() && released < |entries|
      modifies this
      ensures Valid() && entries == old(entries) && repr == old(repr) && released == old(released) + 1
    {
      assert LinkedAt(entries, released);
      assert Chain(entries, released + 1);
      bufferHead := bufferHead.next;
      if bufferHead == null {
        bufferTail := null;
      }
      released := released + 1;
    }
  }

  // ----- Draining while packets arrive -----

  /** All packets of the first n bursts. */
  function Arrivals(bursts: seq<seq<Packet>>, n: nat): (r: seq<Packet>)
  {
    if n == 0 then [] else Arrivals(bursts, n - 1) + Burst(bursts, n - 1)
  }

  function Burst(bursts: seq<seq<Packet>>, n: nat): (r: seq<Packet>)
  {
    if n < |bursts| then bursts[n] else []
  }

  lemma {:induction false} NextArrivals(all: seq<Packet>, bursts: seq<seq<Packet>>, n: nat)
    ensures all + Arrivals(bursts, n + 1) == all + Arrivals(bursts, n) + Burst(bursts, n)
  {
    assert Arrivals(bursts, n + 1) == Arrivals(bursts, n) + Burst(bursts, n);
  }

  lemma {:induction false} SnocLater<T>(a: seq<T>, b: seq<T>, x: T)
    ensures (a + b) + [x] == a + (b + [x])
  {
  }

  method AppendAll(b: PacketBuffer, burst: seq<Packet>)
    requires b.Valid()
    modifies b, b.repr
    ensures b.Valid() && b.released == old(b.released) && fresh(b.repr - old(b.repr))
    ensures b.Buffered() == old(b.Buffered()) + burst && |b.entries| == |old(b.entries)| + |burst|
  {
    for i := 0 to |burst|
      invariant b.Valid() && b.released == old(b.released) && fresh(b.repr - old(b.repr))
      invariant b.Buffered() == old(b.Buffered()) + burst[..i]
    {
      assert burst[..i + 1] == burst[..i] + [burst[i]];
      b.Append(burst[i]);
    }
    assert burst[..|burst|] == burst;
  }

  lemma {:induction false} RestIs<T>(s: seq<T>, a: seq<T>, b: seq<T>)
    requires s[..|s|] == a + b
    ensures s[|a|..] == b
  {
  }

  /** What has left the queue is `gone` and then `handed`; in all there were `all` and the bursts so far. */
  ghost predicate Drained(b: PacketBuffer, all: seq<Packet>, gone: seq<Packet>, bursts: seq<seq<Packet>>,
      handed: seq<Packet>)
    reads b, b.entries
  {
    && b.Valid() && b.Buffered()[..b.released] == gone + handed
    && b.Buffered() == all + Arrivals(bursts, |handed|)
  }

  lemma {:induction false} OneReleased(buffered: seq<Packet>, all: seq<Packet>, gone: seq<Packet>,
      bursts: seq<seq<Packet>>, handed: seq<Packet>, r: nat)
    requires r < |buffered| && buffered[..r] == gone + handed && buffered == all + Arrivals(bursts, |handed|)
    ensures var now := buffered + Burst(bursts, |handed|);
      now[..r + 1] == gone + (handed + [buffered[r]]) && now == all + Arrivals(bursts, |handed| + 1)
  {
    assert (buffered + Burst(bursts, |handed|))[..r + 1] == buffered[..r] + [buffered[r]];
    SnocLater(gone, handed, buffered[r]);
    NextArrivals(all, bursts, |handed|);
  }

  /** One round of the release: the head's packet is handed on, others arrive, the head is taken out. */
  method Release(b: PacketBuffer, bursts: seq<seq<Packet>>, handed: seq<Packet>, ghost all: seq<Packet>,
      ghost gone: seq<Packet>)
    returns (nowHanded: seq<Packet>)
    requires Drained(b, all, gone, bursts, handed) && b.bufferHead != null
    modifies b, b.repr
    ensures Drained(b, all, gone, bursts, nowHanded) && fresh(b.repr - old(b.repr))
    ensures |nowHanded| == |handed| + 1 && b.released == old(b.released) + 1
    ensures |handed| >= |bursts| ==> |b.entries| == |old(b.entries)|
  {
    ghost var before, burst := b.Buffered(), Burst(bursts, |handed|);
    var pkt := b.bufferHead.pkt;
    AppendAll(b, Burst(bursts, |handed|));
    b.Pop();
    nowHanded := handed + [pkt];
    OneReleased(before, all, gone, bursts, handed, b.released - 1);
  }

  /** The release of a filter's packets. The lock is let go while a packet is handed on; bursts[i] is
      what other threads append while the i-th packet is out. The loop ends with an empty queue, and
      what is handed on is all that was queued or arrived, in order. */
  method Drain(b: PacketBuffer, bursts: seq<seq<Packet>>) returns (handed: seq<Packet>)
    requires b.Valid()
    modifies b, b.repr
    ensures b.Valid() && b.released == |b.entries| && b.bufferHead == b.bufferTail == null
    ensures fresh(b.repr - old(b.repr))
    ensures b.Buffered() == old(b.Buffered()) + Arrivals(bursts, |handed|)
    ensures old(b.released) <= |b.entries| && handed == b.Buffered()[old(b.released)..]
  {
    handed := [];
    ghost var all, gone := b.Buffered(), b.Buffered()[..b.released];
    while b.bufferHead != null
      invariant Drained(b, all, gone, bursts, handed) && fresh(b.repr - old(b.repr))
      decreases if |handed| < |bursts| then |bursts| - |handed| else 0, |b.entries| - b.released
    {
      handed := Release(b, bursts, handed, all, gone);
    }
    RestIs(b.Buffered(), gone, handed);
  }
}
