/** What happens to a packet before and after the network function processes it. */
module PacketEvents {
  import opened Basics
  import opened EventFilters
  import opened FilterMatching
  import opened PacketBuffers

  /** An int stored in a signed char: its low byte, read with a sign. */
  function AsChar(x: int): (c: int)
    ensures -128 <= c <= 127 && (c - x) % 256 == 0
  {
    (x + 128) % 256 - 128
  }

  /** What the code decides about a packet that matches a filter. */
  datatype Verdict = Pass(event: int) | Queue | Discard(id: int) | Unset

  function Judge(action: int, id: int, pkt: Packet, injected: bool): (v: Verdict)
  {
    if action == ACTION_BUFFER then
      if pkt.doNotBuffer then Pass(AsChar(id)) else if injected then Pass(0) else Queue
    else if action == ACTION_DROP then
      if pkt.doNotDrop then Pass(AsChar(id)) else Discard(id)
    else if action == ACTION_PROCESS then Pass(AsChar(id))
    else Unset
  }

  /** The ids raised for a packet, before and after processing together. */
  function Raised(v: Verdict): (ids: seq<int>)
  {
    match v
    case Pass(event) => if event > 0 then [event] else []
    case Discard(id) => [id]
    case Queue => []
    case Unset => []
  }

  /** The packet asks for the event to be raised when processing is done. */
  predicate Deferred(action: int, pkt: Packet) {
    action == ACTION_PROCESS || (action == ACTION_BUFFER && pkt.doNotBuffer) || (action == ACTION_DROP && pkt.doNotDrop)
  }

  /** A dropped packet raises exactly the filter's id; one whose event is put off does exactly when the id
      fits the positive half of a char. */
  lemma {:induction false} RaisesItsId(action: int, id: int, pkt: Packet, injected: bool)
    ensures action == ACTION_DROP && !pkt.doNotDrop ==> Raised(Judge(action, id, pkt, injected)) == [id]
    ensures Deferred(action, pkt) ==> (Raised(Judge(action, id, pkt, injected)) == [id] <==> 1 <= id <= 127)
    ensures action == ACTION_BUFFER && !pkt.doNotBuffer ==> Raised(Judge(action, id, pkt, injected)) == []
  {
    if Deferred(action, pkt) && 1 <= id <= 127 {
      assert AsChar(id) == id;
    }
  }

  /** Beyond 127 the event of an id is put off as another one, or lost. */
  lemma {:induction false} OtherEvents(pkt: Packet, injected: bool)
    ensures Raised(Judge(ACTION_PROCESS, 128, pkt, injected)) == []
    ensures Raised(Judge(ACTION_PROCESS, 300, pkt, injected)) == [44]
  {
    assert AsChar(128) == -128 && AsChar(300) == 44;
  }

  class ProcessContext {
    var injected: int
    var stop: int
    var event: int

    constructor (injected: int)
    {
      this.injected := injected;
    }
  }

  /** The objects that queueing a packet at a filter may write. */
  ghost function Footprint(f: EventFilter?): (r: set<object>)
    reads if f == null then {} else {f.buffer}
  {
    if f == null then {} else {f.buffer} + f.buffer.repr
  }

  /** What is buffered after the verdict. */
  function Buffering(was: seq<Packet>, v: Verdict, pkt: Packet): (r: seq<Packet>)
  {
    if v == Queue then was + [pkt] else was
  }

  datatype Event = Event(id: int, pkt: Packet)

  class EventAgent {
    const list: FilterList
    /** lock_processing_pkt is held. */
    var processing: bool
    var raised: seq<Event>

    constructor ()
      ensures !processing && raised == [] && fresh(list) && list.Valid() && list.filters == []
    {
      processing, raised := false, [];
      list := new FilterList();
    }

    ghost predicate Ready()
      reads this, list, list.filters
    {
      list.Valid() && forall i | 0 <= i < |list.filters| :: MasksInRange(list.filters[i].key)
    }

    /** The newest filter that matches the packet, if any. */
    ghost function Newest(pkt: Packet): (f: EventFilter?)
      reads list
    {
      var k := FirstMatch(Views(list.filters), pkt.key);
      if k == |list.filters| then null else list.filters[k]
    }

    /** The packet is stopped here: the caller is told so, and the lock is let go. */
    predicate StopsHere(context: ProcessContext)
      reads this, context
    {
      context.stop == 1 && context.event == -1 && !processing
    }

    /** The packet goes on to processing under the lock, with this event put off. */
    predicate GoesOn(context: ProcessContext, event: int)
      reads this, context
    {
      context.stop == 0 && context.event == event && processing
    }

    /** Event is the id as far as a signed char holds it. */
    predicate PutOff(event: int, id: int) {
      -128 <= event <= 127 && (event - id) % 256 == 0
    }

    /** The lock stays held exactly if the packet is not stopped here. Without a matching filter the packet
        passes without an event; otherwise the newest filter that matches decides. */
    method Preprocess(pkt: Packet, context: ProcessContext, ghost f: EventFilter?) returns (ghost v: Verdict)
      requires Ready() && !processing && f == Newest(pkt) && (f != null ==> f.buffer.Valid())
      modifies this, context, Footprint(f)
      ensures v == if f == null then Pass(0) else Judge(f.action, f.id, pkt, old(context.injected) != 0)
      ensures processing == (context.stop == 0) && Told(v, context)
      ensures raised == old(raised) + if v.Discard? then [Event(v.id, pkt)] else []
      ensures f != null ==> f.buffer.Contents() == Some(Buffering(old(f.buffer.Buffered()), v, pkt))
      // Without a filter.
      ensures f == null ==> GoesOn(context, 0) && raised == old(raised)
      // A filter that drops.
      ensures f != null && f.action == ACTION_DROP && !pkt.doNotDrop ==>
        StopsHere(context) && raised == old(raised) + [Event(f.id, pkt)]
        && f.buffer.Contents() == Some(old(f.buffer.Buffered()))
      // A filter that buffers.
      ensures f != null && f.action == ACTION_BUFFER && !pkt.doNotBuffer && old(context.injected) == 0 ==>
        StopsHere(context) && raised == old(raised)
        && f.buffer.Contents() == Some(old(f.buffer.Buffered()) + [pkt])
      ensures f != null && f.action == ACTION_BUFFER && !pkt.doNotBuffer && old(context.injected) != 0 ==>
        GoesOn(context, 0) && raised == old(raised) && f.buffer.Contents() == Some(old(f.buffer.Buffered()))
      // A filter that lets pass, or a packet that is exempt.
      ensures f != null && Deferred(f.action, pkt) ==>
        GoesOn(context, context.event) && PutOff(context.event, f.id) && raised == old(raised)
        && f.buffer.Contents() == Some(old(f.buffer.Buffered()))
      // Any other action leaves the context as it was.
      ensures f != null && f.action != ACTION_BUFFER && f.action != ACTION_DROP && f.action != ACTION_PROCESS ==>
        context.stop == old(context.stop) && context.event == old(context.event) && processing == (context.stop == 0)
        && raised == old(raised) && f.buffer.Contents() == Some(old(f.buffer.Buffered()))
    {
      v := Handle(pkt, context, f);
    }

    /** The lock is taken, and let go if the decision is to stop. */
    method Handle(pkt: Packet, context: ProcessContext, ghost f: EventFilter?) returns (ghost v: Verdict)
      requires Ready() && !processing && f == Newest(pkt) && (f != null ==> f.buffer.Valid())
      modifies this, context, Footprint(f)
      ensures v == if f == null then Pass(0) else Judge(f.action, f.id, pkt, old(context.injected) != 0)
      ensures processing == (context.stop == 0) && Told(v, context)
      ensures raised == old(raised) + if v.Discard? then [Event(v.id, pkt)] else []
      ensures f != null ==> f.buffer.Contents() == Some(Buffering(old(f.buffer.Buffered()), v, pkt))
    {
      processing := true;
      var filter := list.MatchesFilter(pkt.key);
      v := Decide(filter, pkt, context);
      if context.stop != 0 {
        processing := false;
      }
    }

    /** The decision about the packet, under the lock. */
    method Decide(filter: EventFilter?, pkt: Packet, context: ProcessContext) returns (ghost v: Verdict)
      requires filter != null ==> filter.buffer.Valid()
      modifies this`raised, context, Footprint(filter)
      ensures v == if filter == null then Pass(0) else Judge(filter.action, filter.id, pkt, old(context.injected) != 0)
      ensures Told(v, context)
      ensures raised == old(raised) + if v.Discard? then [Event(v.id, pkt)] else []
      ensures filter != null ==>
        filter.buffer.Contents() == Some(Buffering(old(filter.buffer.Buffered()), v, pkt))
    {
      if filter == null {
        context.stop, context.event := 0, 0;
        v := Pass(0);
      } else {
        v := Apply(filter, pkt, context);
      }
    }

    /** The action of the matching filter. */
    method Apply(filter: EventFilter, pkt: Packet, context: ProcessContext) returns (ghost v: Verdict)
      requires filter.buffer.Valid()
      modifies this`raised, context, filter.buffer, filter.buffer.repr
      ensures v == Judge(filter.action, filter.id, pkt, old(context.injected) != 0) && Told(v, context)
      ensures raised == old(raised) + if v.Discard? then [Event(v.id, pkt)] else []
      ensures filter.buffer.Contents() == Some(Buffering(old(filter.buffer.Buffered()), v, pkt))
    {
      if filter.action == ACTION_BUFFER {
        v := ApplyBuffer(filter, pkt, context);
      } else {
        v := Judge(filter.action, filter.id, pkt, context.injected != 0);
        if filter.action == ACTION_DROP {
          if pkt.doNotDrop {
            context.stop, context.event := 0, AsChar(filter.id);
          } else {
            raised := raised + [Event(filter.id, pkt)];
            context.stop, context.event := 1, -1;
          }
        } else if filter.action == ACTION_PROCESS {
          context.stop, context.event := 0, AsChar(filter.id);
        }
      }
    }

    method ApplyBuffer(filter: EventFilter, pkt: Packet, context: ProcessContext) returns (ghost v: Verdict)
      requires filter.buffer.Valid() && filter.action == ACTION_BUFFER
      modifies context, filter.buffer, filter.buffer.repr
      ensures v == Judge(filter.action, filter.id, pkt, old(context.injected) != 0) && Told(v, context) && !v.Discard?
      ensures filter.buffer.Contents() == Some(Buffering(old(filter.buffer.Buffered()), v, pkt))
    {
      v := Judge(filter.action, filter.id, pkt, context.injected != 0);
      if pkt.doNotBuffer {
        context.stop, context.event := 0, AsChar(filter.id);
      } else if context.injected != 0 {
        context.stop, context.event := 0, 0;
      } else {
        filter.buffer.Append(pkt);
        context.stop, context.event := 1, -1;
      }
    }

    /** The context as the caller finds it: for an action that is none of the three, as it was. */
    twostate predicate Told(v: Verdict, context: ProcessContext)
      reads context
    {
      && context.injected == old(context.injected)
      && match v
         case Pass(e) => context.stop == 0 && context.event == e
         case Unset => context.stop == old(context.stop) && context.event == old(context.event)
         case _ => context.stop == 1 && context.event == -1
    }

    method Postprocess(pkt: Packet, context: ProcessContext)
      requires processing
      modifies this
      ensures !processing && raised == old(raised) + if context.event > 0 then [Event(context.event, pkt)] else []
    {
      if context.event > 0 {
        raised := raised + [Event(context.event, pkt)];
      }
      processing := false;
    }
  }
}
