/** The list of event filters, newest first. */
module EventFilters {
  import opened Basics
  import opened FilterMatching
  import opened PacketBuffers
  import opened PerflowKeys

  const ACTION_DROP := 0
  const ACTION_BUFFER := 1
  const ACTION_PROCESS := 2

  class EventFilter {
    const key: PerflowKey
    const action: int
    const id: int
    const buffer: PacketBuffer
    var next: EventFilter?

    constructor (key: PerflowKey, action: int, id: int, next: EventFilter?)
      ensures this.key == key && this.action == action && this.id == id && this.next == next
      ensures fresh(buffer) && buffer.Valid() && buffer.Buffered() == [] && fresh(buffer.repr)
    {
      this.key, this.action, this.id, this.next := key, action, id, next;
      buffer := new PacketBuffer();
    }
  }

  /** The action an enable message names; for any other text the field keeps what the memory held. */
  function ActionOf(action: string, garbage: int): (a: int)
  {
    if action == "drop" then ACTION_DROP
    else if action == "buffer" then ACTION_BUFFER
    else if action == "process" then ACTION_PROCESS
    else garbage
  }

  /** The first index from i on of a filter with the given key, or the length. */
  function FirstWith(fs: seq<EventFilter>, key: PerflowKey, i: nat := 0): (k: nat)
    requires i <= |fs|
    ensures i <= k <= |fs| && (k < |fs| ==> fs[k].key == key)
    ensures forall j | i <= j < k :: fs[j].key != key
    decreases |fs| - i
  {
    if i == |fs| || fs[i].key == key then i else FirstWith(fs, key, i + 1)
  }

  /** A filter as a value. */
  datatype Filter = Filter(key: PerflowKey, action: int, id: int)

  /** The filters of a list as values, newest first. */
  function Views(list: seq<EventFilter>): (fs: seq<Filter>)
    ensures |fs| == |list| && forall i | 0 <= i < |fs| :: fs[i] == Filter(list[i].key, list[i].action, list[i].id)
  {
    if list == [] then []
    else
      var f := list[|list| - 1];
      Views(list[..|list| - 1]) + [Filter(f.key, f.action, f.id)]
  }

  /** The first index from i on of a filter that matches the packet, or the length. */
  function FirstMatch(fs: seq<Filter>, p: PerflowKey, i: nat := 0): (k: nat)
    requires i <= |fs|
    ensures i <= k <= |fs| && (k < |fs| ==> Matches(fs[k].key, p))
    ensures forall j | i <= j < k :: !Matches(fs[j].key, p)
    decreases |fs| - i
  {
    if i == |fs| || Matches(fs[i].key, p) then i else FirstMatch(fs, p, i + 1)
  }

  /** The filters without the one at k, in the same order. */
  function Without<T>(fs: seq<T>, k: nat): (r: seq<T>)
    requires k <= |fs|
  {
    if k == |fs| then fs else fs[..k] + fs[k + 1..]
  }

  /** The queue is empty: of what was buffered and what arrived since, all from index `gone` on has been
      handed on, in order. */
  ghost predicate Handed(b: PacketBuffer, gone: nat, was: seq<Packet>, bursts: seq<seq<Packet>>, handed: seq<Packet>)
    reads b, b.entries
  {
    var all := was + Arrivals(bursts, |handed|);
    b.Contents() == Some(all) && b.released == |b.entries| && gone <= |all| && handed == all[gone..]
  }

  method Empty(b: PacketBuffer, bursts: seq<seq<Packet>>) returns (handed: seq<Packet>)
    requires b.Valid()
    modifies b, b.repr
    ensures Handed(b, old(b.released), old(b.Buffered()), bursts, handed)
  {
    handed := Drain(b, bursts);
  }

  class FilterList {
    var head: EventFilter?
    ghost var filters: seq<EventFilter>

    ghost predicate Valid()
      reads this, filters
    {
      && head == (if filters == [] then null else filters[0])
      && (forall i | 0 <= i < |filters| - 1 :: filters[i].next == filters[i + 1])
      && (filters != [] ==> filters[|filters| - 1].next == null)
    }

    constructor ()
      ensures Valid() && filters == []
    {
      head, filters := null, [];
    }

    /** The new filter becomes the head of the list. */
    method AddFilter(key: PerflowKey, action: string, id: int, garbage: int) returns (result: int)
      requires Valid()
      modifies this
      ensures Valid() && result == 1 && |filters| == |old(filters)| + 1 && filters[1..] == old(filters)
      ensures fresh(filters[0]) && filters[0].key == key && filters[0].id == id
      ensures filters[0].action == ActionOf(action, garbage)
      ensures fresh(filters[0].buffer) && filters[0].buffer.Valid() && filters[0].buffer.Buffered() == []
    {
      var filter := new EventFilter(key, ActionOf(action, garbage), id, head);
      filters := [filter] + filters;
      head := filter;
      result := 1;
    }

    /** The newest filter with exactly this key. */
    method FindFilter(key: PerflowKey) returns (filter: EventFilter?)
      requires Valid()
      ensures var k := FirstWith(filters, key); filter == if k < |filters| then filters[k] else null
    {
      filter := head;
      ghost var i := 0;
      while filter != null
        invariant i <= |filters| && filter == (if i < |filters| then filters[i] else null)
        invariant FirstWith(filters, key) == FirstWith(filters, key, i)
        decreases |filters| - i
      {
        if filter.key == key {
          break;
        }
        filter := filter.next;
        i := i + 1;
      }
    }

    /** The newest filter that matches the packet. */
    method MatchesFilter(p: PerflowKey) returns (filter: EventFilter?)
      requires Valid() && forall i | 0 <= i < |filters| :: MasksInRange(filters[i].key)
      ensures var k := FirstMatch(Views(filters), p); filter == if k < |filters| then filters[k] else null
    {
      filter := head;
      ghost var i := 0;
      while filter != null
        invariant i <= |filters| && filter == (if i < |filters| then filters[i] else null)
        invariant FirstMatch(Views(filters), p) == FirstMatch(Views(filters), p, i)
        decreases |filters| - i
      {
        var matches := CheckKey(filter.key, p);
        if matches {
          return;
        }
        filter := filter.next;
        i := i + 1;
      }
    }

    /** Takes one node out of the chain. */
    method Unlink(filter: EventFilter, ghost k: nat)
      requires Valid() && k < |filters| && filters[k] == filter
      modifies this, filters`next
      ensures Valid() && filters == Without(old(filters), k)
    {
      StandsOnce(k);
      var prev: EventFilter? := null;
      var curr := head;
      ghost var i := 0;
      while curr != filter
        invariant i <= k && curr == filters[i] && prev == if i == 0 then null else filters[i - 1]
        decreases k - i
      {
        prev := curr;
        curr := curr.next;
        i := i + 1;
      }
      if prev == null {
        head := curr.next;
      } else {
        prev.next := curr.next;
      }
      filters := Without(filters, k);
    }

    /** A node stands at one place of the chain. */
    lemma {:induction false} NodesDiffer(i: nat, j: nat)
      requires Valid() && i < j < |filters|
      ensures filters[i] != filters[j]
      decreases |filters| - j
    {
      assert filters[i].next == filters[i + 1];
      if j < |filters| - 1 {
        NodesDiffer(i + 1, j + 1);
        assert filters[j].next == filters[j + 1];
      }
    }

    ghost predicate OnlyAt(k: nat)
      requires k < |filters|
      reads this
    {
      forall j | 0 <= j < |filters| && j != k :: filters[j] != filters[k]
    }

    lemma {:induction false} StandsOnce(k: nat)
      requires Valid() && k < |filters|
      ensures OnlyAt(k)
    {
      forall j | 0 <= j < |filters| && j != k ensures filters[j] != filters[k] {
        if j < k {
          NodesDiffer(j, k);
        } else {
          NodesDiffer(k, j);
        }
      }
    }

    /** The objects that make up the buffer of the filter at k, if there is one. */
    ghost function Footprint(k: nat): (r: set<object>)
      reads this, if k < |filters| then {filters[k].buffer} else {}
    {
      if k < |filters| then {filters[k].buffer} + filters[k].buffer.repr else {}
    }

    /** Hands on everything the filter buffers and takes the filter out. */
    method ReleaseAt(filter: EventFilter, ghost k: nat, bursts: seq<seq<Packet>>) returns (handed: seq<Packet>)
      requires Valid() && k < |filters| && filters[k] == filter && filter.buffer.Valid()
      modifies this, filters`next, filter.buffer, filter.buffer.repr
      ensures Valid() && filters == Without(old(filters), k)
      ensures Handed(filter.buffer, old(filter.buffer.released), old(filter.buffer.Buffered()), bursts, handed)
    {
      handed := Empty(filter.buffer, bursts);
      Unlink(filter, k);
    }

    /** Releases the packets of the newest filter with this key and takes that filter out. */
    method RemoveFilter(key: PerflowKey, bursts: seq<seq<Packet>>) returns (handed: seq<Packet>)
      requires Valid() && forall i | 0 <= i < |filters| :: filters[i].buffer.Valid()
      modifies this, filters`next, Footprint(FirstWith(filters, key))
      ensures Valid() && filters == Without(old(filters), FirstWith(old(filters), key))
      ensures var k := FirstWith(old(filters), key);
        if k == |old(filters)| then handed == []
        else var b := old(filters)[k].buffer;
             Handed(b, old(b.released), old(b.Buffered()), bursts, handed)
    {
      handed := [];
      var filter := FindFilter(key);
      if filter != null {
        handed := ReleaseAt(filter, FirstWith(filters, key), bursts);
      }
    }
  }

  // ----- The controller's messages -----

  datatype Reply = EventsAck(id: int) | MalformedError(id: int)

  /** An enable message adds a filter for its key; without a key or an action it is refused. */
  method EnableEvents(l: FilterList, key: Option<JsonKey>, action: Option<string>, id: int, garbage: int)
    returns (result: int, reply: Reply)
    requires l.Valid()
    modifies l
    ensures l.Valid()
    ensures key.None? || action.None? ==> result == -1 && reply == MalformedError(id) && l.filters == old(l.filters)
    ensures key.Some? && action.Some? ==>
      && result == 1 && reply == EventsAck(id)
      && |l.filters| == |old(l.filters)| + 1 && l.filters[1..] == old(l.filters)
      && l.filters[0].key == Parsed(key.value) && l.filters[0].id == id
      && l.filters[0].action == ActionOf(action.value, garbage)
      && (action.value == "drop" ==> l.filters[0].action == ACTION_DROP)
      && (action.value == "buffer" ==> l.filters[0].action == ACTION_BUFFER)
      && (action.value == "process" ==> l.filters[0].action == ACTION_PROCESS)
  {
    if key.None? {
      return -1, MalformedError(id);
    }
    var k := ParseKey(key.value);
    if action.None? {
      return -1, MalformedError(id);
    }
    var r := l.AddFilter(k, action.value, id, garbage);
    return 1, EventsAck(id);
  }

  /** A disable message removes the newest filter with its key, and is acknowledged even if there is none. */
  method DisableEvents(l: FilterList, key: Option<JsonKey>, id: int, bursts: seq<seq<Packet>>)
    returns (result: int, reply: Reply)
    requires l.Valid() && forall i | 0 <= i < |l.filters| :: l.filters[i].buffer.Valid()
    modifies l, l.filters`next, if key.None? then {} else l.Footprint(FirstWith(l.filters, Parsed(key.value)))
    ensures l.Valid()
    ensures key.None? ==> result == -1 && reply == MalformedError(id) && l.filters == old(l.filters)
    ensures key.Some? ==>
      && result == 1 && reply == EventsAck(id)
      && l.filters == Without(old(l.filters), FirstWith(old(l.filters), Parsed(key.value)))
  {
    if key.None? {
      return -1, MalformedError(id);
    }
    var k := ParseKey(key.value);
    var handed := l.RemoveFilter(k, bursts);
    return 1, EventsAck(id);
  }

  /** The list is a stack for one key: a disable undoes the newest enable whose sender composed an
      agreeing key, and leaves all other filters as they were. */
  lemma {:induction false} DisableUndoesEnable(fs: seq<EventFilter>, f: EventFilter, enabled: PerflowKey,
      disabled: PerflowKey)
    requires Agree(enabled, disabled) && f.key == Parsed(Composed(enabled))
    ensures Without([f] + fs, FirstWith([f] + fs, Parsed(Composed(disabled)))) == fs
  {
    SameJson(enabled, disabled);
    assert ([f] + fs)[1..] == fs;
  }

  /** Disabling with a key that disagrees with the newest filter's passes that filter by. */
  lemma {:induction false} DisablePasses(fs: seq<EventFilter>, f: EventFilter, enabled: PerflowKey,
      disabled: PerflowKey)
    requires !Agree(enabled, disabled) && f.key == Parsed(Composed(enabled))
    ensures var key := Parsed(Composed(disabled));
      Without([f] + fs, FirstWith([f] + fs, key)) == [f] + Without(fs, FirstWith(fs, key))
  {
    KeysDiffer(enabled, disabled);
    FirstShift(fs, f, Parsed(Composed(disabled)), 0);
    WithoutShift(fs, f, FirstWith(fs, Parsed(Composed(disabled))));
  }

  lemma {:induction false} KeysDiffer(a: PerflowKey, b: PerflowKey)
    requires !Agree(a, b)
    ensures Parsed(Composed(a)) != Parsed(Composed(b))
  {
    ParseComposed(a);
    ParseComposed(b);
    if Parsed(Composed(a)) == Parsed(Composed(b)) {
      AgreeThrough(a, Parsed(Composed(a)), b);
    }
  }

  lemma {:induction false} WithoutShift<T>(fs: seq<T>, f: T, k: nat)
    requires k <= |fs|
    ensures Without([f] + fs, k + 1) == [f] + Without(fs, k)
  {
    if k < |fs| {
      assert ([f] + fs)[..k + 1] == [f] + fs[..k];
      assert ([f] + fs)[k + 2..] == fs[k + 1..];
    }
  }

  lemma {:induction false} AgreeThrough(a: PerflowKey, b: PerflowKey, c: PerflowKey)
    requires Agree(a, b) && Agree(c, b)
    ensures Agree(a, c)
  {
  }

  lemma {:induction false} FirstShift(fs: seq<EventFilter>, f: EventFilter, key: PerflowKey, i: nat)
    requires i <= |fs| && f.key != key
    ensures FirstWith([f] + fs, key, i + 1) == FirstWith(fs, key, i) + 1
    ensures FirstWith([f] + fs, key) == FirstWith([f] + fs, key, 1)
    decreases |fs| - i
  {
    if i < |fs| && fs[i].key != key {
      FirstShift(fs, f, key, i + 1);
    }
  }
}
