/** Messages on a byte stream: four bytes of length, most significant first, then the text. */
module Framing {
  import opened Basics
  import opened PerflowKeys

  const READ_MAX := 0x4000_0000

  function Htonl(n: int): (r: Bytes)
    requires 0 <= n < READ_MAX
    ensures |r| == 4
  {
    [n / 0x100_0000, n / 0x1_0000 % 0x100, n / 0x100 % 0x100, n % 0x100]
  }

  function Ntohl(b: Bytes): (n: int)
    requires |b| == 4
  {
    b[0] as int * 0x100_0000 + b[1] as int * 0x1_0000 + b[2] as int * 0x100 + b[3] as int
  }

  lemma {:induction false} Quotients(c: nat, x: nat, y: nat, z: nat)
    requires x < 0x100 && y < 0x100 && z < 0x100
    ensures var n := c * 0x100_0000 + x * 0x1_0000 + y * 0x100 + z;
      n / 0x100_0000 == c && n / 0x1_0000 == c * 0x100 + x && n / 0x100 == (c * 0x100 + x) * 0x100 + y
  {
  }

  lemma {:induction false} LengthBack(n: int)
    requires 0 <= n < READ_MAX
    ensures Ntohl(Htonl(n)) == n
  {
    var a := n / 0x100;
    var b := a / 0x100;
    Quotients(b / 0x100, b % 0x100, a % 0x100, n % 0x100);
  }

  /** The most significant byte of a length comes first. */
  lemma {:induction false} NetworkOrder(n: int, b: Bytes)
    requires 0 <= n < READ_MAX && |b| == 4
    ensures b == Htonl(n) <==> n == ((b[0] as int * 256 + b[1]) * 256 + b[2]) * 256 + b[3]
  {
    LengthBack(n);
    if n == ((b[0] as int * 256 + b[1]) * 256 + b[2]) * 256 + b[3] {
      Quotients(b[0], b[1], b[2], b[3]);
      assert b == [b[0], b[1], b[2], b[3]];
    }
  }

  /** A message that the protocol can carry. */
  predicate Sendable(m: Bytes) {
    |m| < READ_MAX
  }

  function Frame(m: Bytes): (r: Bytes)
    requires Sendable(m)
    ensures |r| == 4 + |m|
  {
    Htonl(|m|) + m
  }

  predicate AllSendable(ms: seq<Bytes>) {
    forall i | 0 <= i < |ms| :: Sendable(ms[i])
  }

  /** The frames of the messages from i on. */
  function Frames(ms: seq<Bytes>, i: nat := 0): (r: Bytes)
    requires AllSendable(ms)
    decreases |ms| - i
  {
    if i >= |ms| then [] else Frame(ms[i]) + Frames(ms, i + 1)
  }

  lemma {:induction false} FramesSnoc(ms: seq<Bytes>, m: Bytes, i: nat)
    requires AllSendable(ms) && Sendable(m) && i <= |ms|
    ensures AllSendable(ms + [m]) && Frames(ms + [m], i) == Frames(ms, i) + Frame(m)
    decreases |ms| - i
  {
    if i < |ms| {
      FramesSnoc(ms, m, i + 1);
      assert Frame(ms[i]) + (Frames(ms, i + 1) + Frame(m)) == Frame(ms[i]) + Frames(ms, i + 1) + Frame(m);
    } else {
      assert Frames(ms + [m], i + 1) == [];
      assert Frame(m) + [] == [] + Frame(m);
    }
  }

  ghost predicate NoError(sizes: seq<int>) {
    forall i | 0 <= i < |sizes| :: sizes[i] >= 0
  }

  /** The receiving end. `sizes` says how much each read returns: anything from one byte to all that is
      asked for; a negative size is an error. */
  class Socket {
    var unread: Bytes
    var sizes: seq<int>

    constructor (unread: Bytes, sizes: seq<int>)
      ensures this.unread == unread && this.sizes == sizes
    {
      this.unread, this.sizes := unread, sizes;
    }

    method Read(n: int) returns (result: int, data: Bytes)
      requires 0 < n <= |unread|
      modifies this
      ensures result < 0 ==> unread == old(unread) && !NoError(old(sizes))
      ensures NoError(old(sizes)) ==> NoError(sizes)
      ensures result >= 0 ==> 1 <= result <= n && data == old(unread)[..result] && unread == old(unread)[result..]
    {
      var size := if sizes == [] then n else sizes[|sizes| - 1];
      if sizes != [] {
        sizes := sizes[..|sizes| - 1];
      }
      if size < 0 {
        return -1, [];
      }
      result := if size < 1 then 1 else if size > n then n else size;
      data := unread[..result];
      unread := unread[result..];
    }
  }

  /** Reads until n bytes are there, in whatever pieces they come; no value after a read error. */
  method ReadFully(s: Socket, n: int) returns (buf: Option<Bytes>)
    requires 0 <= n <= |s.unread|
    modifies s
    ensures buf.Some? ==> buf.value == old(s.unread)[..n] && s.unread == old(s.unread)[n..]
    ensures NoError(old(s.sizes)) ==> buf.Some? && NoError(s.sizes)
  {
    var data: Bytes := [];
    var count := 0;
    ghost var all := s.unread;
    while count < n
      invariant 0 <= count <= n && data == all[..count] && s.unread == all[count..]
      invariant NoError(old(s.sizes)) ==> NoError(s.sizes)
    {
      var result, piece := s.Read(n - count);
      if result < 0 {
        return None;
      }
      assert all[..count + result] == all[..count] + all[count..][..result];
      assert all[count..][result..] == all[count + result..];
      data := data + piece;
      count := count + result;
    }
    buf := Some(data);
  }

  /** One message: the length, then as many bytes. */
  method ConnRead(s: Socket, ghost m: Bytes, ghost rest: Bytes) returns (msg: Option<Bytes>)
    requires Sendable(m) && s.unread == Frame(m) + rest
    modifies s
    ensures msg.Some? ==> msg.value == m && s.unread == rest
    ensures NoError(old(s.sizes)) ==> msg.Some? && NoError(s.sizes)
  {
    LengthBack(|m|);
    assert (Frame(m) + rest)[..4] == Htonl(|m|) && (Frame(m) + rest)[4..] == m + rest;
    var lenchars := ReadFully(s, 4);
    if lenchars.None? {
      return None;
    }
    var strlen := Ntohl(lenchars.value);
    assert (m + rest)[..|m|] == m && (m + rest)[|m|..] == rest;
    msg := ReadFully(s, strlen);
  }

  /** Reading until all messages are there or a read fails: what is returned is always the messages sent,
      in order, and the stream is left between two frames. */
  method ReadMessages(s: Socket, ghost ms: seq<Bytes>, n: nat) returns (got: seq<Bytes>)
    requires AllSendable(ms) && n == |ms| && s.unread == Frames(ms)
    modifies s
    ensures got <= ms && (got == ms ==> s.unread == []) && (NoError(old(s.sizes)) ==> got == ms)
  {
    got := [];
    while |got| < n
      invariant |got| <= n && got == ms[..|got|] && s.unread == Frames(ms, |got|)
      invariant NoError(old(s.sizes)) ==> NoError(s.sizes)
      decreases n - |got|
    {
      var msg := ConnRead(s, ms[|got|], Frames(ms, |got| + 1));
      if msg.None? {
        return;
      }
      got := got + [msg.value];
    }
  }

  // ----- The sending end -----

  datatype Writer = Idle | Locked(m: Bytes) | HeaderSent(m: Bytes) | BodySent

  /** Threads that write to one connection, the holder of its lock, what is on the stream, and the messages
      written so far. */
  datatype Sender = Sender(writers: seq<Writer>, lock: Option<int>, stream: Bytes, sent: seq<Bytes>)

  datatype WriteStep = Acquire(t: int, m: Bytes) | WriteHeader(t: int) | WriteBody(t: int) | Release(t: int)

  predicate CanStep(s: Sender, a: WriteStep) {
    0 <= a.t < |s.writers|
    && match a
       case Acquire(t, m) => s.writers[t].Idle? && s.lock.None? && Sendable(m)
       case WriteHeader(t) => s.writers[t].Locked? && Sendable(s.writers[t].m)
       case WriteBody(t) => s.writers[t].HeaderSent?
       case Release(t) => s.writers[t].BodySent?
  }

  function Step(s: Sender, a: WriteStep): (r: Sender)
    requires CanStep(s, a)
  {
    match a
    case Acquire(t, m) => s.(writers := s.writers[t := Locked(m)], lock := Some(t))
    case WriteHeader(t) =>
      s.(writers := s.writers[t := HeaderSent(s.writers[t].m)], stream := s.stream + Htonl(|s.writers[t].m|))
    case WriteBody(t) =>
      s.(writers := s.writers[t := BodySent], stream := s.stream + s.writers[t].m, sent := s.sent + [s.writers[t].m])
    case Release(t) => s.(writers := s.writers[t := Idle], lock := None)
  }

  /** What the lock's holder has put on the stream of a message that is not complete. */
  function Partial(s: Sender): (r: Bytes)
  {
    if s.lock.Some? && 0 <= s.lock.value < |s.writers| && s.writers[s.lock.value].HeaderSent?
       && Sendable(s.writers[s.lock.value].m)
    then Htonl(|s.writers[s.lock.value].m|)
    else []
  }

  ghost predicate SenderInv(s: Sender) {
    && (forall t | 0 <= t < |s.writers| && !s.writers[t].Idle? :: s.lock == Some(t))
    && (forall t | 0 <= t < |s.writers| && s.writers[t].HeaderSent? :: Sendable(s.writers[t].m))
    && AllSendable(s.sent) && s.stream == Frames(s.sent) + Partial(s)
  }

  lemma {:induction false} SenderStep(s: Sender, a: WriteStep)
    requires SenderInv(s) && CanStep(s, a)
    ensures SenderInv(Step(s, a))
  {
    assert !a.Acquire? ==> s.lock == Some(a.t);
    if a.WriteBody? {
      FramesSnoc(s.sent, s.writers[a.t].m, 0);
    }
  }

  function Quiet(n: nat): (r: seq<Writer>)
    ensures |r| == n && forall i | 0 <= i < n :: r[i] == Idle
  {
    if n == 0 then [] else Quiet(n - 1) + [Idle]
  }

  /** n writers after the steps in turn; one that cannot be taken does nothing. */
  function Written(n: nat, steps: seq<WriteStep>): (s: Sender)
  {
    if steps == [] then Sender(Quiet(n), None, [], [])
    else
      var s := Written(n, steps[..|steps| - 1]);
      if CanStep(s, steps[|steps| - 1]) then Step(s, steps[|steps| - 1]) else s
  }

  /** In every run the stream is whole frames of the messages sent, in the order in which their writers
      took the lock, and at most one more header. */
  lemma {:induction false} StreamIsFrames(n: nat, steps: seq<WriteStep>)
    ensures SenderInv(Written(n, steps))
    decreases |steps|
  {
    if steps != [] {
      var s := Written(n, steps[..|steps| - 1]);
      StreamIsFrames(n, steps[..|steps| - 1]);
      if CanStep(s, steps[|steps| - 1]) {
        SenderStep(s, steps[|steps| - 1]);
      }
    }
  }

  /** What any writers have sent when none of them holds the lock, any reader gets. */
  method SendAndReceive(n: nat, steps: seq<WriteStep>, sizes: seq<int>) returns (got: seq<Bytes>)
    requires Written(n, steps).lock.None? && NoError(sizes)
    ensures got == Written(n, steps).sent
  {
    StreamIsFrames(n, steps);
    var sender := Written(n, steps);
    assert Partial(sender) == [] && sender.stream == Frames(sender.sent);
    var s := new Socket(sender.stream, sizes);
    got := ReadMessages(s, sender.sent, |sender.sent|);
  }
}
