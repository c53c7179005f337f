/** Cyclic redundancy codes as linear feedback shift registers over exactly n bits, and the
    algebra that every engine of this project is measured against. */
module CrcSpec {
  import opened Words

  /** One polynomial division step: the register r takes in one message bit. */
  function Step(poly: Word, r: Word, bit: bool): (s: Word)
    requires |poly| == |r| > 0
    ensures |s| == |r|
  {
    if r[|r| - 1] != bit then Xor(Shl(r, 1), poly) else Shl(r, 1)
  }

  function Run(poly: Word, r: Word, m: seq<bool>): (s: Word)
    requires |poly| == |r| > 0
    ensures |s| == |r|
    decreases |m|
  {
    if m == [] then r else Run(poly, Step(poly, r, m[0]), m[1..])
  }

  /** The bits of a byte in the order the register takes them in. */
  function StreamOfByte(b: Byte, reflectIn: bool): (m: seq<bool>)
    ensures |m| == 8
  {
    if reflectIn then ByteBits(b) else Reverse(ByteBits(b))
  }

  function Stream(msg: seq<Byte>, reflectIn: bool): (m: seq<bool>)
    ensures |m| == 8 * |msg|
  {
    if msg == [] then [] else StreamOfByte(msg[0], reflectIn) + Stream(msg[1..], reflectIn)
  }

  datatype Params = Params(poly: Word, init: Word, final: Word, reflectIn: bool, reflectRem: bool) {
    ghost predicate Valid() {
      |poly| == |init| == |final| > 0
    }

    function Bits(): nat { |poly| }
  }

  /** The checksum read off a register. */
  function Checksum(p: Params, r: Word): (c: Word)
    requires p.Valid() && |r| == p.Bits()
    ensures |c| == |r|
  {
    Xor(if p.reflectRem then Reverse(r) else r, p.final)
  }

  /** The checksum of a message. */
  function Crc(p: Params, msg: seq<Byte>): (c: Word)
    requires p.Valid()
    ensures |c| == p.Bits()
  {
    Checksum(p, Run(p.poly, p.init, Stream(msg, p.reflectIn)))
  }

  lemma {:induction false} RunConcat(poly: Word, r: Word, a: seq<bool>, b: seq<bool>)
    requires |poly| == |r| > 0
    ensures Run(poly, r, a + b) == Run(poly, Run(poly, r, a), b)
    decreases |a|
  {
    if a == [] {
      assert a + b == b;
    } else {
      assert (a + b)[1..] == a[1..] + b;
      RunConcat(poly, Step(poly, r, a[0]), a[1..], b);
    }
  }

  lemma {:induction false} StreamConcat(a: seq<Byte>, b: seq<Byte>, reflectIn: bool)
    ensures Stream(a + b, reflectIn) == Stream(a, reflectIn) + Stream(b, reflectIn)
  {
    if a == [] {
      assert a + b == b;
    } else {
      assert (a + b)[1..] == a[1..] + b;
      StreamConcat(a[1..], b, reflectIn);
    }
  }

  lemma {:induction false} StreamSnoc(a: seq<Byte>, k: nat, reflectIn: bool)
    requires k < |a|
    ensures Stream(a[..k + 1], reflectIn) == Stream(a[..k], reflectIn) + StreamOfByte(a[k], reflectIn)
  {
    assert a[..k + 1] == a[..k] + [a[k]];
    StreamConcat(a[..k], [a[k]], reflectIn);
    assert Stream([a[k]], reflectIn) == StreamOfByte(a[k], reflectIn);
  }

  lemma {:induction false} RunBlock(poly: Word, r: Word, a: seq<Byte>, k: nat, reflectIn: bool)
    requires |poly| == |r| > 0 && k < |a|
    ensures Run(poly, r, Stream(a[..k + 1], reflectIn))
         == Run(poly, Run(poly, r, Stream(a[..k], reflectIn)), StreamOfByte(a[k], reflectIn))
  {
    StreamSnoc(a, k, reflectIn);
    RunConcat(poly, r, Stream(a[..k], reflectIn), StreamOfByte(a[k], reflectIn));
  }

  // ----- The step is linear over GF(2) -----

  lemma {:induction false} StepLinear(poly: Word, r: Word, s: Word, b: bool, c: bool)
    requires |poly| == |r| == |s| > 0
    ensures Step(poly, Xor(r, s), b != c) == Xor(Step(poly, r, b), Step(poly, s, c))
  {
    var x, y, z := Step(poly, Xor(r, s), b != c), Step(poly, r, b), Step(poly, s, c);
    assert Xor(r, s)[|r| - 1] == (r[|r| - 1] != s[|r| - 1]);
    forall i | 0 <= i < |r| ensures x[i] == (y[i] != z[i]) {
      assert Shl(Xor(r, s), 1)[i] == (Shl(r, 1)[i] != Shl(s, 1)[i]);
    }
  }

  lemma {:induction false} RunLinear(poly: Word, r: Word, s: Word, a: seq<bool>, b: seq<bool>)
    requires |poly| == |r| == |s| > 0 && |a| == |b|
    ensures Run(poly, Xor(r, s), Xor(a, b)) == Xor(Run(poly, r, a), Run(poly, s, b))
    decreases |a|
  {
    if a != [] {
      StepLinear(poly, r, s, a[0], b[0]);
      XorTail(a, b);
      RunLinear(poly, Step(poly, r, a[0]), Step(poly, s, b[0]), a[1..], b[1..]);
    }
  }

  lemma {:induction false} XorTail(a: seq<bool>, b: seq<bool>)
    requires |a| == |b| > 0
    ensures Xor(a, b)[0] == (a[0] != b[0]) && Xor(a, b)[1..] == Xor(a[1..], b[1..])
  {
  }

  /** The k highest bits of r, highest first, with zeros once r is used up. */
  function Top(r: Word, k: nat): (t: seq<bool>)
    ensures |t| == k
  {
    seq(k, j requires 0 <= j < k => j < |r| && r[|r| - 1 - j])
  }

  lemma {:induction false} TopTail(r: Word, k: nat)
    requires k > 0
    ensures Top(r, k)[1..] == Top(Shl(r, 1), k - 1)
  {
    var a, b := Top(r, k), Top(Shl(r, 1), k - 1);
    forall j | 0 <= j < k - 1 ensures a[j + 1] == b[j] {
    }
  }

  lemma {:induction false} RunHead(poly: Word, r: Word, m: seq<bool>)
    requires |poly| == |r| > 0 && m != [] && m[0] == r[|r| - 1]
    ensures Run(poly, r, m) == Run(poly, Shl(r, 1), m[1..])
  {
  }

  /** A register that is fed its own highest bits never divides: it only shifts. */
  lemma {:induction false} FeedOwnTop(poly: Word, r: Word, k: nat)
    requires |poly| == |r| > 0
    ensures Run(poly, r, Top(r, k)) == Shl(r, k)
    decreases k
  {
    if k == 0 {
      ShlNone(r);
    } else {
      RunHead(poly, r, Top(r, k));
      TopTail(r, k);
      FeedOwnTop(poly, Shl(r, 1), k - 1);
      ShlShl(r, 1, k - 1);
    }
  }

  /** Taking in any k bits at once: shift by k and add the division result of the k bits that
      leave the register, combined with the bits that arrive. Holds for every k, also when the
      register is shorter than k. */
  lemma {:induction false} TakeInTogether(poly: Word, r: Word, m: seq<bool>)
    requires |poly| == |r| > 0
    ensures Run(poly, r, m) == Xor(Shl(r, |m|), Run(poly, Zero(|r|), Xor(m, Top(r, |m|))))
  {
    var t := Top(r, |m|);
    XorLaws(r, Zero(|r|));
    XorLaws(m, t);
    RunLinear(poly, Zero(|r|), r, Xor(m, t), t);
    FeedOwnTop(poly, r, |m|);
    XorLaws(Shl(r, |m|), Run(poly, Zero(|r|), Xor(m, t)));
  }

  // ----- Burst errors -----

  /** The register step loses no information exactly when the truncated polynomial is odd. */
  lemma {:induction false} StepInjectiveIffOdd(poly: Word)
    requires |poly| > 0
    ensures poly[0] <==>
            (forall r: Word, s: Word, bit: bool |
               |r| == |poly| && |s| == |poly| && Step(poly, r, bit) == Step(poly, s, bit) :: r == s)
  {
    if poly[0] {
      forall r: Word, s: Word, bit: bool | |r| == |poly| && |s| == |poly| && Step(poly, r, bit) == Step(poly, s, bit)
        ensures r == s
      {
        StepInjective(poly, r, s, bit);
      }
    } else {
      // Dividing by an even polynomial: this register and the empty one step to the same remainder.
      var n := |poly|;
      var r := Xor(Shr(poly, 1), Unit(n, n - 1));
      assert r[n - 1];
      assert Step(poly, r, false) == Zero(n);
      assert Step(poly, Zero(n), false) == Zero(n);
      assert r != Zero(n);
    }
  }

  lemma {:induction false} StepInjective(poly: Word, r: Word, s: Word, bit: bool)
    requires |poly| == |r| == |s| > 0 && poly[0]
    requires Step(poly, r, bit) == Step(poly, s, bit)
    ensures r == s
  {
    var n := |poly|;
    var x, y := Step(poly, r, bit), Step(poly, s, bit);
    assert x[0] == (r[n - 1] != bit) && y[0] == (s[n - 1] != bit);
    forall i | 0 <= i < n - 1 ensures r[i] == s[i] {
      assert x[i + 1] == y[i + 1];
    }
  }

  lemma {:induction false} RunInjective(poly: Word, r: Word, s: Word, m: seq<bool>)
    requires |poly| == |r| == |s| > 0 && poly[0]
    requires Run(poly, r, m) == Run(poly, s, m)
    ensures r == s
    decreases |m|
  {
    if m != [] {
      RunInjective(poly, Step(poly, r, m[0]), Step(poly, s, m[0]), m[1..]);
      StepInjective(poly, r, s, m[0]);
    }
  }

  /** With an odd polynomial, at most |r| bits bring the register to zero only by feeding it
      its own top bits. */
  lemma {:induction false} ZeroOnlyByOwnTop(poly: Word, r: Word, w: seq<bool>)
    requires |poly| == |r| > 0 && poly[0] && |w| <= |r|
    requires Run(poly, r, w) == Zero(|r|)
    ensures w == Top(r, |w|)
    decreases |w|
  {
    if w != [] {
      ZeroOnlyByOwnTop(poly, Step(poly, r, w[0]), w[1..]);
      OwnTopStep(poly, r, w);
    }
  }

  lemma {:induction false} OwnTopStep(poly: Word, r: Word, w: seq<bool>)
    requires |poly| == |r| > 0 && poly[0] && 0 < |w| <= |r|
    requires var s := Step(poly, r, w[0]);
             Run(poly, s, w[1..]) == Zero(|r|) && w[1..] == Top(s, |w| - 1)
    ensures w == Top(r, |w|)
  {
    OwnTopLow(poly, Step(poly, r, w[0]), |w| - 1);
    StepEven(poly, r, w[0]);
    TopTail(r, |w|);
    HeadTail(w, Top(r, |w|));
  }

  lemma {:induction false} OwnTopLow(poly: Word, s: Word, k: nat)
    requires |poly| == |s| > k && Run(poly, s, Top(s, k)) == Zero(|s|)
    ensures !s[0]
  {
    FeedOwnTop(poly, s, k);
    LowBitOutlivesShift(s, k);
  }

  lemma {:induction false} HeadTail<T>(a: seq<T>, b: seq<T>)
    requires |a| == |b| > 0 && a[0] == b[0] && a[1..] == b[1..]
    ensures a == b
  {
    assert a == [a[0]] + a[1..] && b == [b[0]] + b[1..];
  }

  lemma {:induction false} LowBitOutlivesShift(s: Word, k: nat)
    requires k < |s| && Shl(s, k) == Zero(|s|)
    ensures !s[0]
  {
    assert !Shl(s, k)[k];
  }

  lemma {:induction false} StepEven(poly: Word, r: Word, bit: bool)
    requires |poly| == |r| > 0 && poly[0] && !Step(poly, r, bit)[0]
    ensures bit == r[|r| - 1] && Step(poly, r, bit) == Shl(r, 1)
  {
  }

  /** Bit streams that differ only inside one window no longer than the register leave
      different remainders. */
  lemma {:induction false} BurstChangesRegister(poly: Word, r: Word, before: seq<bool>, v: seq<bool>, w: seq<bool>,
      after: seq<bool>)
    requires |poly| == |r| > 0 && poly[0]
    requires |v| == |w| <= |r| && v != w
    ensures Run(poly, r, before + v + after) != Run(poly, r, before + w + after)
  {
    var s := Run(poly, r, before);
    RunConcat(poly, r, before, v);
    RunConcat(poly, r, before, w);
    RunConcat(poly, r, before + v, after);
    RunConcat(poly, r, before + w, after);
    if Run(poly, Run(poly, s, v), after) == Run(poly, Run(poly, s, w), after) {
      RunInjective(poly, Run(poly, s, v), Run(poly, s, w), after);
      ShortRunsDiffer(poly, s, v, w);
    }
  }

  lemma {:induction false} ShortRunsDiffer(poly: Word, r: Word, v: seq<bool>, w: seq<bool>)
    requires |poly| == |r| > 0 && poly[0]
    requires |v| == |w| <= |r| && Run(poly, r, v) == Run(poly, r, w)
    ensures v == w
  {
    RunLinear(poly, r, r, v, w);
    XorLaws(r, r);
    XorLaws(Run(poly, r, v), Run(poly, r, v));
    ZeroOnlyByOwnTop(poly, Zero(|r|), Xor(v, w));
    assert Top(Zero(|r|), |v|) == Zero(|v|);
    XorZeroOnlyIfSame(v, w);
  }

  lemma {:induction false} ChecksumInjective(p: Params, r: Word, s: Word)
    requires p.Valid() && |r| == |s| == p.Bits()
    requires Checksum(p, r) == Checksum(p, s)
    ensures r == s
  {
    var a := if p.reflectRem then Reverse(r) else r;
    var b := if p.reflectRem then Reverse(s) else s;
    XorLaws(a, p.final);
    XorLaws(b, p.final);
    ReverseInvolution(r);
    ReverseInvolution(s);
  }

  /** Every burst error of at most Bits consecutive bits, in the order the register takes the
      bits in, changes the checksum when the truncated polynomial is odd. */
  lemma {:induction false} BurstDetected(p: Params, a: seq<Byte>, b: seq<Byte>, from: nat, len: nat)
    requires p.Valid() && p.poly[0]
    requires |a| == |b| && len <= p.Bits() && from + len <= 8 * |a|
    requires var x, y := Stream(a, p.reflectIn), Stream(b, p.reflectIn);
             x != y && x[..from] == y[..from] && x[from + len..] == y[from + len..]
    ensures Crc(p, a) != Crc(p, b)
  {
    var x, y := Stream(a, p.reflectIn), Stream(b, p.reflectIn);
    var before, after := x[..from], x[from + len..];
    var v, w := x[from..from + len], y[from..from + len];
    assert x == before + v + after;
    assert y == before + w + after;
    BurstChangesRegister(p.poly, p.init, before, v, w, after);
    if Crc(p, a) == Crc(p, b) {
      ChecksumInjective(p, Run(p.poly, p.init, x), Run(p.poly, p.init, y));
    }
  }

  /** Different messages have different bit streams, so the premise of BurstDetected only asks
      for the extent of the difference. */
  lemma {:induction false} StreamInjective(a: seq<Byte>, b: seq<Byte>, reflectIn: bool)
    requires |a| == |b|
    ensures Stream(a, reflectIn) == Stream(b, reflectIn) <==> a == b
  {
    if a != [] && Stream(a, reflectIn) == Stream(b, reflectIn) {
      SplitEqual(StreamOfByte(a[0], reflectIn), Stream(a[1..], reflectIn),
                 StreamOfByte(b[0], reflectIn), Stream(b[1..], reflectIn));
      StreamOfByteInjective(a[0], b[0], reflectIn);
      StreamInjective(a[1..], b[1..], reflectIn);
      HeadTail(a, b);
    }
  }

  lemma {:induction false} SplitEqual(p: seq<bool>, x: seq<bool>, q: seq<bool>, y: seq<bool>)
    requires |p| == |q| && p + x == q + y
    ensures p == q && x == y
  {
    assert p == (p + x)[..|p|] && q == (q + y)[..|p|];
    assert x == (p + x)[|p|..] && y == (q + y)[|p|..];
  }

  lemma {:induction false} StreamOfByteInjective(a: Byte, b: Byte, reflectIn: bool)
    requires StreamOfByte(a, reflectIn) == StreamOfByte(b, reflectIn)
    ensures a == b
  {
    ReverseInvolution(ByteBits(a));
    ReverseInvolution(ByteBits(b));
    ByteOfBits(a);
    ByteOfBits(b);
  }
}
