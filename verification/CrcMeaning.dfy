/** What a checksum is, from the bytes of the message alone: the remainder of a polynomial that is read off the
    bytes, in the order of bits and with the final value that the parameters ask for. */
module CrcMeaning {
  import opened Basics
  import opened Words
  import opened CrcSpec
  import opened CrcPolynomials

  /** The coefficient of exponent e: the last byte holds the lowest eight exponents, and within a byte the
      exponents are those of its bits, or run the other way when bytes are reflected. */
  predicate Coefficient(msg: seq<Byte>, reflectIn: bool, e: nat) {
    && e < 8 * |msg|
    && BitAt(msg[|msg| - 1 - e / 8], if reflectIn then 7 - e % 8 else e % 8)
  }

  /** A message as a polynomial. */
  function OfMessage(msg: seq<Byte>, reflectIn: bool): (c: Poly)
  {
    set e: nat | e < 8 * |msg| && Coefficient(msg, reflectIn, e)
  }

  /** The message above n lower terms, with the initial remainder added to its highest terms. */
  function MessageDividend(init: Word, msg: seq<Byte>, reflectIn: bool): (p: Poly)
  {
    Add(TimesX(OfMessage(msg, reflectIn), |init|), TimesX(OfWord(init), 8 * |msg|))
  }

  predicate DiffersAt(p: Params, c: Word, e: nat)
    requires p.Valid() && |c| == p.Bits() && e < |c|
  {
    var i := if p.reflectRem then |c| - 1 - e else e;
    c[i] != p.final[i]
  }

  /** The exponents at which a checksum differs from the final value, read from the other end when the
      remainder is reflected. */
  function Unfinished(p: Params, c: Word): (r: Poly)
    requires p.Valid() && |c| == p.Bits()
  {
    set e: nat | e < |c| && DiffersAt(p, c, e)
  }

  /** c is what the parameters call the checksum of the message. */
  ghost predicate IsChecksum(p: Params, msg: seq<Byte>, c: Word)
  {
    && p.Valid() && |c| == p.Bits()
    && IsRemainder(MessageDividend(p.init, msg, p.reflectIn), Generator(p.poly), Unfinished(p, c))
  }

  /** c is the remainder of the message itself, the initial value standing before it. */
  ghost predicate IsAugmented(poly: Word, init: Word, msg: seq<Byte>, c: Word) {
    && |poly| == |init| == |c| > 0
    && IsRemainder(Add(OfMessage(msg, false), TimesX(OfWord(init), 8 * |msg|)), Generator(poly), OfWord(c))
  }

  // ----- The bit stream -----

  lemma {:induction false} LaterBit(v: nat, n: nat, j: nat)
    requires 0 < j < n
    ensures ToBits(v, n)[j] == ToBits(v / 2, n - 1)[j - 1]
  {
  }

  lemma {:induction false} FirstBit(v: nat, n: nat)
    requires n > 0
    ensures ToBits(v, n)[0] <==> BitAt(v, 0)
  {
  }

  lemma {:induction false} BitsAt(v: nat, n: nat, j: nat)
    requires j < n
    ensures ToBits(v, n)[j] <==> BitAt(v, j)
  {
    if j > 0 {
      LaterBit(v, n, j);
      BitsAt(v / 2, n - 1, j - 1);
      HalfBit(v, j - 1);
    } else {
      FirstBit(v, n);
    }
  }

  /** The bits of a byte in the order the register takes them in. */
  lemma {:induction false} StreamBit(b: Byte, reflectIn: bool, j: nat)
    requires j < 8
    ensures StreamOfByte(b, reflectIn)[7 - j] <==> BitAt(b, if reflectIn then 7 - j else j)
  {
    BitsAt(b, 8, if reflectIn then 7 - j else j);
  }

  lemma {:induction false} CoefficientBefore(msg: seq<Byte>, reflectIn: bool, e: nat)
    requires 8 <= e < 8 * |msg|
    ensures Coefficient(msg, reflectIn, e) <==> Coefficient(msg[..|msg| - 1], reflectIn, e - 8)
  {
    assert (e - 8) / 8 == e / 8 - 1 && (e - 8) % 8 == e % 8;
    assert msg[..|msg| - 1][|msg| - 2 - (e - 8) / 8] == msg[|msg| - 1 - e / 8];
  }

  /** The bit of a stream at which exponent e stands. */
  predicate StreamCoefficient(m: seq<bool>, e: nat)
    requires e < |m|
  {
    m[|m| - 1 - e]
  }

  lemma {:induction false} LastOfStreams(a: seq<bool>, b: seq<bool>, e: nat)
    requires e < |a + b|
    ensures StreamCoefficient(a + b, e)
       <==> if e < |b| then StreamCoefficient(b, e) else StreamCoefficient(a, e - |b|)
  {
  }

  lemma {:induction false} StreamBefore(msg: seq<Byte>, reflectIn: bool)
    requires msg != []
    ensures Stream(msg, reflectIn) == Stream(msg[..|msg| - 1], reflectIn) + StreamOfByte(msg[|msg| - 1], reflectIn)
  {
    StreamSnoc(msg, |msg| - 1, reflectIn);
    assert msg[..|msg| - 1 + 1] == msg;
  }

  lemma {:induction false} StreamLow(msg: seq<Byte>, reflectIn: bool, e: nat)
    requires e < 8 && msg != []
    ensures StreamCoefficient(Stream(msg, reflectIn), e) <==> Coefficient(msg, reflectIn, e)
  {
    StreamBefore(msg, reflectIn);
    LastOfStreams(Stream(msg[..|msg| - 1], reflectIn), StreamOfByte(msg[|msg| - 1], reflectIn), e);
    StreamBit(msg[|msg| - 1], reflectIn, e);
    LowCoefficient(msg, reflectIn, e);
  }

  lemma {:induction false} StreamHigh(msg: seq<Byte>, reflectIn: bool, e: nat)
    requires 8 <= e < 8 * |msg|
    ensures StreamCoefficient(Stream(msg, reflectIn), e)
       <==> StreamCoefficient(Stream(msg[..|msg| - 1], reflectIn), e - 8)
  {
    var a, b := Stream(msg[..|msg| - 1], reflectIn), StreamOfByte(msg[|msg| - 1], reflectIn);
    StreamBefore(msg, reflectIn);
    assert |a + b| == 8 * |msg| && |b| == 8;
    LastOfStreams(a, b, e);
  }

  /** The stream's bits are the message's coefficients, highest first. */
  lemma {:induction false} StreamIs(msg: seq<Byte>, reflectIn: bool, e: nat)
    requires e < 8 * |msg|
    ensures StreamCoefficient(Stream(msg, reflectIn), e) <==> Coefficient(msg, reflectIn, e)
    decreases |msg|
  {
    if e < 8 {
      StreamLow(msg, reflectIn, e);
    } else {
      StreamHigh(msg, reflectIn, e);
      StreamIs(msg[..|msg| - 1], reflectIn, e - 8);
      CoefficientBefore(msg, reflectIn, e);
    }
  }

  lemma {:induction false} LowCoefficient(msg: seq<Byte>, reflectIn: bool, e: nat)
    requires e < 8 && msg != []
    ensures Coefficient(msg, reflectIn, e) <==> BitAt(msg[|msg| - 1], if reflectIn then 7 - e else e)
  {
    assert e / 8 == 0 && e % 8 == e;
  }

  lemma {:induction false} OfStreamAt(m: seq<bool>, e: nat)
    ensures e in OfStream(m) <==> e < |m| && StreamCoefficient(m, e)
  {
  }

  lemma {:induction false} OfMessageAt(msg: seq<Byte>, reflectIn: bool, e: nat)
    ensures e in OfMessage(msg, reflectIn) <==> e < 8 * |msg| && Coefficient(msg, reflectIn, e)
  {
  }

  lemma {:induction false} StreamIsMessage(msg: seq<Byte>, reflectIn: bool)
    ensures OfStream(Stream(msg, reflectIn)) == OfMessage(msg, reflectIn)
  {
    forall e: nat ensures e in OfStream(Stream(msg, reflectIn)) <==> e in OfMessage(msg, reflectIn) {
      OfStreamAt(Stream(msg, reflectIn), e);
      OfMessageAt(msg, reflectIn, e);
      if e < 8 * |msg| {
        StreamIs(msg, reflectIn, e);
      }
    }
  }

  // ----- The checksum -----

  /** What the final value and the reflection are taken off to is the register. */
  lemma {:induction false} UnfinishedRegister(p: Params, r: Word)
    requires p.Valid() && |r| == p.Bits()
    ensures Unfinished(p, Checksum(p, r)) == OfWord(r)
  {
    var c := Checksum(p, r);
    forall e: nat ensures e in Unfinished(p, c) <==> e in OfWord(r) {
    }
  }

  /** The word whose checksum c would be. */
  lemma {:induction false} Refinish(p: Params, c: Word) returns (r: Word)
    requires p.Valid() && |c| == p.Bits()
    ensures |r| == |c| && c == Checksum(p, r)
  {
    var x := Xor(c, p.final);
    r := if p.reflectRem then Reverse(x) else x;
    ReverseInvolution(x);
    XorLaws(c, p.final);
  }

  lemma {:induction false} ChecksumIsRemainder(p: Params, msg: seq<Byte>, r: Word)
    requires p.Valid() && |r| == p.Bits()
    ensures r == Run(p.poly, p.init, Stream(msg, p.reflectIn)) <==> IsChecksum(p, msg, Checksum(p, r))
  {
    StreamIsMessage(msg, p.reflectIn);
    UnfinishedRegister(p, r);
    RegisterIsRemainder(p.poly, p.init, Stream(msg, p.reflectIn), r);
  }

  /** A word is the checksum of a message if and only if, with the final value taken off and the bits put the
      right way round, it is the remainder of the message's polynomial. */
  lemma {:induction false} ChecksumExactly(p: Params, msg: seq<Byte>, c: Word)
    requires p.Valid() && |c| == p.Bits()
    ensures c == Crc(p, msg) <==> IsChecksum(p, msg, c)
  {
    var r := Refinish(p, c);
    ChecksumIsRemainder(p, msg, r);
    if c == Crc(p, msg) {
      ChecksumInjective(p, r, Run(p.poly, p.init, Stream(msg, p.reflectIn)));
    }
  }

  /** CRC-32 and its like, which start and end with all ones, give zero for no message at all. */
  lemma {:induction false} NothingIsZero(p: Params, ones: Word)
    requires p.Valid() && p.init == p.final == ones && forall i | 0 <= i < |ones| :: ones[i]
    ensures Crc(p, []) == Zero(p.Bits())
  {
    assert Reverse(ones) == ones;
    XorLaws(ones, ones);
  }
}
