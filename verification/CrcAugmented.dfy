/** The augmented-message engine: message bits enter the register at its low end, so a message
    has to be followed by as many bits as the register is wide. */
module CrcAugmented {
  import opened Words
  import opened CrcMeaning
  import opened CrcPolynomials
  import opened CrcSpec
  import opened CrcTables

  /** One bit shifted in at the low end, with a division step when a one leaves at the top. */
  function Feed(poly: Word, r: Word, bit: bool): (s: Word)
    requires |poly| == |r| > 0
    ensures |s| == |r|
  {
    Xor(Step(poly, r, false), if bit then Unit(|r|, 0) else Zero(|r|))
  }

  function FeedAll(poly: Word, r: Word, m: seq<bool>): (s: Word)
    requires |poly| == |r| > 0
    ensures |s| == |r|
    decreases |m|
  {
    if m == [] then r else FeedAll(poly, Feed(poly, r, m[0]), m[1..])
  }

  lemma {:induction false} FeedConcat(poly: Word, r: Word, a: seq<bool>, b: seq<bool>)
    requires |poly| == |r| > 0
    ensures FeedAll(poly, r, a + b) == FeedAll(poly, FeedAll(poly, r, a), b)
    decreases |a|
  {
    if a == [] {
      assert a + b == b;
    } else {
      assert (a + b)[1..] == a[1..] + b;
      FeedConcat(poly, Feed(poly, r, a[0]), a[1..], b);
    }
  }

  lemma {:induction false} FeedLinear(poly: Word, r: Word, s: Word, b: bool, c: bool)
    requires |poly| == |r| == |s| > 0
    ensures Feed(poly, Xor(r, s), b != c) == Xor(Feed(poly, r, b), Feed(poly, s, c))
  {
    StepLinear(poly, r, s, false, false);
  }

  lemma {:induction false} FeedAllLinear(poly: Word, r: Word, s: Word, a: seq<bool>, b: seq<bool>)
    requires |poly| == |r| == |s| > 0 && |a| == |b|
    ensures FeedAll(poly, Xor(r, s), Xor(a, b)) == Xor(FeedAll(poly, r, a), FeedAll(poly, s, b))
    decreases |a|
  {
    if a != [] {
      FeedLinear(poly, r, s, a[0], b[0]);
      assert Xor(a, b)[1..] == Xor(a[1..], b[1..]);
      FeedAllLinear(poly, Feed(poly, r, a[0]), Feed(poly, s, b[0]), a[1..], b[1..]);
    }
  }

  lemma {:induction false} FeedZeros(poly: Word, r: Word, k: nat)
    requires |poly| == |r| > 0
    ensures FeedAll(poly, r, Zero(k)) == Run(poly, r, Zero(k))
    decreases k
  {
    if k > 0 {
      assert Zero(k)[1..] == Zero(k - 1);
      XorLaws(Step(poly, r, false), Zero(|r|));
      FeedZeros(poly, Step(poly, r, false), k - 1);
    }
  }

  /** What the register holds and what is fed to it can be followed separately. */
  lemma {:induction false} FeedSplit(poly: Word, r: Word, m: seq<bool>)
    requires |poly| == |r| > 0
    ensures FeedAll(poly, r, m) == Xor(FeedAll(poly, r, Zero(|m|)), FeedAll(poly, Zero(|r|), m))
  {
    XorLaws(r, Zero(|r|));
    XorLaws(m, Zero(|m|));
    FeedAllLinear(poly, r, Zero(|r|), Zero(|m|), m);
  }

  /** Bits fed into an empty register, while they fit, are just that register's content. */
  lemma {:induction false} FeedShort(poly: Word, m: seq<bool>)
    requires |m| <= |poly| && |poly| > 0
    ensures FeedAll(poly, Zero(|poly|), m) == Resize(Reverse(m), |poly|)
  {
    var n := |poly|;
    if m == [] {
      assert Resize(Reverse(m), n) == Zero(n);
    } else {
      var k := |m| - 1;
      var front, r := m[..k], Resize(Reverse(m[..k]), n);
      assert m == front + [m[k]];
      FeedConcat(poly, Zero(n), front, [m[k]]);
      FeedShort(poly, front);
      assert Step(poly, r, false) == Shl(r, 1);
      assert Feed(poly, r, m[k]) == Resize(Reverse(m), n);
    }
  }

  /** Following a register with as many zero bits as it is wide. */
  function Flush(poly: Word, r: Word): (s: Word)
    requires |poly| == |r| > 0
    ensures |s| == |r|
  {
    FeedAll(poly, r, Zero(|r|))
  }

  lemma {:induction false} FlushOne(poly: Word, bit: bool)
    requires |poly| > 0
    ensures var n := |poly|;
            Flush(poly, if bit then Unit(n, 0) else Zero(n)) == Step(poly, Zero(n), bit)
  {
    var n := |poly|;
    var r := if bit then Unit(n, 0) else Zero(n);
    FeedZeros(poly, r, n);
    TakeInTogether(poly, r, Zero(n));
    assert Xor(Zero(n), Top(r, n)) == Zero(n - 1) + [bit];
    RunLastBit(poly, bit);
    assert Shl(r, n) == Zero(n);
    XorLaws(Zero(n), Step(poly, Zero(n), bit));
  }

  lemma {:induction false} RunLastBit(poly: Word, bit: bool)
    requires |poly| > 0
    ensures Run(poly, Zero(|poly|), Zero(|poly| - 1) + [bit]) == Step(poly, Zero(|poly|), bit)
  {
    RunConcat(poly, Zero(|poly|), Zero(|poly| - 1), [bit]);
    RunOnZero(poly, |poly| - 1);
  }

  lemma {:induction false} RunOnZero(poly: Word, k: nat)
    requires |poly| > 0
    ensures Run(poly, Zero(|poly|), Zero(k)) == Zero(|poly|)
  {
    FeedOwnTop(poly, Zero(|poly|), k);
    assert Top(Zero(|poly|), k) == Zero(k);
    assert Shl(Zero(|poly|), k) == Zero(|poly|);
  }

  /** Flushing turns feeding at the low end into the ordinary register step. */
  lemma {:induction false} FlushFeed(poly: Word, r: Word, bit: bool)
    requires |poly| == |r| > 0
    ensures Flush(poly, Feed(poly, r, bit)) == Step(poly, Flush(poly, r), bit)
  {
    var n := |r|;
    var e := if bit then Unit(n, 0) else Zero(n);
    XorLaws(Zero(n), Zero(n));
    FeedAllLinear(poly, Step(poly, r, false), e, Zero(n), Zero(n));
    FlushOne(poly, bit);
    // The extra zero can be taken in first or last.
    FeedZeros(poly, r, n);
    FeedZeros(poly, Step(poly, r, false), n);
    assert [false] + Zero(n) == Zero(n) + [false];
    RunConcat(poly, r, [false], Zero(n));
    RunConcat(poly, r, Zero(n), [false]);
    StepLinear(poly, Flush(poly, r), Zero(n), false, bit);
    XorLaws(Flush(poly, r), Zero(n));
  }

  lemma {:induction false} FlushFeedAll(poly: Word, r: Word, m: seq<bool>)
    requires |poly| == |r| > 0
    ensures Flush(poly, FeedAll(poly, r, m)) == Run(poly, Flush(poly, r), m)
    decreases |m|
  {
    if m != [] {
      FlushFeed(poly, r, m[0]);
      FlushFeedAll(poly, Feed(poly, r, m[0]), m[1..]);
    }
  }

  /** A message followed by any tail as wide as the register leaves the difference between the
      message's CRC and that tail. */
  lemma {:induction false} TailResidue(poly: Word, r: Word, m: seq<bool>, tail: seq<bool>)
    requires |poly| == |r| == |tail| > 0
    ensures FeedAll(poly, r, m + tail) == Xor(Run(poly, Flush(poly, r), m), Reverse(tail))
  {
    FeedConcat(poly, r, m, tail);
    FeedSplit(poly, FeedAll(poly, r, m), tail);
    FeedShort(poly, tail);
    SameWidth(Reverse(tail));
    FlushFeedAll(poly, r, m);
  }

  lemma {:induction false} SameWidth(a: Word)
    ensures Resize(a, |a|) == a
  {
  }

  lemma {:induction false} FlushZero(poly: Word)
    requires |poly| > 0
    ensures Flush(poly, Zero(|poly|)) == Zero(|poly|)
  {
    FlushOne(poly, false);
    assert Step(poly, Zero(|poly|), false) == Zero(|poly|);
  }

  // ----- The same on bytes -----

  /** One table lookup feeds in a byte. */
  lemma {:induction false} LookupFeedsByte(poly: Word, rem: Word, x: Byte, t: Word)
    requires 8 <= |poly| <= |rem| == |t|
    requires IsEntry(poly, false, ByteOf(Resize(Shr(rem, |poly| - 8), 8)), t)
    ensures Xor(Or(Shl(rem, 8), Resize(ByteBits(x), |rem|)), t)[..|poly|]
         == FeedAll(poly, rem[..|poly|], StreamOfByte(x, false))
  {
    LookupFeedsZeros(poly, rem, t);
    ByteOnTop(poly, rem, x, t);
  }

  lemma {:induction false} ByteOnTop(poly: Word, rem: Word, x: Byte, t: Word)
    requires 8 <= |poly| <= |rem| == |t|
    requires Xor(Shl(rem, 8), t)[..|poly|] == FeedAll(poly, rem[..|poly|], Zero(8))
    ensures Xor(Or(Shl(rem, 8), Resize(ByteBits(x), |rem|)), t)[..|poly|]
         == FeedAll(poly, rem[..|poly|], StreamOfByte(x, false))
  {
    FeedSplit(poly, rem[..|poly|], StreamOfByte(x, false));
    FeedShort(poly, StreamOfByte(x, false));
    ReverseInvolution(ByteBits(x));
    LowBitsOfByteFeed(|poly|, rem, x, t);
  }

  lemma {:induction false} LookupFeedsZeros(poly: Word, rem: Word, t: Word)
    requires 8 <= |poly| <= |rem| == |t|
    requires IsEntry(poly, false, ByteOf(Resize(Shr(rem, |poly| - 8), 8)), t)
    ensures Xor(Shl(rem, 8), t)[..|poly|] == FeedAll(poly, rem[..|poly|], Zero(8))
  {
    EntryOfTop(poly, rem, t);
    ShiftOutShifts(|poly|, false, rem);
    XorInLayout(|poly|, false, ShiftOut(false, rem), t);
    ZerosDivideTop(poly, rem[..|poly|]);
  }

  lemma {:induction false} EntryOfTop(poly: Word, rem: Word, t: Word)
    requires 8 <= |poly| <= |rem| == |t|
    requires IsEntry(poly, false, ByteOf(Resize(Shr(rem, |poly| - 8), 8)), t)
    ensures t[..|poly|] == Run(poly, Zero(|poly|), Top(rem[..|poly|], 8))
  {
    TopByte(|poly|, rem);
  }

  lemma {:induction false} ZerosDivideTop(poly: Word, r: Word)
    requires |poly| == |r| > 0
    ensures FeedAll(poly, r, Zero(8)) == Xor(Shl(r, 8), Run(poly, Zero(|r|), Top(r, 8)))
  {
    FeedZeros(poly, r, 8);
    XorLaws(Top(r, 8), Zero(8));
    TakeInTogether(poly, r, Zero(8));
  }

  lemma {:induction false} TopByte(n: nat, rem: Word)
    requires 8 <= n <= |rem|
    ensures StreamOfByte(ByteOf(Resize(Shr(rem, n - 8), 8)), false) == Top(rem[..n], 8)
  {
    AlignedIsTop(n, rem);
    assert Aligned(n, false, rem) == Resize(Shr(rem, n - 8), 8);
  }

  lemma {:induction false} ZeroBits(n: nat)
    ensures ToBits(0, n) == Zero(n)
  {
    if n > 0 {
      ZeroBits(n - 1);
    }
  }

  lemma {:induction false} LowBitsOfByteFeed(n: nat, rem: Word, x: Byte, t: Word)
    requires 8 <= n <= |rem| == |t|
    ensures Xor(Or(Shl(rem, 8), Resize(ByteBits(x), |rem|)), t)[..n]
         == Xor(Xor(Shl(rem, 8), t)[..n], Resize(ByteBits(x), n))
  {
    var low := ByteBits(x);
    assert |low| == 8;
    var a := Xor(Or(Shl(rem, 8), Resize(low, |rem|)), t)[..n];
    var b := Xor(Xor(Shl(rem, 8), t)[..n], Resize(low, n));
    forall i | 0 <= i < n ensures a[i] == b[i] {
    }
  }

  /** One byte: it goes in at the low end, and the table is looked up for what leaves at the high end. */
  method AugmentedByte(crcTable: CrcTable, rem: Word, x: Byte) returns (r: Word)
    requires crcTable.Valid() && !crcTable.reflect && crcTable.didInit
    requires 8 <= crcTable.bits && |rem| == |crcTable.truncPoly|
    ensures |r| == |rem|
    ensures r[..crcTable.bits]
         == FeedAll(crcTable.truncPoly[..crcTable.bits], rem[..crcTable.bits], StreamOfByte(x, false))
  {
    var byteIndex := ByteOf(Resize(Shr(rem, crcTable.bits - 8), 8));
    crcTable.EntryAt(byteIndex);
    LookupFeedsByte(crcTable.truncPoly[..crcTable.bits], rem, x, crcTable.table[byteIndex]);
    r := Xor(Or(Shl(rem, 8), Resize(ByteBits(x), |rem|)), crcTable.table[byteIndex]);
  }

  method AugmentedCrc(crcTable: CrcTable, buffer: seq<Byte>, initialRemainder: Word) returns (c: Word)
    requires crcTable.Valid() && !crcTable.reflect
    requires 8 <= crcTable.bits && |initialRemainder| == |crcTable.truncPoly|
    modifies crcTable, crcTable.table
    ensures crcTable.Valid()
    ensures c == Resize(FeedAll(crcTable.truncPoly[..crcTable.bits], initialRemainder[..crcTable.bits],
                                Stream(buffer, false)), |crcTable.truncPoly|)
    ensures IsAugmented(crcTable.truncPoly[..crcTable.bits], initialRemainder[..crcTable.bits], buffer,
                        c[..crcTable.bits])
  {
    var n := crcTable.bits;
    ghost var poly, start := crcTable.truncPoly[..n], initialRemainder[..n];
    var rem := initialRemainder;
    crcTable.InitTable();
    for p := 0 to |buffer|
      invariant crcTable.Valid() && crcTable.didInit
      invariant |rem| == |crcTable.truncPoly|
      invariant rem[..n] == FeedAll(poly, start, Stream(buffer[..p], false))
    {
      FeedBlock(poly, start, buffer, p);
      rem := AugmentedByte(crcTable, rem, buffer[p]);
    }
    assert buffer[..|buffer|] == buffer;
    c := And(rem, LowMask(|rem|, n));
    assert c[..n] == FeedAll(poly, start, Stream(buffer, false));
    FeedIsRemainder(poly, start, buffer);
  }

  lemma {:induction false} FeedBlock(poly: Word, r: Word, a: seq<Byte>, k: nat)
    requires |poly| == |r| > 0 && k < |a|
    ensures FeedAll(poly, r, Stream(a[..k + 1], false))
         == FeedAll(poly, FeedAll(poly, r, Stream(a[..k], false)), StreamOfByte(a[k], false))
  {
    StreamSnoc(a, k, false);
    FeedConcat(poly, r, Stream(a[..k], false), StreamOfByte(a[k], false));
  }

  /** The bytes of a word, most significant first. */
  function BigEndian(w: Word): (bytes: seq<Byte>)
    requires |w| % 8 == 0
    ensures |bytes| == |w| / 8
    decreases |w|
  {
    if w == [] then []
    else [ByteOf(w[|w| - 8..])] + BigEndian(w[..|w| - 8])
  }

  lemma {:induction false} BigEndianStream(w: Word)
    requires |w| % 8 == 0
    ensures Stream(BigEndian(w), false) == Reverse(w)
    decreases |w|
  {
    if w != [] {
      var high, low := w[|w| - 8..], w[..|w| - 8];
      BigEndianStream(low);
      assert Reverse(w) == Reverse(high) + Reverse(low);
      var bytes := BigEndian(w);
      assert bytes[0] == ByteOf(high) && bytes[1..] == BigEndian(low);
    }
  }

  /** For a width of whole bytes, the augmented CRC of a message followed by any tail of that
      width is zero exactly when the tail is the message's CRC, most significant byte first.
      With a zero initial remainder that CRC is the plain unreflected one. */
  lemma {:induction false} AugmentedCheck(poly: Word, init: Word, msg: seq<Byte>, tail: seq<Byte>)
    requires |poly| == |init| > 0 && |poly| == 8 * |tail|
    ensures var crc := Run(poly, Flush(poly, init), Stream(msg, false));
            FeedAll(poly, init, Stream(msg + tail, false)) == Zero(|poly|) <==> tail == BigEndian(crc)
    ensures Flush(poly, Zero(|poly|)) == Zero(|poly|)
  {
    var crc := Run(poly, Flush(poly, init), Stream(msg, false));
    var t := Stream(tail, false);
    assert |t| == |poly| && |crc| % 8 == 0;
    StreamConcat(msg, tail, false);
    TailResidue(poly, init, Stream(msg, false), t);
    BigEndianStream(crc);
    StreamInjective(tail, BigEndian(crc), false);
    CancelsReversed(crc, t);
    FlushZero(poly);
  }

  lemma {:induction false} CancelsReversed(a: Word, b: Word)
    requires |a| == |b|
    ensures Xor(a, Reverse(b)) == Zero(|a|) <==> b == Reverse(a)
  {
    ReverseInvolution(a);
    ReverseInvolution(b);
    if Xor(a, Reverse(b)) == Zero(|a|) {
      XorZeroOnlyIfSame(a, Reverse(b));
    } else if b == Reverse(a) {
      XorLaws(a, a);
    }
  }

  /** Padding a message with zero bytes gives its ordinary CRC, for every initial remainder. */
  lemma {:induction false} AugmentedEqualsCrc(poly: Word, init: Word, msg: seq<Byte>, pad: seq<Byte>)
    requires |poly| == |init| > 0 && |poly| == 8 * |pad|
    requires forall i | 0 <= i < |pad| :: pad[i] == 0
    ensures FeedAll(poly, init, Stream(msg + pad, false)) == Run(poly, Flush(poly, init), Stream(msg, false))
    ensures FeedAll(poly, Zero(|poly|), Stream(msg + pad, false))
         == Crc(Params(poly, Zero(|poly|), Zero(|poly|), false, false), msg)
  {
    StreamConcat(msg, pad, false);
    ZeroStream(pad);
    FeedConcat(poly, init, Stream(msg, false), Zero(|poly|));
    FlushFeedAll(poly, init, Stream(msg, false));
    FeedConcat(poly, Zero(|poly|), Stream(msg, false), Zero(|poly|));
    FlushFeedAll(poly, Zero(|poly|), Stream(msg, false));
    FlushZero(poly);
    XorLaws(Run(poly, Zero(|poly|), Stream(msg, false)), Zero(|poly|));
  }

  lemma {:induction false} ZeroStream(pad: seq<Byte>)
    requires forall i | 0 <= i < |pad| :: pad[i] == 0
    ensures Stream(pad, false) == Zero(8 * |pad|)
  {
    if pad != [] {
      ZeroStream(pad[1..]);
      ZeroBits(8);
    }
  }

  // ----- What it computes -----

  /** A bit stream as a polynomial, with the initial value standing before it. */
  function FedDividend(init: Word, m: seq<bool>): (p: Poly)
  {
    Add(OfStream(m), TimesX(OfWord(init), |m|))
  }

  lemma {:induction false} FedSnoc(init: Word, m: seq<bool>, bit: bool)
    ensures FedDividend(init, m + [bit]) == Add(TimesX(FedDividend(init, m), 1), if bit then {0} else {})
  {
    var a, c := OfStream(m), TimesX(OfWord(init), |m|);
    var b: Poly := if bit then {0} else {};
    StreamSnocPoly(m, bit);
    AddTimesX(a, c, 1);
    TimesXTwice(OfWord(init), |m|, 1);
    SwapLast(TimesX(a, 1), b, TimesX(c, 1));
  }

  lemma {:induction false} SwapLast(a: Poly, b: Poly, c: Poly)
    ensures Add(Add(a, b), c) == Add(Add(a, c), b)
  {
  }

  lemma {:induction false} OfXor(a: Word, b: Word)
    requires |a| == |b|
    ensures OfWord(Xor(a, b)) == Add(OfWord(a), OfWord(b))
  {
  }

  lemma {:induction false} OfUnit(n: nat)
    requires n > 0
    ensures OfWord(Unit(n, 0)) == {0} && OfWord(Zero(n)) == {}
  {
  }

  lemma {:induction false} FeedPoly(poly: Word, r: Word, bit: bool)
    requires |poly| == |r| > 0
    ensures Add(TimesX(OfWord(r), 1), if bit then {0} else {})
         == Add(if r[|r| - 1] then Generator(poly) else {}, OfWord(Feed(poly, r, bit)))
  {
    var s := Step(poly, r, false);
    var b: Poly := if bit then {0} else {};
    StepPoly(poly, r, false);
    OfXor(s, if bit then Unit(|r|, 0) else Zero(|r|));
    OfUnit(|r|);
    AddLaws(TimesX(OfWord(r), 1), {}, {});
    AddLaws(if r[|r| - 1] then Generator(poly) else {}, OfWord(s), b);
  }

  lemma {:induction false} FeedDivides(poly: Word, init: Word, m: seq<bool>) returns (q: seq<bool>)
    requires |poly| == |init| > 0
    ensures FedDividend(init, m) == Add(Times(q, Generator(poly)), OfWord(FeedAll(poly, init, m)))
    decreases |m|
  {
    if m == [] {
      q := [];
      FedNothing(init);
    } else {
      var front, last := m[..|m| - 1], m[|m| - 1];
      var r := FeedAll(poly, init, front);
      var q0 := FeedDivides(poly, init, front);
      q := q0 + [r[|r| - 1]];
      assert m == front + [last];
      FeedConcat(poly, init, front, [last]);
      FedSnoc(init, front, last);
      FeedPoly(poly, r, last);
      DivideOnce(FedDividend(init, front), q0, Generator(poly), OfWord(r), if last then {0} else {}, r[|r| - 1],
                 OfWord(Feed(poly, r, last)));
    }
  }

  lemma {:induction false} FedNothing(init: Word)
    ensures FedDividend(init, []) == OfWord(init)
  {
    assert OfStream([]) == {};
    forall e: nat ensures e in TimesX(OfWord(init), 0) <==> e in OfWord(init) {
      InTimesX(OfWord(init), 0, e);
    }
  }

  /** Feeding a message at the low end divides the message itself. */
  lemma {:induction false} FeedIsRemainder(poly: Word, init: Word, msg: seq<Byte>)
    requires |poly| == |init| > 0
    ensures IsAugmented(poly, init, msg, FeedAll(poly, init, Stream(msg, false)))
  {
    var q := FeedDivides(poly, init, Stream(msg, false));
    StreamIsMessage(msg, false);
  }
}
