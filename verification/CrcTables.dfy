/** The lookup table of the byte-at-a-time engines, the index and shift helpers that go with it,
    and the proof that one lookup does the work of eight register steps. */
module CrcTables {
  import opened Words
  import opened CrcSpec

  /** What reflector<n>::reflect computes: the n lowest bits mirrored, everything above cleared. */
  function Reflected(n: nat, x: Word): (r: Word)
    requires n <= |x|
    ensures |r| == |x| && r[..n] == Reverse(x[..n]) && r[n..] == Zero(|x| - n)
  {
    Resize(Reverse(x[..n]), |x|)
  }

  method Reflect(n: nat, x: Word) returns (reflection: Word)
    requires n <= |x|
    ensures reflection == Reflected(n, x)
  {
    reflection := Zero(|x|);
    var rest := x;
    assert Shr(x, 0) == x;
    for i := 0 to n
      invariant |reflection| == |x| && rest == Shr(x, i)
      invariant forall k | 0 <= k < |x| :: reflection[k] == (n - i <= k < n && x[n - 1 - k])
    {
      ShlUnit(|x|, n - 1 - i);
      ShrShr(x, i, 1);
      if rest[0] {
        reflection := Or(reflection, Shl(Unit(|x|, 0), n - 1 - i));
      }
      rest := Shr(rest, 1);
    }
  }

  /** The remainder's n lowest bits taken in one bit, in a register that is wider than n. */
  lemma {:induction false} LowBitsStep(n: nat, poly: Word, rem: Word, bit: bool)
    requires 0 < n <= |poly| == |rem|
    ensures var high := Unit(|rem|, n - 1);
            var x := if bit then Xor(rem, high) else rem;
            var y := if x[n - 1] then Xor(Shl(x, 1), poly) else Shl(x, 1);
            y[..n] == Step(poly[..n], rem[..n], bit)
  {
    var x := if bit then Xor(rem, Unit(|rem|, n - 1)) else rem;
    HighBitMeets(n, rem, bit);
    ShlLow(n, x);
    ShlLow(n, rem[..n]);
    assert rem[..n][..n - 1] == rem[..n - 1];
    XorLow(n, Shl(x, 1), poly);
  }

  lemma {:induction false} HighBitMeets(n: nat, rem: Word, bit: bool)
    requires 0 < n <= |rem|
    ensures var x := if bit then Xor(rem, Unit(|rem|, n - 1)) else rem;
            x[n - 1] == (rem[n - 1] != bit) && x[..n - 1] == rem[..n - 1]
  {
  }

  lemma {:induction false} ShlLow(n: nat, a: Word)
    requires 0 < n <= |a|
    ensures Shl(a, 1)[..n] == [false] + a[..n - 1]
  {
  }

  lemma {:induction false} XorLow(n: nat, a: Word, b: Word)
    requires n <= |a| == |b|
    ensures Xor(a, b)[..n] == Xor(a[..n], b[..n])
  {
  }

  /** A table entry stands for the division of one byte, in the order the engine takes its bits.
      Entries of the unreflected engine may hold anything above bit n. */
  ghost predicate IsEntry(poly: Word, reflect: bool, d: Byte, t: Word)
    requires 0 < |poly| <= |t|
  {
    RegisterOf(|poly|, reflect, t) == Division(poly, reflect, d) && (reflect ==> Clean(|poly|, t))
  }

  ghost function Division(poly: Word, reflect: bool, d: Byte): (r: Word)
    requires |poly| > 0
    ensures |r| == |poly|
  {
    Run(poly, Zero(|poly|), StreamOfByte(d, reflect))
  }

  /** The remainder that a register in the engine's own layout stands for. */
  function RegisterOf(n: nat, reflect: bool, rem: Word): (r: Word)
    requires n <= |rem|
    ensures |r| == n
  {
    if reflect then Reverse(rem[..n]) else rem[..n]
  }

  ghost predicate Clean(n: nat, rem: Word)
    requires n <= |rem|
  {
    rem[n..] == Zero(|rem| - n)
  }

  /** The byte of the register that the next message byte meets: remainder::align_msb, or the
      low byte of the reflected layout. */
  function Aligned(n: nat, reflect: bool, rem: Word): (a: Word)
    ensures |a| == 8
  {
    Resize(if reflect then rem
           else if n > 8 then Shr(rem, n - 8)
           else Shl(rem, 8 - n), 8)
  }

  /** crc_helper::index */
  function Index(n: nat, reflect: bool, rem: Word, x: Byte): (i: Byte)
  {
    ByteOf(Xor(ByteBits(x), Aligned(n, reflect, rem)))
  }

  /** crc_helper::shift */
  function ShiftOut(reflect: bool, rem: Word): (r: Word)
    ensures |r| == |rem|
  {
    if reflect then Shr(rem, 8) else Shl(rem, 8)
  }

  lemma {:induction false} AlignedIsTop(n: nat, rem: Word)
    requires 0 < n <= |rem| && 8 <= |rem|
    ensures Reverse(Aligned(n, false, rem)) == Top(rem[..n], 8)
  {
    if n > 8 {
      assert Aligned(n, false, rem) == rem[n - 8..n];
    } else {
      assert Aligned(n, false, rem) == Zero(8 - n) + rem[..n];
    }
  }

  lemma {:induction false} LowByteIsTopReflected(n: nat, rem: Word)
    requires 0 < n <= |rem| && 8 <= |rem| && Clean(n, rem)
    ensures Aligned(n, true, rem) == Top(Reverse(rem[..n]), 8)
  {
    var a, t := Aligned(n, true, rem), Top(Reverse(rem[..n]), 8);
    forall j | 0 <= j < 8 ensures a[j] == t[j] {
      assert a[j] == rem[j];
      if n <= j {
        assert rem[j] == rem[n..][j - n];
      } else {
        assert t[j] == Reverse(rem[..n])[n - 1 - j] == rem[j];
      }
    }
  }

  lemma {:induction false} ReverseXor(a: Word, b: Word)
    requires |a| == |b|
    ensures Reverse(Xor(a, b)) == Xor(Reverse(a), Reverse(b))
  {
  }

  lemma {:induction false} IndexIsWhatMeets(n: nat, reflect: bool, rem: Word, x: Byte)
    requires 0 < n <= |rem| && 8 <= |rem|
    requires reflect ==> Clean(n, rem)
    ensures StreamOfByte(Index(n, reflect, rem, x), reflect)
         == Xor(StreamOfByte(x, reflect), Top(RegisterOf(n, reflect, rem), 8))
  {
    if reflect {
      LowByteIsTopReflected(n, rem);
    } else {
      AlignedIsTop(n, rem);
    }
    ReverseXor(ByteBits(x), Aligned(n, reflect, rem));
  }

  lemma {:induction false} ShiftOutShifts(n: nat, reflect: bool, rem: Word)
    requires 0 < n <= |rem|
    requires reflect ==> Clean(n, rem)
    ensures RegisterOf(n, reflect, ShiftOut(reflect, rem)) == Shl(RegisterOf(n, reflect, rem), 8)
    ensures reflect ==> Clean(n, ShiftOut(reflect, rem))
  {
    if reflect {
      assert forall j | n <= j < |rem| :: rem[j] == rem[n..][j - n];
    }
  }

  lemma {:induction false} XorInLayout(n: nat, reflect: bool, a: Word, b: Word)
    requires n <= |a| == |b|
    requires reflect ==> Clean(n, a) && Clean(n, b)
    ensures RegisterOf(n, reflect, Xor(a, b)) == Xor(RegisterOf(n, reflect, a), RegisterOf(n, reflect, b))
    ensures reflect ==> Clean(n, Xor(a, b))
  {
    if reflect {
      forall j | 0 <= j < |a| - n ensures !Xor(a, b)[n..][j] {
        assert a[n + j] == a[n..][j] && b[n + j] == b[n..][j];
      }
    }
  }

  /** One table lookup takes in a whole byte: for every width, also below eight bits, in both
      layouts, and whatever lies above bit n. */
  lemma {:induction false} LookupIsEightSteps(poly: Word, reflect: bool, rem: Word, x: Byte, t: Word)
    requires 0 < |poly| <= |rem| == |t| && 8 <= |rem|
    requires reflect ==> Clean(|poly|, rem)
    requires IsEntry(poly, reflect, Index(|poly|, reflect, rem, x), t)
    ensures RegisterOf(|poly|, reflect, Xor(ShiftOut(reflect, rem), t))
         == Run(poly, RegisterOf(|poly|, reflect, rem), StreamOfByte(x, reflect))
    ensures reflect ==> Clean(|poly|, Xor(ShiftOut(reflect, rem), t))
  {
    var n := |poly|;
    IndexIsWhatMeets(n, reflect, rem, x);
    ShiftOutShifts(n, reflect, rem);
    XorInLayout(n, reflect, ShiftOut(reflect, rem), t);
    TakeInTogether(poly, RegisterOf(n, reflect, rem), StreamOfByte(x, reflect));
  }

  function ReflectedByte(d: Byte, reflect: bool): (r: Byte)
  {
    if reflect then ByteOf(Reflected(8, ByteBits(d))) else d
  }

  lemma {:induction false} ReflectedByteInvolution(d: Byte, reflect: bool)
    ensures ReflectedByte(ReflectedByte(d, reflect), reflect) == d
  {
    if reflect {
      assert Reflected(8, Reflected(8, ByteBits(d))) == ByteBits(d);
      ByteOfBits(d);
    }
  }

  /** Storing the reflected division of d under the reflected d is storing the right entry. */
  lemma {:induction false} EntryStored(poly: Word, reflect: bool, d: Byte, remainder: Word)
    requires 0 < |poly| <= |remainder|
    requires remainder[..|poly|] == Run(poly, Zero(|poly|), Reverse(ByteBits(d)))
    ensures IsEntry(poly, reflect, ReflectedByte(d, reflect),
                    if reflect then Reflected(|poly|, remainder) else remainder)
  {
    if reflect {
      assert ByteBits(ReflectedByte(d, true)) == Reverse(ByteBits(d));
      ReverseInvolution(remainder[..|poly|]);
    }
  }

  /** The highest of the n lowest bits goes first. */
  lemma {:induction false} RunReversed(poly: Word, r: Word, w: Word, n: nat)
    requires |poly| == |r| > 0 && 0 < n <= |w|
    ensures Run(poly, r, Reverse(w[..n])) == Run(poly, Step(poly, r, w[n - 1]), Reverse(w[..n - 1]))
  {
    assert Reverse(w[..n])[1..] == Reverse(w[..n - 1]);
  }

  /** crc_table_t: one table per width, polynomial and reflection, filled on first use. */
  class CrcTable {
    const bits: nat
    const truncPoly: Word
    const reflect: bool
    const table: array<Word>
    var didInit: bool

    ghost predicate Valid()
      reads this, table
    {
      && 0 < bits <= |truncPoly| && 8 <= |truncPoly|
      && table.Length == 256
      && (didInit ==> Filled(256))
    }

    /** The entries of the first n dividends are in place. */
    ghost predicate Filled(n: nat)
      requires 0 < bits <= |truncPoly| && table.Length == 256 && n <= 256
      reads this, table
    {
      forall d: Byte | d < n ::
        var t := table[ReflectedByte(d, reflect)];
        |t| == |truncPoly| && IsEntry(truncPoly[..bits], reflect, ReflectedByte(d, reflect), t)
    }

    constructor (bits: nat, truncPoly: Word, reflect: bool)
      requires 0 < bits <= |truncPoly| && 8 <= |truncPoly|
      ensures Valid() && !didInit && fresh(table)
      ensures this.bits == bits && this.truncPoly == truncPoly && this.reflect == reflect
    {
      this.bits, this.truncPoly, this.reflect := bits, truncPoly, reflect;
      table := new Word[256](_ => Zero(|truncPoly|));
      didInit := false;
    }

    lemma {:induction false} EntryAt(d: Byte)
      requires Valid() && didInit
      ensures |table[d]| == |truncPoly| && IsEntry(truncPoly[..bits], reflect, d, table[d])
    {
      ReflectedByteInvolution(d, reflect);
      var e := ReflectedByte(d, reflect);
      assert ReflectedByte(e, reflect) == d;
    }

    /** One bit of a dividend. */
    method DivideBit(r: Word, bit: bool) returns (remainder: Word)
      requires Valid() && |r| == |truncPoly|
      ensures |remainder| == |truncPoly| && remainder[..bits] == Step(truncPoly[..bits], r[..bits], bit)
    {
      var hiBit := Unit(|truncPoly|, bits - 1);
      remainder := r;
      LowBitsStep(bits, truncPoly, remainder, bit);
      if bit {
        remainder := Xor(remainder, hiBit);
      }
      if remainder[bits - 1] {
        remainder := Xor(Shl(remainder, 1), truncPoly);
      } else {
        remainder := Shl(remainder, 1);
      }
    }

    /** The division of one dividend, bit by bit from its highest. */
    method Divide(dividend: Byte) returns (remainder: Word)
      requires Valid()
      ensures |remainder| == |truncPoly|
      ensures remainder[..bits] == Run(truncPoly[..bits], Zero(bits), Reverse(ByteBits(dividend)))
    {
      var dividendBits := ByteBits(dividend);
      ghost var poly := truncPoly[..bits];
      remainder := Zero(|truncPoly|);
      assert remainder[..bits] == Zero(bits);
      assert dividendBits[..8] == dividendBits;
      for mask := 8 downto 0
        invariant |remainder| == |truncPoly|
        invariant Run(poly, remainder[..bits], Reverse(dividendBits[..mask]))
               == Run(poly, Zero(bits), Reverse(dividendBits))
      {
        RunReversed(poly, remainder[..bits], dividendBits, mask + 1);
        remainder := DivideBit(remainder, dividendBits[mask]);
      }
    }

    /** Put the remainder of one dividend where the engine will look for it. */
    method Store(dividend: Byte, remainder: Word)
      requires Valid() && !didInit && Filled(dividend)
      requires |remainder| == |truncPoly|
      requires remainder[..bits] == Run(truncPoly[..bits], Zero(bits), Reverse(ByteBits(dividend)))
      modifies table
      ensures Valid() && Filled(dividend + 1)
    {
      var slot, entry := ByteBits(dividend), remainder;
      ByteOfBits(dividend);
      if reflect {
        slot := Reflect(8, slot);
        entry := Reflect(bits, remainder);
      }
      EntryStored(truncPoly[..bits], reflect, dividend, remainder);
      table[ByteOf(slot)] := entry;
      forall d: Byte | d < dividend ensures table[ReflectedByte(d, reflect)] == old(table[ReflectedByte(d, reflect)]) {
        ReflectedByteInvolution(d, reflect);
        ReflectedByteInvolution(dividend, reflect);
      }
    }

    method InitTable()
      requires Valid()
      modifies this, table
      ensures Valid() && didInit
    {
      if didInit {
        return;
      }
      var dividend: Byte, more := 0, true;
      while more
        invariant Valid() && !didInit
        invariant Filled(if more then dividend else 256)
        decreases more, 256 - dividend
      {
        var remainder := Divide(dividend);
        Store(dividend, remainder);
        dividend := if dividend == 255 then 0 else dividend + 1;
        more := dividend != 0;
      }
      didInit := true;
    }
  }
}
