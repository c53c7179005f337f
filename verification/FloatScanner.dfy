/** The digit loop of the floating-point parser in the classic locale: a saturating mantissa and a
    power of ten, and what they say about the decimal number that was written. */
module FloatScanner {
  import opened Decimal
  import opened NumberText

  /** The length of the longest prefix of digits. */
  function DigitRun(s: string): (k: nat)
    ensures k <= |s| && AllDigits(s[..k]) && (k < |s| ==> !IsDigit(s[k]))
  {
    if s == "" || !IsDigit(s[0]) then 0
    else
      var k := 1 + DigitRun(s[1..]);
      assert forall i | 0 < i < k :: s[i] == s[1..][..k - 1][i - 1];
      k
  }

  /** The digits before the decimal point. */
  function Whole(s: string): (a: string)
    ensures AllDigits(a) && |a| <= |s| && a == s[..|a|]
  {
    s[..DigitRun(s)]
  }

  predicate HasPoint(s: string) {
    |Whole(s)| < |s| && s[|Whole(s)|] == '.'
  }

  /** The digits after the decimal point. */
  function Fraction(s: string): (b: string)
    ensures AllDigits(b)
  {
    if HasPoint(s) then Whole(s[|Whole(s)| + 1..]) else ""
  }

  /** Where the digits end. */
  function Stop(s: string): (k: nat)
    ensures k <= |s|
  {
    |Whole(s)| + (if HasPoint(s) then 1 + |Fraction(s)| else 0)
  }

  predicate IsExponentMark(c: char) {
    c == 'e' || c == 'E'
  }

  /** What the loop accepts: a point with a digit on at least one side, unless an exponent mark
      follows the point, or digits alone, up to the end or an exponent mark. */
  predicate WellFormed(s: string) {
    && (Stop(s) == |s| || IsExponentMark(s[Stop(s)]))
    && (HasPoint(s) || Whole(s) != "")
    && s != "."
  }

  /** v with its decimal point moved k places to the right. */
  function Shifted(v: nat, k: nat): (r: nat)
  {
    if k == 0 then v else 10 * Shifted(v, k - 1)
  }

  /** The mantissa holds the leading digits of v, with `dropped` digits left off. */
  ghost predicate Approximates(mantissa: nat, dropped: nat, full: bool, v: nat, modulus: nat) {
    && mantissa < modulus
    && Shifted(mantissa, dropped) <= v < Shifted(mantissa + 1, dropped)
    && (!full ==> dropped == 0 && mantissa == v)
    && (full ==> 10 * mantissa + 9 >= modulus)
  }

  lemma {:induction false} DigitKept(mantissa: nat, dropped: nat, v: nat, d: nat, modulus: nat)
    requires d < 10 && Approximates(mantissa, dropped, false, v, modulus)
    requires 10 * mantissa + d < modulus
    ensures Approximates(10 * mantissa + d, dropped, false, 10 * v + d, modulus)
  {
  }

  lemma {:induction false} DigitDropped(mantissa: nat, dropped: nat, full: bool, v: nat, d: nat, modulus: nat)
    requires d < 10 && Approximates(mantissa, dropped, full, v, modulus)
    requires full || 10 * mantissa + d >= modulus
    ensures Approximates(mantissa, dropped + 1, true, 10 * v + d, modulus)
  {
  }

  /** Whether one more digit fits, decided after the product has wrapped. */
  lemma {:induction false} RoomTest(mantissa: nat, d: nat, modulus: nat)
    requires d < 10 <= modulus && mantissa < modulus
    ensures var tmp := mantissa * 10 % modulus;
            (tmp / 10 == mantissa && modulus - 1 - d >= tmp <==> 10 * mantissa + d < modulus)
            && (10 * mantissa < modulus ==> tmp == 10 * mantissa)
  {
    WrappedProduct(mantissa, 10, modulus);
    if 10 * mantissa < modulus {
      SmallMod(mantissa * 10, modulus);
    }
  }

  /** One digit: kept if the mantissa has room for it, otherwise dropped for good. */
  method AddDigit(c: char, mantissa: nat, full: bool, modulus: nat, ghost dropped: nat, ghost v: nat)
      returns (kept: bool, mantissa': nat)
    requires IsDigit(c) && modulus >= 10 && Approximates(mantissa, dropped, full, v, modulus)
    ensures kept ==> !full
    ensures Approximates(mantissa', if kept then dropped else dropped + 1, !kept, 10 * v + DigitValue(c), modulus)
  {
    var tmpMantissa := mantissa * 10 % modulus;
    RoomTest(mantissa, DigitValue(c), modulus);
    if full || tmpMantissa / 10 != mantissa || modulus - 1 - DigitValue(c) < tmpMantissa {
      DigitDropped(mantissa, dropped, full, v, DigitValue(c), modulus);
      return false, mantissa;
    }
    DigitKept(mantissa, dropped, v, DigitValue(c), modulus);
    return true, tmpMantissa + DigitValue(c);
  }

  lemma {:induction false} RunEnds(s: string, k: nat)
    requires k <= |s| && AllDigits(s[..k]) && (k < |s| ==> !IsDigit(s[k]))
    ensures DigitRun(s) == k
  {
  }

  /** What the loop knows before and after the decimal point. */
  ghost predicate Scanned(s: string, begin: nat, foundDecimal: bool, a: string, b: string)
  {
    && begin <= |s| && AllDigits(a) && AllDigits(b)
    && (!foundDecimal ==> a == s[..begin] && b == "")
    && (foundDecimal ==> HasPoint(s) && a == Whole(s) && |a| + 1 + |b| == begin && b == s[|a| + 1..begin] && s != ".")
  }

  /** Where the digits stop, the parts of the text are the ones scanned. */
  lemma {:induction false} ScannedParts(s: string, begin: nat, foundDecimal: bool, a: string, b: string)
    requires Scanned(s, begin, foundDecimal, a, b)
    requires begin < |s| ==> !IsDigit(s[begin])
    ensures Whole(s) == a
    ensures !foundDecimal ==> HasPoint(s) == (begin < |s| && s[begin] == '.')
    ensures foundDecimal || !HasPoint(s) ==> Fraction(s) == b && Stop(s) == begin
  {
    if foundDecimal {
      var rest := s[|a| + 1..];
      assert rest[..|b|] == b;
      RunEnds(rest, |b|);
    } else {
      RunEnds(s, begin);
    }
  }

  lemma {:induction false} NextWhole(s: string, begin: nat, a: string)
    requires Scanned(s, begin, false, a, "") && begin < |s| && IsDigit(s[begin])
    ensures Scanned(s, begin + 1, false, a + [s[begin]], "")
  {
    assert s[..begin + 1] == s[..begin] + [s[begin]];
  }

  lemma {:induction false} NextFraction(s: string, begin: nat, a: string, b: string)
    requires Scanned(s, begin, true, a, b) && begin < |s| && IsDigit(s[begin])
    ensures Scanned(s, begin + 1, true, a, b + [s[begin]])
  {
    assert s[|a| + 1..begin + 1] == s[|a| + 1..begin] + [s[begin]];
  }

  lemma {:induction false} NextPoint(s: string, begin: nat, a: string)
    requires Scanned(s, begin, false, a, "") && begin < |s| && s[begin] == '.' && s != "."
    ensures Scanned(s, begin + 1, true, a, "")
  {
    ScannedParts(s, begin, false, a, "");
  }

  ghost function MoreFraction(a: string, b: string, c: char, v: nat): (b': string)
    requires AllDigits(a) && AllDigits(b) && IsDigit(c) && v == DecimalValue(a + b)
    ensures b' == b + [c] && AllDigits(b') && DecimalValue(a + b') == 10 * v + DigitValue(c)
  {
    ValueSnoc(a + b, c);
    assert a + (b + [c]) == (a + b) + [c];
    b + [c]
  }

  ghost function MoreWhole(a: string, c: char, v: nat): (a': string)
    requires AllDigits(a) && IsDigit(c) && v == DecimalValue(a + "")
    ensures a' == a + [c] && AllDigits(a') && DecimalValue(a' + "") == 10 * v + DigitValue(c)
  {
    ValueSnoc(a, c);
    assert a + "" == a && (a + [c]) + "" == a + [c];
    a + [c]
  }

  lemma {:induction false} ValueSnoc(s: string, c: char)
    requires AllDigits(s) && IsDigit(c)
    ensures AllDigits(s + [c]) && DecimalValue(s + [c]) == 10 * DecimalValue(s) + DigitValue(c)
  {
    assert (s + [c])[..|s|] == s;
  }

  /** The variables of the loop: position, mantissa, power of ten and flags. */
  datatype Scan = Scan(begin: nat, mantissa: nat, powOf10: int, full: bool, foundDecimal: bool, foundNumber: bool)

  ghost predicate Invariant(s: string, st: Scan, a: string, b: string, modulus: nat) {
    && Scanned(s, st.begin, st.foundDecimal, a, b)
    && (!st.foundDecimal ==> st.foundNumber == (st.begin > 0))
    && 0 <= st.powOf10 + |b|
    && Approximates(st.mantissa, st.powOf10 + |b|, st.full, DecimalValue(a + b), modulus)
  }

  /** A digit before the decimal point: dropping it raises the power of ten. */
  method WholeDigit(s: string, st: Scan, modulus: nat, ghost a: string) returns (st': Scan)
    requires modulus >= 10 && Invariant(s, st, a, "", modulus)
    requires !st.foundDecimal && st.begin < |s| && IsDigit(s[st.begin])
    ensures Invariant(s, st', a + [s[st.begin]], "", modulus)
    ensures st'.begin == st.begin + 1 && !st'.foundDecimal
  {
    var c, kept, mantissa := s[st.begin], false, 0;
    NextWhole(s, st.begin, a);
    ghost var v := DecimalValue(a + "");
    ghost var a' := MoreWhole(a, c, v);
    kept, mantissa := AddDigit(c, st.mantissa, st.full, modulus, st.powOf10, v);
    st' := st.(begin := st.begin + 1, mantissa := mantissa, foundNumber := true);
    if !kept {
      st' := st'.(full := true, powOf10 := st.powOf10 + 1);
    }
  }

  /** A digit after the decimal point: keeping it lowers the power of ten. */
  method FractionDigit(s: string, st: Scan, modulus: nat, ghost a: string, ghost b: string) returns (st': Scan)
    requires modulus >= 10 && Invariant(s, st, a, b, modulus)
    requires st.foundDecimal && st.begin < |s| && IsDigit(s[st.begin])
    ensures Invariant(s, st', a, b + [s[st.begin]], modulus)
    ensures st'.begin == st.begin + 1 && st'.foundDecimal
  {
    var c, kept, mantissa := s[st.begin], false, 0;
    NextFraction(s, st.begin, a, b);
    ghost var v := DecimalValue(a + b);
    ghost var b' := MoreFraction(a, b, c, v);
    kept, mantissa := AddDigit(c, st.mantissa, st.full, modulus, st.powOf10 + |b|, v);
    st' := st.(begin := st.begin + 1, mantissa := mantissa);
    if !kept {
      st' := st'.(full := true);
    } else {
      st' := st'.(powOf10 := st.powOf10 - 1, foundNumber := true);
    }
  }

  /** After the point only a digit or an exponent mark can follow. */
  lemma {:induction false} RefusedFraction(s: string, begin: nat, a: string, b: string)
    requires Scanned(s, begin, true, a, b) && begin < |s| && !IsDigit(s[begin]) && !IsExponentMark(s[begin])
    ensures !WellFormed(s)
  {
    ScannedParts(s, begin, true, a, b);
  }

  /** Before the point nothing else can follow, and an exponent mark only after a digit. */
  lemma {:induction false} RefusedWhole(s: string, begin: nat, a: string, foundNumber: bool)
    requires Scanned(s, begin, false, a, "") && begin < |s| && foundNumber == (begin > 0)
    requires !IsDigit(s[begin]) && s[begin] != '.' && !(IsExponentMark(s[begin]) && foundNumber)
    ensures !WellFormed(s)
  {
    ScannedParts(s, begin, false, a, "");
  }

  lemma {:induction false} LonePoint(s: string)
    requires |s| == 1 && s[0] == '.'
    ensures !WellFormed(s)
  {
    assert s == ".";
  }

  /** The text up to its end or an exponent mark is well formed. */
  lemma {:induction false} Accepted(s: string, st: Scan, a: string, b: string, modulus: nat)
    requires s != "" && Invariant(s, st, a, b, modulus)
    requires st.begin < |s| ==> IsExponentMark(s[st.begin]) && (st.foundDecimal || st.foundNumber)
    ensures WellFormed(s) && st.begin == Stop(s) && a == Whole(s) && b == Fraction(s)
  {
    ScannedParts(s, st.begin, st.foundDecimal, a, b);
  }

  lemma {:induction false} PointTaken(s: string, st: Scan, a: string, modulus: nat)
    requires Invariant(s, st, a, "", modulus) && !st.foundDecimal && st.begin < |s| && s[st.begin] == '.' && s != "."
    ensures Invariant(s, st.(begin := st.begin + 1, foundDecimal := true), a, "", modulus)
  {
    NextPoint(s, st.begin, a);
  }

  /** What a character does to the loop: it goes on, ends at an exponent mark, or refuses the text. */
  datatype Turn = GoesOn | Ends | Refuses

  /** One round of the loop. */
  method ScanOne(s: string, st: Scan, modulus: nat, ghost a: string, ghost b: string)
      returns (turn: Turn, st': Scan, ghost a': string, ghost b': string)
    requires modulus >= 10 && Invariant(s, st, a, b, modulus) && st.begin < |s|
    ensures turn.GoesOn? ==> Invariant(s, st', a', b', modulus) && st'.begin == st.begin + 1
    ensures turn.Ends? ==> IsExponentMark(s[st.begin]) && (st.foundDecimal || st.foundNumber)
    ensures turn.Refuses? ==> !WellFormed(s)
  {
    var c := s[st.begin];
    st', a', b' := st, a, b;
    if st.foundDecimal {
      if IsExponentMark(c) {
        return Ends, st, a, b;
      }
      if !IsDigit(c) {
        RefusedFraction(s, st.begin, a, b);
        return Refuses, st, a, b;
      }
      st' := FractionDigit(s, st, modulus, a, b);
      b' := b + [c];
    } else if IsDigit(c) {
      st' := WholeDigit(s, st, modulus, a);
      a' := a + [c];
    } else if c == '.' {
      if !st.foundNumber && st.begin + 1 == |s| {
        LonePoint(s);
        return Refuses, st, a, b;
      }
      PointTaken(s, st, a, modulus);
      st' := st.(begin := st.begin + 1, foundDecimal := true);
    } else if IsExponentMark(c) && st.foundNumber {
      return Ends, st, a, b;
    } else {
      RefusedWhole(s, st.begin, a, st.foundNumber);
      return Refuses, st, a, b;
    }
    turn := GoesOn;
  }

  method ScanDigits(s: string, modulus: nat) returns (ok: bool, st: Scan)
    requires s != "" && modulus >= 10
    ensures ok <==> WellFormed(s)
    ensures ok ==> st.begin == Stop(s) && 0 <= st.powOf10 + |Fraction(s)|
    ensures ok ==>
      Approximates(st.mantissa, st.powOf10 + |Fraction(s)|, st.full, DecimalValue(Whole(s) + Fraction(s)), modulus)
  {
    st := Scan(0, 0, 0, false, false, false);
    ghost var a, b := "", "";
    while st.begin != |s|
      invariant Invariant(s, st, a, b, modulus)
      decreases |s| - st.begin
    {
      var turn, next;
      ghost var a', b';
      turn, next, a', b' := ScanOne(s, st, modulus, a, b);
      if turn.Refuses? {
        return false, st;
      }
      if turn.Ends? {
        break;
      }
      st, a, b := next, a', b';
    }
    Accepted(s, st, a, b, modulus);
    ok := true;
  }

  // ----- In terms of real numbers -----

  /** x times ten to the power k. */
  function Scale(x: real, k: int): (r: real)
    decreases if k >= 0 then k else -k
  {
    if k == 0 then x else if k > 0 then 10.0 * Scale(x, k - 1) else Scale(x, k + 1) / 10.0
  }

  /** The number written before the exponent. */
  function Written(s: string): (r: real)
  {
    Scale(DecimalValue(Whole(s) + Fraction(s)) as real, -|Fraction(s)|)
  }

  lemma {:induction false} ScaleOrder(x: real, y: real, k: int)
    ensures x < y ==> Scale(x, k) < Scale(y, k)
    ensures x == y ==> Scale(x, k) == Scale(y, k)
    decreases if k >= 0 then k else -k
  {
    if k > 0 {
      ScaleOrder(x, y, k - 1);
    } else if k < 0 {
      ScaleOrder(x, y, k + 1);
    }
  }

  lemma {:induction false} ScaleBack(x: real, k: nat, f: int)
    requires f >= 0
    ensures Scale(Scale(x, k), -f) == Scale(x, k - f)
    decreases f
  {
    if f > 0 {
      ScaleBack(x, k, f - 1);
      assert -f + 1 == -(f - 1);
      if k - f >= 0 {
        assert Scale(x, k - f + 1) == 10.0 * Scale(x, k - f);
      }
    }
  }

  lemma {:induction false} ShiftedScale(v: nat, k: nat)
    ensures Scale(v as real, k) == Shifted(v, k) as real
  {
    if k > 0 {
      ShiftedScale(v, k - 1);
    }
  }

  /** Mantissa and power bracket the number that was written, and equal it unless the mantissa is
      full; then they are as close as a mantissa of that size can be. */
  lemma {:induction false} MantissaBrackets(s: string, mantissa: nat, powOf10: int, full: bool, modulus: nat)
    requires 0 <= powOf10 + |Fraction(s)|
    requires Approximates(mantissa, powOf10 + |Fraction(s)|, full, DecimalValue(Whole(s) + Fraction(s)), modulus)
    ensures Scale(mantissa as real, powOf10) <= Written(s) < Scale((mantissa + 1) as real, powOf10)
    ensures !full ==> Scale(mantissa as real, powOf10) == Written(s)
  {
    var v, f: int := DecimalValue(Whole(s) + Fraction(s)), |Fraction(s)|;
    var dropped := powOf10 + f;
    ShiftedScale(mantissa, dropped);
    ShiftedScale(mantissa + 1, dropped);
    ScaleBack(mantissa as real, dropped, f);
    ScaleBack((mantissa + 1) as real, dropped, f);
    ScaleOrder(Shifted(mantissa, dropped) as real, v as real, -f);
    ScaleOrder(v as real, Shifted(mantissa + 1, dropped) as real, -f);
  }

  // ----- The texts that are accepted -----

  lemma {:induction false} RunIs(a: string, rest: string)
    requires AllDigits(a) && (rest == "" || !IsDigit(rest[0]))
    ensures DigitRun(a + rest) == |a| && Whole(a + rest) == a
  {
    if a == "" {
      assert a + rest == rest;
    } else {
      RunIs(a[1..], rest);
      assert (a + rest)[1..] == a[1..] + rest;
    }
  }

  /** A text as digits, perhaps a point and more digits, and a rest that is neither. */
  function Joined(a: string, point: bool, b: string, rest: string): (s: string)
  {
    a + ((if point then "." + b else "") + rest)
  }

  /** The rest does not go on with what stands before it. */
  predicate RestEnds(point: bool, b: string, rest: string) {
    (point || b == "") && (rest == "" || (!IsDigit(rest[0]) && (point || rest[0] != '.')))
  }

  lemma {:induction false} PartsAre(a: string, point: bool, b: string, rest: string)
    requires AllDigits(a) && AllDigits(b) && RestEnds(point, b, rest)
    ensures var s := Joined(a, point, b, rest);
      Whole(s) == a && HasPoint(s) == point && Fraction(s) == b && Stop(s) == |s| - |rest|
  {
    var s, tail := Joined(a, point, b, rest), (if point then "." + b else "") + rest;
    RunIs(a, tail);
    assert s[|a|..] == tail;
    if point {
      RunIs(b, rest);
      assert s[|a| + 1..] == b + rest;
    }
  }

  lemma {:induction false} SplitAt(s: string, a: string)
    requires a <= s
    ensures s == a + s[|a|..]
  {
  }

  lemma {:induction false} PointFirst(s: string)
    requires s != "" && s[0] == '.'
    ensures s == "." + s[1..]
  {
  }

  lemma {:induction false} JoinedAgain(a: string, b: string, rest: string)
    ensures a + ("." + (b + rest)) == Joined(a, true, b, rest)
  {
    assert "." + (b + rest) == ("." + b) + rest;
  }

  lemma {:induction false} AfterPoint(s: string) returns (rest: string)
    requires HasPoint(s)
    ensures s == Joined(Whole(s), true, Fraction(s), rest) && (rest == "" || !IsDigit(rest[0]))
  {
    var a, b := Whole(s), Fraction(s);
    var tail := s[|a|..];
    rest := tail[1..][|b|..];
    assert tail[1..] == s[|a| + 1..];
    SplitAt(s, a);
    PointFirst(tail);
    SplitAt(tail[1..], b);
    JoinedAgain(a, b, rest);
  }

  /** Every text has such parts. */
  lemma {:induction false} HasParts(s: string) returns (a: string, point: bool, b: string, rest: string)
    ensures AllDigits(a) && AllDigits(b) && RestEnds(point, b, rest) && s == Joined(a, point, b, rest)
  {
    a, point, b := Whole(s), HasPoint(s), Fraction(s);
    if point {
      rest := AfterPoint(s);
    } else {
      rest := s[|a|..];
      SplitAt(s, a);
      assert "" + rest == rest;
    }
  }

  /** A text is accepted if nothing follows its digits but an exponent, marked by 'e' or 'E'; if it has a point or
      digits before it; and if it is not a point alone. */
  lemma {:induction false} AcceptedExactly(a: string, point: bool, b: string, rest: string)
    requires AllDigits(a) && AllDigits(b) && RestEnds(point, b, rest)
    ensures WellFormed(Joined(a, point, b, rest))
       <==> && (rest == "" || rest[0] == 'e' || rest[0] == 'E') && (point || a != "")
            && !(point && a == "" && b == "" && rest == "")
  {
    var s := Joined(a, point, b, rest);
    PartsAre(a, point, b, rest);
    if rest != "" {
      assert s[|s| - |rest|] == rest[0];
    }
    if s == "." {
      assert Whole(s) == "" && |s| == 1;
    }
  }

  lemma {:induction false} TenTimes(p: real, k: nat)
    requires p == Pow10(k) as real
    ensures Pow10(k + 1) as real == 10.0 * p
  {
  }

  /** Moving the point k places to the left divides by ten to the power k. */
  lemma {:induction false} ScaleDown(x: real, k: nat)
    ensures Scale(x, -(k as int)) * Pow10(k) as real == x
  {
    if k > 0 {
      ScaleDown(x, k - 1);
      assert -(k as int) + 1 == -(k - 1);
      TenTimes(Pow10(k - 1) as real, k - 1);
      Tenth(Scale(x, -(k - 1)), Pow10(k - 1) as real);
    }
  }

  lemma {:induction false} Tenth(y: real, p: real)
    ensures y / 10.0 * (10.0 * p) == y * p
  {
  }

  lemma {:induction false} WrittenParts(a: string, point: bool, b: string, rest: string)
    requires AllDigits(a) && AllDigits(b) && RestEnds(point, b, rest)
    ensures Written(Joined(a, point, b, rest)) == Scale(DecimalValue(a + b) as real, -|b|)
  {
    PartsAre(a, point, b, rest);
  }

  lemma {:induction false} ScaledDown(w: real, v: real, k: nat)
    requires w == Scale(v, -(k as int))
    ensures w * Pow10(k) as real == v
  {
    ScaleDown(v, k);
  }

  /** The number written is that of all its digits, divided by ten for each digit behind the point. */
  lemma {:induction false} WrittenExactly(a: string, point: bool, b: string, rest: string, w: real, k: nat)
    requires AllDigits(a) && AllDigits(b) && RestEnds(point, b, rest)
    requires w == Written(Joined(a, point, b, rest)) && k == |b|
    ensures AllDigits(a + b) && w * Pow10(k) as real == DecimalValue(a + b) as real
  {
    WrittenParts(a, point, b, rest);
    ScaledDown(w, DecimalValue(a + b) as real, k);
  }
}
