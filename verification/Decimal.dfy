/** Decimal notation, and what a locale's digit grouping makes of it. */
module Decimal {
  const CHAR_MAX := 127

  function Pow10(k: nat): (p: nat)
    ensures p >= 1
  {
    if k == 0 then 1 else 10 * Pow10(k - 1)
  }

  predicate IsDigit(c: char) {
    '0' <= c <= '9'
  }

  predicate AllDigits(s: string) {
    forall i | 0 <= i < |s| :: IsDigit(s[i])
  }

  function DigitChar(d: nat): (c: char)
    requires d < 10
    ensures IsDigit(c) && DigitValue(c) == d
  {
    (d + '0' as int) as char
  }

  function DigitValue(c: char): (d: nat)
    requires IsDigit(c)
    ensures d < 10
  {
    c as int - '0' as int
  }

  /** The number an all-digit string denotes; leading zeros are allowed. */
  function DecimalValue(s: string): (v: nat)
    requires AllDigits(s)
  {
    if s == "" then 0 else 10 * DecimalValue(s[..|s| - 1]) + DigitValue(s[|s| - 1])
  }

  /** The decimal numeral of n without leading zeros. */
  function Numeral(n: nat): (s: string)
    ensures s != "" && AllDigits(s)
  {
    (if n / 10 == 0 then "" else Numeral(n / 10)) + [DigitChar(n % 10)]
  }

  function DigitCount(n: nat): (k: nat)
    ensures k >= 1
  {
    if n / 10 == 0 then 1 else 1 + DigitCount(n / 10)
  }

  lemma {:induction false} NumeralValue(n: nat)
    ensures DecimalValue(Numeral(n)) == n && |Numeral(n)| == DigitCount(n)
  {
    var s := Numeral(n);
    if n / 10 == 0 {
      assert s[..|s| - 1] == "";
    } else {
      NumeralValue(n / 10);
      assert s[..|s| - 1] == Numeral(n / 10);
    }
  }

  lemma {:induction false} NumeralFirstDigit(n: nat)
    ensures n > 0 ==> Numeral(n)[0] != '0'
  {
    if n / 10 > 0 {
      NumeralFirstDigit(n / 10);
    }
  }

  lemma {:induction false} NumeralOfCanonical(s: string)
    requires AllDigits(s) && s != "" && (|s| == 1 || s[0] != '0')
    ensures Numeral(DecimalValue(s)) == s
  {
    var front, d := s[..|s| - 1], DigitValue(s[|s| - 1]);
    assert DecimalValue(s) / 10 == DecimalValue(front) && DecimalValue(s) % 10 == d;
    assert s == front + [DigitChar(d)];
    if front != "" {
      NumeralOfCanonical(front);
      if DecimalValue(front) == 0 {
        ZeroLeads(front);
      }
    }
  }

  /** Numerals are the only digit strings without superfluous leading zeros. */
  lemma {:induction false} NumeralUnique(s: string)
    requires AllDigits(s) && s != ""
    ensures Numeral(DecimalValue(s)) == s <==> |s| == 1 || s[0] != '0'
  {
    var n := DecimalValue(s);
    if |s| == 1 || s[0] != '0' {
      NumeralOfCanonical(s);
    } else {
      NumeralFirstDigit(n);
      if n == 0 {
        assert |Numeral(n)| == 1;
      }
    }
  }

  lemma {:induction false} ZeroLeads(s: string)
    requires AllDigits(s) && s != "" && DecimalValue(s) == 0
    ensures s[0] == '0'
  {
    if |s| > 1 {
      ZeroLeads(s[..|s| - 1]);
    }
  }

  lemma {:induction false} TimesTen(a: nat, k: nat)
    ensures 10 * (a * Pow10(k)) == a * Pow10(k + 1)
  {
  }

  lemma {:induction false} PrependDigit(c: char, s: string)
    requires IsDigit(c) && AllDigits(s)
    ensures AllDigits([c] + s) && DecimalValue([c] + s) == DigitValue(c) * Pow10(|s|) + DecimalValue(s)
    decreases |s|
  {
    if s == "" {
      assert [c] + s == [c] && [c][..0] == "";
    } else {
      var k := |s| - 1;
      PrependDigit(c, s[..k]);
      assert ([c] + s)[..k + 1] == [c] + s[..k];
      TimesTen(DigitValue(c), k);
    }
  }

  lemma {:induction false} ConcatValue(a: string, b: string)
    requires AllDigits(a) && AllDigits(b)
    ensures AllDigits(a + b) && DecimalValue(a + b) >= DecimalValue(b)
    ensures DecimalValue(a + b) == DecimalValue(a) * Pow10(|b|) + DecimalValue(b)
    decreases |b|
  {
    if b == "" {
      assert a + b == a;
    } else {
      var k := |b| - 1;
      ConcatValue(a, b[..k]);
      assert (a + b)[..|a| + k] == a + b[..k];
      TimesTen(DecimalValue(a), k);
    }
  }

  lemma {:induction false} DigitCountBounds(n: nat)
    ensures n < Pow10(DigitCount(n))
    ensures n > 0 ==> Pow10(DigitCount(n) - 1) <= n
  {
    if n / 10 != 0 {
      DigitCountBounds(n / 10);
    }
  }

  lemma {:induction false} DigitCountMonotonic(m: nat, n: nat)
    requires m <= n
    ensures DigitCount(m) <= DigitCount(n)
  {
    if m / 10 != 0 {
      DigitCountMonotonic(m / 10, n / 10);
    }
  }

  // ----- Digit grouping -----

  /** The classic locale, or one with a grouping string (its characters as signed numbers) and a
      thousands separator. */
  datatype Locale = Classic | Named(grouping: seq<int>, separator: char) {
    /** Whether numbers are grouped at all. */
    predicate Groups() {
      Named? && grouping != [] && grouping[0] > 0
    }

    ghost predicate Valid() {
      Named? ==> forall i | 0 <= i < |grouping| :: -128 <= grouping[i] <= CHAR_MAX
    }
  }

  /** The size of a group when printing: the last one repeats, and a size that is not positive
      stands for an unlimited group. */
  function GroupSize(grouping: seq<int>, group: nat): (size: int)
    requires grouping != []
    ensures size > 0
  {
    var g := grouping[if group < |grouping| then group else |grouping| - 1];
    if g <= 0 then CHAR_MAX else g
  }

  /** The numeral of n with separators, when its last digit is to go into the given group, which
      has room for `left` more digits. */
  function GroupedFrom(n: nat, grouping: seq<int>, separator: char, group: nat, left: nat): (s: string)
    requires grouping != []
    ensures s != ""
    decreases n
  {
    var group' := if left == 0 then group + 1 else group;
    var left' := (if left == 0 then GroupSize(grouping, group + 1) else left) - 1;
    (if n / 10 == 0 then "" else GroupedFrom(n / 10, grouping, separator, group', left'))
    + [DigitChar(n % 10)]
    + (if left == 0 then [separator] else "")
  }

  /** What is printed for n in a locale. */
  function Printed(n: nat, loc: Locale): (s: string)
    ensures s != ""
  {
    if loc.Groups() then GroupedFrom(n, loc.grouping, loc.separator, 0, loc.grouping[0]) else Numeral(n)
  }

  function Without(s: string, c: char): (t: string)
  {
    if s == "" then "" else Without(s[..|s| - 1], c) + (if s[|s| - 1] == c then "" else [s[|s| - 1]])
  }

  /** Taking the separators out leaves the plain numeral. */
  lemma {:induction false} SeparatorsRemoved(n: nat, grouping: seq<int>, separator: char, group: nat, left: nat)
    requires grouping != [] && !IsDigit(separator)
    ensures Without(GroupedFrom(n, grouping, separator, group, left), separator) == Numeral(n)
    decreases n
  {
    var front, group', left' := GroupedParts(n, grouping, separator, group, left);
    if n / 10 != 0 {
      SeparatorsRemoved(n / 10, grouping, separator, group', left');
    }
    WithoutDigit(front, n % 10, separator);
    if left == 0 {
      WithoutSnoc(front + [DigitChar(n % 10)], separator, separator);
    }
  }

  /** What stands before the last digit, and that digit with the separator it may have. */
  lemma {:induction false} GroupedParts(n: nat, grouping: seq<int>, separator: char, group: nat, left: nat)
    returns (front: string, group': nat, left': nat)
    requires grouping != []
    ensures front == if n / 10 == 0 then "" else GroupedFrom(n / 10, grouping, separator, group', left')
    ensures GroupedFrom(n, grouping, separator, group, left)
         == if left == 0 then (front + [DigitChar(n % 10)]) + [separator] else front + [DigitChar(n % 10)]
  {
    group' := if left == 0 then group + 1 else group;
    left' := (if left == 0 then GroupSize(grouping, group + 1) else left) - 1;
    front := if n / 10 == 0 then "" else GroupedFrom(n / 10, grouping, separator, group', left');
    assert (front + [DigitChar(n % 10)]) + "" == front + [DigitChar(n % 10)];
  }

  lemma {:induction false} WithoutDigit(s: string, d: nat, c: char)
    requires d < 10 && !IsDigit(c)
    ensures Without(s + [DigitChar(d)], c) == Without(s, c) + [DigitChar(d)]
  {
    WithoutSnoc(s, DigitChar(d), c);
  }

  lemma {:induction false} WithoutSnoc(s: string, x: char, c: char)
    ensures Without(s + [x], c) == Without(s, c) + (if x == c then "" else [x])
  {
    assert (s + [x])[..|s|] == s;
  }

  lemma {:induction false} WithoutNothing(s: string, c: char)
    requires AllDigits(s) && !IsDigit(c)
    ensures Without(s, c) == s
    decreases |s|
  {
    if s != "" {
      WithoutNothing(s[..|s| - 1], c);
      assert s == s[..|s| - 1] + [s[|s| - 1]];
    }
  }

  lemma {:induction false} GroupedLength(n: nat, grouping: seq<int>, separator: char, group: nat, left: nat)
    requires grouping != []
    ensures |GroupedFrom(n, grouping, separator, group, left)| <= 2 * DigitCount(n) - (if left == 0 then 0 else 1)
    decreases n
  {
    if n / 10 != 0 {
      var group' := if left == 0 then group + 1 else group;
      var left' := (if left == 0 then GroupSize(grouping, group + 1) else left) - 1;
      GroupedLength(n / 10, grouping, separator, group', left');
    }
  }

  /** No grouping makes a number longer than twice its digits less one. */
  lemma {:induction false} PrintedLength(n: nat, loc: Locale)
    ensures |Printed(n, loc)| <= 2 * DigitCount(n) - 1
  {
    if loc.Groups() {
      GroupedLength(n, loc.grouping, loc.separator, 0, loc.grouping[0]);
    } else {
      NumeralValue(n);
    }
  }

  /** A group with enough room for the rest of the number holds it without separators. */
  lemma {:induction false} RestFits(n: nat, grouping: seq<int>, separator: char, group: nat, left: nat)
    requires grouping != [] && DigitCount(n) <= left
    ensures GroupedFrom(n, grouping, separator, group, left) == Numeral(n)
    decreases n
  {
    if n / 10 != 0 {
      RestFits(n / 10, grouping, separator, group, left - 1);
    }
  }
}
