/** Printing and parsing of integers of a fixed width, digit by digit from the right. */
module NumberText {
  import opened Basics
  import opened Decimal

  /** Unsigned arithmetic of `bits` bits wraps around at this number. The two static assertions of
      the printer bound the width: an unlimited group is never filled. */
  ghost predicate Width(bits: nat) {
    8 <= bits && Digits10(bits) < CHAR_MAX
  }

  /** numeric_limits::digits10 of a type with `bits` value bits: the number of decimal digits that
      always fit. */
  function Digits10(bits: nat): (d: nat)
  {
    DigitCount(Pow2(bits)) - 1
  }

  lemma {:induction false} Digits10Largest(bits: nat)
    ensures Pow10(Digits10(bits)) <= Pow2(bits) < Pow10(Digits10(bits) + 1)
  {
    DigitCountBounds(Pow2(bits));
  }

  /** The length of the buffer a number is printed into. */
  function SourceLength(valueBits: nat, isSigned: bool): (n: nat)
  {
    (if isSigned then 1 else 0) + 1 + 2 * Digits10(valueBits)
  }

  lemma {:induction false} Pow10Order(j: nat, k: nat)
    requires j <= k
    ensures Pow10(j) <= Pow10(k)
    decreases k
  {
    if j < k {
      Pow10Order(j, k - 1);
    }
  }

  /** Twice the digits that are guaranteed, one more, and one for the sign. */
  lemma {:induction false} SourceLengthExactly(valueBits: nat, isSigned: bool, d: nat)
    requires Pow10(d) <= Pow2(valueBits) < Pow10(d + 1)
    ensures SourceLength(valueBits, isSigned) == d + d + if isSigned then 2 else 1
  {
    var k := Digits10(valueBits);
    Digits10Largest(valueBits);
    if d < k {
      Pow10Order(d + 1, k);
    } else if k < d {
      Pow10Order(k + 1, d);
    }
  }

  lemma {:induction false} PrintedFits(n: nat, valueBits: nat, loc: Locale)
    requires n <= Pow2(valueBits)
    ensures |Printed(n, loc)| <= 1 + 2 * Digits10(valueBits)
  {
    PrintedLength(n, loc);
    DigitCountMonotonic(n, Pow2(valueBits));
  }

  // ----- lcast_put_unsigned -----

  /** Writes n right-aligned up to `finish` and returns where it starts. */
  method PutUnsigned(param: nat, loc: Locale, buf: array<char>, finish: nat) returns (start: nat)
    requires |Printed(param, loc)| <= finish <= buf.Length
    modifies buf
    ensures start == finish - |Printed(param, loc)| && buf[start..finish] == Printed(param, loc)
    ensures forall i | 0 <= i < start || finish <= i < buf.Length :: buf[i] == old(buf[i])
  {
    if loc.Groups() {
      start := PutGrouped(param, loc.grouping, loc.separator, buf, finish);
    } else {
      start := PutPlain(param, buf, finish);
    }
  }

  /** One character to the left of what is already written. */
  method PutChar(c: char, buf: array<char>, start: nat, finish: nat, ghost done: string)
      returns (start': nat, ghost done': string)
    requires 0 < start <= finish <= buf.Length && buf[start..finish] == done
    modifies buf
    ensures start' == start - 1 && done' == [c] + done && buf[start'..finish] == done'
    ensures forall i | 0 <= i < buf.Length && i != start' :: buf[i] == old(buf[i])
  {
    start' := start - 1;
    buf[start'] := c;
    done' := [c] + done;
  }

  method PutPlain(param: nat, buf: array<char>, finish: nat) returns (start: nat)
    requires |Numeral(param)| <= finish <= buf.Length
    modifies buf
    ensures start == finish - |Numeral(param)| && buf[start..finish] == Numeral(param)
    ensures forall i | 0 <= i < start || finish <= i < buf.Length :: buf[i] == old(buf[i])
  {
    var n, more := param, true;
    start := finish;
    ghost var done := "";
    while more
      invariant start <= finish && |done| == finish - start && buf[start..finish] == done
      invariant forall i | 0 <= i < start || finish <= i < buf.Length :: buf[i] == old(buf[i])
      invariant Numeral(param) == (if more then Numeral(n) else "") + done
      decreases more, n
    {
      Assoc(if n / 10 == 0 then "" else Numeral(n / 10), [DigitChar(n % 10)], done);
      start, done := PutChar(DigitChar(n % 10), buf, start, finish, done);
      n := n / 10;
      more := n != 0;
    }
  }

  lemma {:induction false} Assoc(a: string, b: string, c: string)
    ensures (a + b) + c == a + (b + c)
  {
  }

  method PutGrouped(param: nat, grouping: seq<int>, separator: char, buf: array<char>, finish: nat) returns (start: nat)
    requires grouping != [] && grouping[0] > 0
    requires |GroupedFrom(param, grouping, separator, 0, grouping[0])| <= finish <= buf.Length
    modifies buf
    ensures var text := GroupedFrom(param, grouping, separator, 0, grouping[0]);
            start == finish - |text| && buf[start..finish] == text
    ensures forall i | 0 <= i < start || finish <= i < buf.Length :: buf[i] == old(buf[i])
  {
    var n, more, group, lastGrpSize := param, true, 0, grouping[0];
    var left: nat := lastGrpSize;
    start := finish;
    ghost var text, done := GroupedFrom(param, grouping, separator, 0, grouping[0]), "";
    while more
      invariant start <= finish && |done| == finish - start && buf[start..finish] == done
      invariant forall i | 0 <= i < start || finish <= i < buf.Length :: buf[i] == old(buf[i])
      invariant lastGrpSize == GroupSize(grouping, group)
      invariant text == (if more then GroupedFrom(n, grouping, separator, group, left) else "") + done
      decreases more, n
    {
      ghost var group0, left0, done0 := group, left, done;
      if left == 0 {
        group := group + 1;
        if group < |grouping| {
          var grpSize := grouping[group];
          lastGrpSize := if grpSize <= 0 then CHAR_MAX else grpSize;
        }
        left := lastGrpSize;
        start, done := PutChar(separator, buf, start, finish, done);
      }
      left := left - 1;
      start, done := PutChar(DigitChar(n % 10), buf, start, finish, done);
      GroupedStep(n, grouping, separator, group0, left0, done0, group, left, done);
      n := n / 10;
      more := n != 0;
    }
  }

  lemma {:induction false} GroupedStep(n: nat, grouping: seq<int>, separator: char,
      group0: nat, left0: nat, done0: string, group: nat, left: nat, done: string)
    requires grouping != []
    requires group == (if left0 == 0 then group0 + 1 else group0)
    requires left == (if left0 == 0 then GroupSize(grouping, group0 + 1) else left0) - 1
    requires done == [DigitChar(n % 10)] + (if left0 == 0 then [separator] + done0 else done0)
    ensures GroupedFrom(n, grouping, separator, group0, left0) + done0
         == (if n / 10 == 0 then "" else GroupedFrom(n / 10, grouping, separator, group, left)) + done
  {
  }

  // ----- lcast_ret_unsigned -----

  /** A signed char counting down. */
  function Decrement(c: int): (d: int)
  {
    if c == -128 then CHAR_MAX else c - 1
  }

  /** The digits a grouped number is made of, read from its right end: `remained` more digits are
      due before the next separator. Where a separator is due and there is none, the rest must be
      plain digits. None if the text is not well formed. */
  function GroupedDigits(s: string, loc: Locale, current: nat, remained: int): (d: Option<string>)
    requires loc.Named? && current < |loc.grouping|
    ensures d.Some? ==> AllDigits(d.value)
  {
    if s == "" then Some("")
    else
      var front, c := s[..|s| - 1], s[|s| - 1];
      if remained != 0 then
        if !IsDigit(c) then None else Append(GroupedDigits(front, loc, current, Decrement(remained)), [c])
      else if c != loc.separator then PlainDigits(s)
      else if front == "" then None
      else
        var next := NextGroup(current, |loc.grouping|);
        GroupedDigits(front, loc, next, loc.grouping[next])
  }

  /** The index of the current group is an unsigned char. */
  function NextGroup(current: nat, size: nat): (next: nat)
    requires current < size
    ensures next < size
  {
    if current < size - 1 then (if current == 255 then 0 else current + 1) else current
  }

  function Append(d: Option<string>, suffix: string): (r: Option<string>)
  {
    if d.None? then None else Some(d.value + suffix)
  }

  /** The digits of an unsigned number in a locale, without sign. */
  function Digits(s: string, loc: Locale): (d: Option<string>)
    ensures d.Some? ==> AllDigits(d.value)
  {
    if s == "" then None
    else if loc.Groups() then GroupedDigits(s, loc, 0, loc.grouping[0])
    else PlainDigits(s)
  }

  /** Dividing a wrapped product gives the factor back exactly when the product did not wrap. */
  lemma {:induction false} WrappedProduct(a: nat, d: nat, modulus: nat)
    requires 0 < d && a < modulus
    ensures (a * d % modulus) / d == a <==> a * d < modulus
  {
    var q := a * d % modulus;
    if a * d < modulus {
      SmallMod(a * d, modulus);
      DivBounds(a * d, d);
      CancelFactor(a, a * d / d, d);
    } else {
      WrapsBelow(a * d, modulus);
      DivBounds(q, d);
      LessFactor(q / d, a, d);
    }
  }

  lemma {:induction false} SmallMod(p: nat, modulus: nat)
    requires p < modulus
    ensures p % modulus == p
  {
  }

  lemma {:induction false} WrapsBelow(p: nat, modulus: nat)
    requires 0 < modulus <= p
    ensures p % modulus < p
  {
  }

  /** The state of the parser once the digits `done` have been read: the value so far, and the
      weight of the last digit unless it no longer fits. */
  ghost predicate ReadSoFar(done: string, value: nat, multiplier: nat, overflowed: bool, modulus: nat) {
    && AllDigits(done) && done != "" && value == DecimalValue(done) < modulus && multiplier < modulus
    && overflowed == (Pow10(|done| - 1) >= modulus)
    && (!overflowed ==> multiplier == Pow10(|done| - 1))
  }

  /** One more digit to the left of those already read, with all arithmetic wrapping around at the
      modulus: accepted exactly when it is a digit and the number still fits. */
  method TakeDigit(c: char, value: nat, multiplier: nat, overflowed: bool, modulus: nat, ghost done: string)
      returns (ok: bool, value': nat, multiplier': nat, overflowed': bool)
    requires modulus >= 10 && ReadSoFar(done, value, multiplier, overflowed, modulus)
    ensures ok <==> IsDigit(c) && DecimalValue([c] + done) < modulus
    ensures ok ==> ReadSoFar([c] + done, value', multiplier', overflowed', modulus)
  {
    var multiplier10 := multiplier * 10 % modulus;
    overflowed' := overflowed;
    NextMultiplier(multiplier, overflowed, Pow10(|done| - 1), modulus);
    if multiplier10 / 10 != multiplier {
      overflowed' := true;
    }
    var digValue: nat := (c as int - '0' as int) % modulus;
    var newSubValue := multiplier10 * digValue % modulus;
    if IsDigit(c) {
      SmallMod(DigitValue(c), modulus);
      PrependDigit(c, done);
      TestsExact(digValue, multiplier10, overflowed', Pow10(|done|), value, modulus);
    }
    if c < '0' || c as int >= '0' as int + 10
      || (digValue != 0 && newSubValue / digValue != multiplier10)
      || (modulus - 1 - newSubValue) % modulus < value
      || (overflowed' && digValue != 0) {
      return false, value, multiplier, overflowed';
    }
    ok, value', multiplier' := true, (value + newSubValue) % modulus, multiplier * 10 % modulus;
  }

  /** The overflow flag is up from the first power of ten that does not fit. */
  lemma {:induction false} NextMultiplier(multiplier: nat, overflowed: bool, weight: nat, modulus: nat)
    requires multiplier < modulus
    requires overflowed == (weight >= modulus) && (!overflowed ==> multiplier == weight)
    ensures var m10 := multiplier * 10 % modulus;
            (overflowed || m10 / 10 != multiplier <==> 10 * weight >= modulus)
            && (10 * weight < modulus ==> m10 == 10 * weight)
  {
    WrappedProduct(multiplier, 10, modulus);
    if 10 * weight < modulus {
      SmallMod(multiplier * 10, modulus);
    }
  }

  /** The tests made after the wrapping arithmetic catch exactly the numbers that do not fit. */
  lemma {:induction false} TestsExact(dig: nat, m10: nat, overflowed: bool, weight: nat, value: nat, modulus: nat)
    requires dig < 10 <= modulus && m10 < modulus && value < modulus
    requires overflowed == (weight >= modulus) && (!overflowed ==> m10 == weight)
    ensures var sub := m10 * dig % modulus;
            ((dig != 0 && sub / dig != m10) || (modulus - 1 - sub) % modulus < value || (overflowed && dig != 0)
             <==> dig * weight + value >= modulus)
            && (dig * weight + value < modulus ==> (value + sub) % modulus == dig * weight + value)
  {
    var sub := m10 * dig % modulus;
    SmallMod(modulus - 1 - sub, modulus);
    if dig == 0 {
      assert m10 * dig == 0;
      SmallMod(0, modulus);
      SmallMod(value, modulus);
    } else if overflowed {
      AtLeast(dig, weight);
    } else {
      WrappedProduct(m10, dig, modulus);
      assert dig * weight == m10 * dig;
      if m10 * dig < modulus {
        SmallMod(m10 * dig, modulus);
        if dig * weight + value < modulus {
          SmallMod(dig * weight + value, modulus);
        }
      }
    }
  }

  lemma {:induction false} AtLeast(d: nat, p: nat)
    requires d > 0
    ensures d * p >= p
  {
  }

  lemma {:induction false} AppendTwice(d: Option<string>, a: string, b: string)
    ensures Append(Append(d, a), b) == Append(d, a + b)
  {
    if d.Some? {
      Assoc(d.value, a, b);
    }
  }

  /** Whatever stands further to the left only makes the number larger. */
  lemma {:induction false} TooLargeAlready(d: Option<string>, done: string)
    requires d.Some? ==> AllDigits(d.value)
    requires AllDigits(done)
    ensures Append(d, done).Some? ==> DecimalValue(Append(d, done).value) >= DecimalValue(done)
  {
    if d.Some? {
      ConcatValue(d.value, done);
    }
  }

  function PlainDigits(s: string): (d: Option<string>)
  {
    if AllDigits(s) then Some(s) else None
  }

  lemma {:induction false} PlainDigitsSnoc(s: string)
    requires s != ""
    ensures var front, c := s[..|s| - 1], s[|s| - 1];
            PlainDigits(s) == if IsDigit(c) then Append(PlainDigits(front), [c]) else None
  {
    assert s == s[..|s| - 1] + [s[|s| - 1]];
  }

  /** The text's digits are a number below the modulus. */
  predicate Fits(d: Option<string>, modulus: nat) {
    d.Some? && AllDigits(d.value) && DecimalValue(d.value) < modulus
  }

  /** What the digits of a text are when its last character is due to be a digit: all before it and then
      it, and if there are any, a number at least as large as what has been read. */
  predicate OneDigitLeft(all: Option<string>, rest: Option<string>, c: char, done: string) {
    if IsDigit(c) then
      all == Append(rest, [c] + done)
      && (all.Some? && AllDigits(all.value) && AllDigits([c] + done) ==>
            DecimalValue(all.value) >= DecimalValue([c] + done))
    else all.None?
  }

  lemma {:induction false} DigitsLeft(d: Option<string>, c: char, done: string)
    requires d.Some? ==> AllDigits(d.value)
    requires AllDigits(done)
    ensures OneDigitLeft(if IsDigit(c) then Append(Append(d, [c]), done) else None, d, c, done)
  {
    AppendTwice(d, [c], done);
    if IsDigit(c) {
      TooLargeAlready(d, [c] + done);
    }
  }

  lemma {:induction false} PlainLeft(s: string, end: nat, done: string)
    requires end < |s| && AllDigits(done)
    ensures OneDigitLeft(Append(PlainDigits(s[..end + 1]), done), PlainDigits(s[..end]), s[end], done)
  {
    PlainDigitsSnoc(s[..end + 1]);
    assert s[..end + 1][..end] == s[..end];
    DigitsLeft(PlainDigits(s[..end]), s[end], done);
  }

  lemma {:induction false} GroupLeft(s: string, end: nat, done: string, loc: Locale, current: nat, remained: int)
    requires end < |s| && AllDigits(done) && loc.Named? && current < |loc.grouping| && remained != 0
    ensures OneDigitLeft(Append(GroupedDigits(s[..end + 1], loc, current, remained), done),
                         GroupedDigits(s[..end], loc, current, Decrement(remained)), s[end], done)
  {
    assert s[..end + 1][..end] == s[..end];
    DigitsLeft(GroupedDigits(s[..end], loc, current, Decrement(remained)), s[end], done);
  }

  /** Where a separator is due: without one the rest is plain, and with one the next group begins. */
  lemma {:induction false} SeparatorLeft(s: string, end: nat, loc: Locale, current: nat)
    requires end < |s| && loc.Named? && current < |loc.grouping|
    ensures var d, next := GroupedDigits(s[..end + 1], loc, current, 0), NextGroup(current, |loc.grouping|);
      d == if s[end] != loc.separator then PlainDigits(s[..end + 1])
           else if end == 0 then None
           else GroupedDigits(s[..end], loc, next, loc.grouping[next])
  {
    assert s[..end + 1][..end] == s[..end];
  }

  lemma {:induction false} NothingLeft(s: string, done: string)
    ensures Append(Some(s[..0]), done) == Some(done)
  {
    assert "" + done == done;
  }

  /** One digit of a text with the digits `all`: refused only if they are no number that fits. */
  method ReadDigit(c: char, value: nat, multiplier: nat, overflowed: bool, modulus: nat,
      ghost done: string, ghost all: Option<string>, ghost rest: Option<string>)
      returns (ok: bool, value': nat, multiplier': nat, overflowed': bool)
    requires modulus >= 10 && ReadSoFar(done, value, multiplier, overflowed, modulus)
    requires OneDigitLeft(all, rest, c, done)
    ensures !ok ==> !Fits(all, modulus)
    ensures ok ==> all == Append(rest, [c] + done) && ReadSoFar([c] + done, value', multiplier', overflowed', modulus)
  {
    ok, value', multiplier', overflowed' := TakeDigit(c, value, multiplier, overflowed, modulus, done);
  }

  method RetUnsigned(s: string, loc: Locale, bits: nat) returns (ok: bool, value: nat)
    requires Width(bits) && loc.Valid()
    ensures ok <==> Fits(Digits(s, loc), Pow2(bits))
    ensures ok ==> value == DecimalValue(Digits(s, loc).value)
  {
    var end, modulus := |s| - 1, Pow2(bits);
    AtLeast256(bits);
    if 0 > end || s[end] < '0' || s[end] as int >= '0' as int + 10 {
      LastIsNoDigit(s, loc);
      return false, 0;
    }
    value := (s[end] as int - '0' as int) % modulus;
    SmallMod(DigitValue(s[end]), modulus);
    ghost var done := FirstDigit(s, loc, value, modulus);
    var multiplier, overflowed := 1, false;
    if loc.Groups() {
      var finished;
      finished, ok, value, end, multiplier, overflowed, done :=
        RetGrouped(s, loc, value, modulus, Digits(s, loc), done);
      if finished {
        return;
      }
    } else {
      end := end - 1;
    }
    ok, value := RetPlain(s, end, value, multiplier, overflowed, modulus, Digits(s, loc), done);
  }

  lemma {:induction false} LastIsNoDigit(s: string, loc: Locale)
    requires s == "" || !IsDigit(s[|s| - 1])
    ensures Digits(s, loc) == None
  {
    if s != "" {
      PlainDigitsSnoc(s);
    }
  }

  /** The digit at the right end is read before the loops. */
  lemma {:induction false} FirstDigit(s: string, loc: Locale, value: nat, modulus: nat) returns (done: string)
    requires s != "" && IsDigit(s[|s| - 1]) && value == DigitValue(s[|s| - 1]) && modulus >= 10
    ensures done == [s[|s| - 1]] && ReadSoFar(done, value, 1, false, modulus)
    ensures Digits(s, loc) == if loc.Groups()
      then Append(GroupedDigits(s[..|s| - 1], loc, 0, Decrement(loc.grouping[0])), done)
      else Append(PlainDigits(s[..|s| - 1]), done)
  {
    done := [s[|s| - 1]];
    assert done[..0] == "";
    PlainDigitsSnoc(s);
  }

  /** The loop that follows the groups from right to left, until the text ends or a separator is due that
      is not there. */
  method RetGrouped(s: string, loc: Locale, first: nat, modulus: nat, ghost all: Option<string>, ghost done0: string)
      returns (finished: bool, ok: bool, value: nat, end: int, multiplier: nat, overflowed: bool, ghost done: string)
    requires modulus >= 10 && s != "" && loc.Valid() && loc.Groups() && ReadSoFar(done0, first, 1, false, modulus)
    requires all == Append(GroupedDigits(s[..|s| - 1], loc, 0, Decrement(loc.grouping[0])), done0)
    ensures finished ==> (ok <==> Fits(all, modulus)) && (ok ==> value == DecimalValue(all.value))
    ensures !finished ==> -1 <= end < |s| && ReadSoFar(done, value, multiplier, overflowed, modulus)
    ensures !finished ==> all == Append(PlainDigits(s[..end + 1]), done)
  {
    value, end, multiplier, overflowed, done, ok := first, |s| - 2, 1, false, done0, true;
    var current: nat, remained, shallWeReturn := 0, Decrement(loc.grouping[0]), true;
    while end >= 0
      invariant -1 <= end < |s| && ReadSoFar(done, value, multiplier, overflowed, modulus)
      invariant current < |loc.grouping| && shallWeReturn
      invariant all == Append(GroupedDigits(s[..end + 1], loc, current, remained), done)
    {
      if remained != 0 {
        GroupLeft(s, end, done, loc, current, remained);
        ok, value, multiplier, overflowed := ReadDigit(s[end], value, multiplier, overflowed, modulus, done, all,
          GroupedDigits(s[..end], loc, current, Decrement(remained)));
        if !ok {
          return true, false, value, end, multiplier, overflowed, done;
        }
        done := [s[end]] + done;
        remained := Decrement(remained);
      } else {
        SeparatorLeft(s, end, loc, current);
        if s[end] != loc.separator {
          shallWeReturn := false;
          break;
        }
        if end == 0 {
          return true, false, value, end, multiplier, overflowed, done;
        }
        current := NextGroup(current, |loc.grouping|);
        remained := loc.grouping[current];
      }
      end := end - 1;
    }
    finished, ok := shallWeReturn, true;
    NothingLeft(s, done);
  }

  /** The loop for what is left of a number once no separators are expected. */
  method RetPlain(s: string, last: int, soFar: nat, multiplier0: nat, overflowed0: bool, modulus: nat,
      ghost all: Option<string>, ghost done0: string)
      returns (ok: bool, value: nat)
    requires modulus >= 10 && -1 <= last < |s|
    requires ReadSoFar(done0, soFar, multiplier0, overflowed0, modulus)
    requires all == Append(PlainDigits(s[..last + 1]), done0)
    ensures (ok <==> Fits(all, modulus)) && (ok ==> value == DecimalValue(all.value))
  {
    var end, multiplier, overflowed := last, multiplier0, overflowed0;
    value := soFar;
    ghost var done := done0;
    while end >= 0
      invariant -1 <= end <= last && ReadSoFar(done, value, multiplier, overflowed, modulus)
      invariant all == Append(PlainDigits(s[..end + 1]), done)
    {
      PlainLeft(s, end, done);
      ok, value, multiplier, overflowed := ReadDigit(s[end], value, multiplier, overflowed, modulus, done, all,
        PlainDigits(s[..end]));
      if !ok {
        return false, value;
      }
      done := [s[end]] + done;
      end := end - 1;
    }
    NothingLeft(s, done);
    ok := true;
  }

  lemma {:induction false} AtLeast256(bits: nat)
    requires bits >= 8
    ensures Pow2(bits) >= 256
  {
    if bits > 8 {
      AtLeast256(bits - 1);
    } else {
      assert Pow2(8) == 256;
    }
  }
}
