/** The character buffer between the two halves of a conversion: integers are printed into it from
    its right end and parsed back out of it, with a sign. */
module NumberStream {
  import opened Basics
  import opened Decimal
  import opened NumberText

  /** A sign, if there is one, and the rest. */
  function SplitSign(s: string): (r: (bool, string))
  {
    if s != "" && s[0] == '-' then (true, s[1..])
    else if s != "" && s[0] == '+' then (false, s[1..])
    else (false, s)
  }

  /** The integer a text denotes in a locale, of any size. */
  function Denoted(s: string, loc: Locale): (v: Option<int>)
  {
    var (minus, rest) := SplitSign(s);
    match Digits(rest, loc)
    case None => None
    case Some(d) => Some(if minus then -(DecimalValue(d) as int) else DecimalValue(d))
  }

  /** What is printed for a signed number. */
  function SignedText(n: int, loc: Locale): (s: string)
  {
    if n < 0 then "-" + Printed(-n, loc) else Printed(n, loc)
  }

  /** lcast_to_unsigned */
  function ToUnsigned(n: int, bits: nat): (u: nat)
  {
    if n < 0 then -((n % Pow2(bits)) as int) % Pow2(bits) else n
  }

  lemma {:induction false} ToUnsignedIsMagnitude(n: int, bits: nat)
    requires bits > 0 && -(Pow2(bits - 1) as int) <= n
    ensures ToUnsigned(n, bits) == if n < 0 then -n else n
  {
    var modulus := Pow2(bits);
    if n < 0 {
      NegativeWraps(-n, modulus);
      NegativeWraps(modulus + n, modulus);
    }
  }

  lemma {:induction false} ModOfSum(a: int, k: int, modulus: nat)
    requires modulus > 0
    ensures (a + k * modulus) % modulus == a % modulus
  {
    var b := a + k * modulus;
    var qa, qb := a / modulus, b / modulus;
    assert a == qa * modulus + a % modulus;
    assert b == qb * modulus + b % modulus;
    assert b % modulus - a % modulus == (qa + k - qb) * modulus;
    OnlyZeroMultiple(qa + k - qb, modulus);
  }

  lemma {:induction false} OnlyZeroMultiple(q: int, modulus: nat)
    requires -(modulus as int) < q * modulus < modulus
    ensures q * modulus == 0
  {
    if q >= 1 {
      AtLeast(q, modulus);
    } else if q <= -1 {
      AtLeast(-q, modulus);
    }
  }

  /** Conversion of an unsigned number to the signed type of the same width. */
  function ToSigned(u: nat, bits: nat): (n: int)
    requires bits > 0
  {
    if u >= Pow2(bits - 1) then u - Pow2(bits) else u
  }

  class LexicalStream {
    const buf: array<char>
    var start: nat
    var finish: nat

    ghost predicate Valid()
      reads this
    {
      start <= finish <= buf.Length
    }

    function Text(): (s: string)
      requires Valid()
      reads this, buf
    {
      buf[start..finish]
    }

    constructor (size: nat)
      ensures Valid() && fresh(buf) && start == 0 && finish == size == buf.Length
    {
      buf := new char[size];
      start, finish := 0, size;
    }

    method ShlUnsigned(n: nat, bits: nat, loc: Locale)
      requires Valid() && Width(bits) && n < Pow2(bits) && finish == SourceLength(bits, false)
      modifies this`start, buf
      ensures Valid() && Text() == Printed(n, loc)
    {
      PrintedFits(n, bits, loc);
      start := PutUnsigned(n, loc, buf, finish);
    }

    method ShlSigned(n: int, bits: nat, loc: Locale)
      requires Valid() && Width(bits) && -(Pow2(bits - 1) as int) <= n < Pow2(bits - 1)
      requires finish == SourceLength(bits - 1, true)
      modifies this`start, buf
      ensures Valid() && Text() == SignedText(n, loc)
    {
      ToUnsignedIsMagnitude(n, bits);
      PrintedFits(ToUnsigned(n, bits), bits - 1, loc);
      start := PutUnsigned(ToUnsigned(n, bits), loc, buf, finish);
      if n < 0 {
        start := start - 1;
        buf[start] := '-';
      }
    }

    /** Accepts exactly the texts whose digits fit; a minus sign negates modulo 2^bits. */
    method ShrUnsigned(bits: nat, loc: Locale) returns (ok: bool, output: nat)
      requires Valid() && Width(bits) && loc.Valid()
      modifies this`start
      ensures Valid()
      ensures var d := old(Denoted(Text(), loc)); ok <==> d.Some? && -(Pow2(bits) as int) < d.value < Pow2(bits)
      ensures ok ==> output == old(Denoted(Text(), loc)).value % Pow2(bits)
    {
      if start == finish {
        return false, 0;
      }
      var hasMinus := false;
      if buf[start] == '-' {
        start := start + 1;
        hasMinus := true;
      } else if buf[start] == '+' {
        start := start + 1;
      }
      assert (hasMinus, buf[start..finish]) == old(SplitSign(Text()));
      ok, output := RetUnsigned(buf[start..finish], loc, bits);
      if ok {
        SmallMod(output, Pow2(bits));
      }
      if hasMinus {
        output := -(output as int) % Pow2(bits);
      }
    }

    /** Accepts exactly the texts that denote a number of the signed type. */
    method ShrSigned(bits: nat, loc: Locale) returns (ok: bool, output: int)
      requires Valid() && Width(bits) && loc.Valid()
      modifies this`start
      ensures Valid()
      ensures var d := old(Denoted(Text(), loc));
        ok <==> d.Some? && -(Pow2(bits - 1) as int) <= d.value < Pow2(bits - 1)
      ensures ok ==> output == old(Denoted(Text(), loc)).value
    {
      if start == finish {
        return false, 0;
      }
      var outTmp, hasMinus := 0, false;
      if buf[start] == '-' {
        start := start + 1;
        hasMinus := true;
      } else if buf[start] == '+' {
        start := start + 1;
      }
      assert (hasMinus, buf[start..finish]) == old(SplitSign(Text()));
      ok, outTmp := RetUnsigned(buf[start..finish], loc, bits);
      if hasMinus {
        var compVal := Pow2(bits - 1);
        ok := ok && outTmp <= compVal;
        if ok {
          NegatedSigned(outTmp, bits);
        }
        output := ToSigned(-(outTmp as int) % Pow2(bits), bits);
      } else {
        var compVal := Pow2(bits - 1) - 1;
        ok := ok && outTmp <= compVal;
        output := ToSigned(outTmp, bits);
      }
    }
  }

  /** Negating in the unsigned type and converting reaches every negative number, the most
      negative one included. */
  lemma {:induction false} NegatedSigned(u: nat, bits: nat)
    requires bits > 0 && u <= Pow2(bits - 1)
    ensures ToSigned(-(u as int) % Pow2(bits), bits) == -(u as int)
  {
    if u == 0 {
      SmallMod(0, Pow2(bits));
    } else {
      NegativeWraps(u, Pow2(bits));
    }
  }

  lemma {:induction false} NegativeWraps(u: nat, modulus: nat)
    requires 0 < u < modulus
    ensures -(u as int) % modulus == modulus - u
  {
    ModOfSum(modulus - u, -1, modulus);
    SmallMod(modulus - u, modulus);
  }

  // ----- Round trips -----

  /** Digits without separators are accepted in every locale. */
  lemma {:induction false} PlainTextAccepted(s: string, loc: Locale, current: nat, remained: int)
    requires loc.Named? && current < |loc.grouping| && !IsDigit(loc.separator)
    requires AllDigits(s)
    ensures GroupedDigits(s, loc, current, remained) == Some(s)
    decreases |s|
  {
    if s != "" && remained != 0 {
      var front, c := s[..|s| - 1], s[|s| - 1];
      PlainTextAccepted(front, loc, current, Decrement(remained));
      DigitRead(front, c, loc, current, remained);
      assert front + [c] == s;
    }
  }

  lemma {:induction false} DigitRead(front: string, c: char, loc: Locale, current: nat, remained: int)
    requires loc.Named? && current < |loc.grouping| && IsDigit(c) && remained != 0
    ensures GroupedDigits(front + [c], loc, current, remained)
         == Append(GroupedDigits(front, loc, current, Decrement(remained)), [c])
  {
    assert (front + [c])[..|front|] == front;
  }

  lemma {:induction false} SeparatorRead(front: string, loc: Locale, current: nat)
    requires loc.Named? && current < |loc.grouping| && front != ""
    ensures var next := NextGroup(current, |loc.grouping|);
            GroupedDigits(front + [loc.separator], loc, current, 0)
            == GroupedDigits(front, loc, next, loc.grouping[next])
  {
    assert (front + [loc.separator])[..|front|] == front;
  }

  /** Where the parser is when the printer is in a group. */
  function CurrentGroup(group: nat, size: nat): (current: nat)
    requires size > 0
    ensures current < size
  {
    if group < size then group else size - 1
  }

  /** What is left of a number of n's digits when the printer is about to write the last of them. */
  ghost predicate TextRead(n: nat, loc: Locale, group: nat, left: nat)
    requires loc.Named? && loc.grouping != []
  {
    GroupedDigits(GroupedFrom(n, loc.grouping, loc.separator, group, left), loc,
                  CurrentGroup(group, |loc.grouping|), left) == Some(Numeral(n))
  }

  /** Reading undoes printing for any grouping: the parser's group index and countdown follow the
      printer's, until a group without limit takes the rest of the number. */
  lemma {:induction false} GroupedTextRead(n: nat, loc: Locale, group: nat, left: nat)
    requires loc.Named? && loc.grouping != [] && !IsDigit(loc.separator)
    requires DigitCount(n) + group + (if left == 0 then 1 else 0) <= CHAR_MAX + 1
    requires loc.grouping[CurrentGroup(group, |loc.grouping|)] > 0
    ensures TextRead(n, loc, group, left)
    decreases n, left == 0
  {
    if left == 0 {
      var g := loc.grouping;
      if g[CurrentGroup(group + 1, |g|)] > 0 {
        GroupedTextRead(n, loc, group + 1, GroupSize(g, group + 1));
      }
      SeparatorTextRead(n, loc, group);
    } else {
      if n / 10 != 0 {
        GroupedTextRead(n / 10, loc, group, left - 1);
      }
      DigitTextRead(n, loc, group, left);
    }
  }

  /** A separator, when the rest of the number before it reads back. */
  lemma {:induction false} SeparatorTextRead(n: nat, loc: Locale, group: nat)
    requires loc.Named? && loc.grouping != [] && !IsDigit(loc.separator)
    requires DigitCount(n) <= CHAR_MAX && group < 255
    requires loc.grouping[CurrentGroup(group + 1, |loc.grouping|)] > 0
             ==> TextRead(n, loc, group + 1, GroupSize(loc.grouping, group + 1))
    ensures TextRead(n, loc, group, 0)
  {
    if loc.grouping[CurrentGroup(group + 1, |loc.grouping|)] <= 0 {
      UnlimitedTextRead(n, loc, group + 1);
    }
    SeparatorBefore(n, loc, group);
  }

  lemma {:induction false} SeparatorBefore(n: nat, loc: Locale, group: nat)
    requires loc.Named? && loc.grouping != [] && !IsDigit(loc.separator) && group < 255
    requires var g, next := loc.grouping, CurrentGroup(group + 1, |loc.grouping|);
             GroupedDigits(GroupedFrom(n, g, loc.separator, group + 1, GroupSize(g, group + 1)), loc, next, g[next])
             == Some(Numeral(n))
    ensures TextRead(n, loc, group, 0)
  {
    var g := loc.grouping;
    var front := GroupedFrom(n, g, loc.separator, group + 1, GroupSize(g, group + 1));
    SeparatorEnds(n, g, loc.separator, group);
    SeparatorRead(front, loc, CurrentGroup(group, |g|));
  }

  lemma {:induction false} SeparatorEnds(n: nat, grouping: seq<int>, separator: char, group: nat)
    requires grouping != []
    ensures GroupedFrom(n, grouping, separator, group, 0)
         == GroupedFrom(n, grouping, separator, group + 1, GroupSize(grouping, group + 1)) + [separator]
  {
  }

  /** A group without limit takes all the rest. */
  lemma {:induction false} UnlimitedTextRead(n: nat, loc: Locale, group: nat)
    requires loc.Named? && loc.grouping != [] && !IsDigit(loc.separator)
    requires DigitCount(n) <= CHAR_MAX && loc.grouping[CurrentGroup(group, |loc.grouping|)] <= 0
    ensures var current := CurrentGroup(group, |loc.grouping|);
      GroupedDigits(GroupedFrom(n, loc.grouping, loc.separator, group, GroupSize(loc.grouping, group)),
                    loc, current, loc.grouping[current]) == Some(Numeral(n))
  {
    var current := CurrentGroup(group, |loc.grouping|);
    RestFits(n, loc.grouping, loc.separator, group, GroupSize(loc.grouping, group));
    PlainTextAccepted(Numeral(n), loc, current, loc.grouping[current]);
  }

  lemma {:induction false} DigitTextRead(n: nat, loc: Locale, group: nat, left: nat)
    requires loc.Named? && loc.grouping != [] && left > 0
    requires n / 10 != 0 ==> TextRead(n / 10, loc, group, left - 1)
    ensures TextRead(n, loc, group, left)
  {
    var g, sep := loc.grouping, loc.separator;
    var digit := DigitChar(n % 10);
    var front := if n / 10 == 0 then "" else GroupedFrom(n / 10, g, sep, group, left - 1);
    assert GroupedFrom(n, g, sep, group, left) == front + [digit];
    DigitRead(front, digit, loc, CurrentGroup(group, |g|), left);
  }

  lemma {:induction false} PrintedRead(n: nat, bits: nat, loc: Locale)
    requires Width(bits) && n < Pow2(bits) && (loc.Named? ==> !IsDigit(loc.separator))
    ensures Digits(Printed(n, loc), loc) == Some(Numeral(n))
    ensures IsDigit(Printed(n, loc)[0])
  {
    DigitCountMonotonic(n, Pow2(bits));
    if loc.Groups() {
      GroupedTextRead(n, loc, 0, loc.grouping[0]);
      FirstIsDigit(n, loc.grouping, loc.separator, 0, loc.grouping[0]);
    }
  }

  lemma {:induction false} FirstIsDigit(n: nat, grouping: seq<int>, separator: char, group: nat, left: nat)
    requires grouping != []
    ensures IsDigit(GroupedFrom(n, grouping, separator, group, left)[0])
    decreases n
  {
    if n / 10 != 0 {
      var group' := if left == 0 then group + 1 else group;
      var left' := (if left == 0 then GroupSize(grouping, group + 1) else left) - 1;
      FirstIsDigit(n / 10, grouping, separator, group', left');
    }
  }

  /** Whatever the locale groups, a printed number denotes itself. */
  lemma {:induction false} PrintedDenotes(n: int, bits: nat, loc: Locale)
    requires Width(bits) && -(Pow2(bits) as int) < n < Pow2(bits) && (loc.Named? ==> !IsDigit(loc.separator))
    ensures Denoted(SignedText(n, loc), loc) == Some(n)
  {
    var m: nat := if n < 0 then -n else n;
    PrintedRead(m, bits, loc);
    SignFound(Printed(m, loc));
    NumeralValue(m);
  }

  lemma {:induction false} SignFound(text: string)
    requires text != "" && IsDigit(text[0])
    ensures SplitSign("-" + text) == (true, text) && SplitSign(text) == (false, text)
  {
    assert ("-" + text)[1..] == text;
  }

  /** lexical_cast there and back: every signed number of the width comes back, the most negative
      one included, through a buffer of exactly the computed length. */
  method SignedThereAndBack(n: int, bits: nat, loc: Locale) returns (ok: bool, back: int)
    requires Width(bits) && loc.Valid() && (loc.Named? ==> !IsDigit(loc.separator))
    requires -(Pow2(bits - 1) as int) <= n < Pow2(bits - 1)
    ensures ok && back == n
  {
    var stream := new LexicalStream(SourceLength(bits - 1, true));
    stream.ShlSigned(n, bits, loc);
    PrintedDenotes(n, bits, loc);
    ok, back := stream.ShrSigned(bits, loc);
  }

  method UnsignedThereAndBack(n: nat, bits: nat, loc: Locale) returns (ok: bool, back: nat)
    requires Width(bits) && loc.Valid() && (loc.Named? ==> !IsDigit(loc.separator))
    requires n < Pow2(bits)
    ensures ok && back == n
  {
    var stream := new LexicalStream(SourceLength(bits, false));
    stream.ShlUnsigned(n, bits, loc);
    PrintedDenotes(n, bits, loc);
    SmallMod(n, Pow2(bits));
    ok, back := stream.ShrUnsigned(bits, loc);
  }
}
