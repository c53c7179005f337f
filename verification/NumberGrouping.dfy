/** Which grouped texts the number parser accepts, and what it reads in them. */
module NumberGrouping {
  import opened Basics
  import opened Decimal
  import opened NumberStream
  import opened NumberText

  /** How many digits a group holds: its size is a signed char that is counted down to zero. */
  function Due(size: int): (n: nat)
  {
    size % 256
  }

  /** The place in a grouping string of this length that gives the size of group g: the last place again and again;
      but a place is an unsigned char, so in a string of more than 256 the last is never reached. */
  function PlaceOf(size: nat, g: nat): (i: nat)
    requires size > 0
    ensures i < size
  {
    if size > 256 then g % 256 else if g < size then g else size - 1
  }

  function SizeOf(grouping: seq<int>, g: nat): (size: int)
    requires grouping != []
  {
    grouping[PlaceOf(|grouping|, g)]
  }

  /** Digits alone; or, behind such a text and a separator, a group of exactly as many digits as are due. The
      first digits may be any number, but at least one. */
  predicate WellGrouped(s: string, loc: Locale, g: nat, due: nat)
    requires loc.Named? && loc.grouping != []
    decreases |s|
  {
    AllDigits(s)
    || (var k := |s| - 1 - due;
        && k > 0 && s[k] == loc.separator && AllDigits(s[k + 1..])
        && WellGrouped(s[..k], loc, g + 1, Due(SizeOf(loc.grouping, g + 1))))
  }

  lemma {:induction false} NextPlace(size: nat, g: nat)
    requires size > 0
    ensures NextGroup(PlaceOf(size, g), size) == PlaceOf(size, g + 1)
  {
  }

  lemma {:induction false} DigitsOfFront(s: string)
    requires s != ""
    ensures AllDigits(s) <==> AllDigits(s[..|s| - 1]) && IsDigit(s[|s| - 1])
  {
  }

  /** A group with one digit more. */
  lemma {:induction false} WellGroupedDigit(s: string, loc: Locale, g: nat, due: nat)
    requires loc.Named? && loc.grouping != [] && s != "" && due > 0
    ensures WellGrouped(s, loc, g, due) <==> IsDigit(s[|s| - 1]) && WellGrouped(s[..|s| - 1], loc, g, due - 1)
  {
    var front, k := s[..|s| - 1], |s| - 1 - due;
    DigitsOfFront(s);
    if k > 0 {
      assert front[..k] == s[..k];
      assert s[k + 1..][..due - 1] == front[k + 1..];
      DigitsOfFront(s[k + 1..]);
    }
  }

  lemma {:induction false} DueDecrement(c: int)
    requires -128 <= c <= CHAR_MAX && c != 0
    ensures -128 <= Decrement(c) <= CHAR_MAX && Due(Decrement(c)) == Due(c) - 1
  {
  }

  /** The parser reads exactly the well-grouped texts, and reads them without their separators. */
  lemma {:induction false} GroupedExactly(s: string, loc: Locale, g: nat, remained: int)
    requires loc.Named? && loc.Valid() && loc.grouping != [] && !IsDigit(loc.separator)
    requires -128 <= remained <= CHAR_MAX
    ensures var d := GroupedDigits(s, loc, PlaceOf(|loc.grouping|, g), remained);
      && (d.Some? <==> WellGrouped(s, loc, g, Due(remained)))
      && (d.Some? ==> d.value == Without(s, loc.separator))
    decreases |s|
  {
    if s != "" {
      var front, c := s[..|s| - 1], s[|s| - 1];
      if remained != 0 {
        DueDecrement(remained);
        WellGroupedDigit(s, loc, g, Due(remained));
        GroupedExactly(front, loc, g, Decrement(remained));
      } else if c != loc.separator {
        PlainExactly(s, loc.separator);
      } else if front != "" {
        NextPlace(|loc.grouping|, g);
        GroupedExactly(front, loc, g + 1, SizeOf(loc.grouping, g + 1));
        SeparatorLast(s, loc, g);
      }
    }
  }

  lemma {:induction false} SeparatorLast(s: string, loc: Locale, g: nat)
    requires loc.Named? && loc.grouping != [] && !IsDigit(loc.separator)
    requires |s| > 1 && s[|s| - 1] == loc.separator
    ensures WellGrouped(s, loc, g, 0)
       <==> WellGrouped(s[..|s| - 1], loc, g + 1, Due(SizeOf(loc.grouping, g + 1)))
  {
    assert s[|s|..] == "";
    DigitsOfFront(s);
  }

  lemma {:induction false} PlainExactly(s: string, separator: char)
    requires !IsDigit(separator)
    ensures PlainDigits(s).Some? <==> AllDigits(s)
    ensures AllDigits(s) ==> PlainDigits(s) == Some(s) && Without(s, separator) == s
  {
    if AllDigits(s) {
      WithoutNothing(s, separator);
    }
  }

  /** In any locale: a text is read if it is not empty and well grouped, or plain where nothing is grouped; its
      digits are what it holds without separators. */
  lemma {:induction false} DigitsExactly(s: string, loc: Locale)
    requires loc.Valid() && (loc.Groups() ==> !IsDigit(loc.separator))
    ensures Digits(s, loc).Some?
       <==> s != "" && if loc.Groups() then WellGrouped(s, loc, 0, loc.grouping[0]) else AllDigits(s)
    ensures Digits(s, loc).Some? ==>
      Digits(s, loc).value == if loc.Groups() then Without(s, loc.separator) else s
  {
    if loc.Groups() {
      GroupedExactly(s, loc, 0, loc.grouping[0]);
    }
  }

  /** A sign is one character '-' or '+' at the front; a text denotes the number of its digits, negated behind a
      minus sign, and a text without digits behind its sign denotes nothing. */
  lemma {:induction false} SignRead(s: string, loc: Locale)
    ensures Denoted("-" + s, loc) == Negated(Digits(s, loc)) && Denoted("+" + s, loc) == Plain(Digits(s, loc))
    ensures s == "" || (s[0] != '-' && s[0] != '+') ==> Denoted(s, loc) == Plain(Digits(s, loc))
  {
    assert ("-" + s)[1..] == s && ("+" + s)[1..] == s;
  }

  function Plain(d: Option<string>): (v: Option<int>)
    requires d.Some? ==> AllDigits(d.value)
  {
    if d.Some? then Some(DecimalValue(d.value)) else None
  }

  function Negated(d: Option<string>): (v: Option<int>)
    requires d.Some? ==> AllDigits(d.value)
  {
    if d.Some? then Some(-(DecimalValue(d.value) as int)) else None
  }
}
