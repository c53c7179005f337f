/** What a printed number looks like: where its separators stand, and what its digits are. */
module PrintedText {
  import opened Decimal
  import opened NumberStream

  /** The character of each digit. */
  lemma {:induction false} DigitsAre(d: nat, c: char)
    requires d < 10
    ensures DigitChar(d) == "0123456789"[d]
    ensures IsDigit(c) <==> c in "0123456789"
    ensures IsDigit(c) && DigitValue(c) == d <==> c == "0123456789"[d]
  {
    assert "0123456789"[d] as int == '0' as int + d;
  }

  /** How many digits group g holds: the sizes are those of the grouping string, the last one again and again, and
      one that is not positive stands for the greatest size. */
  function SizeAt(grouping: seq<int>, g: nat): (size: nat)
    requires grouping != []
  {
    var c := if g < |grouping| then grouping[g] else grouping[|grouping| - 1];
    if c <= 0 then 127 else c
  }

  /** Text of at most `left` digits; or, before as many digits and a separator, text in the groups that follow. */
  predicate InGroups(s: string, grouping: seq<int>, separator: char, g: nat, left: nat)
    requires grouping != []
    decreases |s|
  {
    if |s| <= left then s != "" && AllDigits(s)
    else
      var k := |s| - 1 - left;
      && s[k] == separator && AllDigits(s[k + 1..])
      && InGroups(s[..k], grouping, separator, g + 1, SizeAt(grouping, g + 1))
  }

  lemma {:induction false} OneDigitMore(s: string, d: char, grouping: seq<int>, separator: char, g: nat, left: nat)
    requires grouping != [] && IsDigit(d) && left > 0
    requires s == "" || InGroups(s, grouping, separator, g, left - 1)
    ensures InGroups(s + [d], grouping, separator, g, left)
  {
    var t, k := s + [d], |s| - left;
    if |t| > left {
      assert t[..k] == s[..k] && t[k] == s[k];
      assert t[k + 1..] == s[k + 1..] + [d];
    }
  }

  lemma {:induction false} SeparatorBehind(s: string, grouping: seq<int>, separator: char, g: nat)
    requires grouping != [] && InGroups(s, grouping, separator, g + 1, SizeAt(grouping, g + 1))
    ensures InGroups(s + [separator], grouping, separator, g, 0)
  {
    assert (s + [separator])[..|s|] == s && (s + [separator])[|s| + 1..] == "";
  }

  lemma {:induction false} DigitEnds(n: nat, grouping: seq<int>, separator: char, g: nat, left: nat)
    requires grouping != [] && left > 0
    ensures var front := if n / 10 == 0 then "" else GroupedFrom(n / 10, grouping, separator, g, left - 1);
      GroupedFrom(n, grouping, separator, g, left) == front + [DigitChar(n % 10)]
  {
  }

  lemma {:induction false} GroupEnds(n: nat, grouping: seq<int>, separator: char, g: nat)
    requires grouping != []
    ensures GroupedFrom(n, grouping, separator, g, 0)
         == GroupedFrom(n, grouping, separator, g + 1, SizeAt(grouping, g + 1)) + [separator]
  {
    SeparatorEnds(n, grouping, separator, g);
    assert SizeAt(grouping, g + 1) == GroupSize(grouping, g + 1);
  }

  lemma {:induction false} FromInGroups(n: nat, grouping: seq<int>, separator: char, g: nat, left: nat)
    requires grouping != []
    ensures InGroups(GroupedFrom(n, grouping, separator, g, left), grouping, separator, g, left)
    decreases n, left == 0
  {
    if left == 0 {
      var size := SizeAt(grouping, g + 1);
      FromInGroups(n, grouping, separator, g + 1, size);
      GroupEnds(n, grouping, separator, g);
      SeparatorBehind(GroupedFrom(n, grouping, separator, g + 1, size), grouping, separator, g);
    } else {
      DigitEnds(n, grouping, separator, g, left);
      if n / 10 == 0 {
        OneDigitMore("", DigitChar(n % 10), grouping, separator, g, left);
      } else {
        var front := GroupedFrom(n / 10, grouping, separator, g, left - 1);
        FromInGroups(n / 10, grouping, separator, g, left - 1);
        OneDigitMore(front, DigitChar(n % 10), grouping, separator, g, left);
      }
    }
  }

  /** Of a number and a locale that groups, the text is the one in groups whose digits are the number's numeral. */
  lemma {:induction false} PrintedInGroups(n: nat, loc: Locale)
    requires loc.Groups() && !IsDigit(loc.separator)
    ensures var s := Printed(n, loc);
      InGroups(s, loc.grouping, loc.separator, 0, SizeAt(loc.grouping, 0)) && Without(s, loc.separator) == Numeral(n)
  {
    FromInGroups(n, loc.grouping, loc.separator, 0, loc.grouping[0]);
    SeparatorsRemoved(n, loc.grouping, loc.separator, 0, loc.grouping[0]);
  }

  lemma {:induction false} WithoutSplit(a: string, b: string, c: char)
    ensures Without(a + b, c) == Without(a, c) + Without(b, c)
    decreases |b|
  {
    if b == "" {
      assert a + b == a;
    } else {
      WithoutSplit(a, b[..|b| - 1], c);
      WithoutSnoc(a + b[..|b| - 1], b[|b| - 1], c);
      assert a + b == a + b[..|b| - 1] + [b[|b| - 1]];
    }
  }

  /** What a text in groups is without its separators, from its last group on. */
  lemma {:induction false} LastGroup(s: string, grouping: seq<int>, separator: char, g: nat, left: nat)
    requires grouping != [] && !IsDigit(separator) && InGroups(s, grouping, separator, g, left) && |s| > left
    ensures var k := |s| - 1 - left;
      Without(s, separator) == Without(s[..k], separator) + s[k + 1..] && s == s[..k] + [separator] + s[k + 1..]
  {
    var k := |s| - 1 - left;
    assert s == s[..k] + [separator] + s[k + 1..];
    WithoutSplit(s[..k] + [separator], s[k + 1..], separator);
    WithoutSnoc(s[..k], separator, separator);
    WithoutNothing(s[k + 1..], separator);
  }

  lemma {:induction false} LastGroups(s: string, t: string, grouping: seq<int>, separator: char, g: nat, left: nat)
    requires grouping != [] && !IsDigit(separator) && Without(s, separator) == Without(t, separator)
    requires InGroups(s, grouping, separator, g, left) && InGroups(t, grouping, separator, g, left)
    requires |s| > left && |t| > left
    ensures var j, k := |s| - 1 - left, |t| - 1 - left;
      Without(s[..j], separator) == Without(t[..k], separator) && (s[..j] == t[..k] ==> s == t)
  {
    var j, k := |s| - 1 - left, |t| - 1 - left;
    LastGroup(s, grouping, separator, g, left);
    LastGroup(t, grouping, separator, g, left);
    SameEnds(Without(s[..j], separator), s[j + 1..], Without(t[..k], separator), t[k + 1..]);
  }

  /** There is one such text for the digits. */
  lemma {:induction false} OneText(s: string, t: string, grouping: seq<int>, separator: char, g: nat, left: nat)
    requires grouping != [] && !IsDigit(separator) && Without(s, separator) == Without(t, separator)
    requires InGroups(s, grouping, separator, g, left) && InGroups(t, grouping, separator, g, left)
    ensures s == t
    decreases |s| + |t|
  {
    if |s| <= left && |t| <= left {
      WithoutNothing(s, separator);
      WithoutNothing(t, separator);
    } else if |s| > left && |t| > left {
      var j, k := |s| - 1 - left, |t| - 1 - left;
      LastGroups(s, t, grouping, separator, g, left);
      OneText(s[..j], t[..k], grouping, separator, g + 1, SizeAt(grouping, g + 1));
    } else if |s| > left {
      MoreThanFits(s, t, grouping, separator, g, left);
    } else {
      MoreThanFits(t, s, grouping, separator, g, left);
    }
  }

  lemma {:induction false} SameEnds(a: string, b: string, c: string, d: string)
    requires a + b == c + d && |b| == |d|
    ensures a == c && b == d
  {
    assert a == (a + b)[..|a|] && c == (c + d)[..|c|];
    assert b == (a + b)[|a|..] && d == (c + d)[|c|..];
  }

  lemma {:induction false} SomeDigits(s: string, grouping: seq<int>, separator: char, g: nat, left: nat)
    requires grouping != [] && !IsDigit(separator) && InGroups(s, grouping, separator, g, left) && left > 0
    ensures Without(s, separator) != ""
  {
    if |s| <= left {
      WithoutNothing(s, separator);
    } else {
      LastGroup(s, grouping, separator, g, left);
    }
  }

  /** Texts of more than one group have more digits than the group holds. */
  lemma {:induction false} MoreThanFits(s: string, t: string, grouping: seq<int>, separator: char, g: nat, left: nat)
    requires grouping != [] && !IsDigit(separator) && |s| > left && |t| <= left
    requires InGroups(s, grouping, separator, g, left) && InGroups(t, grouping, separator, g, left)
    ensures Without(s, separator) != Without(t, separator)
  {
    LastGroup(s, grouping, separator, g, left);
    SomeDigits(s[..|s| - 1 - left], grouping, separator, g + 1, SizeAt(grouping, g + 1));
    WithoutNothing(t, separator);
  }

  /** The printed text is exactly the text in groups whose digits are the numeral; where nothing is grouped it is
      the numeral. */
  lemma {:induction false} PrintedExactly(n: nat, loc: Locale, s: string)
    requires loc.Groups() ==> !IsDigit(loc.separator)
    ensures s == Printed(n, loc)
       <==> if loc.Groups()
            then InGroups(s, loc.grouping, loc.separator, 0, SizeAt(loc.grouping, 0))
                 && Without(s, loc.separator) == Numeral(n)
            else s == Numeral(n)
  {
    if loc.Groups() {
      PrintedInGroups(n, loc);
      if InGroups(s, loc.grouping, loc.separator, 0, SizeAt(loc.grouping, 0))
         && Without(s, loc.separator) == Numeral(n) {
        OneText(s, Printed(n, loc), loc.grouping, loc.separator, 0, SizeAt(loc.grouping, 0));
      }
    }
  }

  /** A minus sign stands before exactly the negative numbers, and no other sign before any. */
  lemma {:induction false} SignExactly(n: int, loc: Locale)
    requires loc.Groups() ==> !IsDigit(loc.separator)
    ensures n < 0 ==> SignedText(n, loc) == "-" + Printed(-n, loc)
    ensures n >= 0 ==> SignedText(n, loc) == Printed(n, loc) && IsDigit(SignedText(n, loc)[0])
  {
    if n >= 0 && loc.Groups() {
      FirstIsDigit(n, loc.grouping, loc.separator, 0, loc.grouping[0]);
    }
  }

  lemma {:induction false} ThousandPlain()
    ensures Numeral(1234) == "1234"
  {
    assert Numeral(1) == "1" && Numeral(12) == "12" && Numeral(123) == "123";
  }

  lemma {:induction false} ThousandInGroups()
    ensures InGroups("1,234", [3], ',', 0, 3)
  {
    assert "1,234"[2..] == "234" && "1,234"[..1] == "1";
    assert InGroups("1", [3], ',', 1, 3);
  }

  /** 1234 in groups of three. */
  lemma {:induction false} Thousand()
    ensures Printed(1234, Named([3], ',')) == "1,234" && Printed(1234, Classic) == "1234"
  {
    ThousandPlain();
    ThousandInGroups();
    WithoutThousand();
    PrintedExactly(1234, Named([3], ','), "1,234");
  }

  lemma {:induction false} WithoutThousand()
    ensures Without("1,234", ',') == "1234"
  {
    ThousandInGroups();
    LastGroup("1,234", [3], ',', 0, 3);
    assert "1,234"[..1] == "1" && "1,234"[2..] == "234";
    WithoutNothing("1", ',');
    assert "1" + "234" == "1234";
  }
}
