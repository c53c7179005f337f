/** What a CRC means: arithmetic on polynomials over GF(2), each held as the set of its exponents.
    Nothing here knows about registers until the theorem at the end. */
module CrcPolynomials {
  import opened Words
  import opened CrcSpec

  type Poly = set<nat>

  function Add(a: Poly, b: Poly): (c: Poly)
  {
    (a - b) + (b - a)
  }

  /** Multiplication by x to the power k. */
  function TimesX(a: Poly, k: nat): (c: Poly)
  {
    set e | e in a :: e + k
  }

  /** The product of g and the polynomial with coefficients q, highest first. */
  function Times(q: seq<bool>, g: Poly): (c: Poly)
  {
    if q == [] then {}
    else
      var front := TimesX(Times(q[..|q| - 1], g), 1);
      if q[|q| - 1] then Add(front, g) else front
  }

  /** A word as a polynomial of lower degree than its width. */
  function OfWord(r: Word): (c: Poly)
  {
    set i: nat | i < |r| && r[i]
  }

  /** A bit stream as a polynomial, its first bit the highest coefficient. */
  function OfStream(m: seq<bool>): (c: Poly)
  {
    OfWord(Reverse(m))
  }

  /** The generator: the truncated polynomial with its highest term put back. */
  function Generator(poly: Word): (g: Poly)
  {
    OfWord(poly) + {|poly|}
  }

  /** What a CRC divides: the message moved up by the width of the register, with the initial
      remainder added to its highest bits. */
  function Dividend(init: Word, m: seq<bool>): (p: Poly)
  {
    Add(TimesX(OfStream(m), |init|), TimesX(OfWord(init), |m|))
  }

  ghost predicate IsRemainder(dividend: Poly, g: Poly, r: Poly)
  {
    exists q: seq<bool> :: dividend == Add(Times(q, g), r)
  }

  lemma {:induction false} AddTimesX(a: Poly, b: Poly, k: nat)
    ensures TimesX(Add(a, b), k) == Add(TimesX(a, k), TimesX(b, k))
  {
    forall e: nat ensures e in TimesX(Add(a, b), k) <==> e in Add(TimesX(a, k), TimesX(b, k)) {
      InTimesX(Add(a, b), k, e);
      InTimesX(a, k, e);
      InTimesX(b, k, e);
    }
  }

  lemma {:induction false} InTimesX(a: Poly, k: nat, e: nat)
    ensures e in TimesX(a, k) <==> e >= k && (e - k) in a
  {
    if e >= k && (e - k) in a {
      assert (e - k) + k in TimesX(a, k);
    }
  }

  lemma {:induction false} TimesXTwice(a: Poly, j: nat, k: nat)
    ensures TimesX(TimesX(a, j), k) == TimesX(a, j + k)
  {
    forall e: nat ensures e in TimesX(TimesX(a, j), k) <==> e in TimesX(a, j + k) {
      InTimesX(TimesX(a, j), k, e);
      InTimesX(a, j + k, e);
      if e >= k {
        InTimesX(a, j, e - k);
      }
    }
  }

  // ----- The register computes the remainder -----

  lemma {:induction false} StreamSnocPoly(m: seq<bool>, bit: bool)
    ensures OfStream(m + [bit]) == Add(TimesX(OfStream(m), 1), if bit then {0} else {})
  {
    var n := |m|;
    forall e: nat ensures e in OfStream(m + [bit]) <==> e in Add(TimesX(OfStream(m), 1), if bit then {0} else {}) {
      InTimesX(OfStream(m), 1, e);
      if 0 < e <= n {
        assert Reverse(m + [bit])[e] == (m + [bit])[n - e] == m[n - e] == Reverse(m)[e - 1];
      } else if e == 0 {
        assert Reverse(m + [bit])[0] == (m + [bit])[n] == bit;
      }
    }
  }

  lemma {:induction false} DividendSnoc(init: Word, m: seq<bool>, bit: bool)
    ensures Dividend(init, m + [bit]) == Add(TimesX(Dividend(init, m), 1), if bit then {|init|} else {})
  {
    var n, k := |init|, |m|;
    var s, b: Poly := OfStream(m), if bit then {0} else {};
    StreamSnocPoly(m, bit);
    AddTimesX(TimesX(s, 1), b, n);
    AddTimesX(TimesX(s, n), TimesX(OfWord(init), k), 1);
    TimesXTwice(s, 1, n);
    TimesXTwice(s, n, 1);
    TimesXTwice(OfWord(init), k, 1);
    assert TimesX(b, n) == if bit then {n} else {} by {
      forall e: nat ensures e in TimesX(b, n) <==> bit && e == n {
        InTimesX(b, n, e);
      }
    }
  }

  lemma {:induction false} StepPoly(poly: Word, r: Word, bit: bool)
    requires |poly| == |r| > 0
    ensures Add(TimesX(OfWord(r), 1), if bit then {|r|} else {})
         == Add(if r[|r| - 1] != bit then Generator(poly) else {}, OfWord(Step(poly, r, bit)))
  {
    var n, s := |r|, Step(poly, r, bit);
    var divide := r[n - 1] != bit;
    var left := Add(TimesX(OfWord(r), 1), if bit then {n} else {});
    var right := Add(if divide then Generator(poly) else {}, OfWord(s));
    forall e: nat ensures e in left <==> e in right {
      InTimesX(OfWord(r), 1, e);
      if e < n {
        assert s[e] == (Shl(r, 1)[e] != (divide && poly[e]));
        assert Shl(r, 1)[e] == (e >= 1 && r[e - 1]);
      }
    }
  }

  lemma {:induction false} AddLaws(a: Poly, b: Poly, c: Poly)
    ensures Add(Add(a, b), c) == Add(a, Add(b, c))
    ensures Add(a, b) == Add(b, a)
    ensures Add(a, {}) == a && Add(a, a) == {}
  {
  }

  /** The quotient bits the register produces on the way. */
  lemma {:induction false} RegisterDivides(poly: Word, init: Word, m: seq<bool>) returns (q: seq<bool>)
    requires |poly| == |init| > 0
    ensures Dividend(init, m) == Add(Times(q, Generator(poly)), OfWord(Run(poly, init, m)))
    decreases |m|
  {
    if m == [] {
      q := [];
      EmptyDividend(init);
    } else {
      var k := |m| - 1;
      var r := Run(poly, init, m[..k]);
      var q0 := RegisterDivides(poly, init, m[..k]);
      q := q0 + [r[|r| - 1] != m[k]];
      assert m == m[..k] + [m[k]];
      RunOneMore(poly, init, m[..k], m[k]);
      DivideBit(poly, init, m[..k], m[k], q0, r);
    }
  }

  lemma {:induction false} RunOneMore(poly: Word, init: Word, m: seq<bool>, bit: bool)
    requires |poly| == |init| > 0
    ensures Run(poly, init, m + [bit]) == Step(poly, Run(poly, init, m), bit)
  {
    RunConcat(poly, init, m, [bit]);
  }

  /** One bit more of the dividend, one step more of the register. */
  lemma {:induction false} DivideBit(poly: Word, init: Word, m: seq<bool>, bit: bool, q: seq<bool>, r: Word)
    requires |poly| == |init| == |r| > 0 && Dividend(init, m) == Add(Times(q, Generator(poly)), OfWord(r))
    ensures Dividend(init, m + [bit])
         == Add(Times(q + [r[|r| - 1] != bit], Generator(poly)), OfWord(Step(poly, r, bit)))
  {
    DividendSnoc(init, m, bit);
    StepPoly(poly, r, bit);
    DivideOnce(Dividend(init, m), q, Generator(poly), OfWord(r), if bit then {|init|} else {},
               r[|r| - 1] != bit, OfWord(Step(poly, r, bit)));
  }

  lemma {:induction false} EmptyDividend(init: Word)
    ensures Dividend(init, []) == OfWord(init)
  {
    assert OfStream([]) == {};
    forall e: nat ensures e in TimesX(OfWord(init), 0) <==> e in OfWord(init) {
      InTimesX(OfWord(init), 0, e);
    }
  }

  /** One line of long division: bring down the term b, subtract the generator if it fits. */
  lemma {:induction false} DivideOnce(p: Poly, q: seq<bool>, g: Poly, r: Poly, b: Poly, fits: bool, s: Poly)
    requires p == Add(Times(q, g), r)
    requires Add(TimesX(r, 1), b) == Add(if fits then g else {}, s)
    ensures Add(TimesX(p, 1), b) == Add(Times(q + [fits], g), s)
  {
    assert (q + [fits])[..|q|] == q;
    Rearrange(Times(q, g), r, b, if fits then g else {}, s);
    AddLaws(TimesX(Times(q, g), 1), {}, {});
  }

  lemma {:induction false} Rearrange(t: Poly, r: Poly, b: Poly, g: Poly, s: Poly)
    requires Add(TimesX(r, 1), b) == Add(g, s)
    ensures Add(TimesX(Add(t, r), 1), b) == Add(Add(TimesX(t, 1), g), s)
  {
    AddTimesX(t, r, 1);
    AddLaws(TimesX(t, 1), TimesX(r, 1), b);
    AddLaws(TimesX(t, 1), g, s);
  }

  // ----- Remainders are unique -----

  /** Times is additive in the quotient, once the two quotients have the same length. */
  lemma {:induction false} TimesAdd(p: seq<bool>, q: seq<bool>, g: Poly)
    requires |p| == |q|
    ensures Times(Xor(p, q), g) == Add(Times(p, g), Times(q, g))
    decreases |p|
  {
    if p != [] {
      var k := |p| - 1;
      TimesAdd(p[..k], q[..k], g);
      assert Xor(p, q)[..k] == Xor(p[..k], q[..k]);
      AddTimesX(Times(p[..k], g), Times(q[..k], g), 1);
    }
  }

  lemma {:induction false} LeadingZeros(q: seq<bool>, k: nat, g: Poly)
    ensures Times(Zero(k) + q, g) == Times(q, g)
    decreases |q|, k
  {
    if q != [] {
      var i := |q| - 1;
      assert (Zero(k) + q)[..k + i] == Zero(k) + q[..i];
      LeadingZeros(q[..i], k, g);
    } else if k > 0 {
      assert Zero(k) + q == Zero(k) && Zero(k)[..k - 1] == Zero(k - 1) + q;
      LeadingZeros(q, k - 1, g);
      assert TimesX({}, 1) == {};
    } else {
      assert Zero(k) + q == q;
    }
  }

  /** A multiple of the generator is either nothing or has a term at or above the generator's degree. */
  lemma {:induction false} MultipleDegree(q: seq<bool>, g: Poly, n: nat)
    requires n in g && forall e | e in g :: e <= n
    ensures Times(q, g) == {} || exists e :: e in Times(q, g) && e >= n
    decreases |q|
  {
    if q != [] {
      var k := |q| - 1;
      var front := Times(q[..k], g);
      MultipleDegree(q[..k], g, n);
      if front == {} {
        assert TimesX(front, 1) == {};
        assert q[k] ==> n in Times(q, g);
      } else {
        var e :| e in front && e >= n;
        InTimesX(front, 1, e + 1);
        assert e + 1 in Times(q, g);
      }
    }
  }

  lemma {:induction false} RemainderUnique(p: seq<bool>, q: seq<bool>, g: Poly, n: nat, r: Poly, s: Poly)
    requires n in g && forall e | e in g :: e <= n
    requires Add(Times(p, g), r) == Add(Times(q, g), s)
    requires forall e | e in r + s :: e < n
    ensures r == s
    decreases |p| != |q|
  {
    if |p| < |q| {
      LeadingZeros(p, |q| - |p|, g);
      RemainderUnique(Zero(|q| - |p|) + p, q, g, n, r, s);
    } else if |q| < |p| {
      LeadingZeros(q, |p| - |q|, g);
      RemainderUnique(p, Zero(|p| - |q|) + q, g, n, r, s);
    } else {
      TimesAdd(p, q, g);
      SwapSides(Times(p, g), r, Times(q, g), s);
      forall e | e in Times(Xor(p, q), g) ensures e < n {
        assert e in r + s;
      }
      MultipleDegree(Xor(p, q), g, n);
    }
  }

  lemma {:induction false} SwapSides(a: Poly, r: Poly, b: Poly, s: Poly)
    requires Add(a, r) == Add(b, s)
    ensures Add(a, b) == Add(r, s)
    ensures Add(r, s) == {} ==> r == s
  {
    forall e ensures e in Add(a, b) <==> e in Add(r, s) {
      assert e in Add(a, r) <==> e in Add(b, s);
    }
    if Add(r, s) == {} {
      forall e ensures e in r <==> e in s {
        assert e !in Add(r, s);
      }
    }
  }

  /** The register ends as the remainder of the polynomial division, and as nothing else. */
  lemma {:induction false} RegisterIsRemainder(poly: Word, init: Word, m: seq<bool>, r: Word)
    requires |poly| == |init| == |r| > 0
    ensures r == Run(poly, init, m) <==> IsRemainder(Dividend(init, m), Generator(poly), OfWord(r))
  {
    var q := RegisterDivides(poly, init, m);
    if IsRemainder(Dividend(init, m), Generator(poly), OfWord(r)) {
      var p :| Dividend(init, m) == Add(Times(p, Generator(poly)), OfWord(r));
      RemainderUnique(p, q, Generator(poly), |poly|, OfWord(r), OfWord(Run(poly, init, m)));
      SameWord(r, Run(poly, init, m));
    }
  }

  lemma {:induction false} SameWord(a: Word, b: Word)
    requires |a| == |b| && OfWord(a) == OfWord(b)
    ensures a == b
  {
    forall i: nat | i < |a| ensures a[i] == b[i] {
      assert i in OfWord(a) <==> i in OfWord(b);
    }
  }
}
