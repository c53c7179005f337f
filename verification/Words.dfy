/** Unsigned machine words, held as their bits with the least significant bit at index 0.
    Every operation keeps the width of its operand, as C++ unsigned arithmetic does. */
module Words {
  import opened Basics

  type Word = seq<bool>
  type Byte = x: int | 0 <= x < 256

  function Zero(n: nat): (r: Word)
    ensures |r| == n
  {
    seq(n, _ => false)
  }

  /** The word with only bit k set. */
  function Unit(n: nat, k: nat): (r: Word)
    ensures |r| == n
  {
    seq(n, i => i == k)
  }

  function Xor(a: Word, b: Word): (r: Word)
    requires |a| == |b|
    ensures |r| == |a|
  {
    seq(|a|, i requires 0 <= i < |a| => a[i] != b[i])
  }

  function Or(a: Word, b: Word): (r: Word)
    requires |a| == |b|
    ensures |r| == |a|
  {
    seq(|a|, i requires 0 <= i < |a| => a[i] || b[i])
  }

  function And(a: Word, b: Word): (r: Word)
    requires |a| == |b|
    ensures |r| == |a|
  {
    seq(|a|, i requires 0 <= i < |a| => a[i] && b[i])
  }

  function Shl(a: Word, k: nat): (r: Word)
    ensures |r| == |a|
  {
    if k <= |a| then Zero(k) + a[..|a| - k] else Zero(|a|)
  }

  function Shr(a: Word, k: nat): (r: Word)
    ensures |r| == |a|
  {
    if k <= |a| then a[k..] + Zero(k) else Zero(|a|)
  }

  /** Conversion to a word of another width: truncation or zero extension. */
  function Resize(a: Word, n: nat): (r: Word)
    ensures |r| == n
  {
    if n <= |a| then a[..n] else a + Zero(n - |a|)
  }

  function Reverse(a: Word): (r: Word)
    ensures |r| == |a|
  {
    seq(|a|, i requires 0 <= i < |a| => a[|a| - 1 - i])
  }

  /** The mask of the n lowest bits. */
  function LowMask(width: nat, n: nat): (r: Word)
    ensures |r| == width
  {
    seq(width, i => i < n)
  }

  lemma {:induction false} XorLaws(a: Word, b: Word)
    requires |a| == |b|
    ensures Xor(a, b) == Xor(b, a)
    ensures Xor(Xor(a, b), b) == a
    ensures Xor(a, Zero(|a|)) == a && Xor(Zero(|a|), a) == a
    ensures Xor(a, a) == Zero(|a|)
  {
  }

  lemma {:induction false} XorZeroOnlyIfSame(a: Word, b: Word)
    requires |a| == |b|
    requires Xor(a, b) == Zero(|a|)
    ensures a == b
  {
    forall i | 0 <= i < |a| ensures a[i] == b[i] {
      assert !Xor(a, b)[i];
    }
  }

  lemma {:induction false} ShlNone(a: Word)
    ensures Shl(a, 0) == a
  {
  }

  lemma {:induction false} ShlShl(a: Word, j: nat, k: nat)
    ensures Shl(Shl(a, j), k) == Shl(a, j + k)
  {
  }

  lemma {:induction false} ShrShr(a: Word, j: nat, k: nat)
    ensures Shr(Shr(a, j), k) == Shr(a, j + k)
  {
  }

  lemma {:induction false} ShlUnit(n: nat, k: nat)
    ensures Shl(Unit(n, 0), k) == Unit(n, k)
  {
  }

  lemma {:induction false} ReverseInvolution(a: Word)
    ensures Reverse(Reverse(a)) == a
  {
  }

  /** The number a word stands for. */
  function Value(a: Word): (v: nat)
  {
    if a == [] then 0 else (if a[0] then 1 else 0) + 2 * Value(a[1..])
  }

  function ToBits(v: nat, n: nat): (r: Word)
    ensures |r| == n
  {
    if n == 0 then [] else [v % 2 == 1] + ToBits(v / 2, n - 1)
  }

  lemma {:induction false} ValueBound(a: Word)
    ensures Value(a) < Pow2(|a|)
  {
    if a != [] {
      ValueBound(a[1..]);
    }
  }

  lemma {:induction false} BitsOfValue(a: Word)
    ensures ToBits(Value(a), |a|) == a
  {
    if a != [] {
      BitsOfValue(a[1..]);
    }
  }

  lemma {:induction false} ValueOfBits(v: nat, n: nat)
    requires v < Pow2(n)
    ensures Value(ToBits(v, n)) == v
  {
    if n > 0 {
      ValueOfBits(v / 2, n - 1);
    }
  }

  /** Leading zero bits do not change the number. */
  lemma {:induction false} ValueResize(a: Word, n: nat)
    requires |a| <= n
    ensures Value(Resize(a, n)) == Value(a)
  {
    var r := Resize(a, n);
    if a == [] {
      ZeroValue(n);
      assert r == Zero(n);
    } else {
      assert r[1..] == Resize(a[1..], n - 1);
      ValueResize(a[1..], n - 1);
    }
  }

  lemma {:induction false} ZeroValue(n: nat)
    ensures Value(Zero(n)) == 0
  {
    if n > 0 {
      assert Zero(n)[1..] == Zero(n - 1);
      ZeroValue(n - 1);
    }
  }

  function ByteBits(b: Byte): (r: Word)
    ensures |r| == 8
  {
    ToBits(b, 8)
  }

  function ByteOf(a: Word): (b: Byte)
    requires |a| == 8
    ensures ByteBits(b) == a
  {
    assert Pow2(8) == 256;
    ValueBound(a);
    BitsOfValue(a);
    Value(a)
  }

  lemma {:induction false} ByteOfBits(b: Byte)
    ensures ByteOf(ByteBits(b)) == b
  {
    assert Pow2(8) == 256;
    ValueOfBits(b, 8);
  }
}
