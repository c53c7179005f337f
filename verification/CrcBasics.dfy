/** The bit-at-a-time engine. Its register is wider than the CRC, and the bits above it are
    never cleared while a message is processed. */
module CrcBasics {
  import opened Words
  import opened CrcSpec
  import opened CrcTables

  class CrcBasic {
    const bits: nat
    const width: nat
    var rem: Word
    var poly: Word
    var init: Word
    var final: Word
    var rftIn: bool
    var rftOut: bool

    ghost predicate Valid()
      reads this
    {
      0 < bits <= width && |rem| == |poly| == |init| == |final| == width
    }

    /** The CRC this engine is configured for. */
    ghost function Config(): (p: Params)
      requires Valid()
      reads this
      ensures p.Valid() && p.Bits() == bits
    {
      Params(poly[..bits], init[..bits], final[..bits], rftIn, rftOut)
    }

    ghost function Register(): (r: Word)
      requires Valid()
      reads this
      ensures |r| == bits
    {
      rem[..bits]
    }

    constructor (bits: nat, truncPoly: Word, initialRem: Word, finalXor: Word, reflectIn: bool, reflectRem: bool)
      requires 0 < bits <= |truncPoly| == |initialRem| == |finalXor|
      ensures Valid() && this.bits == bits && width == |truncPoly|
      ensures Config() == Params(truncPoly[..bits], initialRem[..bits], finalXor[..bits], reflectIn, reflectRem)
      ensures Register() == Config().init
    {
      this.bits, this.width := bits, |truncPoly|;
      rem, poly, init, final := initialRem, truncPoly, initialRem, finalXor;
      rftIn, rftOut := reflectIn, reflectRem;
    }

    method GetInterimRemainder() returns (r: Word)
      requires Valid()
      ensures r == Resize(Register(), width)
    {
      r := And(rem, LowMask(width, bits));
    }

    method ResetTo(newRem: Word)
      requires Valid() && |newRem| == width
      modifies this`rem
      ensures Valid() && Register() == newRem[..bits]
    {
      rem := newRem;
    }

    method Reset()
      requires Valid()
      modifies this`rem
      ensures Valid() && Register() == Config().init
    {
      ResetTo(init);
    }

    method ProcessBit(bit: bool)
      requires Valid()
      modifies this`rem
      ensures Valid() && Register() == Step(Config().poly, old(Register()), bit)
    {
      LowBitsStep(bits, poly, rem, bit);
      var highBitMask := Unit(width, bits - 1);
      if bit {
        rem := Xor(rem, highBitMask);
      }
      var doPolyDiv := rem[bits - 1];
      rem := Shl(rem, 1);
      if doPolyDiv {
        rem := Xor(rem, poly);
      }
    }

    /** Takes in the bitCount lowest bits of a byte, the highest of them first. */
    method ProcessBits(bits8: Word, bitCount: nat)
      requires Valid() && |bits8| == 8 && bitCount <= 8
      modifies this`rem
      ensures Valid() && Register() == Run(Config().poly, old(Register()), Reverse(bits8[..bitCount]))
    {
      ghost var poly0, start := Config().poly, Register();
      var rest := Shl(bits8, 8 - bitCount);
      TopBits(bits8, bitCount);
      for i := bitCount downto 0
        invariant Valid() && Config().poly == poly0 && |rest| == 8
        invariant Run(poly0, Register(), Top(rest, i)) == Run(poly0, start, Reverse(bits8[..bitCount]))
      {
        RunTop(poly0, Register(), rest, i + 1);
        ProcessBit(rest[7]);
        rest := Shl(rest, 1);
      }
    }

    static lemma {:induction false} RunTop(poly: Word, r: Word, rest: Word, i: nat)
      requires |poly| == |r| > 0 && rest != [] && i > 0
      ensures Run(poly, r, Top(rest, i)) == Run(poly, Step(poly, r, rest[|rest| - 1]), Top(Shl(rest, 1), i - 1))
    {
      TopTail(rest, i);
    }

    static lemma {:induction false} TopBits(bits8: Word, bitCount: nat)
      requires |bits8| == 8 && bitCount <= 8
      ensures Top(Shl(bits8, 8 - bitCount), bitCount) == Reverse(bits8[..bitCount])
    {
    }

    method ProcessByte(byte: Byte)
      requires Valid()
      modifies this`rem
      ensures Valid() && Register() == Run(Config().poly, old(Register()), StreamOfByte(byte, rftIn))
    {
      var bits8 := ByteBits(byte);
      if rftIn {
        bits8 := Reflect(8, bits8);
        assert ByteBits(byte)[..8] == ByteBits(byte);
        ReverseInvolution(ByteBits(byte));
      }
      assert bits8[..8] == bits8;
      ProcessBits(bits8, 8);
    }

    method ProcessBlock(block: seq<Byte>)
      requires Valid()
      modifies this`rem
      ensures Valid() && Register() == Run(Config().poly, old(Register()), Stream(block, rftIn))
    {
      ghost var poly0, start := Config().poly, Register();
      for p := 0 to |block|
        invariant Valid() && Config().poly == poly0
        invariant Register() == Run(poly0, start, Stream(block[..p], rftIn))
      {
        RunBlock(poly0, start, block, p, rftIn);
        ProcessByte(block[p]);
      }
      assert block[..|block|] == block;
    }

    method GetChecksum() returns (c: Word)
      requires Valid()
      ensures c == Resize(Checksum(Config(), Register()), width)
    {
      c := rem;
      if rftOut {
        c := Reflect(bits, c);
      }
      c := And(Xor(c, final), LowMask(width, bits));
    }
  }
}
