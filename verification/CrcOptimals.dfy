/** The table-driven engine: one lookup per byte, optionally on a mirrored register. */
module CrcOptimals {
  import opened Words
  import opened CrcMeaning
  import opened CrcSpec
  import opened CrcTables

  class CrcOptimal {
    const crcTable: CrcTable
    const initRem: Word
    const finalXor: Word
    const reflectRem: bool
    var rem: Word

    function Bits(): nat { crcTable.bits }
    function Width(): nat { |crcTable.truncPoly| }
    function ReflectIn(): bool { crcTable.reflect }

    ghost predicate Valid()
      reads this, crcTable, crcTable.table
    {
      && crcTable.Valid() && crcTable.didInit
      && |initRem| == |finalXor| == |rem| == Width()
      && (ReflectIn() ==> Clean(Bits(), rem))
    }

    ghost function Config(): (p: Params)
      requires Valid()
      reads this, crcTable, crcTable.table
      ensures p.Valid() && p.Bits() == Bits()
    {
      Params(crcTable.truncPoly[..Bits()], initRem[..Bits()], finalXor[..Bits()], ReflectIn(), reflectRem)
    }

    ghost function Register(): (r: Word)
      requires Valid()
      reads this, crcTable, crcTable.table
      ensures |r| == Bits()
    {
      RegisterOf(Bits(), ReflectIn(), rem)
    }

    /** The reflection that the table's helper class applies, or none. */
    static method Layout(n: nat, reflect: bool, x: Word) returns (r: Word)
      requires n <= |x|
      ensures r == if reflect then Reflected(n, x) else x
    {
      r := x;
      if reflect {
        r := Reflect(n, x);
      }
    }

    constructor (crcTable: CrcTable, initRem: Word, finalXor: Word, reflectRem: bool)
      requires crcTable.Valid() && |initRem| == |finalXor| == |crcTable.truncPoly|
      modifies crcTable, crcTable.table
      ensures Valid() && this.crcTable == crcTable && this.finalXor == finalXor
      ensures Config() == Params(crcTable.truncPoly[..crcTable.bits], initRem[..crcTable.bits],
                                 finalXor[..crcTable.bits], crcTable.reflect, reflectRem)
      ensures Register() == Config().init
    {
      this.crcTable, this.initRem, this.finalXor, this.reflectRem := crcTable, initRem, finalXor, reflectRem;
      var r := Layout(crcTable.bits, crcTable.reflect, initRem);
      rem := r;
      new;
      crcTable.InitTable();
      ReverseInvolution(initRem[..crcTable.bits]);
    }

    method GetInterimRemainder() returns (r: Word)
      requires Valid()
      ensures r == Resize(Register(), Width())
    {
      r := Layout(Bits(), ReflectIn(), rem);
      r := And(r, LowMask(Width(), Bits()));
    }

    method Reset(newRem: Word)
      requires Valid() && |newRem| == Width()
      modifies this`rem
      ensures Valid() && Register() == newRem[..Bits()]
    {
      ReverseInvolution(newRem[..Bits()]);
      rem := Layout(Bits(), ReflectIn(), newRem);
    }

    method ProcessBlock(block: seq<Byte>)
      requires Valid()
      modifies this`rem
      ensures Valid() && Register() == Run(Config().poly, old(Register()), Stream(block, ReflectIn()))
    {
      ghost var poly0, start := Config().poly, Register();
      for p := 0 to |block|
        invariant Valid() && Config().poly == poly0
        invariant Register() == Run(poly0, start, Stream(block[..p], ReflectIn()))
      {
        RunBlock(poly0, start, block, p, ReflectIn());
        var byteIndex := Index(Bits(), ReflectIn(), rem, block[p]);
        crcTable.EntryAt(byteIndex);
        LookupIsEightSteps(poly0, ReflectIn(), rem, block[p], crcTable.table[byteIndex]);
        rem := Xor(ShiftOut(ReflectIn(), rem), crcTable.table[byteIndex]);
      }
      assert block[..|block|] == block;
    }

    method ProcessByte(byte: Byte)
      requires Valid()
      modifies this`rem
      ensures Valid() && Register() == Run(Config().poly, old(Register()), StreamOfByte(byte, ReflectIn()))
    {
      ProcessBlock([byte]);
      assert Stream([byte], ReflectIn()) == StreamOfByte(byte, ReflectIn());
    }

    method GetChecksum() returns (c: Word)
      requires Valid()
      ensures c == Resize(Checksum(Config(), Register()), Width())
    {
      // Mirroring the output depends on both flags: the register may be mirrored already.
      ReverseInvolution(rem[..Bits()]);
      c := Layout(Bits(), reflectRem != ReflectIn(), rem);
      c := And(Xor(c, finalXor), LowMask(Width(), Bits()));
    }
  }

  /** The free function crc: a fresh table-driven engine over one buffer. */
  method CrcOf(crcTable: CrcTable, initRem: Word, finalXor: Word, reflectRem: bool, buffer: seq<Byte>) returns (c: Word)
    requires crcTable.Valid() && |initRem| == |finalXor| == |crcTable.truncPoly|
    modifies crcTable, crcTable.table
    ensures crcTable.Valid()
    ensures c == Resize(Crc(Params(crcTable.truncPoly[..crcTable.bits], initRem[..crcTable.bits],
                                   finalXor[..crcTable.bits], crcTable.reflect, reflectRem), buffer),
                        |crcTable.truncPoly|)
    ensures IsChecksum(Params(crcTable.truncPoly[..crcTable.bits], initRem[..crcTable.bits],
                              finalXor[..crcTable.bits], crcTable.reflect, reflectRem), buffer, c[..crcTable.bits])
  {
    ghost var p := Params(crcTable.truncPoly[..crcTable.bits], initRem[..crcTable.bits], finalXor[..crcTable.bits],
                          crcTable.reflect, reflectRem);
    var computer := new CrcOptimal(crcTable, initRem, finalXor, reflectRem);
    computer.ProcessBlock(buffer);
    c := computer.GetChecksum();
    ChecksumExactly(p, buffer, Crc(p, buffer));
    assert c[..crcTable.bits] == Crc(p, buffer);
  }
}
