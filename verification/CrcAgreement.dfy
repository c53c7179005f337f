/** The two engines side by side. */
module CrcAgreement {
  import opened Words
  import opened CrcMeaning
  import opened CrcPolynomials
  import opened CrcSpec
  import opened CrcBasics
  import opened CrcOptimals

  /** Two engines set up for the same CRC and fed the same message report the same interim
      remainder and the same checksum, although their words may differ in width and in what
      lies above the CRC's own bits. */
  method FeedBoth(basic: CrcBasic, optimal: CrcOptimal, message: seq<Byte>)
      returns (interim: (Word, Word), checksums: (Word, Word))
    requires basic.Valid() && optimal.Valid()
    requires basic.Config() == optimal.Config() && basic.Register() == optimal.Register()
    modifies basic`rem, optimal`rem
    ensures basic.Valid() && optimal.Valid()
    ensures basic.Config() == optimal.Config() && basic.Register() == optimal.Register()
    ensures Value(interim.0) == Value(interim.1) && Value(checksums.0) == Value(checksums.1)
    ensures var p := basic.Config().(init := old(basic.Register()));
      && |interim.0| >= basic.bits && |checksums.0| >= basic.bits
      && IsRemainder(MessageDividend(p.init, message, p.reflectIn), Generator(p.poly), OfWord(interim.0[..basic.bits]))
      && IsChecksum(p, message, checksums.0[..basic.bits])
  {
    ghost var start := basic.Register();
    basic.ProcessBlock(message);
    optimal.ProcessBlock(message);
    var i0 := basic.GetInterimRemainder();
    var i1 := optimal.GetInterimRemainder();
    var c0 := basic.GetChecksum();
    var c1 := optimal.GetChecksum();
    ValueResize(basic.Register(), basic.width);
    ValueResize(optimal.Register(), optimal.Width());
    ValueResize(Checksum(basic.Config(), basic.Register()), basic.width);
    ValueResize(Checksum(basic.Config(), basic.Register()), optimal.Width());
    MessageMeans(basic.Config(), start, message, i0, c0);
    interim, checksums := (i0, i1), (c0, c1);
  }

  /** What the words read off a register mean that has taken a message in. */
  lemma {:induction false} MessageMeans(p: Params, start: Word, message: seq<Byte>, interim: Word, checksum: Word)
    requires p.Valid() && |start| == p.Bits() <= |interim| == |checksum|
    requires var r := Run(p.poly, start, Stream(message, p.reflectIn));
      interim == Resize(r, |interim|) && checksum == Resize(Checksum(p, r), |checksum|)
    ensures IsRemainder(MessageDividend(start, message, p.reflectIn), Generator(p.poly), OfWord(interim[..p.Bits()]))
    ensures IsChecksum(p.(init := start), message, checksum[..p.Bits()])
  {
    var r := Run(p.poly, start, Stream(message, p.reflectIn));
    assert interim[..p.Bits()] == r && checksum[..p.Bits()] == Checksum(p, r);
    StreamIsMessage(message, p.reflectIn);
    RegisterIsRemainder(p.poly, start, Stream(message, p.reflectIn), r);
    ChecksumExactly(p.(init := start), message, Checksum(p, r));
  }
}
