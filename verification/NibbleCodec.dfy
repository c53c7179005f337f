/** Binary fields as text, one character for each half of a byte, and the reprocess events that carry them. */
module NibbleCodec {
  import opened Basics
  import opened PerflowKeys

  /** The character for a number below 64; zero for others. */
  function EncodeBits(data: uint8): (c: uint8)
  {
    if data < 26 then data + 65
    else if data < 52 then data - 26 + 97
    else if data < 62 then data - 52 + 48
    else if data == 62 then 43
    else if data == 63 then 47
    else 0
  }

  function DecodeBits(data: uint8): (n: uint8)
    ensures n < 64
  {
    if 65 <= data <= 90 then data - 65
    else if 97 <= data <= 122 then data + 26 - 97
    else if 48 <= data <= 57 then data + 52 - 48
    else if data == 43 then 62
    else if data == 47 then 63
    else 0
  }

  lemma {:induction false} BitsBack(n: uint8)
    ensures DecodeBits(EncodeBits(n)) == n <==> n < 64
  {
  }

  /** The two characters of a byte, the lower half first. */
  function Pair(b: uint8): (r: Bytes)
    ensures |r| == 2
  {
    [EncodeBits(b % 16), EncodeBits(b / 16)]
  }

  /** The n low bits of a or b. */
  function OrBits(a: nat, b: nat, n: nat): (r: nat)
    ensures r < Pow2(n)
  {
    if n == 0 then 0 else (if a % 2 == 1 || b % 2 == 1 then 1 else 0) + 2 * OrBits(a / 2, b / 2, n - 1)
  }

  /** upper << 4 | lower, cut to a byte: the lower number's bits from the fifth on meet the upper's. */
  function Unpair(lower: uint8, upper: uint8): (b: uint8)
  {
    var l, u := DecodeBits(lower), DecodeBits(upper);
    assert Pow2(4) == 16;
    OrBits(u % 16, l / 16, 4) * 16 + l % 16
  }

  lemma {:induction false} OrNothing(a: nat, n: nat)
    requires a < Pow2(n)
    ensures OrBits(a, 0, n) == a
  {
    if n > 0 {
      OrNothing(a / 2, n - 1);
    }
  }

  lemma {:induction false} UnpairLow(lower: uint8, upper: uint8)
    requires DecodeBits(lower) < 16 && DecodeBits(upper) < 16
    ensures Unpair(lower, upper) == DecodeBits(upper) * 16 + DecodeBits(lower)
  {
    var l, u := DecodeBits(lower), DecodeBits(upper);
    assert l / 16 == 0 && u % 16 == u && l % 16 == l && Pow2(4) == 16;
    OrNothing(u, 4);
  }

  lemma {:induction false} PairBack(b: uint8)
    ensures Unpair(Pair(b)[0], Pair(b)[1]) == b
  {
    BitsBack(b % 16);
    BitsBack(b / 16);
    UnpairLow(Pair(b)[0], Pair(b)[1]);
  }

  lemma {:induction false} UnpairBack(l: uint8, u: uint8)
    requires 65 <= l <= 80 && 65 <= u <= 80
    ensures Pair(Unpair(l, u)) == [l, u]
  {
    UnpairLow(l, u);
  }

  function Encoded(blob: Bytes): (r: Bytes)
    ensures |r| == 2 * |blob|
  {
    if blob == [] then [] else Encoded(blob[..|blob| - 1]) + Pair(blob[|blob| - 1])
  }

  function Decoded(text: Bytes): (r: Bytes)
    requires |text| % 2 == 0
    ensures 2 * |r| == |text|
  {
    if text == [] then [] else Decoded(text[..|text| - 2]) + [Unpair(text[|text| - 2], text[|text| - 1])]
  }

  lemma {:induction false} DecodedSnoc(text: Bytes, l: uint8, u: uint8)
    requires |text| % 2 == 0
    ensures Decoded(text + [l, u]) == Decoded(text) + [Unpair(l, u)]
  {
    assert (text + [l, u])[..|text|] == text;
  }

  lemma {:induction false} DecodedNext(text: Bytes, i: nat)
    requires i % 2 == 0 && i + 2 <= |text|
    ensures Decoded(text[..i + 2]) == Decoded(text[..i]) + [Unpair(text[i], text[i + 1])]
  {
    DecodedSnoc(text[..i], text[i], text[i + 1]);
    assert text[..i + 2] == text[..i] + [text[i], text[i + 1]];
  }

  /** Nothing is encoded as no text at all. */
  method Encode(blob: Bytes) returns (result: Option<Bytes>)
    ensures result == if blob == [] then None else Some(Encoded(blob))
  {
    if |blob| < 1 {
      return None;
    }
    var text: Bytes := [];
    for i := 0 to |blob|
      invariant text == Encoded(blob[..i])
    {
      var lower, upper := blob[i] % 16, blob[i] / 16;
      assert blob[..i + 1][..i] == blob[..i];
      assert Encoded(blob[..i]) + Pair(blob[i]) == Encoded(blob[..i]) + [EncodeBits(lower)] + [EncodeBits(upper)];
      text := text + [EncodeBits(lower)] + [EncodeBits(upper)];
    }
    assert blob[..|blob|] == blob;
    result := Some(text);
  }

  /** What decoding comes to: the bytes, or those written inside the result and the one written past its end. */
  datatype Decoding = Fits(bytes: Bytes) | Overruns(bytes: Bytes, at: nat, value: uint8)

  /** The text is followed by its terminator, which is zero. */
  function Char(text: Bytes, i: nat): (c: uint8)
    requires i <= |text|
  {
    if i < |text| then text[i] else 0
  }

  /** In turn j the loop reads the characters 2 * j and 2 * j + 1 of a text of n, and writes byte j of n / 2. */
  predicate ReadsInside(n: nat, j: nat) {
    2 * j + 1 <= n
  }

  predicate WritesInside(n: nat, j: nat) {
    j < n / 2
  }

  /** The loop has turn j. */
  predicate HasTurn(n: nat, j: nat) {
    n - 2 * j > 0
  }

  /** No read passes the terminator; all writes stay inside the result exactly for an even length, and for an odd
      one exactly the last is outside. */
  lemma {:induction false} InsideExactly(n: nat)
    ensures forall j | HasTurn(n, j) :: ReadsInside(n, j) && (WritesInside(n, j) || j == n / 2)
    ensures (forall j | HasTurn(n, j) :: WritesInside(n, j)) <==> n % 2 == 0
  {
    if n % 2 == 1 {
      assert HasTurn(n, n / 2) && !WritesInside(n, n / 2);
    }
  }

  method Decode(text: Bytes) returns (result: Decoding)
    ensures |text| % 2 == 0 ==> result == Fits(Decoded(text))
    ensures |text| % 2 == 1 ==>
      result == Overruns(Decoded(text[..|text| - 1]), |text| / 2, Unpair(text[|text| - 1], 0))
  {
    var bytes := new uint8[|text| / 2];
    var i, j, size := 0, 0, |text|;
    while size > 0
      invariant i == 2 * j <= |text| + 1 && size == |text| - i && j <= bytes.Length
      invariant bytes[..j] == Decoded(text[..i])
    {
      InsideExactly(|text|);
      assert HasTurn(|text|, j);
      var lower, upper := Char(text, i), Char(text, i + 1);
      if j == bytes.Length {
        assert text[..i] == text[..|text| - 1];
        return Overruns(bytes[..], j, Unpair(lower, upper));
      }
      DecodedNext(text, i);
      bytes[j] := Unpair(lower, upper);
      assert bytes[..j + 1] == bytes[..j] + [Unpair(lower, upper)];
      i, j, size := i + 2, j + 1, size - 2;
    }
    assert text[..i] == text && bytes[..j] == bytes[..];
    result := Fits(bytes[..]);
  }

  lemma {:induction false} EvenLength(blob: Bytes)
    ensures |Encoded(blob)| % 2 == 0
  {
    var n: nat := |blob|;
    assert 2 * n % 2 == 0;
  }

  /** Decoding undoes encoding. */
  lemma {:induction false} DecodeEncoded(blob: Bytes)
    ensures Decoded(Encoded(blob)) == blob
  {
    if blob != [] {
      var front, last := blob[..|blob| - 1], blob[|blob| - 1];
      DecodeEncoded(front);
      EvenLength(front);
      DecodedSnoc(Encoded(front), Pair(last)[0], Pair(last)[1]);
      PairBack(last);
      assert Encoded(blob) == Encoded(front) + [Pair(last)[0], Pair(last)[1]];
      assert blob == front + [last];
    }
  }

  /** Encoded text uses sixteen characters only, 'A' to 'P', and encodes different bytes differently. */
  lemma {:induction false} EncodedAlphabet(blob: Bytes)
    ensures |Encoded(blob)| == 2 * |blob| && forall i | 0 <= i < |Encoded(blob)| :: 65 <= Encoded(blob)[i] <= 80
  {
    if blob != [] {
      EncodedAlphabet(blob[..|blob| - 1]);
    }
  }

  lemma {:induction false} EncodedDiffers(a: Bytes, b: Bytes)
    ensures Encoded(a) == Encoded(b) <==> a == b
  {
    DecodeEncoded(a);
    DecodeEncoded(b);
  }

  lemma {:induction false} EncodedSnoc(a: Bytes, b: uint8)
    ensures Encoded(a + [b]) == Encoded(a) + Pair(b)
  {
    assert (a + [b])[..|a|] == a;
  }

  /** All text over the alphabet is the encoding of something: there encoding undoes decoding too. */
  lemma {:induction false} EncodeDecoded(text: Bytes)
    requires |text| % 2 == 0 && forall i | 0 <= i < |text| :: 65 <= text[i] <= 80
    ensures Encoded(Decoded(text)) == text
    decreases |text|
  {
    if text != [] {
      var front, l, u := text[..|text| - 2], text[|text| - 2], text[|text| - 1];
      EncodeDecoded(front);
      EncodedBack(Decoded(front), l, u);
      assert text == front + [l, u];
    }
  }

  lemma {:induction false} EncodedBack(blob: Bytes, l: uint8, u: uint8)
    requires 65 <= l <= 80 && 65 <= u <= 80
    ensures Encoded(blob + [Unpair(l, u)]) == Encoded(blob) + [l, u]
  {
    UnpairBack(l, u);
    EncodedSnoc(blob, Unpair(l, u));
  }

  // ----- The code itself -----

  /** Byte i is the two letters at 2 * i, its lower half first, 'A' for zero up to 'P' for fifteen. */
  lemma {:induction false} EncodedAt(blob: Bytes, i: nat)
    requires i < |blob|
    ensures Encoded(blob)[2 * i] == 'A' as int + blob[i] % 16
    ensures Encoded(blob)[2 * i + 1] == 'A' as int + blob[i] / 16
    decreases |blob|
  {
    if i < |blob| - 1 {
      EncodedAt(blob[..|blob| - 1], i);
    }
  }

  lemma {:induction false} DecodedLast(text: Bytes)
    requires |text| % 2 == 0 && text != []
    ensures Decoded(text) == Decoded(text[..|text| - 2]) + [Unpair(text[|text| - 2], text[|text| - 1])]
    ensures 2 * |Decoded(text[..|text| - 2])| == |text| - 2
  {
  }

  /** Each byte is decoded from the two characters at its place. */
  lemma {:induction false} DecodedAt(text: Bytes, i: nat)
    requires |text| % 2 == 0 && 2 * i + 1 < |text|
    ensures Decoded(text)[i] == Unpair(text[2 * i], text[2 * i + 1])
    decreases |text|
  {
    DecodedLast(text);
    if 2 * i + 1 < |text| - 2 {
      DecodedAt(text[..|text| - 2], i);
    } else {
      assert i == |Decoded(text[..|text| - 2])|;
    }
  }

  /** The letters stand for 0 to 51, the digits for the next ten numbers, and two signs for the last two; anything
      else is read as zero. */
  lemma {:induction false} DecodesExactly(c: char, n: nat)
    requires c < 256 as char && n < 64
    ensures 'A' <= c <= 'Z' ==> (DecodeBits(c as int) == n <==> c as int == 'A' as int + n)
    ensures 'a' <= c <= 'z' ==> (DecodeBits(c as int) == n <==> c as int + 26 == 'a' as int + n)
    ensures '0' <= c <= '9' ==> (DecodeBits(c as int) == n <==> c as int + 52 == '0' as int + n)
    ensures DecodeBits('+' as int) == 62 && DecodeBits('/' as int) == 63
    ensures !('A' <= c <= 'Z' || 'a' <= c <= 'z' || '0' <= c <= '9' || c == '+' || c == '/') ==>
      DecodeBits(c as int) == 0
  {
  }

  lemma {:induction false} OrAt(a: nat, b: nat, n: nat, i: nat)
    requires i < n
    ensures BitAt(OrBits(a, b, n), i) <==> BitAt(a, i) || BitAt(b, i)
  {
    if i > 0 {
      OrAt(a / 2, b / 2, n - 1, i - 1);
      HalfBit(OrBits(a, b, n), i - 1);
      HalfBit(a, i - 1);
      HalfBit(b, i - 1);
    }
  }

  lemma {:induction false} HighHalf(x: nat, i: nat)
    requires i >= 4
    ensures BitAt(x, i) <==> BitAt(x / 16, i - 4)
  {
    HalfBit(x, i - 1);
    HalfBit(x / 2, i - 2);
    HalfBit(x / 2 / 2, i - 3);
    HalfBit(x / 2 / 2 / 2, i - 4);
    assert x / 2 / 2 / 2 / 2 == x / 16;
  }

  /** Halving a number of the form 2 * p * q + r. */
  lemma {:induction false} HalfOf(p: nat, q: nat, r: nat)
    ensures (2 * (p * q) + r) / 2 == p * q + r / 2 && (2 * (p * q) + r) % 2 == r % 2
  {
  }

  /** What is a multiple of 2 to the power k away has the same k low bits. */
  lemma {:induction false} LowBits(q: nat, r: nat, k: nat, i: nat)
    requires i < k
    ensures BitAt(Pow2(k) * q + r, i) <==> BitAt(r, i)
    decreases k
  {
    var x := Pow2(k) * q + r;
    assert x == 2 * (Pow2(k - 1) * q) + r;
    HalfOf(Pow2(k - 1), q, r);
    if i > 0 {
      LowBits(q, r / 2, k - 1, i - 1);
      HalfBit(x, i - 1);
      HalfBit(r, i - 1);
    } else {
      LowestBit(x);
      LowestBit(r);
    }
  }

  lemma {:induction false} LowestBit(x: nat)
    ensures BitAt(x, 0) <==> x % 2 == 1
  {
  }

  lemma {:induction false} LowHalf(x: nat, i: nat)
    requires i < 4
    ensures BitAt(x, i) <==> BitAt(x % 16, i)
  {
    assert Pow2(4) == 16 && x == 16 * (x / 16) + x % 16;
    LowBits(x / 16, x % 16, 4, i);
  }

  lemma {:induction false} Halves(high: nat, low: nat, i: nat)
    requires low < 16
    ensures BitAt(high * 16 + low, i) <==> if i < 4 then BitAt(low, i) else BitAt(high, i - 4)
  {
    var x := high * 16 + low;
    assert x / 16 == high && x % 16 == low;
    if i < 4 {
      LowHalf(x, i);
    } else {
      HighHalf(x, i);
    }
  }

  /** The halves of a decoded byte: the first character's low bits, and from bit 4 on the second's as well. */
  lemma {:induction false} DecodedBit(lower: uint8, upper: uint8, i: nat)
    requires i < 8
    ensures BitAt(Unpair(lower, upper), i)
       <==> BitAt(DecodeBits(lower), i) || (i >= 4 && BitAt(DecodeBits(upper), i - 4))
  {
    var l, u := DecodeBits(lower), DecodeBits(upper);
    Halves(OrBits(u % 16, l / 16, 4), l % 16, i);
    if i < 4 {
      LowHalf(l, i);
    } else {
      OrAt(u % 16, l / 16, 4, i - 4);
      LowHalf(u, i - 4);
      HighHalf(l, i);
    }
  }

  // ----- Reprocess events -----

  /** A reprocess event's fields, those that are there. */
  datatype Reprocess = Reprocess(id: int, hashkey: Option<int>, header: Option<Bytes>, packet: Option<Bytes>)

  /** A field of odd length is written past its end, after which nothing is certain. */
  datatype Outcome = Handed(header: Bytes, packet: Bytes) | Refused(id: int, hashkey: int) | Overrun(at: nat)

  predicate OddField(field: Option<Bytes>) {
    field.Some? && |field.value| % 2 == 1
  }

  /** The event for a packet that has a header and a body. */
  method ComposeReprocess(id: int, hashkey: int, header: Bytes, packet: Bytes) returns (msg: Reprocess)
    requires header != [] && packet != []
    ensures msg == Reprocess(id, Some(hashkey), Some(Encoded(header)), Some(Encoded(packet)))
  {
    var h := Encode(header);
    var p := Encode(packet);
    msg := Reprocess(id, Some(hashkey), h, p);
  }

  /** The receiver checks the fields in turn and hands the decoded packet to the network function, which
      says how much it wrote; without one, or if that is negative, the result is -1. */
  method HandleReprocess(msg: Reprocess, processWrites: Option<int>) returns (result: int, outcome: Outcome)
    ensures msg.hashkey.None? ==> outcome == Refused(msg.id, -1)
    ensures msg.hashkey.Some? && (msg.header.None? || (msg.packet.None? && !OddField(msg.header))) ==>
      outcome == Refused(msg.id, msg.hashkey.value)
    ensures outcome.Overrun? <==>
      msg.hashkey.Some? && msg.header.Some? && (OddField(msg.header) || OddField(msg.packet))
    ensures outcome.Overrun? ==>
      outcome.at == (if OddField(msg.header) then |msg.header.value| else |msg.packet.value|) / 2
    ensures msg.hashkey.Some? && msg.header.Some? && msg.packet.Some? && !outcome.Overrun? ==>
      |msg.header.value| % 2 == |msg.packet.value| % 2 == 0
      && outcome == Handed(Decoded(msg.header.value), Decoded(msg.packet.value))
    ensures !outcome.Overrun? ==>
      result == if outcome.Handed? && processWrites.Some? && processWrites.value >= 0 then processWrites.value else -1
  {
    if msg.hashkey.None? {
      return -1, Refused(msg.id, -1);
    }
    if msg.header.None? {
      return -1, Refused(msg.id, msg.hashkey.value);
    }
    var header := Decode(msg.header.value);
    if header.Overruns? {
      return -1, Overrun(header.at);
    }
    if msg.packet.None? {
      return -1, Refused(msg.id, msg.hashkey.value);
    }
    var packet := Decode(msg.packet.value);
    if packet.Overruns? {
      return -1, Overrun(packet.at);
    }
    outcome := Handed(header.bytes, packet.bytes);
    result := -1;
    if processWrites.Some? {
      result := processWrites.value;
    }
    if result < 0 {
      result := -1;
    }
  }

  lemma {:induction false} FieldsBack(blob: Bytes)
    ensures |Encoded(blob)| % 2 == 0 && Decoded(Encoded(blob)) == blob
  {
    EvenLength(blob);
    DecodeEncoded(blob);
  }

  /** A packet sent as a reprocess event reaches the receiver's network function as it was. */
  method Reprocessed(id: int, hashkey: int, header: Bytes, packet: Bytes, processWrites: Option<int>)
    returns (result: int, outcome: Outcome)
    requires header != [] && packet != []
    ensures outcome == Handed(header, packet)
  {
    var msg := ComposeReprocess(id, hashkey, header, packet);
    FieldsBack(header);
    FieldsBack(packet);
    result, outcome := HandleReprocess(msg, processWrites);
  }
}
