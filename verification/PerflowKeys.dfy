/** Flow keys, and their form as JSON fields. */
module PerflowKeys {
  import opened Basics

  type uint8 = x: int | 0 <= x < 0x100
  type uint16 = x: int | 0 <= x < 0x1_0000
  type uint32 = x: int | 0 <= x < 0x1_0000_0000
  type Bytes = seq<uint8>

  /** A 16-bit number in network byte order; ntohs and htons convert between it and the number. */
  datatype NetShort = Htons(ntohs: uint16)

  /** The eight wildcard bits, from 0x01 for dlType up to 0x80 for nwDstMask. */
  datatype Wildcards = Wildcards(dlType: bool, nwSrc: bool, nwDst: bool, nwProto: bool,
                                 tpSrc: bool, tpDst: bool, nwSrcMask: bool, nwDstMask: bool)

  datatype PerflowKey = PerflowKey(nwSrc: uint32, nwSrcMask: uint32, nwDst: uint32, nwDstMask: uint32,
                                   tpSrc: NetShort, tpDst: NetShort, dlType: uint16, nwProto: uint8,
                                   wildcards: Wildcards, tpFlip: uint8)

  /** An address in dotted form, or text that is none. */
  datatype Address = Dotted(addr: uint32) | Malformed

  /** The key's JSON object: each field is there or not. */
  datatype JsonKey = JsonKey(dlType: Option<int>, nwSrc: Option<Address>, nwSrcMask: Option<int>,
                             nwDst: Option<Address>, nwDstMask: Option<int>, nwProto: Option<int>,
                             tpSrc: Option<int>, tpDst: Option<int>, tpFlip: Option<int>)

  const EMPTY := JsonKey(None, None, None, None, None, None, None, None, None)
  const NO_WILDCARDS := Wildcards(false, false, false, false, false, false, false, false)
  const ZERO := PerflowKey(0, 0, 0, 0, Htons(0), Htons(0), 0, 0, NO_WILDCARDS, 0)

  /** The conversions to unsigned numbers of 8, 16 and 32 bits. */
  function Low8(x: int): (r: uint8)
  {
    x % 0x100
  }

  function Low16(x: int): (r: uint16)
  {
    x % 0x1_0000
  }

  function Low32(x: int): (r: uint32)
  {
    x % 0x1_0000_0000
  }

  /** A 32-bit number as a signed int. */
  function AsInt(x: uint32): (r: int)
    ensures Low32(r) == x
  {
    if x < 0x8000_0000 then x else x - 0x1_0000_0000
  }

  function AddressOf(a: Address): (r: uint32)
  {
    if a.Dotted? then a.addr else 0
  }

  /** Adds one field for every part of the key that is not a wildcard. */
  method ComposeKey(key: PerflowKey) returns (field: JsonKey)
    ensures field == Composed(key)
  {
    field := EMPTY;
    if !key.wildcards.dlType {
      field := field.(dlType := Some(key.dlType));
    }
    if !key.wildcards.nwSrc {
      field := field.(nwSrc := Some(Dotted(key.nwSrc)));
    }
    if !key.wildcards.nwSrcMask {
      field := field.(nwSrcMask := Some(AsInt(key.nwSrcMask)));
    }
    if !key.wildcards.nwDst {
      field := field.(nwDst := Some(Dotted(key.nwDst)));
    }
    if !key.wildcards.nwDstMask {
      field := field.(nwDstMask := Some(AsInt(key.nwDstMask)));
    }
    if !key.wildcards.nwProto {
      field := field.(nwProto := Some(key.nwProto));
    }
    if !key.wildcards.tpSrc {
      field := field.(tpSrc := Some(key.tpSrc.ntohs));
    }
    if !key.wildcards.tpDst {
      field := field.(tpDst := Some(key.tpDst.ntohs));
    }
    if !key.wildcards.tpSrc || !key.wildcards.tpDst {
      field := field.(tpFlip := Some(key.tpFlip));
    }
  }

  function Unless<T>(wild: bool, v: T): (r: Option<T>)
  {
    if wild then None else Some(v)
  }

  /** The fields of a key's JSON object. */
  function Composed(k: PerflowKey): (j: JsonKey)
  {
    JsonKey(Unless(k.wildcards.dlType, k.dlType as int),
            Unless(k.wildcards.nwSrc, Dotted(k.nwSrc)),
            Unless(k.wildcards.nwSrcMask, AsInt(k.nwSrcMask)),
            Unless(k.wildcards.nwDst, Dotted(k.nwDst)),
            Unless(k.wildcards.nwDstMask, AsInt(k.nwDstMask)),
            Unless(k.wildcards.nwProto, k.nwProto as int),
            Unless(k.wildcards.tpSrc, k.tpSrc.ntohs as int),
            Unless(k.wildcards.tpDst, k.tpDst.ntohs as int),
            Unless(k.wildcards.tpSrc && k.wildcards.tpDst, k.tpFlip as int))
  }

  /** Zeroes all fields, fills in those that are there and marks the others as wildcards. */
  method ParseKey(field: JsonKey) returns (key: PerflowKey)
    ensures key == Parsed(field)
  {
    var dlType, nwProto, tpFlip: int := 0, 0, 0;
    var noType, noProto := false, false;
    if field.dlType.Some? {
      dlType := Low16(field.dlType.value);
    } else {
      noType := true;
    }
    var nwSrc, nwSrcMask, noSrc, noSrcMask := ParseAddress(field.nwSrc, field.nwSrcMask);
    var nwDst, nwDstMask, noDst, noDstMask := ParseAddress(field.nwDst, field.nwDstMask);
    if field.nwProto.Some? {
      nwProto := Low8(field.nwProto.value);
    } else {
      noProto := true;
    }
    var tpSrc, noTpSrc := ParsePort(field.tpSrc);
    var tpDst, noTpDst := ParsePort(field.tpDst);
    if field.tpFlip.Some? {
      tpFlip := Low8(field.tpFlip.value);
    } else {
      tpFlip := 0;
    }
    var wildcards := Wildcards(noType, noSrc, noDst, noProto, noTpSrc, noTpDst, noSrcMask, noDstMask);
    key := PerflowKey(nwSrc, nwSrcMask, nwDst, nwDstMask, tpSrc, tpDst, dlType, nwProto, wildcards, tpFlip);
  }

  method ParseAddress(addr: Option<Address>, mask: Option<int>)
    returns (nw: uint32, nwMask: uint32, wild: bool, wildMask: bool)
    ensures nw == AddressOf(Or(addr, Malformed)) && wild == addr.None?
    ensures nwMask == Low32(Or(mask, 0)) && wildMask == mask.None?
  {
    nw, nwMask, wild, wildMask := 0, 0, false, false;
    if addr.Some? {
      nw := AddressOf(addr.value);
    } else {
      wild := true;
    }
    if mask.Some? {
      nwMask := Low32(mask.value);
    } else {
      wildMask := true;
    }
  }

  method ParsePort(port: Option<int>) returns (tp: NetShort, wild: bool)
    ensures tp == Htons(Low16(Or(port, 0))) && wild == port.None?
  {
    tp, wild := Htons(0), false;
    if port.Some? {
      tp := Htons(Low16(port.value));
    } else {
      wild := true;
    }
  }

  function Or<T>(o: Option<T>, d: T): (v: T)
  {
    if o.Some? then o.value else d
  }

  /** A field that is not there is a wildcard. */
  function Absent(j: JsonKey): (w: Wildcards)
  {
    Wildcards(j.dlType.None?, j.nwSrc.None?, j.nwDst.None?, j.nwProto.None?,
              j.tpSrc.None?, j.tpDst.None?, j.nwSrcMask.None?, j.nwDstMask.None?)
  }

  /** The key that a JSON object stands for. */
  function Parsed(j: JsonKey): (k: PerflowKey)
  {
    PerflowKey(AddressOf(Or(j.nwSrc, Malformed)), Low32(Or(j.nwSrcMask, 0)),
               AddressOf(Or(j.nwDst, Malformed)), Low32(Or(j.nwDstMask, 0)),
               Htons(Low16(Or(j.tpSrc, 0))), Htons(Low16(Or(j.tpDst, 0))),
               Low16(Or(j.dlType, 0)), Low8(Or(j.nwProto, 0)), Absent(j), Low8(Or(j.tpFlip, 0)))
  }

  /** A field that is there is read as a number below the modulus; one that is not is zero and a wildcard. */
  predicate ReadAs(field: Option<int>, value: int, wild: bool, modulus: nat) {
    match field
    case Some(x) => !wild && 0 <= value < modulus && (x - value) % modulus == 0
    case None => wild && value == 0
  }

  /** Every field of an object is read into the field of the key with the same name. */
  lemma {:induction false} ParsedExactly(j: JsonKey)
    ensures var k := Parsed(j);
      && ReadAs(j.dlType, k.dlType, k.wildcards.dlType, 0x1_0000)
      && ReadAs(j.nwProto, k.nwProto, k.wildcards.nwProto, 0x100)
      && ReadAs(j.tpSrc, k.tpSrc.ntohs, k.wildcards.tpSrc, 0x1_0000)
      && ReadAs(j.tpDst, k.tpDst.ntohs, k.wildcards.tpDst, 0x1_0000)
      && ReadAs(j.nwSrcMask, k.nwSrcMask, k.wildcards.nwSrcMask, 0x1_0000_0000)
      && ReadAs(j.nwDstMask, k.nwDstMask, k.wildcards.nwDstMask, 0x1_0000_0000)
      && ReadAs(j.tpFlip, k.tpFlip, j.tpFlip.None?, 0x100)
      && k.wildcards.nwSrc == j.nwSrc.None? && k.wildcards.nwDst == j.nwDst.None?
      && k.nwSrc == (if j.nwSrc.Some? && j.nwSrc.value.Dotted? then j.nwSrc.value.addr else 0)
      && k.nwDst == (if j.nwDst.Some? && j.nwDst.value.Dotted? then j.nwDst.value.addr else 0)
  {
  }

  /** A part of a key is written unless it is a wildcard. */
  predicate WrittenAs<T(==)>(field: Option<T>, value: T, wild: bool) {
    match field
    case Some(x) => !wild && x == value
    case None => wild
  }

  /** Every part of a key is written into the field of the object with the same name; a mask as a signed number. */
  lemma {:induction false} ComposedExactly(k: PerflowKey)
    ensures var j := Composed(k);
      && WrittenAs(j.dlType, k.dlType, k.wildcards.dlType) && WrittenAs(j.nwProto, k.nwProto, k.wildcards.nwProto)
      && WrittenAs(j.tpSrc, k.tpSrc.ntohs, k.wildcards.tpSrc) && WrittenAs(j.tpDst, k.tpDst.ntohs, k.wildcards.tpDst)
      && WrittenAs(j.nwSrc, Dotted(k.nwSrc), k.wildcards.nwSrc)
      && WrittenAs(j.nwDst, Dotted(k.nwDst), k.wildcards.nwDst)
      && WrittenAs(j.nwSrcMask, Signed(k.nwSrcMask), k.wildcards.nwSrcMask)
      && WrittenAs(j.nwDstMask, Signed(k.nwDstMask), k.wildcards.nwDstMask)
      && WrittenAs(j.tpFlip, k.tpFlip, k.wildcards.tpSrc && k.wildcards.tpDst)
  {
  }

  /** The number between -2 to the power 31 and 2 to the power 31 that a 32-bit word holds. */
  function Signed(x: uint32): (r: int)
    ensures -0x8000_0000 <= r < 0x8000_0000 && (r - x) % 0x1_0000_0000 == 0
  {
    (x + 0x8000_0000) % 0x1_0000_0000 - 0x8000_0000
  }

  /** A key whose wildcarded fields are zero, and whose flip flag is too when it has no ports. */
  predicate Normal(k: PerflowKey) {
    && (k.wildcards.dlType ==> k.dlType == 0)
    && (k.wildcards.nwSrc ==> k.nwSrc == 0) && (k.wildcards.nwDst ==> k.nwDst == 0)
    && (k.wildcards.nwSrcMask ==> k.nwSrcMask == 0) && (k.wildcards.nwDstMask ==> k.nwDstMask == 0)
    && (k.wildcards.nwProto ==> k.nwProto == 0)
    && (k.wildcards.tpSrc ==> k.tpSrc == Htons(0)) && (k.wildcards.tpDst ==> k.tpDst == Htons(0))
    && (k.wildcards.tpSrc && k.wildcards.tpDst ==> k.tpFlip == 0)
  }

  /** Two keys that agree in their wildcards and in everything that is not wildcarded. */
  predicate Agree(a: PerflowKey, b: PerflowKey) {
    && a.wildcards == b.wildcards
    && (!a.wildcards.dlType ==> a.dlType == b.dlType)
    && (!a.wildcards.nwSrc ==> a.nwSrc == b.nwSrc) && (!a.wildcards.nwDst ==> a.nwDst == b.nwDst)
    && (!a.wildcards.nwSrcMask ==> a.nwSrcMask == b.nwSrcMask)
    && (!a.wildcards.nwDstMask ==> a.nwDstMask == b.nwDstMask)
    && (!a.wildcards.nwProto ==> a.nwProto == b.nwProto)
    && (!a.wildcards.tpSrc ==> a.tpSrc == b.tpSrc) && (!a.wildcards.tpDst ==> a.tpDst == b.tpDst)
    && (!a.wildcards.tpSrc || !a.wildcards.tpDst ==> a.tpFlip == b.tpFlip)
  }

  /** Parsing a composed key gives back its wildcards and every other field, and zero elsewhere. */
  lemma {:induction false} ParseComposed(k: PerflowKey)
    ensures Normal(Parsed(Composed(k))) && Agree(k, Parsed(Composed(k)))
  {
  }

  lemma {:induction false} NormalAgree(a: PerflowKey, b: PerflowKey)
    requires Normal(a) && Normal(b) && Agree(a, b)
    ensures a == b
  {
  }

  /** The round trip gives the very same key exactly when its wildcarded fields are zero. */
  lemma {:induction false} RoundTripExact(k: PerflowKey)
    ensures Parsed(Composed(k)) == k <==> Normal(k)
  {
    ParseComposed(k);
    if Normal(k) {
      NormalAgree(k, Parsed(Composed(k)));
    }
  }

  /** Composed objects are equal exactly for keys that agree. */
  lemma {:induction false} SameJson(a: PerflowKey, b: PerflowKey)
    ensures Composed(a) == Composed(b) <==> Agree(a, b)
  {
  }
}
