/** When a packet's key matches a filter's key. */
module FilterMatching {
  import opened Basics
  import opened PerflowKeys

  /** x without its n low bits. */
  function DropBits(x: int, n: nat): (r: int)
    decreases n
  {
    if n == 0 then x else DropBits(x / 2, n - 1)
  }

  /** Equal under a mask of the given length. */
  predicate SameNet(a: uint32, b: uint32, length: int) {
    1 <= length <= 32 && DropBits(a, 32 - length) == DropBits(b, 32 - length)
  }

  lemma {:induction false} DropIsQuotient(x: nat, n: nat)
    ensures DropBits(x, n) == x / Pow2(n)
  {
    if n > 0 {
      DropIsQuotient(x / 2, n - 1);
      HalveFirst(x, n - 1);
    }
  }

  /** Two addresses are in one net of the given length if they are the same but for their 32 - length low bits. */
  lemma {:induction false} SameNetExactly(a: uint32, b: uint32, length: int)
    requires 1 <= length <= 32
    ensures SameNet(a, b, length) <==> a / Pow2(32 - length) == b / Pow2(32 - length)
  {
    DropIsQuotient(a, 32 - length);
    DropIsQuotient(b, 32 - length);
  }

  /** Mask lengths the code can shift by. */
  predicate MasksInRange(f: PerflowKey) {
    && (!f.wildcards.nwSrcMask ==> 1 <= f.nwSrcMask <= 32)
    && (!f.wildcards.nwDstMask ==> 1 <= f.nwDstMask <= 32)
  }

  function SrcLength(f: PerflowKey): (n: int)
  {
    if f.wildcards.nwSrcMask then 32 else f.nwSrcMask
  }

  function DstLength(f: PerflowKey): (n: int)
  {
    if f.wildcards.nwDstMask then 32 else f.nwDstMask
  }

  predicate SrcPort(f: PerflowKey, p: PerflowKey) {
    f.tpSrc == p.tpSrc || (p.tpFlip != 0 && f.tpDst == p.tpSrc)
  }

  predicate DstPort(f: PerflowKey, p: PerflowKey) {
    f.tpDst == p.tpDst || (p.tpFlip != 0 && f.tpSrc == p.tpDst)
  }

  /** The filter key f matches the packet key p. */
  predicate Matches(f: PerflowKey, p: PerflowKey) {
    && (f.wildcards.dlType || f.dlType == p.dlType)
    && (f.wildcards.nwSrc || SameNet(f.nwSrc, p.nwSrc, SrcLength(f)))
    && (f.wildcards.nwDst || SameNet(f.nwDst, p.nwDst, DstLength(f)))
    && (f.wildcards.nwProto || f.nwProto == p.nwProto)
    && (f.wildcards.tpSrc || SrcPort(f, p))
    && (f.wildcards.tpDst || DstPort(f, p))
  }

  /** The comparisons in the order of the code, leaving off at the first that fails. */
  method CheckKey(f: PerflowKey, p: PerflowKey) returns (matches: bool)
    requires MasksInRange(f)
    ensures matches == Matches(f, p)
  {
    if !f.wildcards.dlType && f.dlType != p.dlType {
      return false;
    }
    if !f.wildcards.nwSrc && !SameNet(f.nwSrc, p.nwSrc, SrcLength(f)) {
      return false;
    }
    if !f.wildcards.nwDst && !SameNet(f.nwDst, p.nwDst, DstLength(f)) {
      return false;
    }
    if !f.wildcards.nwProto && f.nwProto != p.nwProto {
      return false;
    }
    if !f.wildcards.tpSrc && !(f.tpSrc == p.tpSrc || (p.tpFlip != 0 && f.tpDst == p.tpSrc)) {
      return false;
    }
    if !f.wildcards.tpDst && !(f.tpDst == p.tpDst || (p.tpFlip != 0 && f.tpSrc == p.tpDst)) {
      return false;
    }
    return true;
  }

  /** An address that a filter names, with the length of its mask, or of a whole address if there is none. */
  predicate NetNamed(wild: bool, net: uint32, whole: bool, length: uint32, address: uint32) {
    wild || (if whole then net == address
             else 1 <= length <= 32 && net / Pow2(32 - length) == address / Pow2(32 - length))
  }

  /** A port that a filter names; of a flipped packet the other named port will do. */
  predicate PortNamed(wild: bool, port: NetShort, other: NetShort, own: NetShort, flip: uint8) {
    wild || port == own || (flip != 0 && other == own)
  }

  /** What a filter compares. */
  lemma {:induction false} MatchesExactly(f: PerflowKey, p: PerflowKey)
    requires MasksInRange(f)
    ensures Matches(f, p)
       <==> && (f.wildcards.dlType || p.dlType == f.dlType) && (f.wildcards.nwProto || p.nwProto == f.nwProto)
            && NetNamed(f.wildcards.nwSrc, f.nwSrc, f.wildcards.nwSrcMask, f.nwSrcMask, p.nwSrc)
            && NetNamed(f.wildcards.nwDst, f.nwDst, f.wildcards.nwDstMask, f.nwDstMask, p.nwDst)
            && PortNamed(f.wildcards.tpSrc, f.tpSrc, f.tpDst, p.tpSrc, p.tpFlip)
            && PortNamed(f.wildcards.tpDst, f.tpDst, f.tpSrc, p.tpDst, p.tpFlip)
  {
    SameNetExactly(f.nwSrc, p.nwSrc, SrcLength(f));
    SameNetExactly(f.nwDst, p.nwDst, DstLength(f));
    assert Pow2(0) == 1;
  }

  lemma {:induction false} DropMore(a: int, b: int, n: nat, m: nat)
    requires DropBits(a, n) == DropBits(b, n) && n <= m
    ensures DropBits(a, m) == DropBits(b, m)
    decreases n
  {
    if n == 0 {
    } else {
      DropMore(a / 2, b / 2, n - 1, m - 1);
    }
  }

  /** A shorter mask lets through at least as much. */
  lemma {:induction false} ShorterMask(f: PerflowKey, g: PerflowKey, p: PerflowKey)
    requires MasksInRange(f) && MasksInRange(g) && Matches(f, p)
    requires g == f.(nwSrcMask := g.nwSrcMask, nwDstMask := g.nwDstMask)
    requires SrcLength(g) <= SrcLength(f) && DstLength(g) <= DstLength(f)
    ensures Matches(g, p)
  {
    if !f.wildcards.nwSrc {
      DropMore(f.nwSrc, p.nwSrc, 32 - SrcLength(f), 32 - SrcLength(g));
    }
    if !f.wildcards.nwDst {
      DropMore(f.nwDst, p.nwDst, 32 - DstLength(f), 32 - DstLength(g));
    }
  }

  /** With the flip flag, a filter on both ports does not mind which end sent the packet. */
  lemma {:induction false} FlipIgnoresDirection(f: PerflowKey, p: PerflowKey)
    requires p.tpFlip != 0 && !f.wildcards.tpSrc && !f.wildcards.tpDst
    ensures Matches(f, p) <==> Matches(f, p.(tpSrc := p.tpDst, tpDst := p.tpSrc))
  {
  }

  // ----- Wildcarded ports -----

  /** Keys that the code parses hold port 0 where the port is a wildcard, so filters that agree match the
      same packets, flipped or not. */
  lemma {:induction false} MatchingAgrees(i: JsonKey, j: JsonKey, p: PerflowKey)
    requires Agree(Parsed(i), Parsed(j))
    ensures Matches(Parsed(i), p) <==> Matches(Parsed(j), p)
  {
  }

  /** The comparison of everything but the ports. */
  predicate OthersMatch(f: PerflowKey, p: PerflowKey) {
    && (f.wildcards.dlType || f.dlType == p.dlType)
    && (f.wildcards.nwSrc || SameNet(f.nwSrc, p.nwSrc, SrcLength(f)))
    && (f.wildcards.nwDst || SameNet(f.nwDst, p.nwDst, DstLength(f)))
    && (f.wildcards.nwProto || f.nwProto == p.nwProto)
  }

  /** The packet's port is one that the filter names: its own, or with the flip flag the other one. */
  predicate Named(own: Option<NetShort>, other: Option<NetShort>, port: NetShort, flip: bool) {
    own == None || own == Some(port) || (flip && other == Some(port))
  }

  /** The matching that reads no wildcarded field. */
  predicate MatchesNamed(f: PerflowKey, p: PerflowKey) {
    var src, dst := Unless(f.wildcards.tpSrc, f.tpSrc), Unless(f.wildcards.tpDst, f.tpDst);
    OthersMatch(f, p) && Named(src, dst, p.tpSrc, p.tpFlip != 0) && Named(dst, src, p.tpDst, p.tpFlip != 0)
  }

  /** A flipped packet with port 0 where the filter names another port, and leaves the opposite one open. */
  predicate ReadsWildcard(f: PerflowKey, p: PerflowKey) {
    && p.tpFlip != 0 && f.wildcards.tpSrc != f.wildcards.tpDst && OthersMatch(f, p)
    && (!f.wildcards.tpSrc ==> p.tpSrc == Htons(0) && f.tpSrc != Htons(0))
    && (!f.wildcards.tpDst ==> p.tpDst == Htons(0) && f.tpDst != Htons(0))
  }

  /** It depends on nothing but what the key's JSON object says. */
  lemma {:induction false} NamedAgrees(f: PerflowKey, g: PerflowKey, p: PerflowKey)
    requires Agree(f, g)
    ensures MatchesNamed(f, p) <==> MatchesNamed(g, p)
  {
  }

  /** The code meets that matching except where a flipped packet has the port 0 that a wildcard holds. */
  lemma {:induction false} MatchesNamedOnly(j: JsonKey, p: PerflowKey)
    ensures (Matches(Parsed(j), p) <==> MatchesNamed(Parsed(j), p)) <==> !ReadsWildcard(Parsed(j), p)
  {
    var f := Parsed(j);
    assert f.wildcards.tpSrc ==> f.tpSrc == Htons(0);
    assert f.wildcards.tpDst ==> f.tpDst == Htons(0);
    assert Matches(f, p)
      <==> OthersMatch(f, p) && (f.wildcards.tpSrc || SrcPort(f, p)) && (f.wildcards.tpDst || DstPort(f, p));
  }

  /** A filter on source port 80 alone matches a flipped packet from port 0. */
  lemma {:induction false} WildcardRead()
    ensures var f := Parsed(EMPTY.(tpSrc := Some(80)));
      var p := ZERO.(tpFlip := 1);
      Matches(f, p) && !MatchesNamed(f, p)
  {
    assert Parsed(EMPTY.(tpSrc := Some(80))).tpSrc == Htons(80);
  }
}
