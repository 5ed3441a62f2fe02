/** IPv4 unicast announcements as lists of path attributes (section 4.3 of RFC 4271, RFC 1997 for communities). */
module UnicastAnnounce {
  import opened Octets
  import opened BinaryBuffer
  import opened PathAttribute

  datatype Community = Community(asn: Word16, number: Word16)

  datatype Announce = Announce(origin: Octet, nextHop: Word32, asPath: seq<Word32>, communities: seq<Community>)

  const ORIGIN_INCOMPLETE: Octet := 2
  const AS_SEQUENCE: Octet := 2

  const EMPTY_ANNOUNCE := Announce(ORIGIN_INCOMPLETE, 0, [], [])

  /** The longest AS path whose attribute length fits one octet, and as many communities as a length octet counts. */
  const MAX_ASNS: nat := 63
  const COMMUNITY_PERIOD: nat := 64

  // ----- encoding -----

  function CommunityBytes(c: Community): seq<Octet> {
    Bytes16(c.asn) + Bytes16(c.number)
  }

  function CommunitiesBytes(cs: seq<Community>): (b: seq<Octet>)
    ensures |b| == 4 * |cs|
  {
    if cs == [] then [] else CommunitiesBytes(cs[..|cs| - 1]) + CommunityBytes(cs[|cs| - 1])
  }

  function AsnsBytes(asns: seq<Word32>): (b: seq<Octet>)
    ensures |b| == 4 * |asns|
  {
    if asns == [] then [] else AsnsBytes(asns[..|asns| - 1]) + Bytes32(asns[|asns| - 1])
  }

  function OriginAttribute(a: Announce): seq<Octet> {
    Attribute(false, true, ORIGIN, 1, [a.origin])
  }

  function NextHopAttribute(a: Announce): seq<Octet> {
    Attribute(false, true, NEXT_HOP, 4, Bytes32(a.nextHop))
  }

  function AsPathAttribute(a: Announce): seq<Octet>
    requires |a.asPath| <= MAX_ASNS
  {
    Attribute(false, true, AS_PATH, 2 + 4 * |a.asPath|, [AS_SEQUENCE, |a.asPath|] + AsnsBytes(a.asPath))
  }

  /** The length octet counts modulo 256, and the buffer is sized by it, so whole blocks of 64 communities vanish. */
  function Kept(cs: seq<Community>): seq<Community> {
    cs[..|cs| % COMMUNITY_PERIOD]
  }

  function CommunityAttribute(a: Announce): seq<Octet> {
    Attribute(true, true, COMMUNITY, 4 * |Kept(a.communities)|, CommunitiesBytes(Kept(a.communities)))
  }

  /** All attributes in ascending type order; a too long AS path stops after the first. */
  function Attributes(a: Announce): (bool, seq<seq<Octet>>) {
    if |a.asPath| > MAX_ASNS then (false, [OriginAttribute(a)])
    else
      (true, [OriginAttribute(a)] + (if a.asPath == [] then [] else [AsPathAttribute(a)]) + [NextHopAttribute(a)]
             + (if a.communities == [] then [] else [CommunityAttribute(a)]))
  }

  // ----- decoding -----

  function ReadCommunities(b: seq<Octet>): (cs: seq<Community>)
    requires |b| % 4 == 0
    ensures |cs| == |b| / 4
  {
    if b == [] then []
    else
      var n := |b| - 4;
      ReadCommunities(b[..n]) + [Community(ToWord16(b[n], b[n + 1]), ToWord16(b[n + 2], b[n + 3]))]
  }

  /** One attribute decoded into an announce: origin, next hop and communities are taken over. */
  function DecodeAttribute(b: seq<Octet>, a: Announce): Option<Announce> {
    match ParseHeader(b)
    case None => None
    case Some(h) =>
      var value := b[h.BodyShift()..h.BodyShift() + h.valueLength];
      if h.code == ORIGIN then
        if h.valueLength != 1 then None else Some(a.(origin := value[0]))
      else if h.code == NEXT_HOP then
        if h.valueLength == 4 then Some(a.(nextHop := ToWord32(value)))
        else if h.valueLength == 16 then Some(a)
        else None
      else if h.code == COMMUNITY then
        if h.valueLength % 4 != 0 then None else Some(a.(communities := a.communities + ReadCommunities(value)))
      else Some(a)
  }

  function DecodeAll(attributes: seq<seq<Octet>>, a: Announce): Option<Announce> {
    if attributes == [] then Some(a)
    else
      match DecodeAttribute(attributes[0], a)
      case None => None
      case Some(a') => DecodeAll(attributes[1..], a')
  }

  // ----- the announce object -----

  class AnnounceObject {
    var origin: Octet
    var nextHop: Word32
    var asPath: seq<Word32>
    var communities: seq<Community>

    function Value(): Announce
      reads this
    {
      Announce(origin, nextHop, asPath, communities)
    }

    constructor ()
      ensures Value() == EMPTY_ANNOUNCE
    {
      origin, nextHop, asPath, communities := ORIGIN_INCOMPLETE, 0, [], [];
    }

    method AddCommunity(c: Community)
      modifies this`communities
      ensures communities == old(communities) + [c]
    {
      communities := communities + [c];
    }

    /** Builds the attribute list, each attribute in a buffer of the size its length octet announces. */
    method GetAttributes() returns (ok: bool, attributes: seq<seq<Octet>>)
      ensures (ok, attributes) == Attributes(Value())
    {
      hide PathAttribute.Attribute;
      attributes := [OriginAttribute(Value())];
      if |asPath| > 0 {
        if 2 + 4 * |asPath| > 255 {
          return false, attributes;
        }
        var path := WriteAsPath();
        attributes := attributes + [path];
      }
      ghost var head := [OriginAttribute(Value())];
      assert attributes == head + if asPath == [] then [] else [AsPathAttribute(Value())];
      attributes := attributes + [NextHopAttribute(Value())];
      assert attributes + [] == attributes;
      if communities == [] {
        return true, attributes;
      }
      var list := WriteCommunities();
      return true, attributes + [list];
    }

    method WriteAsPath() returns (attribute: seq<Octet>)
      requires |asPath| <= MAX_ASNS
      ensures attribute == AsPathAttribute(Value())
    {
      hide FlagsOctet, Buffer.Valid, Buffer.Used, AsnsBytes;
      var buffer := new Buffer();
      var length := 2 + 4 * |asPath|;
      var _ := buffer.SetSize(3 + length);
      buffer.Write([FlagsOctet(false, true), AS_PATH, length]);
      buffer.Write([AS_SEQUENCE, |asPath|]);
      ghost var head := buffer.Attempted;
      NoBytes();
      for i := 0 to |asPath|
        invariant buffer.Valid() && buffer.storage != null && fresh(buffer) && fresh(buffer.storage)
        invariant buffer.Capacity() == 3 + length
        invariant buffer.Attempted == head + AsnsBytes(asPath[..i])
      {
        buffer.Write(Bytes32(asPath[i]));
        NextAsn(asPath, i);
      }
      assert asPath[..|asPath|] == asPath;
      FittedBuffer(buffer);
      attribute := buffer.Used();
    }

    /** Takes over one attribute; a refused one leaves the announcement as it is. */
    method Decode(b: seq<Octet>) returns (ok: bool)
      modifies this
      ensures ok <==> DecodeAttribute(b, old(Value())).Some?
      ensures Value() == if ok then DecodeAttribute(b, old(Value())).value else old(Value())
    {
      hide ParseHeader, ReadCommunities;
      var parsed := ParseHeader(b);
      if parsed.None? {
        return false;
      }
      var h := parsed.value;
      var s := h.BodyShift();
      if h.code == ORIGIN {
        if h.valueLength != 1 {
          return false;
        }
        origin := b[s];
      } else if h.code == NEXT_HOP {
        if h.valueLength == 4 {
          nextHop := ToWord32(b[s..s + 4]);
        } else if h.valueLength != 16 {
          return false;
        }
      } else if h.code == COMMUNITY {
        if h.valueLength % 4 != 0 {
          return false;
        }
        DecodeCommunities(b[s..s + h.valueLength]);
      }
      return true;
    }

    method DecodeCommunities(value: seq<Octet>)
      requires |value| % 4 == 0
      modifies this`communities
      ensures communities == old(communities) + ReadCommunities(value)
    {
      hide ReadCommunities, ToWord16;
      NoCommunities();
      assert value[..0] == [];
      for i := 0 to |value| / 4
        invariant communities == old(communities) + ReadCommunities(value[..4 * i])
      {
        var n := 4 * i;
        NextCommunityRead(value, i);
        AddCommunity(Community(ToWord16(value[n], value[n + 1]), ToWord16(value[n + 2], value[n + 3])));
      }
      assert value[..4 * (|value| / 4)] == value;
    }

    /** A buffer as long as the length octet says holds only the communities it counts; the rest is refused. */
    method WriteCommunities() returns (attribute: seq<Octet>)
      requires communities != []
      ensures attribute == CommunityAttribute(Value())
    {
      hide FlagsOctet, Buffer.Valid, Buffer.Used, CommunitiesBytes, Kept;
      var buffer := new Buffer();
      var length := 4 * |communities| % 256;
      ghost var kept := Kept(communities);
      KeptSize(communities);
      var _ := buffer.SetSize(3 + length);
      UsedSize(buffer);
      var head := [FlagsOctet(true, true), COMMUNITY, length];
      var _ := buffer.Append(head);
      NoBytes();
      assert buffer.Used() == head + CommunitiesBytes(kept[..0]);
      for i := 0 to |communities|
        invariant buffer.Valid() && buffer.storage != null && fresh(buffer) && fresh(buffer.storage)
        invariant buffer.Capacity() == 3 + length && buffer.shift <= buffer.Capacity()
        invariant buffer.Used() == head + CommunitiesBytes(if i <= |kept| then kept[..i] else kept)
      {
        AppendCommunity(buffer, communities[i], head, kept, i);
      }
      assert kept[..|kept|] == kept;
      attribute := buffer.Used();
    }
  }

  /** The next community, if the buffer still has room for it. */
  method AppendCommunity(buffer: Buffer, c: Community, ghost head: seq<Octet>, ghost kept: seq<Community>, ghost i: nat)
    requires buffer.Valid() && buffer.shift <= buffer.Capacity() == |head| + 4 * |kept|
    requires buffer.Used() == head + CommunitiesBytes(if i <= |kept| then kept[..i] else kept)
    requires i < |kept| ==> c == kept[i]
    modifies buffer, buffer.storage
    ensures buffer.Valid() && buffer.storage == old(buffer.storage) && buffer.shift <= buffer.Capacity()
    ensures buffer.Used() == head + CommunitiesBytes(if i + 1 <= |kept| then kept[..i + 1] else kept)
  {
    hide Buffer.Valid, Buffer.Used, CommunitiesBytes;
    assert kept[..|kept|] == kept;
    var _ := buffer.Append(CommunityBytes(c));
    UsedSize(buffer);
    if i < |kept| {
      NextCommunity(kept, i);
    }
  }

  lemma NextCommunityRead(b: seq<Octet>, i: nat)
    requires 4 * (i + 1) <= |b|
    ensures var n := 4 * i;
            ReadCommunities(b[..4 * (i + 1)])
            == ReadCommunities(b[..n]) + [Community(ToWord16(b[n], b[n + 1]), ToWord16(b[n + 2], b[n + 3]))]
  {
    var longer := b[..4 * (i + 1)];
    assert longer[..|longer| - 4] == b[..4 * i];
  }

  lemma KeptSize(cs: seq<Community>)
    ensures 4 * |cs| % 256 == 4 * |Kept(cs)| && |Kept(cs)| <= |cs|
    ensures forall i :: 0 <= i < |Kept(cs)| ==> Kept(cs)[i] == cs[i]
  {
  }

  lemma NoBytes()
    ensures CommunitiesBytes([]) == [] && AsnsBytes([]) == []
  {
  }

  lemma NextAsn(asns: seq<Word32>, i: nat)
    requires i < |asns|
    ensures AsnsBytes(asns[..i + 1]) == AsnsBytes(asns[..i]) + Bytes32(asns[i])
  {
    assert asns[..i + 1][..i] == asns[..i];
  }

  lemma NextCommunity(cs: seq<Community>, i: nat)
    requires i < |cs|
    ensures CommunitiesBytes(cs[..i + 1]) == CommunitiesBytes(cs[..i]) + CommunityBytes(cs[i])
  {
    assert cs[..i + 1][..i] == cs[..i];
  }

  lemma FittedBuffer(buffer: Buffer)
    requires buffer.Valid() && |buffer.Attempted| <= buffer.Capacity()
    ensures buffer.shift <= buffer.Capacity() && buffer.Used() == buffer.Attempted
  {
  }

  lemma UsedSize(buffer: Buffer)
    requires buffer.Valid()
    ensures buffer.shift <= buffer.Capacity() && |buffer.Used()| == buffer.shift
  {
  }

  // ----- round trip -----

  lemma Bytes16Read(v: Word16)
    ensures |Bytes16(v)| == 2 && ToWord16(Bytes16(v)[0], Bytes16(v)[1]) == v
  {
  }

  lemma LastCommunityRead(b: seq<Octet>, c: Community)
    requires |b| % 4 == 0
    ensures ReadCommunities(b + CommunityBytes(c)) == ReadCommunities(b) + [c]
  {
    hide Bytes16, ToWord16;
    Bytes16Read(c.asn);
    Bytes16Read(c.number);
    assert (b + CommunityBytes(c))[..|b|] == b;
  }

  lemma {:induction false} CommunitiesRead(cs: seq<Community>)
    ensures ReadCommunities(CommunitiesBytes(cs)) == cs
  {
    hide ReadCommunities, CommunityBytes;
    if cs == [] {
      NoCommunities();
    } else {
      var n := |cs| - 1;
      CommunitiesRead(cs[..n]);
      LastCommunityRead(CommunitiesBytes(cs[..n]), cs[n]);
    }
  }

  lemma NoCommunities()
    ensures ReadCommunities([]) == []
  {
  }

  /** The length octet of the attribute says exactly how long it is. */
  ghost predicate Framed(b: seq<Octet>, code: Octet) {
    var h := ParseHeader(b);
    h.Some? && h.value.code == code && h.value.BodyShift() + h.value.valueLength == |b|
  }

  lemma AttributeFramed(optional: bool, code: Octet, value: seq<Octet>)
    requires |value| < 256
    ensures var b := Attribute(optional, true, code, |value|, value);
            && Framed(b, code) && ParseHeader(b).value.valueLength == |value| && ParseHeader(b).value.BodyShift() == 3
            && b[3..3 + |value|] == value
  {
    hide FlagsOctet, ParseHeader;
    AttributeParsed(optional, true, code, |value|, value);
  }

  lemma OriginDecoded(a: Announce, r: Announce)
    ensures Framed(OriginAttribute(a), ORIGIN)
    ensures DecodeAttribute(OriginAttribute(a), r) == Some(r.(origin := a.origin))
  {
    hide FlagsOctet, ParseHeader, PathAttribute.Attribute;
    AttributeFramed(false, ORIGIN, [a.origin]);
  }

  lemma NextHopDecoded(a: Announce, r: Announce)
    ensures Framed(NextHopAttribute(a), NEXT_HOP)
    ensures DecodeAttribute(NextHopAttribute(a), r) == Some(r.(nextHop := a.nextHop))
  {
    hide FlagsOctet, ParseHeader, PathAttribute.Attribute, Bytes32, ToWord32;
    Bytes32Read(a.nextHop);
    AttributeFramed(false, NEXT_HOP, Bytes32(a.nextHop));
  }

  lemma AsPathDecoded(a: Announce, r: Announce)
    requires |a.asPath| <= MAX_ASNS
    ensures Framed(AsPathAttribute(a), AS_PATH)
    ensures DecodeAttribute(AsPathAttribute(a), r) == Some(r)
  {
    hide FlagsOctet, ParseHeader, PathAttribute.Attribute, AsnsBytes;
    AttributeFramed(false, AS_PATH, [AS_SEQUENCE, |a.asPath|] + AsnsBytes(a.asPath));
  }

  lemma CommunitiesDecoded(a: Announce, r: Announce)
    ensures Framed(CommunityAttribute(a), COMMUNITY)
    ensures DecodeAttribute(CommunityAttribute(a), r) == Some(r.(communities := r.communities + Kept(a.communities)))
  {
    hide FlagsOctet, ParseHeader, PathAttribute.Attribute, CommunitiesBytes, ReadCommunities;
    CommunitiesRead(Kept(a.communities));
    AttributeFramed(true, COMMUNITY, CommunitiesBytes(Kept(a.communities)));
  }

  /** The attributes are framed and their types strictly ascend. */
  ghost predicate InOrder(attributes: seq<seq<Octet>>, codes: seq<Octet>) {
    && |attributes| == |codes|
    && (forall i :: 0 <= i < |codes| ==> Framed(attributes[i], codes[i]))
    && (forall i, j :: 0 <= i < j < |codes| ==> codes[i] < codes[j])
  }

  function Codes(a: Announce): seq<Octet> {
    [ORIGIN] + (if a.asPath == [] then [] else [AS_PATH]) + [NEXT_HOP] + (if a.communities == [] then [] else [COMMUNITY])
  }

  lemma AttributesInOrder(a: Announce)
    requires |a.asPath| <= MAX_ASNS
    ensures InOrder(Attributes(a).1, Codes(a))
  {
    hide Framed, OriginAttribute, AsPathAttribute, NextHopAttribute, CommunityAttribute, DecodeAttribute, Kept;
    OriginDecoded(a, a);
    NextHopDecoded(a, a);
    AsPathDecoded(a, a);
    CommunitiesDecoded(a, a);
  }

  lemma DecodeTwo(first: seq<seq<Octet>>, second: seq<seq<Octet>>, a: Announce)
    requires DecodeAll(first, a).Some?
    ensures DecodeAll(first + second, a) == DecodeAll(second, DecodeAll(first, a).value)
  {
    hide DecodeAttribute;
    if first == [] {
      assert first + second == second;
    } else {
      assert (first + second)[1..] == first[1..] + second;
      DecodeTwo(first[1..], second, DecodeAttribute(first[0], a).value);
    }
  }

  lemma DecodeOne(b: seq<Octet>, a: Announce)
    ensures DecodeAll([b], a) == DecodeAttribute(b, a) && DecodeAll([], a) == Some(a)
  {
    hide DecodeAttribute;
  }

  /** What any announcement decodes to: origin and next hop, no AS path, and the communities that were kept. */
  lemma AnnounceDecoded(a: Announce)
    ensures DecodeAll(Attributes(a).1, EMPTY_ANNOUNCE)
         == Some(if |a.asPath| > MAX_ASNS then EMPTY_ANNOUNCE.(origin := a.origin)
                 else Announce(a.origin, a.nextHop, [], Kept(a.communities)))
  {
    hide OriginAttribute, AsPathAttribute, NextHopAttribute, CommunityAttribute, DecodeAttribute, DecodeAll, Kept;
    var r0 := EMPTY_ANNOUNCE.(origin := a.origin);
    var r1 := r0.(nextHop := a.nextHop);
    OriginDecoded(a, EMPTY_ANNOUNCE);
    DecodeOne(OriginAttribute(a), EMPTY_ANNOUNCE);
    if |a.asPath| <= MAX_ASNS {
      var head := [OriginAttribute(a)];
      var path := if a.asPath == [] then [] else [AsPathAttribute(a)];
      var tail := if a.communities == [] then [] else [CommunityAttribute(a)];
      if a.asPath != [] {
        AsPathDecoded(a, r0);
        DecodeOne(AsPathAttribute(a), r0);
      } else {
        DecodeOne([], r0);
      }
      DecodeTwo(head, path, EMPTY_ANNOUNCE);
      NextHopDecoded(a, r0);
      DecodeOne(NextHopAttribute(a), r0);
      DecodeTwo(head + path, [NextHopAttribute(a)], EMPTY_ANNOUNCE);
      if a.communities != [] {
        CommunitiesDecoded(a, r1);
        DecodeOne(CommunityAttribute(a), r1);
      } else {
        NothingKept(a.communities);
        DecodeOne([], r1);
      }
      DecodeTwo(head + path + [NextHopAttribute(a)], tail, EMPTY_ANNOUNCE);
      assert [] + Kept(a.communities) == Kept(a.communities);
    }
  }

  lemma NothingKept(cs: seq<Community>)
    ensures cs == [] ==> Kept(cs) == []
    ensures Kept(cs) == cs <==> |cs| < COMMUNITY_PERIOD
  {
  }

  /**
    * Building succeeds and decoding recovers origin, next hop and all communities in order exactly when there are at
    * most 63 ASNs and at most 63 communities; the attributes then come in strictly ascending type order.
    */
  lemma UnicastRoundTripExactly(a: Announce)
    ensures Attributes(a).0 && DecodeAll(Attributes(a).1, EMPTY_ANNOUNCE) == Some(a.(asPath := []))
       <==> |a.asPath| <= 63 && |a.communities| <= 63
    ensures Attributes(a).0 ==> InOrder(Attributes(a).1, Codes(a))
  {
    hide DecodeAll, Kept, InOrder, OriginAttribute, AsPathAttribute, NextHopAttribute, CommunityAttribute;
    AnnounceDecoded(a);
    NothingKept(a.communities);
    if |a.asPath| <= MAX_ASNS {
      AttributesInOrder(a);
    }
  }
}
