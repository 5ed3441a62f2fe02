/** The unicast announcement octet by octet, in the numbers of RFC 4271 and RFC 1997, and what the decoder takes from any. */
module UnicastWire {
  import opened Octets
  import opened PathAttribute
  import opened UnicastAnnounce
  import AnnounceWire

  /** The word at a multiple of four octets, the most significant octet first. */
  function WordAt(b: seq<Octet>, i: nat): int
    requires 4 * i + 4 <= |b|
  {
    0x100_0000 * (b[4 * i] as int) + 0x1_0000 * (b[4 * i + 1] as int) + 0x100 * (b[4 * i + 2] as int) + b[4 * i + 3]
  }

  function HalfAt(b: seq<Octet>, i: nat): int
    requires 2 * i + 2 <= |b|
  {
    0x100 * (b[2 * i] as int) + b[2 * i + 1]
  }

  /** An AS path attribute: one segment with as many words in order behind its header. */
  predicate IsAsPath(b: seq<Octet>, asns: seq<Word32>) {
    && |b| == 5 + 4 * |asns| && b[0] == 0x40 && b[1] == 2 && b[2] == 2 + 4 * |asns| && b[3] == 2 && b[4] == |asns|
    && forall i :: 0 <= i < |asns| ==> WordAt(b[5..], i) == asns[i]
  }

  /** A value of communities in order, each an AS number and a number of its own. */
  predicate AreCommunities(value: seq<Octet>, cs: seq<Community>) {
    && |value| == 4 * |cs|
    && forall i :: 0 <= i < |cs| ==> HalfAt(value, 2 * i) == cs[i].asn && HalfAt(value, 2 * i + 1) == cs[i].number
  }

  predicate IsCommunityList(b: seq<Octet>, cs: seq<Community>) {
    |b| >= 3 && b[0] == 0xC0 && b[1] == 8 && b[2] == 4 * |cs| && AreCommunities(b[3..], cs)
  }

  lemma WordWritten(w: Word32)
    ensures WordAt(Bytes32(w), 0) == w
  {
    hide Bytes32;
    Bytes32Read(w);
  }

  lemma WordAppended(b: seq<Octet>, c: seq<Octet>, n: nat)
    requires |b| == 4 * n && |c| == 4
    ensures WordAt(b + c, n) == WordAt(c, 0)
    ensures forall i :: 0 <= i < n ==> WordAt(b + c, i) == WordAt(b, i)
  {
  }

  lemma {:induction false} AsnsRead(asns: seq<Word32>)
    ensures forall i :: 0 <= i < |asns| ==> WordAt(AsnsBytes(asns), i) == asns[i]
  {
    hide WordAt, Bytes32;
    if asns != [] {
      var n := |asns| - 1;
      AsnsRead(asns[..n]);
      WordWritten(asns[n]);
      Bytes32Read(asns[n]);
      WordAppended(AsnsBytes(asns[..n]), Bytes32(asns[n]), n);
    }
  }

  lemma CommunityAppended(b: seq<Octet>, c: Community, n: nat)
    requires |b| == 4 * n
    ensures HalfAt(b + CommunityBytes(c), 2 * n) == c.asn && HalfAt(b + CommunityBytes(c), 2 * n + 1) == c.number
    ensures forall i :: 0 <= i < 2 * n ==> HalfAt(b + CommunityBytes(c), i) == HalfAt(b, i)
  {
  }

  lemma {:induction false} CommunitiesWritten(cs: seq<Community>)
    ensures AreCommunities(CommunitiesBytes(cs), cs)
  {
    hide HalfAt, CommunityBytes;
    if cs != [] {
      var n := |cs| - 1;
      CommunitiesWritten(cs[..n]);
      CommunityAppended(CommunitiesBytes(cs[..n]), cs[n], n);
    }
  }

  /**
    * The attributes and their order. There is no AS path attribute without a path, and no communities attribute without
    * communities; a path of more than 63 ASNs leaves only the origin.
    */
  lemma AttributesOnWire(a: Announce) returns (origin: seq<Octet>, path: seq<Octet>, nextHop: seq<Octet>, list: seq<Octet>)
    ensures origin == [0x40, 1, 1, a.origin] && nextHop == [0x40, 3, 4] + AnnounceWire.Quad(a.nextHop)
    ensures |a.asPath| <= 63 ==> IsAsPath(path, a.asPath)
    ensures IsCommunityList(list, a.communities[..|a.communities| % 64])
    ensures Attributes(a) ==
            if |a.asPath| > 63 then (false, [origin])
            else (true, [origin] + (if |a.asPath| > 0 then [path] else []) + [nextHop] + if |a.communities| > 0 then [list] else [])
  {
    hide AnnounceWire.Quad, IsAsPath, IsCommunityList, OriginAttribute, NextHopAttribute, AsPathAttribute, CommunityAttribute;
    FixedOnWire(a);
    CommunitiesOnWire(a);
    path := [];
    if |a.asPath| <= 63 {
      PathOnWire(a);
      path := AsPathAttribute(a);
    }
    origin, nextHop, list := OriginAttribute(a), NextHopAttribute(a), CommunityAttribute(a);
  }

  lemma FixedOnWire(a: Announce)
    ensures OriginAttribute(a) == [0x40, 1, 1, a.origin]
    ensures NextHopAttribute(a) == [0x40, 3, 4] + AnnounceWire.Quad(a.nextHop)
  {
    hide AnnounceWire.Quad, Bytes32, PathAttribute.Attribute;
    AnnounceWire.AttributeOctets(false, true, ORIGIN, 1, [a.origin]);
    AnnounceWire.AttributeOctets(false, true, NEXT_HOP, 4, Bytes32(a.nextHop));
    AnnounceWire.QuadOctets(a.nextHop);
  }

  lemma PathOnWire(a: Announce)
    requires |a.asPath| <= 63
    ensures IsAsPath(AsPathAttribute(a), a.asPath)
  {
    hide PathAttribute.Attribute, AsnsBytes, WordAt;
    var value := [AS_SEQUENCE, |a.asPath|] + AsnsBytes(a.asPath);
    AnnounceWire.AttributeOctets(false, true, AS_PATH, 2 + 4 * |a.asPath|, value);
    AsnsRead(a.asPath);
    assert AsPathAttribute(a)[5..] == AsnsBytes(a.asPath);
  }

  lemma CommunitiesOnWire(a: Announce)
    ensures IsCommunityList(CommunityAttribute(a), a.communities[..|a.communities| % 64])
  {
    hide PathAttribute.Attribute, CommunitiesBytes, AreCommunities;
    var n := |a.communities| % 64;
    var value := CommunitiesBytes(a.communities[..n]);
    AnnounceWire.AttributeOctets(true, true, COMMUNITY, 4 * n, value);
    CommunitiesWritten(a.communities[..n]);
    assert CommunityAttribute(a)[3..] == value;
  }

  // ----- what is read -----

  lemma CommunityRead(b: seq<Octet>, n: nat)
    requires |b| == 4 * n + 4
    ensures ReadCommunities(b) == ReadCommunities(b[..4 * n]) + [Community(HalfAt(b, 2 * n), HalfAt(b, 2 * n + 1))]
  {
  }

  lemma HalfKept(b: seq<Octet>, n: nat)
    requires 2 * n <= |b|
    ensures forall i :: 0 <= i < n ==> HalfAt(b[..2 * n], i) == HalfAt(b, i)
  {
  }

  lemma {:induction false} ReadCommunitiesMeans(b: seq<Octet>)
    requires |b| % 4 == 0
    ensures AreCommunities(b, ReadCommunities(b))
  {
    hide HalfAt, ReadCommunities;
    if b != [] {
      var n := |b| / 4 - 1;
      ReadCommunitiesMeans(b[..4 * n]);
      CommunityRead(b, n);
      HalfKept(b, 2 * n);
    }
  }

  /** The value of an attribute whose header has been read. */
  function ValueOf(b: seq<Octet>): seq<Octet>
    requires ParseHeader(b).Some?
  {
    var h := ParseHeader(b).value;
    b[h.BodyShift()..h.BodyShift() + h.valueLength]
  }

  /**
    * One attribute: an origin has one octet, a next hop four, or sixteen without effect, communities a multiple of four;
    * other lengths are refused, other types passed over. The AS path is not read.
    */
  lemma AttributeTaken(b: seq<Octet>, a: Announce)
    requires ParseHeader(b).Some?
    ensures var d, v, code := DecodeAttribute(b, a), ValueOf(b), ParseHeader(b).value.code;
            if code == 1 then d == if |v| == 1 then Some(a.(origin := v[0])) else None
            else if code == 3 then
              if |v| == 4 then d == Some(a.(nextHop := WordAt(v, 0))) else d == if |v| == 16 then Some(a) else None
            else if code == 8 then
              && (d.Some? <==> |v| % 4 == 0)
              && (d.Some? ==>
                    && d.value == a.(communities := d.value.communities)
                    && |d.value.communities| >= |a.communities|
                    && d.value.communities[..|a.communities|] == a.communities
                    && AreCommunities(v, d.value.communities[|a.communities|..]))
            else d == Some(a)
  {
    hide ParseHeader, ReadCommunities, AreCommunities;
    var v := ValueOf(b);
    if |v| % 4 == 0 {
      ReadCommunitiesMeans(v);
      assert (a.communities + ReadCommunities(v))[|a.communities|..] == ReadCommunities(v);
    }
  }
}
