/** IPv6 unicast announcements in a multiprotocol attribute (section 3 of RFC 4760, section 3 of RFC 2545). */
module Ipv6Announce {
  import opened Octets
  import opened Prefix
  import opened BinaryBuffer
  import opened FlowSpecRule
  import opened PathAttribute

  /** A well-formed IPv6 prefix: sixteen octets and a length of at most 128 bits. */
  type Prefix6 = s: Subnet6 | |s.address| == 16 && s.length <= 128 witness Subnet6(seq(16, i => 0), 0)

  datatype Announce6 = Announce6(nextHop: Prefix6, prefix: Prefix6)

  const MP_BUFFER_SIZE: nat := 2048

  // Address family IPv6, unicast, a next hop of sixteen octets.
  const MP_HEADER6: seq<Octet> := [0, 2, 1, 16]

  // ----- encoding -----

  /** Only the octets the length needs are sent; bits past the length within the last of them are sent as they are. */
  function EncodePrefix6(p: Prefix6): seq<Octet> {
    [p.length] + p.address[..OctetsFor(p.length)]
  }

  function MpValue(a: Announce6): (b: seq<Octet>)
    ensures |b| == 22 + OctetsFor(a.prefix.length) <= 38
  {
    MP_HEADER6 + a.nextHop.address + [0] + EncodePrefix6(a.prefix)
  }

  function MpAttribute6(a: Announce6): seq<Octet> {
    Attribute(true, false, MP_REACH_NLRI, |MpValue(a)|, MpValue(a))
  }

  method WritePrefix6(p: Prefix6, buffer: Buffer) returns (ok: bool)
    requires buffer.Valid()
    modifies buffer, buffer.storage
    ensures buffer.Valid() && buffer.storage == old(buffer.storage)
    ensures ok <==> |old(buffer.Used())| + |EncodePrefix6(p)| <= buffer.Capacity()
    ensures ok ==> buffer.Attempted == old(buffer.Attempted) + EncodePrefix6(p)
  {
    hide Buffer.Valid;
    ok := buffer.Append([p.length]);
    if !ok {
      return;
    }
    ok := buffer.Append(p.address[..OctetsFor(p.length)]);
  }

  /** The inner value: header, next hop, reserved octet and prefix. */
  method WriteMpValue(a: Announce6, value: Buffer) returns (ok: bool)
    requires value.Valid() && value.storage == null && !value.errorsOccurred
    modifies value
    ensures value.Valid() && value.storage != null && fresh(value.storage)
    ensures ok && value.shift <= value.Capacity() && value.Used() == MpValue(a)
  {
    hide Buffer.Valid, Buffer.Used, EncodePrefix6;
    var _ := value.SetSize(MP_BUFFER_SIZE);
    value.Write(MP_HEADER6);
    value.Write(a.nextHop.address);
    value.Write([0]);
    EncodedSize(a);
    Fits(value);
    ok := WritePrefix6(a.prefix, value);
    if !ok {
      return;
    }
    Fits(value);
    assert value.Attempted == MpValue(a);
  }

  /** The value in one buffer, the attribute in another; both are large enough for every announcement. */
  method WriteMpAttribute6(a: Announce6) returns (ok: bool, attribute: seq<Octet>)
    ensures ok && attribute == MpAttribute6(a)
  {
    hide FlagsOctet, Buffer.Valid, Buffer.Used, EncodePrefix6;
    var value := new Buffer();
    ok := WriteMpValue(a, value);
    if !ok {
      return false, [];
    }
    var buffer := new Buffer();
    var _ := buffer.SetSize(MP_BUFFER_SIZE);
    buffer.Write([FlagsOctet(true, false), MP_REACH_NLRI, |value.Used()|]);
    var _ := buffer.AppendBuffer(value);
    Fits(buffer);
    return !buffer.errorsOccurred, buffer.Used();
  }

  lemma EncodedSize(a: Announce6)
    ensures |EncodePrefix6(a.prefix)| == 1 + OctetsFor(a.prefix.length)
  {
  }

  lemma Fits(buffer: Buffer)
    requires buffer.Valid() && |buffer.Attempted| <= buffer.Capacity()
    ensures buffer.shift <= buffer.Capacity() && buffer.Used() == buffer.Attempted
    ensures buffer.errorsOccurred <==> buffer.FailedEarly
  {
  }

  // ----- decoding -----

  /** Whether decoding succeeded, and the announcement as left behind. */
  datatype Outcome6 = Outcome6(ok: bool, announce: Announce6)

  function PaddedPrefix(length: Octet, octets: seq<Octet>): Prefix6
    requires length <= 128 && |octets| == OctetsFor(length)
  {
    Subnet6(octets + Zeros(16 - |octets|), length)
  }

  /** The fixed header at the start of the value: both families and an acceptable next hop length. */
  predicate HeaderAccepted(v: seq<Octet>) {
    |v| >= 4 && ToWord16(v[0], v[1]) == 2 && v[2] == 1 && (v[3] == 16 || v[3] == 32)
  }

  /**
    * Everything is checked against the end of the octets. The next hop is stored before the prefix is read, and a
    * link-local address after it is skipped, as is the reserved octet whatever it holds.
    */
  function DecodeMpReach(v: seq<Octet>, a: Announce6): Outcome6 {
    if !HeaderAccepted(v) || |v| < 4 + v[3] then Outcome6(false, a)
    else
      var n := 4 + v[3];
      var a' := a.(nextHop := Subnet6(v[4..20], 128));
      if |v| < n + 2 || v[n + 1] > 128 || |v| < n + 2 + OctetsFor(v[n + 1]) then Outcome6(false, a')
      else Outcome6(true, a'.(prefix := PaddedPrefix(v[n + 1], v[n + 2..n + 2 + OctetsFor(v[n + 1])])))
  }

  class Announce6Object {
    var nextHop: Prefix6
    var prefix: Prefix6

    function Value(): Announce6
      reads this
    {
      Announce6(nextHop, prefix)
    }

    constructor ()
    {
    }

    /** The decoder, check by check, on an attribute whose header has been parsed. */
    method DecodeMpReachAttribute(b: seq<Octet>, h: Header) returns (ok: bool)
      requires h.BodyShift() <= |b|
      modifies this
      ensures Outcome6(ok, Value()) == DecodeMpReach(b[h.BodyShift()..], old(Value()))
    {
      hide ToWord16;
      var s := h.BodyShift();
      ghost var v := b[s..];
      if s + 4 > |b| {
        return false;
      }
      if !(ToWord16(b[s], b[s + 1]) == 2 && b[s + 2] == 1) {
        return false;
      }
      if b[s + 3] != 16 && b[s + 3] != 32 {
        return false;
      }
      if s + 4 + b[s + 3] > |b| {
        return false;
      }
      assert v[4..20] == b[s + 4..s + 20];
      nextHop := Subnet6(b[s + 4..s + 20], 128);
      var n := s + 4 + b[s + 3];
      if n + 1 > |b| {
        return false;
      }
      if n + 2 > |b| {
        return false;
      }
      var length := b[n + 1];
      if length > 128 {
        return false;
      }
      var size := OctetsFor(length);
      if n + 2 + size > |b| {
        return false;
      }
      assert v[n - s + 2..n - s + 2 + size] == b[n + 2..n + 2 + size];
      prefix := Subnet6(b[n + 2..n + 2 + size] + Zeros(16 - size), length);
      return true;
    }
  }

  // ----- round trip -----

  /** The prefix without the octets its length does not need. */
  function CutPrefix(p: Prefix6): Prefix6 {
    PaddedPrefix(p.length, p.address[..OctetsFor(p.length)])
  }

  /** Parsing and decoding an encoded announcement returns its next hop and its prefix cut to whole octets. */
  lemma MpRoundTrip(a: Announce6, r: Announce6)
    ensures var h := ParseHeader(MpAttribute6(a));
            && h.Some? && h.value.code == MP_REACH_NLRI
            && h.value.BodyShift() + h.value.valueLength == |MpAttribute6(a)|
            && DecodeMpReach(MpAttribute6(a)[h.value.BodyShift()..], r)
               == Outcome6(true, Announce6(Subnet6(a.nextHop.address, 128), CutPrefix(a.prefix)))
  {
    hide FlagsOctet, ParseHeader, PathAttribute.Attribute;
    AttributeParsed(true, false, MP_REACH_NLRI, |MpValue(a)|, MpValue(a));
    AttributeSize(true, false, MP_REACH_NLRI, |MpValue(a)|, MpValue(a));
    ValueDecoded(a, r);
  }

  lemma AttributeSize(optional: bool, transitive: bool, code: Octet, length: Octet, value: seq<Octet>)
    ensures |Attribute(optional, transitive, code, length, value)| == 3 + |value|
  {
    hide FlagsOctet;
  }

  lemma ValueDecoded(a: Announce6, r: Announce6)
    ensures DecodeMpReach(MpValue(a), r)
         == Outcome6(true, Announce6(Subnet6(a.nextHop.address, 128), CutPrefix(a.prefix)))
  {
    hide PaddedPrefix;
    var v, n := MpValue(a), OctetsFor(a.prefix.length);
    assert v[0] == 0 && v[1] == 2 && v[2] == 1 && v[3] == 16;
    assert v[4..20] == a.nextHop.address;
    assert v[21] == a.prefix.length;
    assert v[22..22 + n] == a.prefix.address[..n];
  }

  /** The announcement comes back unchanged exactly when its next hop is a host and no octet past the prefix is set. */
  lemma MpRoundTripExactly(a: Announce6, r: Announce6)
    ensures DecodeMpReach(MpValue(a), r) == Outcome6(true, a)
       <==> a.nextHop.length == 128 && forall i :: OctetsFor(a.prefix.length) <= i < 16 ==> a.prefix.address[i] == 0
  {
    hide DecodeMpReach, MpValue;
    ValueDecoded(a, r);
    var p, n := a.prefix, OctetsFor(a.prefix.length);
    if CutPrefix(p) == p {
      forall i | n <= i < 16 ensures p.address[i] == 0 {
        assert p.address[i] == CutPrefix(p).address[i];
      }
    }
    if forall i :: n <= i < 16 ==> p.address[i] == 0 {
      assert CutPrefix(p).address == p.address;
    }
  }

  /** Whatever octets an announcement was decoded from, encoding and decoding it again returns it unchanged. */
  lemma DecodedAnnounceRoundTrips(v: seq<Octet>, a: Announce6, r: Announce6)
    requires DecodeMpReach(v, a).ok
    ensures var d := DecodeMpReach(v, a).announce;
            DecodeMpReach(MpValue(d), r) == Outcome6(true, d)
  {
    hide MpValue;
    MpRoundTripExactly(DecodeMpReach(v, a).announce, r);
  }

  // ----- octet by octet -----

  lemma JustEnough(length: nat, n: int)
    ensures OctetsFor(length) <= n <==> length <= 8 * n
    ensures length <= 8 * OctetsFor(length) < length + 8
  {
  }

  /** The attribute as sent: address family 2, unicast, a next hop of sixteen octets, a zero, the prefix. */
  lemma AttributeOnWire(a: Announce6)
    ensures var k := (a.prefix.length + 7) / 8;
            MpAttribute6(a) == [0x80, 14, 22 + k, 0, 2, 1, 16] + a.nextHop.address + [0, a.prefix.length] + a.prefix.address[..k]
  {
    hide FlagsOctet;
    FlagsValue(true, false);
    var k := (a.prefix.length + 7) / 8;
    assert MpValue(a) == [0, 2, 1, 16] + a.nextHop.address + [0, a.prefix.length] + a.prefix.address[..k];
  }

  /** The octets from which the next hop is taken are there. */
  predicate NextHopReadable(v: seq<Octet>) {
    |v| >= 4 && v[0] == 0 && v[1] == 2 && v[2] == 1 && (v[3] == 16 || v[3] == 32) && |v| >= 4 + v[3] as int
  }

  /**
    * Which values are accepted, and what they say: the next hop is the first sixteen octets behind the header, of
    * thirty-two as well; a reserved octet follows all of them, then the prefix length and as many octets as it needs.
    */
  lemma DecodeMpReachExactly(v: seq<Octet>, a: Announce6)
    ensures var d, h := DecodeMpReach(v, a), if |v| >= 4 then 4 + v[3] as int else 0;
            && (d.ok <==> NextHopReadable(v) && |v| >= h + 2 && v[h + 1] <= 128 && v[h + 1] as int <= 8 * (|v| - h - 2))
            && (if NextHopReadable(v) then
                  d.announce.nextHop.length == 128 && forall i :: 0 <= i < 16 ==> d.announce.nextHop.address[i] == v[4 + i]
                else d.announce.nextHop == a.nextHop)
            && (if d.ok then
                  && d.announce.prefix.length == v[h + 1]
                  && forall i :: 0 <= i < 16 ==>
                       d.announce.prefix.address[i] == if 8 * i < v[h + 1] as int then v[h + 2 + i] else 0
                else d.announce.prefix == a.prefix)
  {
    hide OctetsFor;
    if NextHopReadable(v) {
      var h := 4 + v[3];
      if |v| >= h + 2 {
        JustEnough(v[h + 1], |v| - h - 2);
        forall i: nat ensures i < OctetsFor(v[h + 1]) <==> 8 * i < v[h + 1] {
          JustEnough(v[h + 1], i);
        }
      }
    }
  }
}
