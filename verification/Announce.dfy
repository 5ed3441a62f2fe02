/** A FlowSpec announcement as a list of BGP path attributes, built from a rule and decoded into one. */
module Announce {
  import opened Octets
  import opened BinaryBuffer
  import opened Binary32
  import opened FlowSpecRule
  import opened NlriWire
  import opened NlriDecode
  import opened NlriEncode
  import opened PathAttribute

  const ORIGIN_INCOMPLETE: Octet := 2
  const EXPERIMENTAL: Octet := 0x80
  const EXPERIMENTAL_PART_3: Octet := 0x82
  const IPV4_ADDRESS_SPECIFIC: Octet := 1
  const TRAFFIC_RATE: Octet := 6
  const REDIRECT_AS: Octet := 8
  const REDIRECT_IPV4: Octet := 0x0c

  // Address family IPv4, FlowSpec unicast, an empty next hop and the reserved octet.
  const MP_HEADER: seq<Octet> := [0, 1, 133, 0, 0]

  // ----- building -----

  function OriginAttribute(): seq<Octet> {
    Attribute(false, true, ORIGIN, 1, [ORIGIN_INCOMPLETE])
  }

  function CommunityAttribute(element: seq<Octet>): seq<Octet> {
    Attribute(true, true, EXTENDED_COMMUNITY, 8, element)
  }

  /** The multiprotocol attribute around an NLRI value. Both length octets are narrowed to eight bits. */
  function MpOctets(nlri: seq<Octet>): (b: seq<Octet>)
    ensures |b| == 9 + |nlri|
  {
    Attribute(true, false, MP_REACH_NLRI, (6 + |nlri|) % 256, MP_HEADER + [|nlri| % 256] + nlri)
  }

  /** The bound of 240 is checked on the narrowed NLRI length, and the whole must fit the buffer. */
  function MpAttribute(nlri: seq<Octet>): Option<seq<Octet>> {
    if |nlri| % 256 >= 240 || 9 + |nlri| > NLRI_BUFFER_SIZE then None else Some(MpOctets(nlri))
  }

  /** The extended community that carries an action, or None for actions that have none. */
  function ActionCommunity(a: Action): (e: Option<seq<Octet>>)
    ensures e.Some? ==> |e.value| == 8
  {
    match a.kind
    case Discard => Some([EXPERIMENTAL, TRAFFIC_RATE, 0, 0] + Bytes32(FloatBits(0)))
    case RateLimit => Some([EXPERIMENTAL, TRAFFIC_RATE, 0, 0] + Bytes32(FloatBits(a.rate)))
    case Redirect => Some([EXPERIMENTAL, REDIRECT_AS] + Bytes16(a.redirectAs) + Bytes32(a.redirectValue))
    case RedirectVrf =>
      if a.rtAs <= 65535 then Some([EXPERIMENTAL, REDIRECT_AS] + Bytes16(a.rtAs) + Bytes32(a.rtValue))
      else if a.rtValue > 65535 then None
      else Some([EXPERIMENTAL_PART_3, REDIRECT_AS] + Bytes32(a.rtAs) + Bytes16(a.rtValue))
    case Accept => None
    case Mark => None
  }

  function NextHopCommunity(nextHop: Word32): seq<Octet> {
    [IPV4_ADDRESS_SPECIFIC, REDIRECT_IPV4] + Bytes32(nextHop) + [0, 0]
  }

  /** The attribute that carries the action: none for a plain accept, None when the action cannot be encoded. */
  function ActionAttributes(r: Rule): Option<seq<seq<Octet>>> {
    if r.action.kind == Accept then
      Some(if r.nextHops == [] then [] else [CommunityAttribute(NextHopCommunity(r.nextHops[0]))])
    else
      match ActionCommunity(r.action)
      case None => None
      case Some(e) => Some([CommunityAttribute(e)])
  }

  /** All attributes of an announcement; an empty list when it cannot be built. */
  function AnnounceAttributes(r: Rule): seq<seq<Octet>> {
    if !Encodable(r) || |EncodeNlri(r)| > NLRI_BUFFER_SIZE then []
    else
      match MpAttribute(EncodeNlri(r))
      case None => []
      case Some(mp) =>
        match ActionAttributes(r)
        case None => []
        case Some(tail) => [OriginAttribute(), mp] + tail
  }

  /** Appends the attribute of a rule to any buffer, allocating it if need be; the NLRI is built in a buffer of its own. */
  method WriteMpAttribute(r: Rule, buffer: Buffer) returns (ok: bool)
    requires buffer.Valid()
    modifies buffer, buffer.storage
    ensures buffer.Valid()
    ensures old(buffer.storage) == null && ok ==> buffer.Capacity() == NLRI_BUFFER_SIZE
    ensures ok <==>
            && Encodable(r) && |EncodeNlri(r)| <= NLRI_BUFFER_SIZE && |EncodeNlri(r)| % 256 < 240
            && !old(buffer.errorsOccurred)
            && |old(buffer.Used())| + 9 + |EncodeNlri(r)|
               <= if old(buffer.storage) == null then NLRI_BUFFER_SIZE else old(buffer.Capacity())
    ensures ok ==> buffer.shift <= buffer.Capacity() && buffer.Used() == old(buffer.Used()) + MpOctets(EncodeNlri(r))
  {
    hide EncodeNlri, Encodable, MpOctets, Buffer.Valid, Buffer.Used;
    var nlri := new Buffer();
    ok := WriteNlri(r, nlri);
    if ok {
      assert [] + EncodeNlri(r) == EncodeNlri(r);
      ok := FrameNlri(nlri, buffer);
    }
  }

  lemma Framed(base: seq<Octet>, written: seq<Octet>, nlri: seq<Octet>)
    requires written == base + [FlagsOctet(true, false), MP_REACH_NLRI, (6 + |nlri|) % 256] + MP_HEADER + [|nlri| % 256] + nlri
    ensures written == base + MpOctets(nlri) && |written| == |base| + 9 + |nlri|
  {
    hide FlagsOctet;
    var head, fields := [FlagsOctet(true, false), MP_REACH_NLRI, (6 + |nlri|) % 256], MP_HEADER + [|nlri| % 256];
    assert written == base + (head + (fields + nlri));
  }

  /** Puts the attribute header and the fixed fields in front of a finished NLRI. */
  method FrameNlri(nlri: Buffer, buffer: Buffer) returns (ok: bool)
    requires buffer.Valid() && nlri.Valid() && nlri.shift <= nlri.Capacity()
    requires nlri != buffer && (nlri.storage == null || nlri.storage != buffer.storage)
    modifies buffer, buffer.storage
    ensures buffer.Valid()
    ensures old(buffer.storage) == null && ok ==> buffer.Capacity() == NLRI_BUFFER_SIZE
    ensures ok <==>
            && |old(nlri.Used())| % 256 < 240 && !old(buffer.errorsOccurred)
            && |old(buffer.Used())| + 9 + |old(nlri.Used())|
               <= if old(buffer.storage) == null then NLRI_BUFFER_SIZE else old(buffer.Capacity())
    ensures ok ==> buffer.shift <= buffer.Capacity() && buffer.Used() == old(buffer.Used()) + MpOctets(old(nlri.Used()))
  {
    hide FlagsOctet, MpOctets, Buffer.Valid, Buffer.Used;
    Opened(buffer);
    var size := |nlri.Used()|;
    var narrowed := size % 256;
    if narrowed >= 240 {
      return false;
    }
    ghost var base := if buffer.storage == null then [] else buffer.Attempted;
    var _ := buffer.SetSize(NLRI_BUFFER_SIZE);
    buffer.Write([FlagsOctet(true, false), MP_REACH_NLRI, (6 + size) % 256]);
    buffer.Write(MP_HEADER);
    buffer.Write([narrowed]);
    var _ := buffer.AppendBuffer(nlri);
    Framed(base, buffer.Attempted, old(nlri.Used()));
    Verdict(buffer);
    return !buffer.errorsOccurred;
  }

  /** Builds the attribute list for a rule, giving up with an empty list where the program does. */
  method BuildAttributes(r: Rule) returns (attributes: seq<seq<Octet>>)
    ensures attributes == AnnounceAttributes(r)
  {
    hide EncodeNlri, Encodable, PackOctet, MpOctets, ActionCommunity, Attribute, CommunityAttribute, Buffer.Valid;
    var origin := WriteOrigin();
    var mp := new Buffer();
    var ok := WriteMpAttribute(r, mp);
    if !ok {
      return [];
    }
    assert [] + MpOctets(EncodeNlri(r)) == MpOctets(EncodeNlri(r));
    if r.action.kind == Accept {
      if |r.nextHops| > 0 {
        var nextHop := WriteCommunity(NextHopCommunity(r.nextHops[0]));
        return [origin, mp.Used(), nextHop];
      }
      return [origin, mp.Used()];
    }
    var element := ActionCommunity(r.action);
    if element.None? {
      return [];
    }
    var community := WriteCommunity(element.value);
    return [origin, mp.Used(), community];
  }

  method WriteOrigin() returns (attribute: seq<Octet>)
    ensures attribute == OriginAttribute()
  {
    var buffer := new Buffer();
    var _ := buffer.SetSize(4);
    buffer.Write(OriginAttribute());
    attribute := buffer.Used();
  }

  /** An extended community attribute in a buffer of exactly its size. */
  method WriteCommunity(element: seq<Octet>) returns (attribute: seq<Octet>)
    requires |element| == 8
    ensures attribute == CommunityAttribute(element)
  {
    var buffer := new Buffer();
    var _ := buffer.SetSize(11);
    buffer.Write([FlagsOctet(true, true), EXTENDED_COMMUNITY, 8]);
    buffer.Write(element);
    assert buffer.Attempted == CommunityAttribute(element);
    attribute := buffer.Used();
  }

  // ----- decoding -----

  /** The action a community stands for; communities of other types leave the rule alone. */
  datatype CommunityMeaning = Refused | NoAction | SetsAction(action: Action)

  function ReadCommunity(e: seq<Octet>, outOfRange: Word32): CommunityMeaning
    requires |e| == 8
  {
    if e[0] != EXPERIMENTAL then NoAction
    else if e[1] == TRAFFIC_RATE then
      match Truncate(ToWord32(e[4..8]), outOfRange)
      case Negative => Refused
      case Value(n) =>
        SetsAction(if n == 0 then DEFAULT_ACTION.(kind := Discard) else DEFAULT_ACTION.(kind := RateLimit, rate := n))
    else if e[1] == REDIRECT_AS then
      SetsAction(DEFAULT_ACTION.(kind := Redirect, redirectAs := ToWord16(e[2], e[3]), redirectValue := ToWord32(e[4..8])))
    else NoAction
  }

  /** What decoding does: it comes to an outcome, or it reads octets past the end of the attribute. */
  datatype Decoding = Done(outcome: Outcome) | OutOfBounds

  function Refuse(r: Rule): Decoding {
    Done(Outcome(false, r))
  }

  /**
    * The value of the multiprotocol attribute. Its fields are read one after the other without checking that they
    * lie within the attribute, and the NLRI length is taken as it stands.
    */
  function DecodeMpValue(v: seq<Octet>, r: Rule): Decoding {
    if |v| < 2 then OutOfBounds
    else if ToWord16(v[0], v[1]) != 1 then Refuse(r)
    else if |v| < 3 then OutOfBounds
    else if v[2] != 133 then Refuse(r)
    else if |v| < 6 then OutOfBounds
    else if v[5] >= 240 then Refuse(r)
    else if |v| < 6 + v[5] then OutOfBounds
    else Done(DecodeNlri(v[6..6 + v[5]], r))
  }

  function DecodeAttribute(b: seq<Octet>, r: Rule, outOfRange: Word32): Decoding {
    match ParseHeader(b)
    case None => Refuse(r)
    case Some(h) =>
      var s := h.BodyShift();
      if h.code == EXTENDED_COMMUNITY then
        if h.valueLength % 8 != 0 || h.valueLength / 8 != 1 then Refuse(r)
        else
          match ReadCommunity(b[s..s + 8], outOfRange)
          case Refused => Refuse(r)
          case NoAction => Done(Outcome(true, r))
          case SetsAction(a) => Done(Outcome(true, r.(action := a)))
      else if h.code == MP_REACH_NLRI then DecodeMpValue(b[s..], r)
      else Done(Outcome(true, r))
  }

  /** Attribute by attribute, as long as they are accepted. */
  function DecodeAnnounce(attributes: seq<seq<Octet>>, r: Rule, outOfRange: Word32): Decoding {
    if attributes == [] then Done(Outcome(true, r))
    else
      match DecodeAttribute(attributes[0], r, outOfRange)
      case OutOfBounds => OutOfBounds
      case Done(o) => if o.ok then DecodeAnnounce(attributes[1..], o.rule, outOfRange) else Done(o)
  }

  datatype Answer = Accepted | Rejected | ReadsPastEnd

  /** The decoding loop: one attribute after the other into one rule object, up to a read past the end. */
  method DecodeAttributes(attributes: seq<seq<Octet>>, rule: RuleObject, outOfRange: Word32) returns (answer: Answer)
    modifies rule
    ensures answer == ReadsPastEnd <==> DecodeAnnounce(attributes, old(rule.Value()), outOfRange) == OutOfBounds
    ensures answer != ReadsPastEnd ==>
              DecodeAnnounce(attributes, old(rule.Value()), outOfRange) == Done(Outcome(answer == Accepted, rule.Value()))
  {
    hide ParseHeader, DecodeNlri, ReadCommunity;
    assert attributes[0..] == attributes;
    for i := 0 to |attributes|
      invariant DecodeAnnounce(attributes[i..], rule.Value(), outOfRange)
             == DecodeAnnounce(attributes, old(rule.Value()), outOfRange)
    {
      var b := attributes[i];
      assert attributes[i..][0] == b && attributes[i..][1..] == attributes[i + 1..];
      var h := ParseHeader(b);
      if h.None? {
        return Rejected;
      }
      var s := h.value.BodyShift();
      if h.value.code == EXTENDED_COMMUNITY {
        if h.value.valueLength % 8 != 0 {
          return Rejected;
        }
        if h.value.valueLength / 8 != 1 {
          return Rejected;
        }
        match ReadCommunity(b[s..s + 8], outOfRange) {
          case Refused => return Rejected;
          case NoAction =>
          case SetsAction(a) => rule.SetAction(a);
        }
      } else if h.value.code == MP_REACH_NLRI {
        answer := DecodeMp(b, s, rule);
        if answer != Accepted {
          return;
        }
      }
    }
    assert attributes[|attributes|..] == [];
    return Accepted;
  }

  /** The multiprotocol branch of the loop. */
  method DecodeMp(b: seq<Octet>, s: nat, rule: RuleObject) returns (answer: Answer)
    requires s <= |b|
    modifies rule
    ensures answer == ReadsPastEnd <==> DecodeMpValue(b[s..], old(rule.Value())) == OutOfBounds
    ensures answer != ReadsPastEnd ==>
              DecodeMpValue(b[s..], old(rule.Value())) == Done(Outcome(answer == Accepted, rule.Value()))
  {
    hide DecodeNlri, ToWord16;
    ghost var v := b[s..];
    if s + 2 > |b| {
      return ReadsPastEnd;
    }
    if ToWord16(b[s], b[s + 1]) != 1 {
      return Rejected;
    }
    if s + 3 > |b| {
      return ReadsPastEnd;
    }
    if b[s + 2] != 133 {
      return Rejected;
    }
    if s + 6 > |b| {
      return ReadsPastEnd;
    }
    if b[s + 5] >= 240 {
      return Rejected;
    }
    if s + 6 + b[s + 5] > |b| {
      return ReadsPastEnd;
    }
    assert v[6..6 + b[s + 5]] == b[s + 6..s + 6 + b[s + 5]];
    var decoded, _ := DecodeNlriValue(b[s + 6..s + 6 + b[s + 5]], rule);
    return if decoded then Accepted else Rejected;
  }
}
