/**
  * The announcement octet by octet, and what the decoder makes of any attribute, in the numbers of RFC 4271, RFC 4360,
  * RFC 4760 and RFC 8955.
  */
module AnnounceWire {
  import opened Octets
  import opened Binary32
  import opened FlowSpecRule
  import opened NlriWire
  import opened NlriDecode
  import opened NlriEncode
  import opened NlriGrammar
  import opened PathAttribute
  import opened Announce

  /** The four octets of a word, the most significant first. */
  function Quad(w: Word32): seq<Octet> {
    [w / 0x100_0000, w / 0x1_0000 % 256, w / 0x100 % 256, w % 256]
  }

  // ----- attribute headers -----

  /**
    * The header of any attribute: with the extended-length bit (0x10) the length has two octets, otherwise one, and it is
    * refused exactly when the octets end before the header or before the value do.
    */
  lemma HeaderExactly(b: seq<Octet>)
    ensures var h := ParseHeader(b);
            if |b| < 3 then h.None?
            else if HasBit(b[0], 0x10) then
              && (h.Some? <==> |b| >= 4 && |b| >= 4 + 256 * (b[2] as int) + b[3])
              && (h.Some? ==> h.value.code == b[1] && h.value.BodyShift() == 4 && h.value.valueLength == 256 * (b[2] as int) + b[3])
            else
              && (h.Some? <==> |b| >= 3 + b[2] as int)
              && (h.Some? ==> h.value.code == b[1] && h.value.BodyShift() == 3 && h.value.valueLength == b[2])
  {
    hide Unpack, HasBit;
    if b != [] {
      UnpackedBits(b[0]);
    }
  }

  lemma AttributeOctets(optional: bool, transitive: bool, code: Octet, length: Octet, value: seq<Octet>)
    ensures Attribute(optional, transitive, code, length, value)
         == [(if optional then 0x80 else 0) + if transitive then 0x40 else 0, code, length] + value
  {
    hide FlagsOctet;
    FlagsValue(optional, transitive);
  }

  // ----- what is written -----

  /** The first two attributes: an incomplete origin, and the NLRI under its address family and its length octets. */
  lemma NlriOnWire(r: Rule)
    requires AnnounceAttributes(r) != []
    ensures var attributes, nlri := AnnounceAttributes(r), EncodeNlri(r);
            && |attributes| >= 2 && attributes[0] == [0x40, 1, 1, 2]
            && attributes[1] == [0x80, 14, (6 + |nlri|) % 256, 0, 1, 133, 0, 0, |nlri| % 256] + nlri
  {
    hide EncodeNlri, Encodable, ActionAttributes, OriginAttribute, MpOctets;
    OriginOctets();
    MpWritten(EncodeNlri(r));
  }

  lemma OriginOctets()
    ensures OriginAttribute() == [0x40, 1, 1, 2]
  {
    hide PathAttribute.Attribute;
    AttributeOctets(false, true, ORIGIN, 1, [ORIGIN_INCOMPLETE]);
  }

  lemma MpWritten(nlri: seq<Octet>)
    ensures MpOctets(nlri) == [0x80, 14, (6 + |nlri|) % 256, 0, 1, 133, 0, 0, |nlri| % 256] + nlri
  {
    hide PathAttribute.Attribute;
    AttributeOctets(true, false, MP_REACH_NLRI, (6 + |nlri|) % 256, MP_HEADER + [|nlri| % 256] + nlri);
  }

  lemma QuadOctets(w: Word32)
    ensures Bytes32(w) == Quad(w)
  {
  }

  /** Eight octets: two of type, six of value. */
  lemma CommunityOctets(a: Action)
    requires ActionCommunity(a).Some?
    ensures ActionCommunity(a).value == match a.kind
              case Discard => [0x80, 6, 0, 0, 0, 0, 0, 0]
              case RateLimit => [0x80, 6, 0, 0] + Quad(FloatBits(a.rate))
              case Redirect => [0x80, 8, a.redirectAs / 256, a.redirectAs % 256] + Quad(a.redirectValue)
              case RedirectVrf =>
                if a.rtAs <= 65535 then [0x80, 8, a.rtAs / 256, a.rtAs % 256] + Quad(a.rtValue)
                else [0x82, 8] + Quad(a.rtAs) + [a.rtValue / 256 % 256, a.rtValue % 256]
              case _ => []
  {
    hide Bytes32, Quad, FloatBits;
    ZeroRate();
    ZeroQuad();
    QuadOctets(FloatBits(a.rate));
    QuadOctets(a.redirectValue);
    QuadOctets(a.rtValue);
    QuadOctets(a.rtAs);
  }

  lemma ZeroQuad()
    ensures Bytes32(0) == [0, 0, 0, 0]
  {
  }

  /**
    * The last attribute, an extended community of eight octets: for a plain accept the redirect to the first next hop,
    * whose address comes right behind the type octets 1 and 12 and before two zeros, and none without one; otherwise the
    * traffic rate (0x80, 6), or the route target (0x80, 8), with four octets for its AS number (0x82, 8) if two are too few.
    */
  lemma ActionOnWire(r: Rule)
    requires AnnounceAttributes(r) != []
    ensures var attributes, a := AnnounceAttributes(r), r.action;
            if a.kind == Accept && r.nextHops == [] then |attributes| == 2
            else
              && |attributes| == 3
              && attributes[2] == [0xC0, 16, 8] + match a.kind
                   case Accept => [1, 12] + Quad(r.nextHops[0]) + [0, 0]
                   case Discard => [0x80, 6, 0, 0, 0, 0, 0, 0]
                   case RateLimit => [0x80, 6, 0, 0] + Quad(FloatBits(a.rate))
                   case Redirect => [0x80, 8, a.redirectAs / 256, a.redirectAs % 256] + Quad(a.redirectValue)
                   case RedirectVrf =>
                     if a.rtAs <= 65535 then [0x80, 8, a.rtAs / 256, a.rtAs % 256] + Quad(a.rtValue)
                     else [0x82, 8] + Quad(a.rtAs) + [a.rtValue / 256 % 256, a.rtValue % 256]
                   case Mark => []
  {
    hide EncodeNlri, Encodable, MpAttribute, FloatBits, Bytes32, Quad, ActionCommunity, Attribute;
    if r.action.kind == Accept {
      if r.nextHops != [] {
        QuadOctets(r.nextHops[0]);
        AttributeOctets(true, true, EXTENDED_COMMUNITY, 8, NextHopCommunity(r.nextHops[0]));
      }
    } else {
      MarkHasNone(r.action);
      CommunityOctets(r.action);
      AttributeOctets(true, true, EXTENDED_COMMUNITY, 8, ActionCommunity(r.action).value);
    }
  }

  lemma MarkHasNone(a: Action)
    requires ActionCommunity(a).Some?
    ensures a.kind != Mark && a.kind != Accept
  {
  }

  lemma ZeroRate()
    ensures FloatBits(0) == 0
  {
  }

  /**
    * Nothing can be announced exactly when a TCP flagset is empty, the NLRI is too long for the buffer or its length cut
    * to eight bits is 240 or more, or the action has no community: a mark, or a route target too large for both forms.
    */
  lemma NotAnnouncedExactly(r: Rule)
    ensures AnnounceAttributes(r) == [] <==>
            || (exists f :: f in r.tcpFlags && f == TcpFlagset(false, false, false, false, false, false))
            || |EncodeNlri(r)| > 2039 || |EncodeNlri(r)| % 256 >= 240
            || r.action.kind == Mark
            || (r.action.kind == RedirectVrf && r.action.rtAs > 65535 && r.action.rtValue > 65535)
  {
    hide EncodeNlri, FloatBits, MpOctets, OriginAttribute, CommunityAttribute, NextHopCommunity;
    assert forall f: TcpFlagset :: !f.AnyFlag() <==> f == TcpFlagset(false, false, false, false, false, false);
  }

  // ----- what is read -----

  /** The community of an action by its octets: a traffic rate, a two-octet route target, or nothing to the decoder. */
  lemma CommunityExactly(e: seq<Octet>, outOfRange: Word32)
    requires |e| == 8
    ensures var m := ReadCommunity(e, outOfRange);
            var tail := 0x100_0000 * (e[4] as int) + 0x1_0000 * (e[5] as int) + 0x100 * (e[6] as int) + e[7];
            if e[0] == 0x80 && e[1] == 6 then
              match Truncate(tail, outOfRange)
              case Negative => m == Refused
              case Value(n) => m.SetsAction? && m.action.kind == (if n == 0 then Discard else RateLimit)
                               && (n != 0 ==> m.action.rate == n)
            else if e[0] == 0x80 && e[1] == 8 then
              m.SetsAction? && m.action.kind == Redirect
              && m.action.redirectAs == 256 * (e[2] as int) + e[3] && m.action.redirectValue == tail
            else m == NoAction
  {
    hide Truncate;
    assert e[4..8] == [e[4], e[5], e[6], e[7]];
  }

  /**
    * One attribute with a readable header. Of type 16 it must hold exactly one community, which sets the action or is
    * passed over; of type 14 its value decides; any other is passed over.
    */
  lemma AttributeExactly(b: seq<Octet>, r: Rule, outOfRange: Word32)
    requires ParseHeader(b).Some?
    ensures var h, d := ParseHeader(b).value, DecodeAttribute(b, r, outOfRange);
            var v := b[h.BodyShift()..];
            if h.code == 16 then
              if h.valueLength != 8 then d == Done(Outcome(false, r))
              else
                match ReadCommunity(v[..8], outOfRange)
                case Refused => d == Done(Outcome(false, r))
                case NoAction => d == Done(Outcome(true, r))
                case SetsAction(a) => d == Done(Outcome(true, r.(action := a)))
            else if h.code == 14 then d == DecodeMpValue(v, r)
            else d == Done(Outcome(true, r))
  {
    hide ParseHeader, ReadCommunity, DecodeMpValue;
    var h := ParseHeader(b).value;
    var s := h.BodyShift();
    if h.valueLength == 8 {
      assert b[s..s + 8] == b[s..][..8];
    }
  }

  /**
    * A multiprotocol value is accepted exactly when it is FlowSpec unicast for IPv4, its NLRI has a one-octet length
    * below 240, and as many octets of it are there and are accepted. The next hop length and the reserved octet do not
    * matter, nor does anything behind the NLRI.
    */
  lemma MpAcceptedExactly(v: seq<Octet>, r: Rule, r': Rule)
    ensures DecodeMpValue(v, r) == Done(Outcome(true, r')) <==>
            && |v| >= 6 && v[0] == 0 && v[1] == 1 && v[2] == 133 && v[5] < 240 && |v| - 6 >= v[5] as int
            && DecodeNlri(v[6..6 + v[5]], r) == Outcome(true, r')
  {
    hide DecodeNlri;
  }
}
