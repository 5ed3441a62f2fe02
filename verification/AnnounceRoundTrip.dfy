/** A FlowSpec announcement read back: what arrives, and exactly which rules arrive as they were sent. */
module AnnounceRoundTrip {
  import opened Octets
  import opened Prefix
  import opened Binary32
  import opened FlowSpecRule
  import opened NlriWire
  import opened NlriDecode
  import opened NlriRoundTrip
  import opened NlriEncode
  import opened NlriTruncation
  import opened PathAttribute
  import opened Announce

  // ----- one attribute at a time -----

  lemma OriginDecoded(r: Rule, outOfRange: Word32)
    ensures var b := OriginAttribute();
            DecodeAttribute(b, r, outOfRange) == Done(Outcome(true, r))
  {
    hide FlagsOctet;
    AttributeParsed(false, true, ORIGIN, 1, [ORIGIN_INCOMPLETE]);
  }

  lemma CommunityDecoded(e: seq<Octet>, r: Rule, outOfRange: Word32)
    requires |e| == 8
    ensures var b := CommunityAttribute(e);
            DecodeAttribute(b, r, outOfRange)
            == match ReadCommunity(e, outOfRange)
               case Refused => Refuse(r)
               case NoAction => Done(Outcome(true, r))
               case SetsAction(a) => Done(Outcome(true, r.(action := a)))
  {
    hide FlagsOctet, ReadCommunity, ParseHeader;
    AttributeParsed(true, true, EXTENDED_COMMUNITY, 8, e);
    assert CommunityAttribute(e)[3..11] == e;
  }

  /** The decoder sees as much of the NLRI as its length octet can say. */
  lemma MpDecoded(nlri: seq<Octet>, r: Rule, outOfRange: Word32)
    requires MpAttribute(nlri).Some?
    ensures var b := MpAttribute(nlri).value;
            DecodeAttribute(b, r, outOfRange) == Done(DecodeNlri(nlri[..|nlri| % 256], r))
  {
    hide FlagsOctet, DecodeNlri, ParseHeader;
    var n := |nlri| % 256;
    var length, value := (6 + |nlri|) % 256, MP_HEADER + [n] + nlri;
    AttributeParsed(true, false, MP_REACH_NLRI, length, value);
    var b := MpAttribute(nlri).value;
    assert b[3..] == value;
    assert value[0] == 0 && value[1] == 1 && value[2] == 133 && value[5] == n;
    assert value[6..6 + n] == nlri[..n];
    assert b[9..9 + n] == value[6..6 + n];
  }

  // ----- actions -----

  /** The action a decoder reconstructs. Four-octet route targets and next hops are not recognised. */
  function ArrivedAction(a: Action, outOfRange: Word32): Action {
    match a.kind
    case Accept => DEFAULT_ACTION
    case Mark => DEFAULT_ACTION
    case Discard => DEFAULT_ACTION.(kind := Discard)
    case RateLimit =>
      var n := match Truncate(FloatBits(a.rate), outOfRange) case Value(n) => n case Negative => 0;
      if n == 0 then DEFAULT_ACTION.(kind := Discard) else DEFAULT_ACTION.(kind := RateLimit, rate := n)
    case Redirect => DEFAULT_ACTION.(kind := Redirect, redirectAs := a.redirectAs, redirectValue := a.redirectValue)
    case RedirectVrf =>
      if a.rtAs <= 65535 then DEFAULT_ACTION.(kind := Redirect, redirectAs := a.rtAs, redirectValue := a.rtValue)
      else DEFAULT_ACTION
  }

  lemma RateNotNegative(n: Word32, outOfRange: Word32)
    ensures Truncate(FloatBits(n), outOfRange).Value?
  {
    hide Log2, Significand, Pow2;
    if n > 0 {
      FieldsRead(n);
    }
  }

  lemma ZeroRate(outOfRange: Word32)
    ensures Truncate(FloatBits(0), outOfRange) == Value(0)
  {
    ZeroRateRead();
  }

  lemma RateRead(a: Action, outOfRange: Word32)
    requires a.kind == Discard || a.kind == RateLimit
    ensures ReadCommunity(ActionCommunity(a).value, outOfRange) == SetsAction(ArrivedAction(a, outOfRange))
  {
    hide FloatBits, Truncate, Bytes32, ToWord32;
    var bits := FloatBits(if a.kind == Discard then 0 else a.rate);
    var e := ActionCommunity(a).value;
    ZeroRate(outOfRange);
    RateNotNegative(a.rate, outOfRange);
    Bytes32Read(bits);
    assert e[4..8] == Bytes32(bits);
  }

  lemma RedirectRead(a: Action, outOfRange: Word32)
    requires a.kind == Redirect || (a.kind == RedirectVrf && a.rtAs <= 65535)
    ensures ReadCommunity(ActionCommunity(a).value, outOfRange) == SetsAction(ArrivedAction(a, outOfRange))
  {
    hide FloatBits, Truncate, Bytes32, ToWord32;
    var value := if a.kind == Redirect then a.redirectValue else a.rtValue;
    var e := ActionCommunity(a).value;
    Bytes32Read(value);
    assert e[4..8] == Bytes32(value);
  }

  /** Reading back the community written for an action. */
  lemma ActionRead(a: Action, r: Rule, outOfRange: Word32)
    requires ActionCommunity(a).Some? && r.action == DEFAULT_ACTION
    ensures DecodeAttribute(CommunityAttribute(ActionCommunity(a).value), r, outOfRange)
         == Done(Outcome(true, r.(action := ArrivedAction(a, outOfRange))))
  {
    CommunityDecoded(ActionCommunity(a).value, r, outOfRange);
    if a.kind == Discard || a.kind == RateLimit {
      hide *;
      RateRead(a, outOfRange);
    } else if a.kind == Redirect || a.rtAs <= 65535 {
      hide DecodeAttribute, CommunityAttribute, FloatBits, Truncate, Bytes32, ToWord32;
      RedirectRead(a, outOfRange);
    } else {
      hide DecodeAttribute, CommunityAttribute, FloatBits, Truncate, Bytes32, ToWord32;
    }
  }

  /** The route target of a redirect community, by section 3 of RFC 7674. */
  function RouteTarget(e: seq<Octet>): Option<(Word32, Word32)>
    requires |e| == 8
  {
    if e[1] != REDIRECT_AS then None
    else if e[0] == EXPERIMENTAL then Some((ToWord16(e[2], e[3]), ToWord32(e[4..8])))
    else if e[0] == EXPERIMENTAL_PART_3 then Some((ToWord32(e[2..6]), ToWord16(e[6], e[7])))
    else None
  }

  /**
    * A redirect to a VRF can be encoded exactly when its AS number or its value fits two octets, and the community
    * then carries both, although the program's own decoder does not read the four-octet form.
    */
  lemma RouteTargetCarried(a: Action)
    requires a.kind == RedirectVrf
    ensures ActionCommunity(a).Some? <==> a.rtAs <= 65535 || a.rtValue <= 65535
    ensures ActionCommunity(a).Some? ==> RouteTarget(ActionCommunity(a).value) == Some((a.rtAs, a.rtValue))
  {
    hide Bytes32, ToWord32;
    Bytes32Read(a.rtAs);
    Bytes32Read(a.rtValue);
    if a.rtAs <= 65535 {
      assert ActionCommunity(a).value[4..8] == Bytes32(a.rtValue);
    } else if a.rtValue <= 65535 {
      assert ActionCommunity(a).value[2..6] == Bytes32(a.rtAs);
    }
  }

  // ----- whole announcements -----

  lemma NextHopDecoded(nextHop: Word32, r: Rule, outOfRange: Word32)
    ensures var b := CommunityAttribute(NextHopCommunity(nextHop));
            DecodeAttribute(b, r, outOfRange) == Done(Outcome(true, r))
  {
    hide DecodeAttribute, CommunityAttribute, Bytes32, Truncate;
    Bytes32Read(nextHop);
    CommunityDecoded(NextHopCommunity(nextHop), r, outOfRange);
  }

  /** Whatever follows the NLRI attribute turns the action of a fresh rule into the one that arrives. */
  lemma TailDecoded(q: Rule, r: Rule, outOfRange: Word32)
    requires ActionAttributes(q).Some? && r.action == DEFAULT_ACTION
    ensures DecodeAnnounce(ActionAttributes(q).value, r, outOfRange)
         == Done(Outcome(true, r.(action := ArrivedAction(q.action, outOfRange))))
  {
    hide DecodeAttribute, CommunityAttribute, ArrivedAction, ActionCommunity, NextHopCommunity;
    var tail := ActionAttributes(q).value;
    if q.action.kind == Accept {
      AcceptArrives(q.action, outOfRange);
      if q.nextHops != [] {
        NextHopDecoded(q.nextHops[0], r, outOfRange);
        assert DecodeAnnounce(tail, r, outOfRange) == DecodeAnnounce(tail[1..], r, outOfRange);
      }
    } else {
      var e := ActionCommunity(q.action).value;
      CommunityDecoded(e, r, outOfRange);
      ActionRead(q.action, r, outOfRange);
      var r' := r.(action := ArrivedAction(q.action, outOfRange));
      assert DecodeAnnounce(tail, r, outOfRange) == DecodeAnnounce(tail[1..], r', outOfRange);
    }
  }

  lemma AcceptArrives(a: Action, outOfRange: Word32)
    requires a.kind == Accept
    ensures ArrivedAction(a, outOfRange) == DEFAULT_ACTION
  {
  }

  /** The NLRI octets a decoder gets to see: the length octet keeps only the low eight bits of the size. */
  function VisibleNlri(r: Rule): seq<Octet> {
    EncodeNlri(r)[..|EncodeNlri(r)| % 256]
  }

  /** What any announcement that can be built decodes to. */
  lemma AnnounceDecoded(r: Rule, outOfRange: Word32)
    ensures AnnounceAttributes(r) != [] ==>
              var d := DecodeNlri(VisibleNlri(r), EMPTY_RULE);
              DecodeAnnounce(AnnounceAttributes(r), EMPTY_RULE, outOfRange)
              == Done(if d.ok then Outcome(true, d.rule.(action := ArrivedAction(r.action, outOfRange))) else d)
  {
    hide EncodeNlri, Encodable, MpAttribute, OriginAttribute, ActionAttributes, DecodeAttribute, DecodeNlri,
         ArrivedAction;
    if AnnounceAttributes(r) != [] {
      var mp, tail := MpAttribute(EncodeNlri(r)).value, ActionAttributes(r).value;
      var d := DecodeNlri(VisibleNlri(r), EMPTY_RULE);
      OriginDecoded(EMPTY_RULE, outOfRange);
      MpDecoded(EncodeNlri(r), EMPTY_RULE, outOfRange);
      NothingNormal();
      DecodeNormal(VisibleNlri(r), EMPTY_RULE);
      assert AnnounceAttributes(r)[1..] == [mp] + tail && ([mp] + tail)[1..] == tail;
      if d.ok {
        TailDecoded(r, d.rule, outOfRange);
      }
    }
  }

  lemma NothingNormal()
    ensures Normal(EMPTY_RULE) && EMPTY_RULE.action == DEFAULT_ACTION
  {
  }

  /** Every announcement below the size limit brings across the carried part of the rule and its action. */
  lemma AnnounceArrives(r: Rule, outOfRange: Word32)
    requires Encodable(r) && ListsFit(r) && |EncodeNlri(r)| < 240 && ActionAttributes(r).Some?
    ensures AnnounceAttributes(r) != []
    ensures DecodeAnnounce(AnnounceAttributes(r), EMPTY_RULE, outOfRange)
         == Done(Outcome(true, Carried(r).(action := ArrivedAction(r.action, outOfRange))))
  {
    hide EncodeNlri, Encodable, OriginAttribute, ActionAttributes, DecodeAnnounce, DecodeNlri, ArrivedAction,
         Carried;
    AnnounceDecoded(r, outOfRange);
    RoundTrip(r);
    assert VisibleNlri(r) == EncodeNlri(r);
  }

  // ----- exactly which rules arrive as they were sent -----

  /** The announcement can be built and decodes, into an empty rule, to a rule the program calls equal. */
  predicate ArrivesEqual(r: Rule, outOfRange: Word32) {
    && AnnounceAttributes(r) != []
    && var d := DecodeAnnounce(AnnounceAttributes(r), EMPTY_RULE, outOfRange);
       d.Done? && d.outcome.ok && SameRule(d.outcome.rule, r)
  }

  predicate FaithfulAction(a: Action) {
    match a.kind
    case Accept => true
    case Discard => true
    case Redirect => true
    case RateLimit => a.rate > 0 && ExactRate(a.rate)
    case RedirectVrf => false
    case Mark => false
  }

  /** The rule says nothing the NLRI cannot carry. */
  predicate FullyCarried(r: Rule) {
    && CanonicalOption(r.destination) == r.destination && CanonicalOption(r.source) == r.source
    && r.destination6.None? && r.source6.None? && r.vlans == [] && r.nextHops == []
  }

  predicate FaithfulRule(r: Rule) {
    && Encodable(r) && ListsFit(r) && |EncodeNlri(r)| < 240
    && FullyCarried(r) && FaithfulAction(r.action)
  }

  lemma SameAsCarried(r: Rule, a: Action)
    ensures SameRule(Carried(r).(action := a), r) <==> FullyCarried(r) && SameAction(a, r.action)
  {
    hide Canonical, SameAction;
  }

  lemma FaithfulActionExactly(a: Action)
    ensures (forall outOfRange: Word32 :: SameAction(ArrivedAction(a, outOfRange), a)) <==> FaithfulAction(a)
  {
    hide Truncate, FloatBits, ExactRate;
    if a.kind == RateLimit {
      RateRoundTripExactly(a.rate);
      if a.rate > 0 && !ExactRate(a.rate) {
        var outOfRange: Word32 :| Truncate(FloatBits(a.rate), outOfRange) != Value(a.rate);
        RateNotNegative(a.rate, outOfRange);
        assert !SameAction(ArrivedAction(a, outOfRange), a);
      } else {
        assert a.rate == 0 ==> !SameAction(ArrivedAction(a, 0), a);
      }
    } else {
      assert !FaithfulAction(a) ==> !SameAction(ArrivedAction(a, 0), a);
    }
  }

  lemma FaithfulActionsEncode(r: Rule)
    requires FaithfulAction(r.action)
    ensures ActionAttributes(r).Some?
  {
  }

  /** An announcement within the size limit. */
  lemma WithinLimit(r: Rule)
    ensures AnnounceAttributes(r) != [] && |EncodeNlri(r)| < 240 ==>
              ((forall outOfRange: Word32 :: ArrivesEqual(r, outOfRange)) <==> FaithfulRule(r))
  {
    hide EncodeNlri, Encodable, ActionAttributes, DecodeAnnounce, DecodeNlri, ArrivedAction, Carried, MpAttribute,
         SameAction, FaithfulAction, ListsFit, FullyCarried, SameRule, OriginAttribute;
    if AnnounceAttributes(r) != [] && |EncodeNlri(r)| < 240 {
      if ListsFit(r) {
        FittingWithinLimit(r);
      } else {
        AnnounceDecoded(r, 0);
        UnfitRuleDerails(r);
        assert VisibleNlri(r) == EncodeNlri(r);
        DerailedDiffers(r, DecodeNlri(EncodeNlri(r), EMPTY_RULE), ArrivedAction(r.action, 0));
        assert !ArrivesEqual(r, 0);
      }
    }
  }

  lemma FittingWithinLimit(r: Rule)
    requires ListsFit(r)
    ensures AnnounceAttributes(r) != [] && |EncodeNlri(r)| < 240 ==>
              ((forall outOfRange: Word32 :: ArrivesEqual(r, outOfRange)) <==> FaithfulRule(r))
  {
    hide EncodeNlri, Encodable, ActionAttributes, DecodeAnnounce, DecodeNlri, ArrivedAction, Carried, MpAttribute,
         SameAction, FaithfulAction, ListsFit, FullyCarried, SameRule, OriginAttribute;
    if AnnounceAttributes(r) != [] && |EncodeNlri(r)| < 240 {
      forall outOfRange: Word32
        ensures ArrivesEqual(r, outOfRange) <==> FullyCarried(r) && SameAction(ArrivedAction(r.action, outOfRange), r.action)
      {
        AnnounceArrives(r, outOfRange);
        SameAsCarried(r, ArrivedAction(r.action, outOfRange));
      }
      assert ArrivesEqual(r, 0) ==> FullyCarried(r);
      FaithfulActionExactly(r.action);
    }
  }

  lemma DerailedDiffers(q: Rule, o: Outcome, a: Action)
    requires Derailed(o, Prefixes(q))
    ensures !(o.ok && SameRule(o.rule.(action := a), q))
  {
    hide Canonical;
  }

  /**
    * The exact domain of announcing: building the attributes and decoding them gives an equal rule, however the
    * platform converts rates an int cannot hold, if and only if the rule is encodable, its lists fit the reader, its
    * NLRI is shorter than 240 octets, it says only what the NLRI carries, and its action is accept, discard, redirect
    * or a positive rate that binary32 and int both hold. In particular no NLRI of 256 octets or more ever arrives
    * equal, although the narrowed length may pass the encoder's check.
    */
  lemma AnnounceRoundTripExactly(r: Rule)
    ensures (forall outOfRange: Word32 :: ArrivesEqual(r, outOfRange)) <==> FaithfulRule(r)
  {
    hide EncodeNlri, Encodable, DecodeAnnounce, DecodeNlri, ArrivedAction, FaithfulAction, ListsFit, FullyCarried,
         SameRule, OriginAttribute, ActionAttributes;
    if AnnounceAttributes(r) == [] {
      assert !ArrivesEqual(r, 0);
      if FaithfulRule(r) {
        FaithfulActionsEncode(r);
        AnnounceArrives(r, 0);
      }
    } else if |EncodeNlri(r)| < 240 {
      WithinLimit(r);
    } else {
      AnnounceDecoded(r, 0);
      TruncationIsDetectable(r, |EncodeNlri(r)| % 256, ArrivedAction(r.action, 0));
      assert !ArrivesEqual(r, 0);
    }
  }

  // ----- an announcement that is sent but does not arrive -----

  function PortsOnly(ports: seq<Word16>): Rule {
    EMPTY_RULE.(destinationPorts := ports)
  }

  lemma PortsOnlySize(ports: seq<Word16>)
    requires ports != []
    ensures |EncodeNlri(PortsOnly(ports))| == 1 + 3 * |ports|
    ensures Encodable(PortsOnly(ports))
  {
    hide ListBytes, EncodeLists;
    var r := PortsOnly(ports);
    ListsInOrder(r);
    assert forall kind: ListKind :: kind != DestinationPortList ==> RuleItems(r, kind) == [];
    NothingListed(r);
    PortListSize(ports);
  }

  lemma NothingListed(r: Rule)
    ensures forall kind: ListKind :: RuleItems(r, kind) == [] ==> ListBytes(r, kind) == []
  {
    hide RuleItems;
  }

  lemma PortListSize(ports: seq<Word16>)
    requires ports != []
    ensures |ListBytes(PortsOnly(ports), DestinationPortList)| == 1 + 3 * |ports|
  {
    hide EncodeItems;
    ItemsSize(RuleItems(PortsOnly(ports), DestinationPortList), 3);
  }

  /**
    * Any rule with between 86 and 100 destination ports and nothing else is announced, with an NLRI of 259 to 301
    * octets under a length octet of 3 to 45, although every list fits the reader; no decoder gets the rule back.
    */
  lemma LongAnnounceIsSent(ports: seq<Word16>, outOfRange: Word32)
    requires 86 <= |ports| <= 100
    ensures var r := PortsOnly(ports);
            && Encodable(r) && ListsFit(r) && FullyCarried(r) && FaithfulAction(r.action)
            && |EncodeNlri(r)| >= 256 && |EncodeNlri(r)| % 256 == 3 * |ports| - 255
            && AnnounceAttributes(r) != []
            && !ArrivesEqual(r, outOfRange)
  {
    hide EncodeNlri, DecodeAnnounce, DecodeNlri, ArrivedAction, SameRule, OriginAttribute, MpOctets;
    var r := PortsOnly(ports);
    PortsOnlySize(ports);
    AnnounceDecoded(r, outOfRange);
    TruncationIsDetectable(r, |EncodeNlri(r)| % 256, ArrivedAction(r.action, outOfRange));
  }
}
