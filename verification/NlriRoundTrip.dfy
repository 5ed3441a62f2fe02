/** What survives encoding a rule and decoding it again, and exactly when. */
module NlriRoundTrip {
  import opened Octets
  import opened Prefix
  import opened FlowSpecRule
  import opened NlriWire
  import opened NlriDecode
  import opened NlriEncode

  function CanonicalOption(s: Option<Subnet4>): Option<Subnet4> {
    if s.None? then None else Some(Canonical(s.value))
  }

  /** The part of a rule the NLRI carries: lists in order, IPv4 prefixes masked; everything else is back at default. */
  function Carried(q: Rule): Rule {
    EMPTY_RULE.(
      destination := CanonicalOption(q.destination), source := CanonicalOption(q.source),
      protocols := q.protocols, destinationPorts := q.destinationPorts, sourcePorts := q.sourcePorts,
      tcpFlags := q.tcpFlags, packetLengths := q.packetLengths, fragments := q.fragments)
  }

  /** No list is longer than the reader is willing to scan. */
  predicate ListsFit(q: Rule) {
    forall kind: ListKind :: |RuleItems(q, kind)| <= MAX_ELEMENTS
  }

  // ----- lists -----

  function ElementOf(w: Item): Element {
    if w.wide then Element(0, w.value, 0) else Element(w.value, w.value, 1)
  }

  function Elements(items: seq<Item>): seq<Element> {
    if items == [] then [] else [ElementOf(items[0])] + Elements(items[1..])
  }

  lemma ItemRead(w: Item, last: bool, rest: seq<Octet>)
    ensures var b := EncodeItem(w, last);
            && ReadEntry(b + rest) == Some(Entry(ElementOf(w), |b|, last))
            && (b + rest)[|b|..] == rest
  {
    hide OperatorOctet, ReadOperator;
    OperatorPacking(ItemOperator(w, last));
  }

  lemma NothingRead(b: seq<Octet>)
    ensures ReadList(b, 0) == ListRead([], 0)
  {
  }

  /** The reader recovers a closed list that fits its budget, and the first `budget` entries of an open one. */
  lemma {:induction false} ItemsRead(items: seq<Item>, closed: bool, rest: seq<Octet>, budget: nat)
    requires |items| <= budget
    requires if closed then items != [] else |items| == budget
    ensures ReadList(EncodeItems(items, closed) + rest, budget)
         == ListRead(Elements(items), |EncodeItems(items, closed)|)
  {
    hide EncodeItem, ReadEntry, ElementOf;
    if items == [] {
      NothingRead(rest);
      assert EncodeItems(items, closed) + rest == rest;
    } else {
      var last := closed && |items| == 1;
      var tail := EncodeItems(items[1..], closed);
      assert EncodeItems(items, closed) + rest == EncodeItem(items[0], last) + (tail + rest);
      ItemRead(items[0], last, tail + rest);
      if !last {
        ItemsRead(items[1..], closed, rest, budget - 1);
      }
    }
  }

  /** `r` with the `kind` list of `q` appended to its own. */
  function Extend(r: Rule, kind: ListKind, q: Rule): Rule {
    match kind
    case ProtocolList => r.(protocols := r.protocols + q.protocols)
    case DestinationPortList => r.(destinationPorts := r.destinationPorts + q.destinationPorts)
    case SourcePortList => r.(sourcePorts := r.sourcePorts + q.sourcePorts)
    case TcpFlagList => r.(tcpFlags := r.tcpFlags + q.tcpFlags)
    case LengthList => r.(packetLengths := r.packetLengths + q.packetLengths)
    case FragmentList => r.(fragments := r.fragments + q.fragments)
  }

  function DropFirst(kind: ListKind, q: Rule): Rule
    requires RuleItems(q, kind) != []
  {
    match kind
    case ProtocolList => q.(protocols := q.protocols[1..])
    case DestinationPortList => q.(destinationPorts := q.destinationPorts[1..])
    case SourcePortList => q.(sourcePorts := q.sourcePorts[1..])
    case TcpFlagList => q.(tcpFlags := q.tcpFlags[1..])
    case LengthList => q.(packetLengths := q.packetLengths[1..])
    case FragmentList => q.(fragments := q.fragments[1..])
  }

  lemma FirstApplied(kind: ListKind, q: Rule, r: Rule)
    requires Encodable(q) && RuleItems(q, kind) != []
    ensures var items, q' := RuleItems(q, kind), DropFirst(kind, q);
            && items[1..] == RuleItems(q', kind) && Encodable(q')
            && var o := ApplyElement(kind, ElementOf(items[0]), r); o.ok && Extend(o.rule, kind, q') == Extend(r, kind, q)
  {
    hide TcpOctet, FragmentOctet, ReadTcpOctet, ReadFragmentOctet;
    match kind {
      case ProtocolList => AppendFirst(r.protocols, q.protocols);
      case DestinationPortList => AppendFirst(r.destinationPorts, q.destinationPorts);
      case SourcePortList => AppendFirst(r.sourcePorts, q.sourcePorts);
      case TcpFlagList =>
        TcpOctetRead(q.tcpFlags[0]);
        AppendFirst(r.tcpFlags, q.tcpFlags);
      case LengthList => AppendFirst(r.packetLengths, q.packetLengths);
      case FragmentList =>
        FragmentOctetRead(q.fragments[0]);
        AppendFirst(r.fragments, q.fragments);
    }
    assert RuleItems(q, kind)[1..] == RuleItems(DropFirst(kind, q), kind);
  }

  lemma AppendFirst<T>(xs: seq<T>, ys: seq<T>)
    requires ys != []
    ensures (xs + [ys[0]]) + ys[1..] == xs + ys
  {
  }

  lemma ExtendNothing(kind: ListKind, q: Rule, r: Rule)
    requires RuleItems(q, kind) == []
    ensures Extend(r, kind, q) == r
  {
  }

  lemma ExtendNormal(kind: ListKind, q: Rule, r: Rule)
    requires Encodable(q) && Normal(r)
    ensures Normal(Extend(r, kind, q)) && Extend(r, kind, q).destination == r.destination
  {
    hide Canonical;
  }

  /** Storing the scanned entries of a rule's list appends that list. */
  lemma {:induction false} ItemsApplied(kind: ListKind, q: Rule, r: Rule)
    requires Encodable(q)
    ensures ApplyElements(kind, Elements(RuleItems(q, kind)), r) == Outcome(true, Extend(r, kind, q))
    decreases |RuleItems(q, kind)|
  {
    hide ApplyElement, ElementOf, Encodable;
    var items := RuleItems(q, kind);
    if items != [] {
      FirstApplied(kind, q, r);
      ItemsApplied(kind, DropFirst(kind, q), ApplyElement(kind, ElementOf(items[0]), r).rule);
    }
  }

  /** Decoding one list component, whatever follows it. */
  lemma FittingListStep(kind: ListKind, q: Rule, r: Rule, rest: seq<Octet>)
    requires Encodable(q) && 0 < |RuleItems(q, kind)| <= MAX_ELEMENTS
    ensures var b := EncodeList(kind, RuleItems(q, kind));
            DecodeComponent(b + rest, r) == Step(true, Extend(r, kind, q), |b|)
  {
    hide EncodeItems, ReadList, ApplyElements, Encodable, RuleItems, Extend;
    var items := RuleItems(q, kind);
    var b := EncodeList(kind, items) + rest;
    assert b[1..] == EncodeItems(items, true) + rest;
    ItemsRead(items, true, rest, MAX_ELEMENTS);
    ItemsApplied(kind, q, r);
  }

  lemma ListDecoded(kind: ListKind, q: Rule, r: Rule, rest: seq<Octet>)
    requires Encodable(q) && |RuleItems(q, kind)| <= MAX_ELEMENTS
    ensures DecodeNlri(EncodeList(kind, RuleItems(q, kind)) + rest, r) == DecodeNlri(rest, Extend(r, kind, q))
  {
    hide EncodeItems, DecodeComponent, Encodable, RuleItems, Extend;
    var first := EncodeList(kind, RuleItems(q, kind));
    if first == [] {
      assert first + rest == rest;
      ExtendNothing(kind, q, r);
    } else {
      FittingListStep(kind, q, r, rest);
      assert (first + rest)[|first|..] == rest;
    }
  }

  function ExtendAll(r: Rule, kinds: seq<ListKind>, q: Rule): Rule
    decreases kinds
  {
    if kinds == [] then r else ExtendAll(Extend(r, kinds[0], q), kinds[1..], q)
  }

  lemma {:induction false} ListsDecoded(q: Rule, kinds: seq<ListKind>, r: Rule)
    requires Encodable(q)
    requires forall kind :: kind in kinds ==> |RuleItems(q, kind)| <= MAX_ELEMENTS
    ensures DecodeNlri(EncodeLists(q, kinds), r) == Outcome(true, ExtendAll(r, kinds, q))
  {
    hide Encodable, RuleItems, EncodeList, Extend, DecodeComponent;
    if kinds != [] {
      ListDecoded(kinds[0], q, r, EncodeLists(q, kinds[1..]));
      ListsDecoded(q, kinds[1..], Extend(r, kinds[0], q));
    }
  }

  // ----- prefixes -----

  lemma DestinationDecoded(s: Option<Subnet4>, r: Rule, rest: seq<Octet>)
    requires r.destination.None?
    ensures DecodeNlri(EncodePrefix(DESTINATION_PREFIX, s) + rest, r)
         == DecodeNlri(rest, r.(destination := CanonicalOption(s)))
  {
    hide EncodeSubnet, DecodeSubnet, Canonical;
    var b := EncodePrefix(DESTINATION_PREFIX, s) + rest;
    if s.None? {
      assert b == rest;
    } else {
      SubnetRoundTrip(s.value, rest);
      assert b[1..] == EncodeSubnet(s.value) + rest;
      assert b[1 + |EncodeSubnet(s.value)|..] == rest;
    }
  }

  lemma SourceDecoded(s: Option<Subnet4>, r: Rule, rest: seq<Octet>)
    requires r.source.None?
    ensures DecodeNlri(EncodePrefix(SOURCE_PREFIX, s) + rest, r)
         == DecodeNlri(rest, r.(source := CanonicalOption(s)))
  {
    hide EncodeSubnet, DecodeSubnet, Canonical;
    var b := EncodePrefix(SOURCE_PREFIX, s) + rest;
    if s.None? {
      assert b == rest;
    } else {
      SubnetRoundTrip(s.value, rest);
      assert b[1..] == EncodeSubnet(s.value) + rest;
      assert b[1 + |EncodeSubnet(s.value)|..] == rest;
    }
  }

  /** The rule after both prefixes are decoded. */
  function Prefixes(q: Rule): Rule {
    EMPTY_RULE.(destination := CanonicalOption(q.destination), source := CanonicalOption(q.source))
  }

  lemma PrefixesDecoded(q: Rule)
    ensures DecodeNlri(EncodeNlri(q), EMPTY_RULE) == DecodeNlri(EncodeLists(q, WIRE_ORDER), Prefixes(q))
    ensures Normal(Prefixes(q))
  {
    hide EncodeLists, DecodeNlri, EncodePrefix, Canonical;
    var lists := EncodeLists(q, WIRE_ORDER);
    var tail := EncodePrefix(SOURCE_PREFIX, q.source) + lists;
    assert EncodeNlri(q) == EncodePrefix(DESTINATION_PREFIX, q.destination) + tail;
    DestinationDecoded(q.destination, EMPTY_RULE, tail);
    SourceDecoded(q.source, EMPTY_RULE.(destination := CanonicalOption(q.destination)), lists);
    if q.destination.Some? {
      CanonicalTwice(q.destination.value);
    }
    if q.source.Some? {
      CanonicalTwice(q.source.value);
    }
  }

  lemma CanonicalTwice(s: Subnet4)
    ensures Canonical(Canonical(s)) == Canonical(s)
  {
    hide Mask;
    MaskIdempotent(s.address, s.length);
  }

  lemma CarriedIsExtended(q: Rule)
    ensures ExtendAll(Prefixes(q), WIRE_ORDER, q) == Carried(q)
  {
    hide Canonical;
    var r1 := Extend(Prefixes(q), ProtocolList, q);
    var r2 := Extend(r1, DestinationPortList, q);
    var r3 := Extend(r2, SourcePortList, q);
    var r4 := Extend(r3, TcpFlagList, q);
    var r5 := Extend(r4, LengthList, q);
    assert ExtendAll(r5, WIRE_ORDER[5..], q) == ExtendAll(Extend(r5, FragmentList, q), [], q);
    assert WIRE_ORDER[4..][1..] == WIRE_ORDER[5..] && WIRE_ORDER[3..][1..] == WIRE_ORDER[4..];
    assert WIRE_ORDER[2..][1..] == WIRE_ORDER[3..] && WIRE_ORDER[1..][1..] == WIRE_ORDER[2..];
    assert ExtendAll(r3, WIRE_ORDER[3..], q) == ExtendAll(r5, WIRE_ORDER[5..], q);
    assert ExtendAll(r1, WIRE_ORDER[1..], q) == ExtendAll(r3, WIRE_ORDER[3..], q);
  }

  /** Encoding a rule whose lists fit and decoding into an empty rule gives the carried part of the rule. */
  lemma RoundTrip(q: Rule)
    requires Encodable(q) && ListsFit(q)
    ensures DecodeNlri(EncodeNlri(q), EMPTY_RULE) == Outcome(true, Carried(q))
  {
    hide EncodeNlri, EncodeLists, DecodeNlri, RuleItems, Encodable, ExtendAll, Carried, Prefixes;
    PrefixesDecoded(q);
    ListsDecoded(q, WIRE_ORDER, Prefixes(q));
    CarriedIsExtended(q);
  }

  // ----- lists that do not fit -----

  /** Read as a component type, an operator octet of ours names no list and no source prefix. */
  lemma OperatorIsNoListType(w: Item, last: bool)
    ensures var t := OperatorOctet(ItemOperator(w, last)); t != SOURCE_PREFIX && KindOf(t).None?
  {
    var o := ItemOperator(w, last);
    OperatorPacking(o);
    hide OperatorOctet;
    assert ReadOperator(2).greater && ReadOperator(3).greater && ReadOperator(6).greater && ReadOperator(10).greater;
    assert ReadOperator(5).less && ReadOperator(12).less && ReadOperator(9).reserved;
  }

  /** Either refused, or a destination prefix appeared that the rule did not have. */
  predicate Derailed(o: Outcome, r: Rule) {
    !o.ok || (r.destination.None? && o.rule.destination.Some?)
  }

  /** Decoding on from an operator octet never gets back on track. */
  lemma OperatorDerails(w: Item, last: bool, c: seq<Octet>, r: Rule)
    requires c != [] && c[0] == OperatorOctet(ItemOperator(w, last)) && Normal(r)
    ensures Derailed(DecodeNlri(c, r), r)
  {
    hide OperatorOctet, DecodeSubnet, ReadList, Normal;
    OperatorIsNoListType(w, last);
    DecodeComponentNormal(c, r);
    var s := DecodeComponent(c, r);
    if s.ok {
      DecodeNormal(c[s.consumed..], s.rule);
    }
  }

  /** The rule with only the first `n` entries of one list. */
  function Shorten(kind: ListKind, q: Rule, n: nat): Rule
    requires n <= |RuleItems(q, kind)|
  {
    match kind
    case ProtocolList => q.(protocols := q.protocols[..n])
    case DestinationPortList => q.(destinationPorts := q.destinationPorts[..n])
    case SourcePortList => q.(sourcePorts := q.sourcePorts[..n])
    case TcpFlagList => q.(tcpFlags := q.tcpFlags[..n])
    case LengthList => q.(packetLengths := q.packetLengths[..n])
    case FragmentList => q.(fragments := q.fragments[..n])
  }

  lemma ShortenItems(kind: ListKind, q: Rule, n: nat)
    requires n <= |RuleItems(q, kind)| && Encodable(q)
    ensures RuleItems(Shorten(kind, q, n), kind) == RuleItems(q, kind)[..n]
    ensures Encodable(Shorten(kind, q, n))
  {
    hide TcpOctet, FragmentOctet;
  }

  lemma FirstOperator(items: seq<Item>)
    requires items != []
    ensures var b := EncodeItems(items, true); b != [] && b[0] == OperatorOctet(ItemOperator(items[0], |items| == 1))
  {
  }

  /** The part of an oversized list the reader takes: the type and the first hundred entries. */
  function Head(kind: ListKind, items: seq<Item>): seq<Octet>
    requires |items| > MAX_ELEMENTS
  {
    [TypeOf(kind)] + EncodeItems(items[..MAX_ELEMENTS], false)
  }

  /** Of a list that does not fit, the reader takes the first hundred entries, whatever follows them. */
  lemma HeadStep(kind: ListKind, q: Rule, r: Rule, rest: seq<Octet>)
    requires Encodable(q) && |RuleItems(q, kind)| > MAX_ELEMENTS
    ensures var head := Head(kind, RuleItems(q, kind));
            DecodeComponent(head + rest, r) == Step(true, Extend(r, kind, Shorten(kind, q, MAX_ELEMENTS)), |head|)
  {
    hide EncodeItems, ReadList, ApplyElements, Encodable, RuleItems, Extend, Shorten;
    var first := RuleItems(q, kind)[..MAX_ELEMENTS];
    var b := Head(kind, RuleItems(q, kind)) + rest;
    assert b[1..] == EncodeItems(first, false) + rest;
    ItemsRead(first, false, rest, MAX_ELEMENTS);
    ShortenItems(kind, q, MAX_ELEMENTS);
    ItemsApplied(kind, Shorten(kind, q, MAX_ELEMENTS), r);
  }

  /** What follows the head of an oversized list begins with an operator octet. */
  lemma HeadThenOperator(kind: ListKind, items: seq<Item>)
    requires |items| > MAX_ELEMENTS
    ensures var head, b := Head(kind, items), EncodeList(kind, items);
            && |head| < |b| && b[..|head|] == head
            && b[|head|] == OperatorOctet(ItemOperator(items[MAX_ELEMENTS], |items| == MAX_ELEMENTS + 1))
  {
    hide EncodeItems, OperatorOctet, ItemOperator;
    EncodeItemsSplit(items, MAX_ELEMENTS, true);
    FirstOperator(items[MAX_ELEMENTS..]);
  }

  lemma ListDerails(kind: ListKind, q: Rule, r: Rule, rest: seq<Octet>)
    requires Encodable(q) && |RuleItems(q, kind)| > MAX_ELEMENTS && Normal(r)
    ensures Derailed(DecodeNlri(EncodeList(kind, RuleItems(q, kind)) + rest, r), r)
  {
    hide RuleItems, EncodeList, DecodeComponent, Normal, Encodable, Extend, Shorten, OperatorOctet, Head;
    var items, q' := RuleItems(q, kind), Shorten(kind, q, MAX_ELEMENTS);
    var head, b := Head(kind, items), EncodeList(kind, items) + rest;
    HeadThenOperator(kind, items);
    var c := b[|head|..];
    assert b == head + c;
    HeadStep(kind, q, r, c);
    HeadNotEmpty(kind, items);
    ShortenItems(kind, q, MAX_ELEMENTS);
    ExtendNormal(kind, q', r);
    OperatorDerails(items[MAX_ELEMENTS], |items| == MAX_ELEMENTS + 1, c, Extend(r, kind, q'));
  }

  lemma HeadNotEmpty(kind: ListKind, items: seq<Item>)
    requires |items| > MAX_ELEMENTS
    ensures Head(kind, items) != []
  {
  }

  lemma {:induction false} ListsDerail(q: Rule, kinds: seq<ListKind>, r: Rule)
    requires Encodable(q) && Normal(r)
    requires exists kind :: kind in kinds && |RuleItems(q, kind)| > MAX_ELEMENTS
    ensures Derailed(DecodeNlri(EncodeLists(q, kinds), r), r)
  {
    hide RuleItems, EncodeList, DecodeComponent, Normal, Encodable, Extend;
    var items, rest := RuleItems(q, kinds[0]), EncodeLists(q, kinds[1..]);
    if |items| > MAX_ELEMENTS {
      ListDerails(kinds[0], q, r, rest);
    } else {
      ListDecoded(kinds[0], q, r, rest);
      ExtendNormal(kinds[0], q, r);
      ListsDerail(q, kinds[1..], Extend(r, kinds[0], q));
    }
  }

  lemma EveryKindOnWire(kind: ListKind)
    ensures kind in WIRE_ORDER
  {
    assert WIRE_ORDER[0] == ProtocolList && WIRE_ORDER[1] == DestinationPortList && WIRE_ORDER[2] == SourcePortList;
    assert WIRE_ORDER[3] == TcpFlagList && WIRE_ORDER[4] == LengthList && WIRE_ORDER[5] == FragmentList;
  }

  lemma UnfitRuleDerails(q: Rule)
    requires Encodable(q) && !ListsFit(q)
    ensures Derailed(DecodeNlri(EncodeNlri(q), EMPTY_RULE), Prefixes(q))
  {
    hide EncodeNlri, EncodeLists, DecodeNlri, RuleItems, Encodable, Canonical;
    var kind: ListKind :| |RuleItems(q, kind)| > MAX_ELEMENTS;
    EveryKindOnWire(kind);
    PrefixesDecoded(q);
    ListsDerail(q, WIRE_ORDER, Prefixes(q));
  }

  /**
    * The exact domain of the round trip: for every rule the encoder takes, decoding gives back the carried part if
    * and only if no list has more than a hundred entries.
    */
  lemma RoundTripExactly(q: Rule)
    requires Encodable(q)
    ensures DecodeNlri(EncodeNlri(q), EMPTY_RULE) == Outcome(true, Carried(q)) <==> ListsFit(q)
  {
    if ListsFit(q) {
      RoundTrip(q);
    } else {
      hide EncodeNlri, DecodeNlri, Encodable, Canonical, ListsFit;
      UnfitRuleDerails(q);
    }
  }

  /** Whatever octets a rule was decoded from, encoding it and decoding again returns it unchanged. */
  lemma DecodedRuleRoundTrips(b: seq<Octet>)
    ensures var q := DecodeNlri(b, EMPTY_RULE).rule;
            && Encodable(q) && Carried(q) == q
            && (ListsFit(q) <==> DecodeNlri(EncodeNlri(q), EMPTY_RULE) == Outcome(true, q))
  {
    hide EncodeNlri, DecodeNlri, Canonical, RuleItems;
    DecodeNormal(b, EMPTY_RULE);
    RoundTripExactly(DecodeNlri(b, EMPTY_RULE).rule);
  }

  // ----- the size of an encoding -----

  lemma {:induction false} ItemsSize(items: seq<Item>, width: nat)
    requires forall w :: w in items ==> w.wide == (width == 3)
    requires width == 2 || width == 3
    ensures |EncodeItems(items, true)| == width * |items|
  {
    hide OperatorOctet;
    if items != [] {
      ItemsSize(items[1..], width);
    }
  }

  lemma ListSize(r: Rule, kind: ListKind)
    requires |RuleItems(r, kind)| <= MAX_ELEMENTS
    ensures |ListBytes(r, kind)| <= if kind in {DestinationPortList, SourcePortList, LengthList} then 301 else 201
  {
    hide EncodeItems, TcpOctet, FragmentOctet;
    ItemsSize(RuleItems(r, kind), if kind in {DestinationPortList, SourcePortList, LengthList} then 3 else 2);
  }

  /** Rules the decoder can read back always fit the encoder's buffer. */
  lemma FittingListsFitBuffer(r: Rule)
    requires ListsFit(r)
    ensures |EncodeNlri(r)| <= 1518 <= NLRI_BUFFER_SIZE
  {
    hide ListBytes, EncodeLists, EncodeSubnet, RuleItems;
    ListsInOrder(r);
    ListSize(r, ProtocolList);
    ListSize(r, DestinationPortList);
    ListSize(r, SourcePortList);
    ListSize(r, TcpFlagList);
    ListSize(r, LengthList);
    ListSize(r, FragmentList);
    if r.destination.Some? {
      SubnetRoundTrip(r.destination.value, []);
    }
    if r.source.Some? {
      SubnetRoundTrip(r.source.value, []);
    }
  }
}
