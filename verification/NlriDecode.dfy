/** Parsing a FlowSpec NLRI value into a rule, component by component. */
module NlriDecode {
  import opened Octets
  import opened Prefix
  import opened FlowSpecRule
  import opened NlriWire

  /** A scanned list entry. The reader leaves `length` and `one` at zero for two-octet values. */
  datatype Element = Element(one: Octet, two: Word16, length: nat)

  datatype ListResult = ListRefused | ListRead(elements: seq<Element>, consumed: nat)

  /** The reader gives up looking for an end-of-list bit after this many entries. */
  const MAX_ELEMENTS: nat := 100

  /** What the reader makes of the next entry: its operator must be plain and one or two octets must follow. */
  predicate Acceptable(o: Operator) {
    !o.less && !o.greater && !o.andBit && (o.ValueLength() == 1 || o.ValueLength() == 2)
  }

  function ElementAt(b: seq<Octet>, o: Operator): Element
    requires Acceptable(o) && |b| >= 1 + o.ValueLength()
  {
    if o.ValueLength() == 1 then Element(b[1], b[1], 1) else Element(0, ToWord16(b[1], b[2]), 0)
  }

  /** A list entry with its size on the wire and whether its operator ends the list. */
  datatype Entry = Entry(element: Element, size: nat, last: bool)

  function ReadEntry(b: seq<Octet>): (e: Option<Entry>)
    ensures e.Some? ==> 2 <= e.value.size <= |b|
  {
    if |b| < 1 then None
    else
      var o := ReadOperator(b[0]);
      if !Acceptable(o) || |b| < 1 + o.ValueLength() then None
      else Some(Entry(ElementAt(b, o), 1 + o.ValueLength(), o.endOfList))
  }

  /** Reads entries until the end-of-list bit, or until `budget` entries have been read. */
  function ReadList(b: seq<Octet>, budget: nat): (r: ListResult)
    ensures r.ListRead? && budget > 0 ==> 2 <= r.consumed <= |b|
    ensures r.ListRead? && budget > 0 ==> r.elements != []
    decreases |b|
  {
    if budget == 0 then ListRead([], 0)
    else
      match ReadEntry(b)
      case None => ListRefused
      case Some(e) =>
        if e.last then ListRead([e.element], e.size)
        else
          match ReadList(b[e.size..], budget - 1)
          case ListRefused => ListRefused
          case ListRead(es, n) => ListRead([e.element] + es, e.size + n)
  }

  /** Whether decoding may go on, and the rule as left behind; a refusal keeps what was added before it. */
  datatype Outcome = Outcome(ok: bool, rule: Rule)

  function ApplyElement(kind: ListKind, e: Element, r: Rule): Outcome {
    match kind
    case ProtocolList =>
      if e.two > 255 then Outcome(false, r) else Outcome(true, r.(protocols := r.protocols + [e.two]))
    case DestinationPortList => Outcome(true, r.(destinationPorts := r.destinationPorts + [e.two]))
    case SourcePortList => Outcome(true, r.(sourcePorts := r.sourcePorts + [e.two]))
    case TcpFlagList =>
      if e.length != 1 then Outcome(false, r)
      else
        var f := ReadTcpOctet(e.one);
        Outcome(true, if f.AnyFlag() then r.(tcpFlags := r.tcpFlags + [f]) else r)
    case LengthList => Outcome(true, r.(packetLengths := r.packetLengths + [e.two]))
    case FragmentList =>
      if e.length != 1 then Outcome(false, r)
      else Outcome(true, r.(fragments := r.fragments + ReadFragmentOctet(e.one)))
  }

  function ApplyElements(kind: ListKind, es: seq<Element>, r: Rule): Outcome {
    if es == [] then Outcome(true, r)
    else
      var s := ApplyElement(kind, es[0], r);
      if s.ok then ApplyElements(kind, es[1..], s.rule) else s
  }

  function KindOf(code: Octet): Option<ListKind> {
    if code == 3 then Some(ProtocolList)
    else if code == 5 then Some(DestinationPortList)
    else if code == 6 then Some(SourcePortList)
    else if code == 9 then Some(TcpFlagList)
    else if code == 10 then Some(LengthList)
    else if code == 12 then Some(FragmentList)
    else None
  }

  /** One pass of the decoder's loop. */
  datatype Step = Step(ok: bool, rule: Rule, consumed: nat)

  /** Decodes the component at the start of `b`: at least two octets, never more than there are. */
  function DecodeComponent(b: seq<Octet>, r: Rule): (s: Step)
    requires b != []
    ensures s.ok ==> 2 <= s.consumed <= |b|
  {
    if b[0] == DESTINATION_PREFIX || b[0] == SOURCE_PREFIX then
      var used := if b[0] == DESTINATION_PREFIX then r.destination.Some? else r.source.Some?;
      if used || |b| < 2 then Step(false, r, 0)
      else
        match DecodeSubnet(b[1..])
        case None => Step(false, r, 0)
        case Some((s, n)) =>
          Step(true, if b[0] == DESTINATION_PREFIX then r.(destination := Some(s)) else r.(source := Some(s)), 1 + n)
    else
      match KindOf(b[0])
      case None => Step(false, r, 0)
      case Some(kind) =>
        match ReadList(b[1..], MAX_ELEMENTS)
        case ListRefused => Step(false, r, 0)
        case ListRead(es, n) =>
          var o := ApplyElements(kind, es, r);
          Step(o.ok, o.rule, 1 + n)
  }

  function DecodeNlri(b: seq<Octet>, r: Rule): Outcome
    decreases |b|
  {
    if b == [] then Outcome(true, r)
    else
      var s := DecodeComponent(b, r);
      if s.ok then DecodeNlri(b[s.consumed..], s.rule) else Outcome(false, s.rule)
  }

  // ----- the loops of the program -----

  method ScanEntry(data: seq<Octet>, pos: nat) returns (entry: Option<Entry>)
    requires pos <= |data|
    ensures entry == ReadEntry(data[pos..])
  {
    hide ReadOperator, ElementAt;
    if |data| - pos < 1 {
      return None;
    }
    var o := ReadOperator(data[pos]);
    if o.less || o.greater {
      return None;
    }
    if o.andBit {
      return None;
    }
    if o.ValueLength() != 2 && o.ValueLength() != 1 {
      return None;
    }
    if |data| - pos < 1 + o.ValueLength() {
      return None;
    }
    return Some(Entry(ElementAt(data[pos..], o), 1 + o.ValueLength(), o.endOfList));
  }

  function Prepend(elements: seq<Element>, size: nat, tail: ListResult): ListResult {
    match tail
    case ListRefused => ListRefused
    case ListRead(es, n) => ListRead(elements + es, size + n)
  }

  /** One entry at a time. */
  lemma ReadListStep(b: seq<Octet>, budget: nat)
    ensures budget == 0 ==> ReadList(b, budget) == ListRead([], 0)
    ensures budget > 0 ==>
              ReadList(b, budget)
              == match ReadEntry(b)
                 case None => ListRefused
                 case Some(e) => if e.last then ListRead([e.element], e.size)
                                 else Prepend([e.element], e.size, ReadList(b[e.size..], budget - 1))
  {
    hide ReadEntry;
  }

  /** Scans one operator/value list with a moving cursor. */
  method ScanList(data: seq<Octet>, start: nat) returns (ok: bool, elements: seq<Element>, consumed: nat)
    requires start <= |data|
    ensures ok <==> ReadList(data[start..], MAX_ELEMENTS).ListRead?
    ensures ok ==> ReadList(data[start..], MAX_ELEMENTS) == ListRead(elements, consumed)
  {
    hide ReadEntry, ReadList;
    var pos := start;
    elements, consumed := [], 0;
    ghost var whole := ReadList(data[start..], MAX_ELEMENTS);
    for i := 0 to MAX_ELEMENTS
      invariant start <= pos <= |data|
      invariant whole == Prepend(elements, pos - start, ReadList(data[pos..], MAX_ELEMENTS - i))
    {
      ReadListStep(data[pos..], MAX_ELEMENTS - i);
      var entry := ScanEntry(data, pos);
      if entry.None? {
        return false, [], 0;
      }
      var e := entry.value;
      assert data[pos..][e.size..] == data[pos + e.size..];
      elements := elements + [e.element];
      pos := pos + e.size;
      if e.last {
        return true, elements, pos - start;
      }
    }
    ReadListStep(data[pos..], 0);
    return true, elements, pos - start;
  }

  /** Pushes the scanned entries into the rule, stopping at the first one the component type refuses. */
  method StoreElements(kind: ListKind, elements: seq<Element>, rule: RuleObject) returns (ok: bool)
    modifies rule
    ensures Outcome(ok, rule.Value()) == ApplyElements(kind, elements, old(rule.Value()))
  {
    hide ReadTcpOctet;
    for i := 0 to |elements|
      invariant ApplyElements(kind, elements[i..], rule.Value()) == ApplyElements(kind, elements, old(rule.Value()))
    {
      var e := elements[i];
      ghost var before := rule.Value();
      assert elements[i..][0] == e && elements[i..][1..] == elements[i + 1..];
      match kind {
        case ProtocolList =>
          if e.two > 255 {
            return false;
          }
          rule.AddProtocol(e.two);
        case DestinationPortList => rule.AddDestinationPort(e.two);
        case SourcePortList => rule.AddSourcePort(e.two);
        case TcpFlagList =>
          if e.length != 1 {
            return false;
          }
          var f := ReadTcpOctet(e.one);
          if f.AnyFlag() {
            rule.AddTcpFlagset(f);
          }
        case LengthList => rule.AddPacketLength(e.two);
        case FragmentList =>
          if e.length != 1 {
            return false;
          }
          StoreFragments(e.one, rule);
      }
      assert ApplyElement(kind, e, before) == Outcome(true, rule.Value());
    }
    return true;
  }

  function When(present: bool, f: Fragment): seq<Fragment> {
    if present then [f] else []
  }

  lemma FragmentsInOrder(octet: Octet)
    ensures var v := Unpack(octet, 8);
            ReadFragmentOctet(octet) == When(v[3], LastFragment) + When(v[2], FirstFragment) + When(v[1], IsFragment)
                                        + When(v[0], DontFragment) + When(!v[3] && !v[2] && !v[1] && !v[0], NotFragment)
  {
    hide Unpack;
  }

  /** Adds a flag to those pushed onto `base` so far. */
  method AddFragmentIf(present: bool, f: Fragment, rule: RuleObject, ghost base: seq<Fragment>, ghost pushed: seq<Fragment>)
    requires rule.fragments == base + pushed
    modifies rule
    ensures rule.Value() == old(rule.Value()).(fragments := base + (pushed + When(present, f)))
  {
    if present {
      rule.AddFragment(f);
    }
  }

  method StoreFragments(octet: Octet, rule: RuleObject)
    modifies rule
    ensures rule.Value() == old(rule.Value()).(fragments := old(rule.fragments) + ReadFragmentOctet(octet))
  {
    hide Unpack, When, ReadFragmentOctet;
    var v := Unpack(octet, 8);
    ghost var base := rule.fragments;
    ghost var last := When(v[3], LastFragment);
    ghost var first := last + When(v[2], FirstFragment);
    ghost var inner := first + When(v[1], IsFragment);
    AddFragmentIf(v[3], LastFragment, rule, base, []);
    AddFragmentIf(v[2], FirstFragment, rule, base, last);
    AddFragmentIf(v[1], IsFragment, rule, base, first);
    AddFragmentIf(v[0], DontFragment, rule, base, inner);
    AddFragmentIf(!v[3] && !v[2] && !v[1] && !v[0], NotFragment, rule, base, inner + When(v[0], DontFragment));
    FragmentsInOrder(octet);
  }

  /** One pass of the decoder's loop: the component at the cursor goes into the rule, and its size comes back. */
  method DecodeNext(data: seq<Octet>, pos: nat, rule: RuleObject) returns (ok: bool, n: nat)
    requires pos < |data|
    modifies rule
    ensures Step(ok, rule.Value(), n) == DecodeComponent(data[pos..], old(rule.Value()))
  {
    hide DecodeSubnet, ReadList, ApplyElements, KindOf;
    var code := data[pos];
    assert data[pos..][1..] == data[pos + 1..];
    if code == SOURCE_PREFIX || code == DESTINATION_PREFIX {
      if code == SOURCE_PREFIX && rule.source.Some? {
        return false, 0;
      }
      if code == DESTINATION_PREFIX && rule.destination.Some? {
        return false, 0;
      }
      if |data| - pos < 2 {
        return false, 0;
      }
      var decoded := DecodeSubnet(data[pos + 1..]);
      if decoded.None? {
        return false, 0;
      }
      if code == SOURCE_PREFIX {
        rule.SetSource(decoded.value.0);
      } else {
        rule.SetDestination(decoded.value.0);
      }
      return true, 1 + decoded.value.1;
    }
    var kind := KindOf(code);
    if kind.None? {
      return false, 0;
    }
    var scanned, elements, size := ScanList(data, pos + 1);
    if !scanned {
      return false, 0;
    }
    ok := StoreElements(kind.value, elements, rule);
    return ok, 1 + size;
  }

  /**
    * The decoder: a cursor over the octets and a rule changed in place. It terminates on every input, and when it
    * accepts, the cursor stands exactly at the end, so `unparsed` (the "did not parse whole packet" warning) is
    * never raised.
    */
  method DecodeNlriValue(data: seq<Octet>, rule: RuleObject) returns (ok: bool, unparsed: bool)
    modifies rule
    ensures Outcome(ok, rule.Value()) == DecodeNlri(data, old(rule.Value()))
    ensures !unparsed
  {
    hide DecodeComponent;
    unparsed := false;
    var pos := 0;
    assert data[0..] == data;
    while pos < |data|
      invariant 0 <= pos <= |data|
      invariant DecodeNlri(data[pos..], rule.Value()) == DecodeNlri(data, old(rule.Value()))
    {
      var decoded, n := DecodeNext(data, pos, rule);
      if !decoded {
        return false, false;
      }
      assert data[pos..][n..] == data[pos + n..];
      pos := pos + n;
    }
    if pos != |data| {
      unparsed := true;
    }
    assert data[pos..] == [];
    return true, unparsed;
  }

  // ----- decoding is compositional -----

  lemma SameEntry(b: seq<Octet>, c: seq<Octet>)
    requires ReadEntry(b).Some?
    ensures ReadEntry(b + c) == ReadEntry(b)
  {
    hide ReadOperator;
    assert (b + c)[0] == b[0];
  }

  lemma {:induction false} ReadListPrefix(b: seq<Octet>, c: seq<Octet>, budget: nat)
    requires ReadList(b, budget).ListRead?
    ensures ReadList(b + c, budget) == ReadList(b, budget)
  {
    hide ReadEntry;
    if budget > 0 {
      var e := ReadEntry(b).value;
      SameEntry(b, c);
      if !e.last {
        ReadListPrefix(b[e.size..], c, budget - 1);
        assert (b + c)[e.size..] == b[e.size..] + c;
      }
    }
  }

  lemma DecodeComponentPrefix(b: seq<Octet>, c: seq<Octet>, r: Rule)
    requires b != [] && DecodeComponent(b, r).ok
    ensures DecodeComponent(b + c, r) == DecodeComponent(b, r)
  {
    hide DecodeSubnet, ReadList, ApplyElements;
    assert (b + c)[1..] == b[1..] + c;
    if b[0] == DESTINATION_PREFIX || b[0] == SOURCE_PREFIX {
      DecodedSubnetIsCanonical(b[1..], c);
    } else {
      ReadListPrefix(b[1..], c, MAX_ELEMENTS);
    }
  }

  /** Whatever follows an accepted input is decoded from exactly the state that input produced. */
  lemma {:induction false} DecodeComposes(a: seq<Octet>, b: seq<Octet>, r: Rule)
    requires DecodeNlri(a, r).ok
    ensures DecodeNlri(a + b, r) == DecodeNlri(b, DecodeNlri(a, r).rule)
    decreases |a|
  {
    hide DecodeComponent;
    if a == [] {
      assert a + b == b;
    } else {
      var s := DecodeComponent(a, r);
      DecodeComponentPrefix(a, b, r);
      DecodeComposes(a[s.consumed..], b, s.rule);
      assert (a + b)[s.consumed..] == a[s.consumed..] + b;
    }
  }

  // ----- every decoded rule can be encoded again -----

  /** Prefixes masked to their length and no empty flagset: what the encoder takes and the round trip keeps. */
  predicate Normal(r: Rule) {
    && (r.destination.Some? ==> Canonical(r.destination.value) == r.destination.value)
    && (r.source.Some? ==> Canonical(r.source.value) == r.source.value)
    && Encodable(r)
  }

  /** The fields the NLRI does not carry. */
  predicate SameUncarried(a: Rule, b: Rule) {
    && a.destination6 == b.destination6 && a.source6 == b.source6 && a.vlans == b.vlans && a.nextHops == b.nextHops
    && a.matchTcpFlags == b.matchTcpFlags && a.matchFragments == b.matchFragments && a.action == b.action
  }

  lemma ApplyElementNormal(kind: ListKind, e: Element, r: Rule)
    requires Normal(r)
    ensures var o := ApplyElement(kind, e, r);
            && Normal(o.rule) && SameUncarried(o.rule, r)
            && o.rule.destination == r.destination && o.rule.source == r.source
  {
    hide ReadTcpOctet, ReadFragmentOctet, Canonical;
  }

  lemma {:induction false} ApplyElementsNormal(kind: ListKind, es: seq<Element>, r: Rule)
    requires Normal(r)
    ensures var o := ApplyElements(kind, es, r);
            && Normal(o.rule) && SameUncarried(o.rule, r)
            && o.rule.destination == r.destination && o.rule.source == r.source
  {
    hide ApplyElement, Normal;
    if es != [] {
      ApplyElementNormal(kind, es[0], r);
      var s := ApplyElement(kind, es[0], r);
      if s.ok {
        ApplyElementsNormal(kind, es[1..], s.rule);
      }
    }
  }

  /** A decoding step keeps the rule normal, never touches uncarried fields and never unsets a prefix. */
  lemma DecodeComponentNormal(b: seq<Octet>, r: Rule)
    requires b != [] && Normal(r)
    ensures var s := DecodeComponent(b, r);
            && Normal(s.rule) && SameUncarried(s.rule, r)
            && (r.destination.Some? ==> s.rule.destination == r.destination)
            && (r.source.Some? ==> s.rule.source == r.source)
  {
    hide DecodeSubnet, ReadList, ApplyElements, Canonical;
    if b[0] == DESTINATION_PREFIX || b[0] == SOURCE_PREFIX {
      if DecodeSubnet(b[1..]).Some? {
        DecodedSubnetIsCanonical(b[1..], []);
      }
    } else if KindOf(b[0]).Some? && ReadList(b[1..], MAX_ELEMENTS).ListRead? {
      ApplyElementsNormal(KindOf(b[0]).value, ReadList(b[1..], MAX_ELEMENTS).elements, r);
    }
  }

  /** Decoding arbitrary octets, accepted or refused, keeps the rule normal. */
  lemma {:induction false} DecodeNormal(b: seq<Octet>, r: Rule)
    requires Normal(r)
    ensures var o := DecodeNlri(b, r);
            && Normal(o.rule) && SameUncarried(o.rule, r)
            && (r.destination.Some? ==> o.rule.destination == r.destination)
            && (r.source.Some? ==> o.rule.source == r.source)
    decreases |b|
  {
    hide DecodeComponent, Normal;
    if b != [] {
      var s := DecodeComponent(b, r);
      DecodeComponentNormal(b, r);
      if s.ok {
        DecodeNormal(b[s.consumed..], s.rule);
      }
    }
  }
}
