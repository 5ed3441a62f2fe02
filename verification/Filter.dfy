/** What a rule means: the packets it matches. */
module Filter {
  import opened Octets
  import opened Prefix
  import opened FlowSpecRule
  import opened NlriWire
  import opened NlriDecode
  import opened NlriRoundTrip

  /** The packet fields rules look at; `protocol`, `vlan` and both lengths are wider than the rule's entries. */
  datatype Packet = Packet(
    sourceIp: Word32,
    destinationIp: Word32,
    sourceIp6: seq<Octet>,
    destinationIp6: seq<Octet>,
    sourcePort: Word16,
    destinationPort: Word16,
    protocol: Word32,
    vlan: Word32,
    length: nat,
    ipLength: nat,
    tcpFlags: Octet,
    fragmented: bool,
    dontFragment: bool)

  /** The largest packet length that is compared at all; it lies above the largest 16-bit value. */
  const LENGTH_LIMIT: nat := 65635

  // ----- meaning -----

  predicate InList<T(==)>(x: T, xs: seq<T>) {
    xs == [] || x in xs
  }

  predicate ProtocolMatches(p: Packet, r: Rule) {
    r.protocols == [] || (p.protocol <= 255 && p.protocol in r.protocols)
  }

  /** An IPv4 prefix matches the addresses that agree with it bit for bit; an IPv6 prefix only a single address. */
  ghost predicate AddressMatches(s4: Option<Subnet4>, s6: Option<Subnet6>, ip: Word32, ip6: seq<Octet>) {
    match s4
    case Some(s) => AgreeOn(ip, s.address, s.length)
    case None =>
      match s6
      case Some(s) => s.length == 128 && s.address == ip6
      case None => true
  }

  predicate FragmentMatches(p: Packet, f: Fragment) {
    (f == DontFragment && p.dontFragment) || (f == IsFragment && p.fragmented)
  }

  predicate FragmentsMatch(p: Packet, r: Rule) {
    r.fragments == [] || exists i :: 0 <= i < |r.fragments| && FragmentMatches(p, r.fragments[i])
  }

  predicate LengthsMatch(p: Packet, r: Rule) {
    || r.packetLengths == []
    || (p.length <= LENGTH_LIMIT
        && (p.length % 0x1_0000 in r.packetLengths || p.ipLength % 0x1_0000 in r.packetLengths))
  }

  predicate TcpFlagsMatch(p: Packet, r: Rule) {
    InList(ReadTcpOctet(p.tcpFlags), r.tcpFlags)
  }

  predicate VlanMatches(p: Packet, r: Rule) {
    r.vlans == [] || p.vlan in r.vlans
  }

  ghost predicate Matches(p: Packet, r: Rule) {
    && InList(p.sourcePort, r.sourcePorts) && InList(p.destinationPort, r.destinationPorts)
    && AddressMatches(r.source, r.source6, p.sourceIp, p.sourceIp6)
    && AddressMatches(r.destination, r.destination6, p.destinationIp, p.destinationIp6)
    && LengthsMatch(p, r) && TcpFlagsMatch(p, r) && FragmentsMatch(p, r) && ProtocolMatches(p, r)
    && VlanMatches(p, r)
  }

  // ----- prefixes -----

  /** Two addresses have the same masked form exactly when they agree on the first `length` bits. */
  lemma MaskEqualIffAgree(a: Word32, b: Word32, length: nat)
    requires length <= 32
    ensures Mask(a, length) == Mask(b, length) <==> AgreeOn(a, b, length)
  {
    hide Mask, ShiftRight, ShiftLeft;
    if AgreeOn(a, b, length) {
      MaskDependsOnPrefixBits(a, b, length);
    }
    if Mask(a, length) == Mask(b, length) {
      var k := 32 - length;
      MaskClearsLowBits(a, length);
      MaskClearsLowBits(b, length);
      ShiftUndone(ShiftRight(a, k), k);
      ShiftUndone(ShiftRight(b, k), k);
      forall i | 0 <= i < length ensures AddressBit(a, i) == AddressBit(b, i) {
        ShiftRightAdd(a, k, 31 - i - k);
        ShiftRightAdd(b, k, 31 - i - k);
      }
    }
  }

  /** Masking a prefix does not change which addresses lie in it. */
  lemma CanonicalMeansTheSame(s: Subnet4, ip: Word32)
    ensures AgreeOn(ip, Canonical(s).address, s.length) <==> AgreeOn(ip, s.address, s.length)
  {
    hide Mask, AgreeOn;
    MaskIdempotent(s.address, s.length);
    MaskEqualIffAgree(ip, s.address, s.length);
    MaskEqualIffAgree(ip, Canonical(s).address, s.length);
  }

  lemma WholeAddress(a: Word32)
    ensures Mask(a, 32) == a
  {
    hide Mask;
    MaskClearsLowBits(a, 32);
    assert ClearLow(a, 0) == a;
  }

  /** Membership in a prefix: equality for host prefixes, otherwise a lookup in a one-entry prefix tree. */
  method PrefixContains(s: Subnet4, ip: Word32) returns (inside: bool)
    ensures inside <==> AgreeOn(ip, s.address, s.length)
  {
    hide Mask, AgreeOn;
    MaskEqualIffAgree(ip, s.address, s.length);
    if s.length == 32 {
      WholeAddress(ip);
      WholeAddress(s.address);
      return Subnet(ip, 32) == s;
    }
    return Mask(ip, s.length) == Mask(s.address, s.length);
  }

  // ----- the filter of the program -----

  method AddressFilter(s4: Option<Subnet4>, s6: Option<Subnet6>, ip: Word32, ip6: seq<Octet>) returns (matched: bool)
    ensures matched <==> AddressMatches(s4, s6, ip, ip6)
  {
    hide AgreeOn;
    matched := false;
    if s4.Some? {
      matched := PrefixContains(s4.value, ip);
    } else if s6.Some? {
      if s6.value.length == 128 {
        if s6.value == Subnet6(ip6, 128) {
          matched := true;
        }
      }
    } else {
      matched := true;
    }
  }

  method FragmentFilter(p: Packet, r: Rule) returns (matched: bool)
    ensures matched <==> FragmentsMatch(p, r)
  {
    matched := false;
    if |r.fragments| == 0 {
      matched := true;
    } else {
      for i := 0 to |r.fragments|
        invariant matched <==> exists k :: 0 <= k < i && FragmentMatches(p, r.fragments[k])
      {
        if r.fragments[i] == DontFragment {
          if p.dontFragment {
            matched := true;
          }
        } else if r.fragments[i] == IsFragment {
          if p.fragmented {
            matched := true;
          }
        }
        assert FragmentMatches(p, r.fragments[i]) ==> matched;
      }
    }
  }

  method LengthFilter(p: Packet, r: Rule) returns (matched: bool)
    ensures matched <==> LengthsMatch(p, r)
  {
    matched := false;
    if |r.packetLengths| == 0 {
      matched := true;
    } else if p.length <= LENGTH_LIMIT {
      if p.length % 0x1_0000 in r.packetLengths {
        matched := true;
      }
      if p.ipLength % 0x1_0000 in r.packetLengths {
        matched := true;
      }
    }
  }

  /** One match flag per field, all of which must hold in the end. */
  method FilterByRule(p: Packet, r: Rule) returns (matches: bool)
    ensures matches <==> Matches(p, r)
  {
    hide AddressMatches, FragmentsMatch, LengthsMatch, ReadTcpOctet;
    var sourcePort, destinationPort, protocol, tcpFlags, vlan := false, false, false, false, false;
    if |r.sourcePorts| == 0 || p.sourcePort in r.sourcePorts {
      sourcePort := true;
    }
    if |r.destinationPorts| == 0 || p.destinationPort in r.destinationPorts {
      destinationPort := true;
    }
    if |r.protocols| == 0 {
      protocol := true;
    } else if p.protocol <= 255 {
      if p.protocol in r.protocols {
        protocol := true;
      }
    }
    var source := AddressFilter(r.source, r.source6, p.sourceIp, p.sourceIp6);
    var destination := AddressFilter(r.destination, r.destination6, p.destinationIp, p.destinationIp6);
    var fragments := FragmentFilter(p, r);
    if |r.tcpFlags| == 0 || ReadTcpOctet(p.tcpFlags) in r.tcpFlags {
      tcpFlags := true;
    }
    var lengths := LengthFilter(p, r);
    if |r.vlans| == 0 || p.vlan in r.vlans {
      vlan := true;
    }
    return sourcePort && destinationPort && source && destination && lengths && tcpFlags && fragments && protocol && vlan;
  }

  ghost predicate MatchesAny(p: Packet, rules: seq<Rule>) {
    exists i :: 0 <= i < |rules| && Matches(p, rules[i])
  }

  method FilterByRules(p: Packet, rules: seq<Rule>) returns (matches: bool)
    ensures matches <==> MatchesAny(p, rules)
  {
    hide Matches;
    for i := 0 to |rules|
      invariant forall k :: 0 <= k < i ==> !Matches(p, rules[k])
    {
      var matched := FilterByRule(p, rules[i]);
      if matched {
        return true;
      }
    }
    return false;
  }

  // ----- the codec preserves meaning -----

  /** The tests of a rule that the NLRI does not carry: VLANs, and IPv6 prefixes where no IPv4 prefix takes precedence. */
  ghost predicate UncarriedTests(p: Packet, r: Rule) {
    && VlanMatches(p, r)
    && (r.source.None? ==> AddressMatches(None, r.source6, p.sourceIp, p.sourceIp6))
    && (r.destination.None? ==> AddressMatches(None, r.destination6, p.destinationIp, p.destinationIp6))
  }

  lemma AddressCarried(s4: Option<Subnet4>, s6: Option<Subnet6>, ip: Word32, ip6: seq<Octet>)
    ensures AddressMatches(s4, s6, ip, ip6)
       <==> AddressMatches(CanonicalOption(s4), None, ip, ip6) && (s4.None? ==> AddressMatches(None, s6, ip, ip6))
  {
    hide AgreeOn, Mask;
    if s4.Some? {
      CanonicalMeansTheSame(s4.value, ip);
    }
  }

  /**
    * A packet matches a rule exactly when it matches the rule decoded from its encoding and passes the tests the
    * NLRI drops. So decoding never narrows a rule, and it keeps the meaning of rules without VLANs and IPv6 prefixes.
    */
  lemma CodecPreservesMeaning(p: Packet, q: Rule)
    requires Encodable(q) && ListsFit(q)
    ensures var decoded := DecodeNlri(EncodeNlri(q), EMPTY_RULE);
            && decoded.ok
            && (Matches(p, q) <==> Matches(p, decoded.rule) && UncarriedTests(p, q))
  {
    hide EncodeNlri, DecodeNlri, Encodable, ListsFit, AddressMatches, CanonicalOption, ReadTcpOctet, FragmentMatches;
    RoundTrip(q);
    AddressCarried(q.source, q.source6, p.sourceIp, p.sourceIp6);
    AddressCarried(q.destination, q.destination6, p.destinationIp, p.destinationIp6);
  }

  lemma CodecKeepsCarriedMeaning(p: Packet, q: Rule)
    requires Encodable(q) && ListsFit(q)
    requires q.vlans == [] && q.source6.None? && q.destination6.None?
    ensures Matches(p, DecodeNlri(EncodeNlri(q), EMPTY_RULE).rule) <==> Matches(p, q)
  {
    hide EncodeNlri, DecodeNlri, Encodable, ListsFit, Matches;
    CodecPreservesMeaning(p, q);
  }

  /** Rules the program calls equal match the same packets, although it ignores some fields when it compares them. */
  lemma SameRuleSameMeaning(p: Packet, a: Rule, b: Rule)
    requires SameRule(a, b)
    ensures Matches(p, a) <==> Matches(p, b)
  {
    hide AddressMatches, ReadTcpOctet;
  }

  // ----- port rules -----

  function OnPorts(base: Rule, ports: seq<Word16>): Rule {
    base.(destinationPorts := ports)
  }

  function PortRules(base: Rule, ports: seq<Word16>): (rules: seq<Rule>) {
    seq(|ports|, i requires 0 <= i < |ports| => OnPorts(base, [ports[i]]))
  }

  lemma OnPortsMeaning(p: Packet, base: Rule, ports: seq<Word16>)
    ensures Matches(p, OnPorts(base, ports)) <==> Matches(p, OnPorts(base, [])) && InList(p.destinationPort, ports)
  {
    hide AddressMatches, FragmentMatches, ReadTcpOctet;
  }

  /** One rule per port matches the same packets as one rule with all the ports. */
  lemma PortRulesCompose(p: Packet, base: Rule, ports: seq<Word16>)
    requires ports != []
    ensures MatchesAny(p, PortRules(base, ports)) <==> Matches(p, OnPorts(base, ports))
  {
    hide Matches;
    var rules := PortRules(base, ports);
    OnPortsMeaning(p, base, ports);
    forall i | 0 <= i < |ports|
      ensures Matches(p, rules[i]) <==> Matches(p, OnPorts(base, [])) && p.destinationPort == ports[i]
    {
      OnPortsMeaning(p, base, [ports[i]]);
    }
    if p.destinationPort in ports {
      var i :| 0 <= i < |ports| && ports[i] == p.destinationPort;
      assert Matches(p, rules[i]) <==> Matches(p, OnPorts(base, []));
    }
  }

  /** Beside a rule without ports, port rules change nothing: they can be withdrawn after it is installed. */
  lemma PortRulesRedundant(p: Packet, base: Rule, ports: seq<Word16>)
    ensures MatchesAny(p, PortRules(base, ports) + [OnPorts(base, [])]) <==> Matches(p, OnPorts(base, []))
  {
    hide Matches;
    var rules := PortRules(base, ports) + [OnPorts(base, [])];
    assert rules[|ports|] == OnPorts(base, []);
    forall i | 0 <= i < |ports| ensures Matches(p, rules[i]) ==> Matches(p, OnPorts(base, [])) {
      OnPortsMeaning(p, base, [ports[i]]);
    }
  }

  // ----- the length test -----

  /** Either length of the packet, uncut, is in the list. */
  predicate LengthListed(p: Packet, lengths: seq<Word16>) {
    p.length in lengths || p.ipLength in lengths
  }

  /**
    * The limit of 65635 and the cut to 16 bits make the length test differ from comparing the lengths themselves.
    * The two agree, for every list, exactly on packets satisfying this condition.
    */
  predicate LengthsComparable(p: Packet) {
    if p.length < 0x1_0000 then p.ipLength < 0x1_0000 || p.ipLength % 0x1_0000 == p.length
    else if p.length <= LENGTH_LIMIT then p.ipLength == p.length - 0x1_0000
    else p.ipLength >= 0x1_0000
  }

  lemma LengthTestExactly(p: Packet, r: Rule)
    ensures LengthsComparable(p)
       <==> forall lengths: seq<Word16> :: lengths != [] ==>
              (LengthsMatch(p, r.(packetLengths := lengths)) <==> LengthListed(p, lengths))
  {
    if !LengthsComparable(p) {
      var cut: Word16, ipCut: Word16 := p.length % 0x1_0000, p.ipLength % 0x1_0000;
      var witnesses: seq<Word16> := if p.length <= LENGTH_LIMIT && cut != p.length && cut != p.ipLength then [cut] else [ipCut];
      assert !(LengthsMatch(p, r.(packetLengths := witnesses)) <==> LengthListed(p, witnesses));
    }
  }
}
