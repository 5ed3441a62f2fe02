/** What each test of a rule asks of a packet, stated for rules that hold this test alone. */
module FilterFields {
  import opened Octets
  import opened Prefix
  import opened FlowSpecRule
  import opened NlriWire
  import opened NlriGrammar
  import opened Filter

  // ----- a rule is the conjunction of its tests -----

  /** A rule matches what all its tests match one by one. Its action, next hops and match bits do not matter. */
  lemma EveryTestAlone(p: Packet, r: Rule)
    ensures Matches(p, r) <==>
            && Matches(p, EMPTY_RULE.(source := r.source, source6 := r.source6))
            && Matches(p, EMPTY_RULE.(destination := r.destination, destination6 := r.destination6))
            && Matches(p, EMPTY_RULE.(protocols := r.protocols))
            && Matches(p, EMPTY_RULE.(sourcePorts := r.sourcePorts))
            && Matches(p, EMPTY_RULE.(destinationPorts := r.destinationPorts))
            && Matches(p, EMPTY_RULE.(tcpFlags := r.tcpFlags))
            && Matches(p, EMPTY_RULE.(packetLengths := r.packetLengths))
            && Matches(p, EMPTY_RULE.(fragments := r.fragments))
            && Matches(p, EMPTY_RULE.(vlans := r.vlans))
  {
    hide AgreeOn, ReadTcpOctet, FragmentMatches;
  }

  lemma ListTests(p: Packet, numbers: seq<Word16>, protocols: seq<Octet>)
    ensures Matches(p, EMPTY_RULE.(sourcePorts := numbers)) <==> numbers == [] || p.sourcePort in numbers
    ensures Matches(p, EMPTY_RULE.(destinationPorts := numbers)) <==> numbers == [] || p.destinationPort in numbers
    ensures Matches(p, EMPTY_RULE.(vlans := numbers)) <==> numbers == [] || p.vlan in numbers
    ensures Matches(p, EMPTY_RULE.(protocols := protocols)) <==>
            protocols == [] || exists i :: 0 <= i < |protocols| && protocols[i] == p.protocol
  {
    hide AgreeOn, ReadTcpOctet, FragmentMatches;
  }

  /** Packets up to 65635 octets are compared, each of their two lengths without its part above 65535. */
  lemma LengthTest(p: Packet, lengths: seq<Word16>)
    ensures Matches(p, EMPTY_RULE.(packetLengths := lengths)) <==>
            || lengths == []
            || (p.length <= 65635
                && exists i :: 0 <= i < |lengths| && (lengths[i] == p.length % 65536 || lengths[i] == p.ipLength % 65536))
  {
    hide AgreeOn, ReadTcpOctet, FragmentMatches;
    assert forall x: Word16 :: x in lengths <==> exists i :: 0 <= i < |lengths| && lengths[i] == x;
  }

  /** Of the five fragmentation flags two are tested, one against each flag of the packet; the others match nothing. */
  lemma FragmentTest(p: Packet, f: Fragment)
    ensures Matches(p, EMPTY_RULE.(fragments := [f])) <==>
            match f
            case DontFragment => p.dontFragment
            case IsFragment => p.fragmented
            case _ => false
  {
    hide AgreeOn, ReadTcpOctet;
    assert FragmentsMatch(p, EMPTY_RULE.(fragments := [f])) <==> FragmentMatches(p, [f][0]);
  }

  /** Several flags match what one of them matches, no flags match everything. */
  lemma FragmentTests(p: Packet, fs: seq<Fragment>)
    ensures Matches(p, EMPTY_RULE.(fragments := fs)) <==>
            fs == [] || exists i :: 0 <= i < |fs| && Matches(p, EMPTY_RULE.(fragments := [fs[i]]))
  {
    hide AgreeOn, ReadTcpOctet, Matches;
    AnyFragments(p, fs);
    forall i | 0 <= i < |fs| ensures Matches(p, EMPTY_RULE.(fragments := [fs[i]])) <==> FragmentMatches(p, fs[i]) {
      FragmentTest(p, fs[i]);
    }
  }

  lemma AnyFragments(p: Packet, fs: seq<Fragment>)
    ensures Matches(p, EMPTY_RULE.(fragments := fs)) <==>
            fs == [] || exists i :: 0 <= i < |fs| && FragmentMatches(p, fs[i])
  {
    hide AgreeOn, ReadTcpOctet;
  }

  /** A packet carries exactly the flags of one flagset; the two highest bits of its flags do not matter. */
  lemma TcpTest(p: Packet, fs: seq<TcpFlagset>)
    ensures Matches(p, EMPTY_RULE.(tcpFlags := fs)) <==>
            || fs == []
            || exists i :: 0 <= i < |fs| && fs[i].fin == HasBit(p.tcpFlags, 1) && fs[i].syn == HasBit(p.tcpFlags, 2)
                 && fs[i].rst == HasBit(p.tcpFlags, 4) && fs[i].psh == HasBit(p.tcpFlags, 8)
                 && fs[i].ack == HasBit(p.tcpFlags, 16) && fs[i].urg == HasBit(p.tcpFlags, 32)
  {
    hide AgreeOn, ReadTcpOctet, FragmentMatches, HasBit;
    TcpBitsRead(p.tcpFlags);
    forall f: TcpFlagset
      ensures f == ReadTcpOctet(p.tcpFlags) <==>
              && f.fin == HasBit(p.tcpFlags, 1) && f.syn == HasBit(p.tcpFlags, 2)
              && f.rst == HasBit(p.tcpFlags, 4) && f.psh == HasBit(p.tcpFlags, 8)
              && f.ack == HasBit(p.tcpFlags, 16) && f.urg == HasBit(p.tcpFlags, 32)
    {
    }
  }

  /** An IPv4 prefix holds as many consecutive addresses as its free bits allow, whatever IPv6 prefix stands beside it. */
  predicate InPrefix(ip: Word32, s: Subnet4) {
    var size := Pow2(32 - s.length);
    var first := s.address - s.address % size;
    first <= ip < first + size
  }

  lemma SameMultiple(ip: Word32, address: Word32, size: nat)
    requires size > 0
    ensures ip - ip % size == address - address % size
       <==> address - address % size <= ip < address - address % size + size
  {
    CutWithin(ip, size);
    CutIsMultiple(ip, size);
    CutIsMultiple(address, size);
    CutWithin(address, size);
    var cut, first := ip - ip % size, address - address % size;
    if first <= ip < first + size {
      AddressUnique(cut, first, size);
    }
  }

  lemma AgreementIsRange(ip: Word32, s: Subnet4)
    ensures AgreeOn(ip, s.address, s.length) <==> InPrefix(ip, s)
  {
    hide AgreeOn, Mask, Pow2;
    MaskEqualIffAgree(ip, s.address, s.length);
    MaskValue(ip, s.length);
    MaskValue(s.address, s.length);
    SameMultiple(ip, s.address, Pow2(32 - s.length));
  }

  lemma AddressTests(p: Packet, s: Subnet4, s6: Option<Subnet6>)
    ensures Matches(p, EMPTY_RULE.(source := Some(s), source6 := s6)) <==> InPrefix(p.sourceIp, s)
    ensures Matches(p, EMPTY_RULE.(destination := Some(s), destination6 := s6)) <==> InPrefix(p.destinationIp, s)
  {
    hide AgreeOn, ReadTcpOctet, FragmentMatches, InPrefix;
    AgreementIsRange(p.sourceIp, s);
    AgreementIsRange(p.destinationIp, s);
  }

  /** An IPv6 prefix alone matches one address, or nothing when it is shorter than an address. */
  lemma AddressTests6(p: Packet, s: Subnet6)
    ensures Matches(p, EMPTY_RULE.(source6 := Some(s))) <==> s.length == 128 && p.sourceIp6 == s.address
    ensures Matches(p, EMPTY_RULE.(destination6 := Some(s))) <==> s.length == 128 && p.destinationIp6 == s.address
  {
    hide AgreeOn, ReadTcpOctet, FragmentMatches;
  }

  lemma NoTests(p: Packet)
    ensures Matches(p, EMPTY_RULE)
  {
    hide AgreeOn, ReadTcpOctet, FragmentMatches;
  }

  // ----- the equality of rules -----

  /**
    * Equal rules differ at most in the two match-bit switches and in those parameters of the action that its kind
    * does not name; of a redirect, none is named.
    */
  lemma SameRuleExactly(a: Rule, b: Rule)
    ensures SameRule(a, b) <==>
            && a == b.(matchTcpFlags := a.matchTcpFlags, matchFragments := a.matchFragments, action := a.action)
            && a.action.kind == b.action.kind
            && match a.action.kind
               case RateLimit => a.action.rate == b.action.rate
               case RedirectVrf => a.action.rtAs == b.action.rtAs && a.action.rtValue == b.action.rtValue
               case _ => true
  {
  }
}
