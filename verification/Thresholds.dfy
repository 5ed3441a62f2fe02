/** When traffic counts as an attack: enabled thresholds tested one after the other. */
module Thresholds {
  import opened Octets

  /** Average speeds of a host in one direction and the other. */
  datatype Speed = Speed(incoming: nat, outgoing: nat)

  datatype HostSpeed = HostSpeed(
    packets: Speed, bytes: Speed, flows: Speed,
    tcpPackets: Speed, udpPackets: Speed, icmpPackets: Speed,
    tcpBytes: Speed, udpBytes: Speed, icmpBytes: Speed)

  datatype Kind = Packets | Bandwidth | Flows | TcpPackets | UdpPackets | IcmpPackets | TcpBandwidth | UdpBandwidth | IcmpBandwidth

  /** The order in which the thresholds are tested. */
  const ORDER: seq<Kind> :=
    [Packets, Bandwidth, Flows, TcpPackets, UdpPackets, IcmpPackets, TcpBandwidth, UdpBandwidth, IcmpBandwidth]

  /** The limit of each enabled threshold, in packets, flows or megabits per second. */
  type Settings = map<Kind, Word32>

  /** Bytes per second as whole megabits per second. */
  function Megabits(bytes: nat): nat {
    bytes * 8 / 1000000
  }

  predicate Above(s: Speed, limit: nat) {
    s.incoming > limit || s.outgoing > limit
  }

  predicate AboveMegabits(s: Speed, limit: nat) {
    Megabits(s.incoming) > limit || Megabits(s.outgoing) > limit
  }

  function SpeedOf(h: HostSpeed, k: Kind): Speed {
    match k
    case Packets => h.packets
    case Bandwidth => h.bytes
    case Flows => h.flows
    case TcpPackets => h.tcpPackets
    case UdpPackets => h.udpPackets
    case IcmpPackets => h.icmpPackets
    case TcpBandwidth => h.tcpBytes
    case UdpBandwidth => h.udpBytes
    case IcmpBandwidth => h.icmpBytes
  }

  predicate InMegabits(k: Kind) {
    k == Bandwidth || k == TcpBandwidth || k == UdpBandwidth || k == IcmpBandwidth
  }

  /** The threshold is enabled and the host exceeds it in some direction. */
  predicate Exceeded(h: HostSpeed, s: Settings, k: Kind) {
    k in s && if InMegabits(k) then AboveMegabits(SpeedOf(h, k), s[k]) else Above(SpeedOf(h, k), s[k])
  }

  /** Some enabled threshold is exceeded. */
  predicate UnderAttack(h: HostSpeed, s: Settings) {
    exists i :: 0 <= i < |ORDER| && Exceeded(h, s, ORDER[i])
  }

  /** The decision chain: the first exceeded threshold in the order of the tests is reported. */
  method ShouldBan(h: HostSpeed, s: Settings) returns (detected: Option<Kind>)
    ensures detected.Some? <==> UnderAttack(h, s)
    ensures detected.Some? ==>
              exists i :: 0 <= i < |ORDER| && ORDER[i] == detected.value && Exceeded(h, s, ORDER[i])
                          && forall j :: 0 <= j < i ==> !Exceeded(h, s, ORDER[j])
  {
    hide Megabits;
    TestOrder();
    if Packets in s && Above(h.packets, s[Packets]) {
      assert Exceeded(h, s, ORDER[0]);
      return Some(Packets);
    }
    assert !Exceeded(h, s, ORDER[0]);
    if Bandwidth in s && AboveMegabits(h.bytes, s[Bandwidth]) {
      assert Exceeded(h, s, ORDER[1]);
      return Some(Bandwidth);
    }
    assert !Exceeded(h, s, ORDER[1]);
    if Flows in s && Above(h.flows, s[Flows]) {
      assert Exceeded(h, s, ORDER[2]);
      return Some(Flows);
    }
    assert !Exceeded(h, s, ORDER[2]);
    if TcpPackets in s && Above(h.tcpPackets, s[TcpPackets]) {
      assert Exceeded(h, s, ORDER[3]);
      return Some(TcpPackets);
    }
    assert !Exceeded(h, s, ORDER[3]);
    if UdpPackets in s && Above(h.udpPackets, s[UdpPackets]) {
      assert Exceeded(h, s, ORDER[4]);
      return Some(UdpPackets);
    }
    assert !Exceeded(h, s, ORDER[4]);
    if IcmpPackets in s && Above(h.icmpPackets, s[IcmpPackets]) {
      assert Exceeded(h, s, ORDER[5]);
      return Some(IcmpPackets);
    }
    assert !Exceeded(h, s, ORDER[5]);
    if TcpBandwidth in s && AboveMegabits(h.tcpBytes, s[TcpBandwidth]) {
      assert Exceeded(h, s, ORDER[6]);
      return Some(TcpBandwidth);
    }
    assert !Exceeded(h, s, ORDER[6]);
    if UdpBandwidth in s && AboveMegabits(h.udpBytes, s[UdpBandwidth]) {
      assert Exceeded(h, s, ORDER[7]);
      return Some(UdpBandwidth);
    }
    assert !Exceeded(h, s, ORDER[7]);
    if IcmpBandwidth in s && AboveMegabits(h.icmpBytes, s[IcmpBandwidth]) {
      assert Exceeded(h, s, ORDER[8]);
      return Some(IcmpBandwidth);
    }
    assert !Exceeded(h, s, ORDER[8]);
    return None;
  }

  lemma TestOrder()
    ensures |ORDER| == 9 && ORDER[0] == Packets && ORDER[1] == Bandwidth && ORDER[2] == Flows
    ensures ORDER[3] == TcpPackets && ORDER[4] == UdpPackets && ORDER[5] == IcmpPackets
    ensures ORDER[6] == TcpBandwidth && ORDER[7] == UdpBandwidth && ORDER[8] == IcmpBandwidth
  {
  }

  /** An attack is finished exactly when there is no average for the host or no enabled threshold is exceeded. */
  method AttackIsFinished(average: Option<HostSpeed>, s: Settings) returns (finished: bool)
    ensures finished <==> average.None? || !UnderAttack(average.value, s)
  {
    if average.None? {
      return true;
    }
    var detected := ShouldBan(average.value, s);
    return detected.None?;
  }

  // ----- what the limits mean -----

  /** Whole megabits per second: a million bits each, eight bits to the octet, rounded down. */
  lemma MegabitsValue(bytes: nat)
    ensures 1000000 * Megabits(bytes) <= 8 * bytes < 1000000 * (Megabits(bytes) + 1)
  {
    var bits := bytes * 8;
    assert bits == 1000000 * (bits / 1000000) + bits % 1000000;
  }

  predicate AnyDirection(incoming: bool, outgoing: bool) {
    incoming || outgoing
  }

  /** This many octets per second are more than so many megabits per second. */
  predicate Overruns(bytes: nat, limit: nat) {
    8 * bytes >= 1000000 * (limit + 1)
  }

  lemma MegabitsOverrun(bytes: nat, limit: nat)
    ensures Megabits(bytes) > limit <==> Overruns(bytes, limit)
  {
    hide Megabits;
    MegabitsValue(bytes);
  }

  lemma OnlyThreshold(h: HostSpeed, k: Kind, limit: Word32)
    ensures UnderAttack(h, map[k := limit]) <==> Exceeded(h, map[k := limit], k)
  {
    hide AboveMegabits, Above, SpeedOf;
    EveryKindTested(k);
  }

  /**
    * A threshold alone: packets and flows per second above the limit in either direction, or so many octets that their
    * bits make at least one megabit more than the limit, each kind by the speed it is named after.
    */
  lemma SingleThreshold(h: HostSpeed, k: Kind, limit: Word32)
    ensures UnderAttack(h, map[k := limit]) <==>
            match k
            case Packets => AnyDirection(h.packets.incoming > limit, h.packets.outgoing > limit)
            case Flows => AnyDirection(h.flows.incoming > limit, h.flows.outgoing > limit)
            case TcpPackets => AnyDirection(h.tcpPackets.incoming > limit, h.tcpPackets.outgoing > limit)
            case UdpPackets => AnyDirection(h.udpPackets.incoming > limit, h.udpPackets.outgoing > limit)
            case IcmpPackets => AnyDirection(h.icmpPackets.incoming > limit, h.icmpPackets.outgoing > limit)
            case Bandwidth => AnyDirection(Overruns(h.bytes.incoming, limit), Overruns(h.bytes.outgoing, limit))
            case TcpBandwidth => AnyDirection(Overruns(h.tcpBytes.incoming, limit), Overruns(h.tcpBytes.outgoing, limit))
            case UdpBandwidth => AnyDirection(Overruns(h.udpBytes.incoming, limit), Overruns(h.udpBytes.outgoing, limit))
            case IcmpBandwidth => AnyDirection(Overruns(h.icmpBytes.incoming, limit), Overruns(h.icmpBytes.outgoing, limit))
  {
    hide UnderAttack, Megabits, Overruns;
    OnlyThreshold(h, k, limit);
    MegabitsOverrun(SpeedOf(h, k).incoming, limit);
    MegabitsOverrun(SpeedOf(h, k).outgoing, limit);
  }

  /** Thresholds do not interact: a host is under attack exactly when one enabled threshold says so by itself. */
  lemma ThresholdsAlone(h: HostSpeed, s: Settings)
    ensures UnderAttack(h, s) <==> exists k :: k in s && UnderAttack(h, map[k := s[k]])
    ensures forall k :: k in s ==> (Exceeded(h, s, k) <==> UnderAttack(h, map[k := s[k]]))
  {
    hide AboveMegabits, Above, SpeedOf, InMegabits;
    forall k | k in s ensures Exceeded(h, s, k) <==> UnderAttack(h, map[k := s[k]]) {
      OnlyThreshold(h, k, s[k]);
    }
    if UnderAttack(h, s) {
      var i :| 0 <= i < |ORDER| && Exceeded(h, s, ORDER[i]);
      assert UnderAttack(h, map[ORDER[i] := s[ORDER[i]]]);
    }
    if k :| k in s && UnderAttack(h, map[k := s[k]]) {
      EveryKindTested(k);
      var i :| 0 <= i < |ORDER| && ORDER[i] == k;
      assert Exceeded(h, s, ORDER[i]);
    }
  }

  lemma EveryKindTested(k: Kind)
    ensures exists i :: 0 <= i < |ORDER| && ORDER[i] == k
  {
    TestOrder();
    var i := match k
      case Packets => 0 case Bandwidth => 1 case Flows => 2
      case TcpPackets => 3 case UdpPackets => 4 case IcmpPackets => 5
      case TcpBandwidth => 6 case UdpBandwidth => 7 case IcmpBandwidth => 8;
    assert ORDER[i] == k;
  }

  // ----- more traffic is never less of an attack -----

  predicate NotSlower(a: HostSpeed, b: HostSpeed) {
    forall k: Kind :: SpeedOf(a, k).incoming <= SpeedOf(b, k).incoming && SpeedOf(a, k).outgoing <= SpeedOf(b, k).outgoing
  }

  predicate NotLooser(s: Settings, t: Settings) {
    forall k :: k in s ==> k in t && t[k] <= s[k]
  }

  lemma MegabitsMonotone(a: nat, b: nat)
    requires a <= b
    ensures Megabits(a) <= Megabits(b)
  {
    var q, r := Megabits(a), Megabits(b);
    assert a * 8 == 1000000 * q + a * 8 % 1000000;
    assert b * 8 == 1000000 * r + b * 8 % 1000000;
  }

  /** Raising speeds, lowering limits or enabling thresholds never ends an attack. */
  lemma AttackMonotone(a: HostSpeed, b: HostSpeed, s: Settings, t: Settings)
    requires NotSlower(a, b) && NotLooser(s, t) && UnderAttack(a, s)
    ensures UnderAttack(b, t)
  {
    hide Megabits, SpeedOf, ORDER;
    var i :| 0 <= i < |ORDER| && Exceeded(a, s, ORDER[i]);
    var k := ORDER[i];
    MegabitsMonotone(SpeedOf(a, k).incoming, SpeedOf(b, k).incoming);
    MegabitsMonotone(SpeedOf(a, k).outgoing, SpeedOf(b, k).outgoing);
    assert Exceeded(b, t, ORDER[i]);
  }
}
