/** FlowSpec rules: the value a rule denotes and the object the decoder fills in step by step. */
module FlowSpecRule {
  import opened Octets
  import opened Prefix

  datatype TcpFlagset = TcpFlagset(syn: bool, ack: bool, fin: bool, psh: bool, rst: bool, urg: bool) {
    predicate AnyFlag() {
      syn || fin || urg || ack || psh || rst
    }
  }

  datatype Fragment = DontFragment | IsFragment | FirstFragment | LastFragment | NotFragment

  datatype ActionKind = Discard | Accept | RateLimit | Redirect | RedirectVrf | Mark

  /** An action with all its parameters; a fresh action accepts and has every parameter zero. */
  datatype Action = Action(kind: ActionKind, rate: Word32, redirectAs: Word16, redirectValue: Word32,
                           rtAs: Word32, rtValue: Word32)

  const DEFAULT_ACTION := Action(Accept, 0, 0, 0, 0, 0)

  /** An IPv6 address as sixteen octets in network order with a prefix length. */
  datatype Subnet6 = Subnet6(address: seq<Octet>, length: nat)

  datatype Rule = Rule(
    destination: Option<Subnet4>,
    source: Option<Subnet4>,
    destination6: Option<Subnet6>,
    source6: Option<Subnet6>,
    protocols: seq<Octet>,
    destinationPorts: seq<Word16>,
    sourcePorts: seq<Word16>,
    tcpFlags: seq<TcpFlagset>,
    packetLengths: seq<Word16>,
    fragments: seq<Fragment>,
    vlans: seq<Word16>,
    nextHops: seq<Word32>,
    matchTcpFlags: bool,
    matchFragments: bool,
    action: Action)

  const EMPTY_RULE := Rule(None, None, None, None, [], [], [], [], [], [], [], [], false, false, DEFAULT_ACTION)

  /** The rule object: setters and adders change one field each. */
  class RuleObject {
    var destination: Option<Subnet4>
    var source: Option<Subnet4>
    var destination6: Option<Subnet6>
    var source6: Option<Subnet6>
    var protocols: seq<Octet>
    var destinationPorts: seq<Word16>
    var sourcePorts: seq<Word16>
    var tcpFlags: seq<TcpFlagset>
    var packetLengths: seq<Word16>
    var fragments: seq<Fragment>
    var vlans: seq<Word16>
    var nextHops: seq<Word32>
    var matchTcpFlags: bool
    var matchFragments: bool
    var action: Action

    function Value(): Rule
      reads this
    {
      Rule(destination, source, destination6, source6, protocols, destinationPorts, sourcePorts, tcpFlags,
           packetLengths, fragments, vlans, nextHops, matchTcpFlags, matchFragments, action)
    }

    constructor ()
      ensures Value() == EMPTY_RULE
    {
      destination, source, destination6, source6 := None, None, None, None;
      protocols, destinationPorts, sourcePorts, tcpFlags := [], [], [], [];
      packetLengths, fragments, vlans, nextHops := [], [], [], [];
      matchTcpFlags, matchFragments, action := false, false, DEFAULT_ACTION;
    }

    method SetDestination(s: Subnet4)
      modifies this
      ensures Value() == old(Value()).(destination := Some(s))
    {
      destination := Some(s);
    }

    method SetSource(s: Subnet4)
      modifies this
      ensures Value() == old(Value()).(source := Some(s))
    {
      source := Some(s);
    }

    method AddProtocol(p: Octet)
      modifies this
      ensures Value() == old(Value()).(protocols := old(protocols) + [p])
    {
      protocols := protocols + [p];
    }

    method AddDestinationPort(p: Word16)
      modifies this
      ensures Value() == old(Value()).(destinationPorts := old(destinationPorts) + [p])
    {
      destinationPorts := destinationPorts + [p];
    }

    method AddSourcePort(p: Word16)
      modifies this
      ensures Value() == old(Value()).(sourcePorts := old(sourcePorts) + [p])
    {
      sourcePorts := sourcePorts + [p];
    }

    method AddTcpFlagset(f: TcpFlagset)
      modifies this
      ensures Value() == old(Value()).(tcpFlags := old(tcpFlags) + [f])
    {
      tcpFlags := tcpFlags + [f];
    }

    method AddPacketLength(n: Word16)
      modifies this
      ensures Value() == old(Value()).(packetLengths := old(packetLengths) + [n])
    {
      packetLengths := packetLengths + [n];
    }

    method AddFragment(f: Fragment)
      modifies this
      ensures Value() == old(Value()).(fragments := old(fragments) + [f])
    {
      fragments := fragments + [f];
    }

    method SetAction(a: Action)
      modifies this
      ensures Value() == old(Value()).(action := a)
    {
      action := a;
    }
  }

  // ----- the equality the program uses -----

  /** Actions compare by kind, and by parameter only for rate limits and route-target redirects. */
  predicate SameAction(a: Action, b: Action) {
    && a.kind == b.kind
    && (a.kind == RateLimit ==> a.rate == b.rate)
    && (a.kind == RedirectVrf ==> a.rtAs == b.rtAs && a.rtValue == b.rtValue)
  }

  /** Rules compare by every field except the two match-bit switches. */
  predicate SameRule(a: Rule, b: Rule) {
    && a.source == b.source && a.source6 == b.source6
    && a.destination == b.destination && a.destination6 == b.destination6
    && SameAction(a.action, b.action)
    && a.sourcePorts == b.sourcePorts && a.destinationPorts == b.destinationPorts
    && a.packetLengths == b.packetLengths && a.vlans == b.vlans && a.nextHops == b.nextHops
    && a.protocols == b.protocols && a.tcpFlags == b.tcpFlags && a.fragments == b.fragments
  }
}
