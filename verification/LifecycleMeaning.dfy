/** What the lifecycle's rule keys mean in terms of matched packets. */
module LifecycleMeaning {
  import opened Octets
  import opened Prefix
  import opened FlowSpecRule
  import opened Filter
  import opened NlriWire
  import opened Lifecycle

  /** The rules built for GoBGP test nothing but destination, protocol and destination port. */
  predicate Plain(r: Rule) {
    && r.source.None? && r.source6.None? && r.destination6.None?
    && r.sourcePorts == [] && r.tcpFlags == [] && r.packetLengths == [] && r.fragments == [] && r.vlans == []
  }

  /** The key says everything about the packets such a rule matches. */
  lemma KeyMeaning(p: Packet, r: Rule)
    requires Plain(r) && RuleKey(r).Some?
    ensures var k := RuleKey(r).value;
            Matches(p, r) <==>
              && p.destinationIp == k.victim
              && (k.protocol.Some? ==> p.protocol == k.protocol.value)
              && (k.port.Some? ==> p.destinationPort == k.port.value)
  {
    hide Mask, AgreeOn, ReadTcpOctet;
    var s := r.destination.value;
    MaskEqualIffAgree(p.destinationIp, s.address, 32);
    WholeAddress(p.destinationIp);
    WholeAddress(s.address);
    assert r.protocols != [] ==> r.protocols == [r.protocols[0]];
    assert r.destinationPorts != [] ==> r.destinationPorts == [r.destinationPorts[0]];
  }

  lemma SameKeySameMeaning(p: Packet, a: Rule, b: Rule)
    requires Plain(a) && Plain(b) && RuleKey(a).Some? && RuleKey(a) == RuleKey(b)
    ensures Matches(p, a) <==> Matches(p, b)
  {
    hide Matches, RuleKey;
    KeyMeaning(p, a);
    KeyMeaning(p, b);
  }

  /** The protocol-only rule of an escalation matches every packet a port rule it replaces matches. */
  lemma EscalationCovers(p: Packet, portRule: Rule, onlyRule: Rule)
    requires Plain(portRule) && Plain(onlyRule) && RuleKey(portRule).Some? && RuleKey(onlyRule).Some?
    requires SameProtocol(RuleKey(portRule).value, RuleKey(onlyRule).value) && RuleKey(onlyRule).value.port.None?
    ensures Matches(p, portRule) ==> Matches(p, onlyRule)
  {
    hide Matches, RuleKey;
    KeyMeaning(p, portRule);
    KeyMeaning(p, onlyRule);
  }

  // ----- the rules built for GoBGP -----

  /** The protocol matched for an attack, if it is one of the supported ones. */
  function RuleProtocol(attackProtocol: nat): Option<Octet> {
    if attackProtocol == TCP || attackProtocol == UDP || attackProtocol == ICMP then Some(attackProtocol) else None
  }

  function BuildRule(victim: Ip, attackProtocol: nat, port: Option<Word16>, redirect: Word32, action: Action): Rule {
    var protocol := RuleProtocol(attackProtocol);
    EMPTY_RULE.(
      destination := Some(Subnet(victim, 32)),
      action := action,
      nextHops := if action.kind == Redirect then [redirect] else [],
      protocols := if protocol.Some? then [protocol.value] else [],
      destinationPorts := if port.Some? && (attackProtocol == TCP || attackProtocol == UDP) then [port.value] else [])
  }

  /**
    * Every rule built for GoBGP has a key, so the "invalid identity" branches are never taken, and it matches exactly
    * the packets to the victim, of the protocol if it is supported, and of the port if the protocol has ports.
    */
  lemma BuiltRuleHasKey(victim: Ip, attackProtocol: nat, port: Option<Word16>, redirect: Word32, action: Action, p: Packet)
    ensures var r := BuildRule(victim, attackProtocol, port, redirect, action);
            && Plain(r)
            && RuleKey(r) == Some(Key(victim, RuleProtocol(attackProtocol),
                                      if attackProtocol == TCP || attackProtocol == UDP then port else None))
            && (Matches(p, r) <==>
                  && p.destinationIp == victim
                  && (RuleProtocol(attackProtocol).Some? ==> p.protocol == attackProtocol)
                  && (port.Some? && (attackProtocol == TCP || attackProtocol == UDP) ==> p.destinationPort == port.value))
  {
    hide Matches;
    KeyMeaning(p, BuildRule(victim, attackProtocol, port, redirect, action));
  }

  /** What is asked of GoBGP for the matched packets; a next hop goes with a redirect only. */
  lemma BuiltRuleExactly(victim: Ip, attackProtocol: nat, port: Option<Word16>, redirect: Word32, action: Action)
    ensures var r := BuildRule(victim, attackProtocol, port, redirect, action);
            && r.destination == Some(Subnet(victim, 32)) && r.action == action
            && r.nextHops == (match action.kind case Redirect => [redirect] case _ => [])
            && |r.protocols| == (if attackProtocol in {1, 6, 17} then 1 else 0)
            && (attackProtocol in {1, 6, 17} ==> r.protocols[0] == attackProtocol)
            && |r.destinationPorts| == (if port.Some? && attackProtocol in {6, 17} then 1 else 0)
            && (port.Some? && attackProtocol in {6, 17} ==> r.destinationPorts[0] == port.value)
  {
  }
}
