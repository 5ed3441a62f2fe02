/** The limit on port rules per victim and protocol: what a refresh does about it, and what BAN does to it. */
module LifecycleLimit {
  import opened Octets
  import opened FlowSpecRule
  import opened Lifecycle
  import opened LifecycleMeaning
  import opened LifecycleRuns
  import opened LifecycleSafety


  lemma NewPortKeys(t: Table, only: Request, requests: seq<Request>)
    ensures var t' := Reserve(t, NewPorts(t, only.key, requests));
            && PortKeys(t', only.key) == PortKeys(t, only.key) + NewPorts(t, only.key, requests).Keys
            && |PortKeys(t', only.key)| == |PortKeys(t, only.key)| + |NewPorts(t, only.key, requests)|
  {
    NewPortsAreNew(t, only.key, requests);
    var ports := NewPorts(t, only.key, requests);
    assert PortKeys(Reserve(t, ports), only.key) == PortKeys(t, only.key) + ports.Keys;
    assert PortKeys(t, only.key) !! ports.Keys;
    assert |ports.Keys| == |ports|;
  }

  lemma OtherPlansAddNoPorts(t: Table, only: Request)
    requires only.key.port.None?
    ensures PortKeys(Reserve(t, map[]), only.key) == PortKeys(t, only.key)
    ensures PortKeys(Reserve(t, map[only.key := only.rule]), only.key) == PortKeys(t, only.key)
  {
    ReserveAddsKeys(t, map[]);
    ReserveAddsKeys(t, map[only.key := only.rule]);
    hide Reserve;
    var t1, t2 := Reserve(t, map[]), Reserve(t, map[only.key := only.rule]);
    assert forall k :: k in PortKeys(t1, only.key) <==> k in PortKeys(t, only.key);
    assert forall k :: k in PortKeys(t2, only.key) <==> k in PortKeys(t, only.key);
  }

  lemma ReserveAddsKeys(t: Table, announce: map<Key, Rule>)
    ensures Reserve(t, announce).rules.Keys == t.rules.Keys + announce.Keys
  {
  }

  lemma NotEmpty(m: map<Key, Rule>)
    ensures m != map[] ==> |m| > 0
  {
  }

  /**
    * A refresh never takes a victim and protocol over the limit: new port rules fit under it together with those
    * already there, or one protocol-only rule is announced instead.
    */
  lemma PortLimitKept(t: Table, only: Request, requests: seq<Request>, maxPorts: nat)
    requires only.key.port.None?
    ensures var plan := RefreshPlan(t, only, requests, maxPorts);
            var t' := Reserve(t, plan.announce);
            && (plan.action == AddPortRules ==> |PortKeys(t, only.key)| < |PortKeys(t', only.key)| <= maxPorts)
            && (plan.action != AddPortRules ==> PortKeys(t', only.key) == PortKeys(t, only.key))
            && (plan.action == EscalateProtocolOnly <==>
                  && only.key.victim !in t.fenced && !Covered(t, only.key) && NewPorts(t, only.key, requests) != map[]
                  && |PortKeys(Reserve(t, NewPorts(t, only.key, requests)), only.key)| > maxPorts)
  {
    hide NewPorts, PortKeys, Reserve, Covered;
    NewPortKeys(t, only, requests);
    OtherPlansAddNoPorts(t, only);
    NotEmpty(NewPorts(t, only.key, requests));
  }

  // ----- over runs -----

  /** The port rules of this victim and protocol stay within the limit all along the run. */
  ghost predicate StaysWithin(w: World, events: seq<Event>, only: Key, limit: nat)
    requires IsRun(w, events)
    decreases |events|
  {
    |PortKeys(w.table, only)| <= limit && (events == [] || StaysWithin(Step(w, events[0]), events[1..], only, limit))
  }

  /** The event announces a port rule of this victim and protocol for a BAN. */
  predicate AddsPort(t: Table, e: Event, only: Key) {
    e.Announces? && MayAnnounce(t, e.key) && SameProtocol(e.key, only) && e.key.port.Some?
  }

  /** Whenever a BAN adds a port rule of this victim and protocol, there is room for it. */
  ghost predicate BansFindRoom(w: World, events: seq<Event>, only: Key, limit: nat)
    requires IsRun(w, events)
    decreases |events|
  {
    events != [] ==>
      && (AddsPort(w.table, events[0], only) ==> |PortKeys(w.table, only)| < limit)
      && BansFindRoom(Step(w, events[0]), events[1..], only, limit)
  }

  lemma AddedPort(w: World, e: Event, only: Key)
    requires Enabled(w, e) && AddsPort(w.table, e, only)
    ensures |PortKeys(Step(w, e).table, only)| == |PortKeys(w.table, only)| + 1
  {
    hide Keyed;
    assert PortKeys(Step(w, e).table, only) == PortKeys(w.table, only) + {e.key};
  }

  lemma FewerPorts(t: Table, t': Table, only: Key)
    requires PortKeys(t', only) <= PortKeys(t, only)
    ensures |PortKeys(t', only)| <= |PortKeys(t, only)|
  {
    hide PortKeys;
    var gone := PortKeys(t, only) - PortKeys(t', only);
    assert PortKeys(t, only) == PortKeys(t', only) + gone;
  }

  lemma SamePortKeys(t: Table, a: Key, b: Key)
    requires a.victim == b.victim && a.protocol == b.protocol
    ensures PortKeys(t, a) == PortKeys(t, b)
  {
  }

  lemma PlannedPorts(t: Table, e: Event, only: Key, limit: nat)
    requires e.PlansRefresh? && e.only.key.port.None? && e.maxPorts <= limit && |PortKeys(t, only)| <= limit
    ensures |PortKeys(Reserve(t, RefreshPlan(t, e.only, e.requests, e.maxPorts).announce), only)| <= limit
  {
    var t' := Reserve(t, RefreshPlan(t, e.only, e.requests, e.maxPorts).announce);
    if e.only.key.victim == only.victim && e.only.key.protocol == only.protocol {
      hide PortKeys, RefreshPlan, Reserve;
      PortLimitKept(t, e.only, e.requests, e.maxPorts);
      SamePortKeys(t, e.only.key, only);
      SamePortKeys(t', e.only.key, only);
    } else {
      OtherProtocol(t, e, only);
    }
  }

  lemma OtherProtocol(t: Table, e: Event, only: Key)
    requires e.PlansRefresh? && e.only.key.port.None?
    requires e.only.key.victim != only.victim || e.only.key.protocol != only.protocol
    ensures PortKeys(Reserve(t, RefreshPlan(t, e.only, e.requests, e.maxPorts).announce), only) == PortKeys(t, only)
  {
    NewPortsAreNew(t, e.only.key, e.requests);
    ReserveAddsKeys(t, RefreshPlan(t, e.only, e.requests, e.maxPorts).announce);
    hide Reserve, NewPorts, Covered;
  }

  lemma OtherStepsAddNoPort(w: World, e: Event, only: Key)
    requires Enabled(w, e) && !e.PlansRefresh? && !AddsPort(w.table, e, only)
    ensures PortKeys(Step(w, e).table, only) <= PortKeys(w.table, only)
  {
    hide ClearFence, Started, ThreadsAfter, PathsAfter, CleanersAfter, Keyed, VictimKeys, MayCleanUp;
    match e {
      case Unbans(u) =>
        ClearFenceKeepsRules(RequestAll(w.table.(fenced := w.table.fenced + {u}), VictimKeys(w.table, u)), u);
      case FinishesCapture(u) => ClearFenceKeepsRules(w.table.(refreshing := w.table.refreshing - {u}), u);
      case FailsAnnounce(k) => ClearFenceKeepsRules(w.table.(rules := w.table.rules - {k}), k.victim);
      case CompletesWithdraw(k) => ClearFenceKeepsRules(w.table.(rules := w.table.rules - {k}), k.victim);
      case _ =>
    }
  }

  lemma LimitStep(w: World, e: Event, only: Key, limit: nat)
    requires Enabled(w, e) && |PortKeys(w.table, only)| <= limit
    requires e.PlansRefresh? ==> e.maxPorts <= limit
    ensures |PortKeys(Step(w, e).table, only)| <= limit
       <==> (AddsPort(w.table, e, only) ==> |PortKeys(w.table, only)| < limit)
  {
    if AddsPort(w.table, e, only) {
      AddedPort(w, e, only);
    } else if e.PlansRefresh? {
      hide PortKeys, RefreshPlan, Reserve;
      PlannedPorts(w.table, e, only, limit);
    } else {
      hide PortKeys, Step;
      OtherStepsAddNoPort(w, e, only);
      FewerPorts(w.table, Step(w, e).table, only);
    }
  }

  lemma {:induction false} LimitRun(w: World, events: seq<Event>, only: Key, limit: nat)
    requires IsRun(w, events) && |PortKeys(w.table, only)| <= limit
    requires forall e :: e in events && e.PlansRefresh? ==> e.maxPorts <= limit
    ensures StaysWithin(w, events, only, limit) <==> BansFindRoom(w, events, only, limit)
    decreases |events|
  {
    hide Enabled, Step, PortKeys, AddsPort;
    if events != [] {
      assert events[0] in events;
      LimitStep(w, events[0], only, limit);
      if |PortKeys(Step(w, events[0]).table, only)| <= limit {
        LimitRun(Step(w, events[0]), events[1..], only, limit);
      }
    }
  }

  /**
    * With every refresh planned under the limit, the port rules of a victim and protocol stay within it all along a
    * run exactly when each BAN that adds one finds room for it: BAN itself never looks at the limit.
    */
  lemma LimitKeptExactly(events: seq<Event>, only: Key, limit: nat)
    requires IsRun(START, events)
    requires forall e :: e in events && e.PlansRefresh? ==> e.maxPorts <= limit
    ensures StaysWithin(START, events, only, limit) <==> BansFindRoom(START, events, only, limit)
  {
    hide IsRun;
    assert PortKeys(START.table, only) == {};
    LimitRun(START, events, only, limit);
  }

  // ----- a BAN past the limit -----

  function PortKey(v: Ip, port: Word16): Key {
    Key(v, Some(TCP), Some(port))
  }

  function TcpRule(v: Ip, port: Option<Word16>): Rule {
    BuildRule(v, TCP, port, 0, DEFAULT_ACTION.(kind := Discard))
  }

  lemma TcpRuleKeyed(v: Ip, port: Option<Word16>)
    ensures Keyed(Key(v, Some(TCP), port), TcpRule(v, port))
  {
  }

  /** A request for each of the first `n` ports. */
  function PortRequests(v: Ip, n: nat): seq<Request>
    requires n <= 0x1_0000
  {
    seq(n, i requires 0 <= i < n => Request(PortKey(v, i), TcpRule(v, Some(i))))
  }

  lemma {:induction false} NewPortCount(t: Table, v: Ip, n: nat)
    requires t.rules == map[] && n <= 0x1_0000
    ensures var ports := NewPorts(t, Key(v, Some(TCP), None), PortRequests(v, n));
            |ports| == n && forall k :: k in ports ==> k.port.Some? && k.port.value < n
  {
    hide BuildRule;
    if n > 0 {
      NewPortCount(t, v, n - 1);
      assert PortRequests(v, n)[..n - 1] == PortRequests(v, n - 1);
    }
  }

  lemma FilledLimit(v: Ip, limit: nat, w: World)
    requires 0 < limit < 0x1_0000
    requires var only := Request(Key(v, Some(TCP), None), TcpRule(v, None));
             w.table == Reserve(START.table, RefreshPlan(START.table, only, PortRequests(v, limit), limit).announce)
    ensures |PortKeys(w.table, Key(v, Some(TCP), None))| == limit
    ensures MayAnnounce(w.table, PortKey(v, limit))
  {
    var only := Request(Key(v, Some(TCP), None), TcpRule(v, None));
    NewPortCount(START.table, v, limit);
    NewPortKeys(START.table, only, PortRequests(v, limit));
    assert PortKeys(START.table, only.key) == {};
    hide NewPorts, PortRequests, PortKeys, TcpRule;
    var ports := NewPorts(START.table, only.key, PortRequests(v, limit));
    assert RefreshPlan(START.table, only, PortRequests(v, limit), limit).announce == ports;
    ReserveAddsKeys(START.table, ports);
  }

  lemma RefreshEnabled(v: Ip, n: nat, maxPorts: nat)
    requires n <= 0x1_0000
    ensures Enabled(START, PlansRefresh(Request(Key(v, Some(TCP), None), TcpRule(v, None)), PortRequests(v, n), maxPorts))
  {
    hide TcpRule, Keyed;
    TcpRuleKeyed(v, None);
    forall q | q in PortRequests(v, n) ensures Keyed(q.key, q.rule) {
      TcpRuleKeyed(v, q.key.port);
    }
  }

  /** A refresh may fill the limit, and a BAN for one more port then goes past it. */
  lemma BanPassesLimit(v: Ip, limit: nat)
    requires 0 < limit < 0x1_0000
    ensures var only := Request(Key(v, Some(TCP), None), TcpRule(v, None));
            var events := [PlansRefresh(only, PortRequests(v, limit), limit),
                           Announces(PortKey(v, limit), TcpRule(v, Some(limit)))];
            IsRun(START, events) && |PortKeys(RunTo(START, events).table, only.key)| == limit + 1
  {
    hide TcpRule, Keyed, PortRequests, PortKeys, RefreshPlan, MayAnnounce;
    var only := Request(Key(v, Some(TCP), None), TcpRule(v, None));
    var e1 := PlansRefresh(only, PortRequests(v, limit), limit);
    var e2 := Announces(PortKey(v, limit), TcpRule(v, Some(limit)));
    RefreshEnabled(v, limit, limit);
    TcpRuleKeyed(v, Some(limit));
    var w1 := Step(START, e1);
    assert Enabled(w1, e2);
    assert w1.table == Reserve(START.table, RefreshPlan(START.table, only, PortRequests(v, limit), limit).announce);
    hide Enabled, Step;
    FilledLimit(v, limit, w1);
    AddedPort(w1, e2, only.key);
    assert forall i: nat :: i < 2 ==> Follows(START, [w1, Step(w1, e2)], [e1, e2], i);
    OneByOne(START, [w1, Step(w1, e2)], [e1, e2]);
  }
}
