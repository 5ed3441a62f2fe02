/** What the clean-up after an escalation achieves: the port rules go, unless GoBGP refuses. */
module LifecycleCleanup {
  import opened Octets
  import opened FlowSpecRule
  import opened Lifecycle
  import opened LifecycleMeaning
  import opened LifecycleRuns
  import opened LifecycleSafety
  import opened LifecycleUnban

  /** A port rule of this victim and protocol. */
  predicate IsPort(k: Key, v: Ip, protocol: Octet) {
    k.victim == v && k.protocol == Some(protocol) && k.port.Some?
  }

  /** The clean-up behind this rule goes ahead: the rule is installed and no UNBAN of its victim is in progress. */
  predicate GoesAhead(t: Table, only: Key) {
    only in t.rules && t.rules[only].state == Installed && only.victim !in t.fenced
  }

  /**
    * One clean-up step. Behind an installed protocol-only rule of a victim without a fence every port rule of the
    * protocol is afterwards on its way out: one whose add is unanswered is marked, one that is installed, or whose delete
    * was refused, is being deleted by a new thread. Nothing else changes, and otherwise nothing changes at all.
    */
  lemma CleanUpReachesPorts(w: World, v: Ip, protocol: Octet, k: Key)
    requires Enabled(w, CleansUp(Key(v, Some(protocol), None)))
    ensures var only := Key(v, Some(protocol), None);
            var t, t' := w.table, Step(w, CleansUp(only)).table;
            && t'.fenced == t.fenced && t'.refreshing == t.refreshing && (k in t'.rules <==> k in t.rules)
            && (k in t.rules && !(GoesAhead(t, only) && IsPort(k, v, protocol)) ==> t'.rules[k] == t.rules[k])
            && (k in t.rules && GoesAhead(t, only) && IsPort(k, v, protocol) ==>
                  t'.rules[k] == match t.rules[k].state
                                 case Announcing => t.rules[k].(state := WithdrawRequested)
                                 case Installed => t.rules[k].(state := Withdrawing)
                                 case WithdrawRequested =>
                                   if t.rules[k].uuid != [] then t.rules[k].(state := Withdrawing) else t.rules[k]
                                 case Withdrawing => t.rules[k])
  {
  }

  lemma CleanUpStartsDeletes(w: World, v: Ip, protocol: Octet, k: Key)
    requires Enabled(w, CleansUp(Key(v, Some(protocol), None))) && GoesAhead(w.table, Key(v, Some(protocol), None))
    requires k in w.table.rules && IsPort(k, v, protocol)
    requires w.table.rules[k].state == Installed || (w.table.rules[k].state == WithdrawRequested && w.table.rules[k].uuid != [])
    ensures var w' := Step(w, CleansUp(Key(v, Some(protocol), None)));
            k in w'.threads && w'.threads[k] == Deleting(w.table.rules[k].uuid)
  {
  }

  // ----- over runs -----

  /** GoBGP holds no path for a port rule of this victim and protocol. */
  ghost predicate NoPortPaths(w: World, v: Ip, protocol: Octet) {
    forall uuid :: uuid in w.paths && RuleKey(w.paths[uuid]).Some? ==> !IsPort(RuleKey(w.paths[uuid]).value, v, protocol)
  }

  ghost predicate NoPortThreads(w: World, v: Ip, protocol: Octet) {
    forall k :: k in w.threads ==> !IsPort(k, v, protocol)
  }

  /** No step of the run adds a port rule of this victim and protocol. */
  ghost predicate NoPortAdded(w: World, events: seq<Event>, v: Ip, protocol: Octet)
    requires IsRun(w, events)
    decreases |events|
  {
    events != [] ==>
      && (forall k: Key :: IsPort(k, v, protocol) && k in Step(w, events[0]).table.rules ==> k in w.table.rules)
      && NoPortAdded(Step(w, events[0]), events[1..], v, protocol)
  }

  /** The deletes are asked for again: by an UNBAN of the victim or by a further clean-up. */
  predicate AsksAgain(e: Event, v: Ip, protocol: Octet) {
    e == Unbans(v) || e == CleansUp(Key(v, Some(protocol), None))
  }

  ghost predicate PortRefusalPending(w: World, v: Ip, protocol: Octet) {
    exists k :: k in w.threads && IsPort(k, v, protocol) && w.threads[k].Deleted? && !w.threads[k].success
  }

  /** At some point of the run GoBGP has refused to delete the path of such a port rule. */
  ghost predicate PortRefusalSeen(w: World, events: seq<Event>, v: Ip, protocol: Octet)
    requires IsRun(w, events)
    decreases |events|
  {
    PortRefusalPending(w, v, protocol) || (events != [] && PortRefusalSeen(Step(w, events[0]), events[1..], v, protocol))
  }

  ghost predicate PortsLeaving(w: World, v: Ip, protocol: Octet) {
    forall k: Key :: IsPort(k, v, protocol) ==> Leaving(w, k)
  }

  lemma CleanUpOfOthers(w: World, e: Event, v: Ip, protocol: Octet, k: Key)
    requires Enabled(w, e) && Invariant(w) && e.CleansUp? && IsPort(k, v, protocol) && SameProtocol(k, e.key)
    ensures e == CleansUp(Key(v, Some(protocol), None))
  {
    hide Invariant;
    InvariantKey(w, e.key);
  }

  lemma StuckPortStep(w: World, e: Event, v: Ip, protocol: Octet, k: Key)
    requires Enabled(w, e) && Invariant(w) && IsPort(k, v, protocol) && Stuck(w, k) && !AsksAgain(e, v, protocol)
    ensures Stuck(Step(w, e), k)
  {
    hide Step, Enabled, Invariant, Stuck;
    if e.CleansUp? && SameProtocol(k, e.key) {
      CleanUpOfOthers(w, e, v, protocol, k);
    }
    StuckStep(w, e, k);
  }

  lemma {:induction false} StuckPortRun(w: World, events: seq<Event>, v: Ip, protocol: Octet, k: Key)
    requires Invariant(w) && IsRun(w, events) && IsPort(k, v, protocol) && Stuck(w, k)
    requires forall e :: e in events ==> !AsksAgain(e, v, protocol)
    ensures Invariant(RunTo(w, events)) && Stuck(RunTo(w, events), k)
    decreases |events|
  {
    hide Invariant, Enabled, Step, Stuck, AsksAgain;
    if events != [] {
      assert events[0] in events;
      StuckPortStep(w, events[0], v, protocol, k);
      InvariantStep(w, events[0]);
      StuckPortRun(Step(w, events[0]), events[1..], v, protocol, k);
    }
  }

  lemma StuckPortHasPath(w: World, v: Ip, protocol: Octet, k: Key)
    requires Invariant(w) && IsPort(k, v, protocol) && Stuck(w, k) && NoPortThreads(w, v, protocol)
    ensures !NoPortPaths(w, v, protocol)
  {
    hide Invariant, RuleKey, Plain;
    InvariantKey(w, k);
    assert RuleKey(w.paths[w.table.rules[k].uuid]) == Some(k);
  }

  lemma PortsLeavingStep(w: World, e: Event, v: Ip, protocol: Octet)
    requires Enabled(w, e) && Invariant(w) && PortsLeaving(w, v, protocol)
    requires !(e.DeleteRefused? && IsPort(e.key, v, protocol))
    requires forall k: Key :: IsPort(k, v, protocol) && k in Step(w, e).table.rules ==> k in w.table.rules
    ensures PortsLeaving(Step(w, e), v, protocol)
  {
    hide Step, Enabled, Invariant, Leaving;
    forall k: Key | IsPort(k, v, protocol) ensures Leaving(Step(w, e), k) {
      assert Leaving(w, k);
      LeavingStep(w, e, k);
    }
  }

  lemma PortsLeavingNoRefusal(w: World, v: Ip, protocol: Octet)
    requires Invariant(w) && PortsLeaving(w, v, protocol)
    ensures !PortRefusalPending(w, v, protocol)
  {
    hide Invariant, ThreadFits, HasPath, Keyed;
    forall k | k in w.threads && IsPort(k, v, protocol) ensures !Refused(w, k) {
      InvariantKey(w, k);
      assert Leaving(w, k);
    }
  }

  lemma PortsGone(w: World, v: Ip, protocol: Octet)
    requires Invariant(w) && PortsLeaving(w, v, protocol) && NoPortThreads(w, v, protocol)
    ensures NoPortPaths(w, v, protocol)
  {
    hide KeyOk, FenceOk, RuleKey, Plain, CleanerOk;
    forall uuid | uuid in w.paths && RuleKey(w.paths[uuid]).Some?
      ensures !IsPort(RuleKey(w.paths[uuid]).value, v, protocol)
    {
      assert Tracked(w, uuid);
      assert IsPort(RuleKey(w.paths[uuid]).value, v, protocol) ==> Leaving(w, RuleKey(w.paths[uuid]).value);
    }
  }

  lemma PortRefused(w: World, k: Key, v: Ip, protocol: Octet)
    requires Enabled(w, DeleteRefused(k)) && Invariant(w) && IsPort(k, v, protocol)
    ensures Stuck(Step(w, DeleteRefused(k)), k) && PortRefusalPending(Step(w, DeleteRefused(k)), v, protocol)
  {
    hide Invariant;
    InvariantKey(w, k);
    assert Refused(Step(w, DeleteRefused(k)), k);
  }

  lemma SeenNow(w: World, events: seq<Event>, v: Ip, protocol: Octet)
    requires IsRun(w, events) && PortRefusalPending(w, v, protocol)
    ensures PortRefusalSeen(w, events, v, protocol)
  {
    hide PortRefusalPending, Step, Enabled;
  }

  lemma {:induction false} PortsLeavingRun(w: World, events: seq<Event>, v: Ip, protocol: Octet)
    requires Invariant(w) && IsRun(w, events) && PortsLeaving(w, v, protocol) && NoPortAdded(w, events, v, protocol)
    requires forall e :: e in events ==> !AsksAgain(e, v, protocol)
    requires NoPortThreads(RunTo(w, events), v, protocol)
    ensures NoPortPaths(RunTo(w, events), v, protocol) <==> !PortRefusalSeen(w, events, v, protocol)
    decreases |events|
  {
    hide Invariant, Enabled, Step, PortsLeaving, NoPortThreads, NoPortPaths, PortRefusalPending, AsksAgain;
    PortsLeavingNoRefusal(w, v, protocol);
    if events == [] {
      PortsGone(w, v, protocol);
    } else {
      var e, w', rest := events[0], Step(w, events[0]), events[1..];
      assert e in events;
      InvariantStep(w, e);
      if e.DeleteRefused? && IsPort(e.key, v, protocol) {
        PortRefused(w, e.key, v, protocol);
        SeenNow(w', rest, v, protocol);
        StuckPortRun(w', rest, v, protocol, e.key);
        StuckPortHasPath(RunTo(w', rest), v, protocol, e.key);
      } else {
        PortsLeavingStep(w, e, v, protocol);
        PortsLeavingRun(w', rest, v, protocol);
      }
    }
  }

  lemma CleanUpReachesPort(w: World, v: Ip, protocol: Octet, k: Key)
    requires Invariant(w) && Enabled(w, CleansUp(Key(v, Some(protocol), None)))
    requires GoesAhead(w.table, Key(v, Some(protocol), None)) && IsPort(k, v, protocol)
    ensures var w' := Step(w, CleansUp(Key(v, Some(protocol), None)));
            Leaving(w', k) || (Stuck(w', k) && Refused(w', k))
  {
    hide Invariant, Keyed, HasPath;
    InvariantKey(w, k);
  }

  /**
    * After a clean-up that goes ahead, with no port rule of that victim and protocol added since and neither an UNBAN nor
    * another clean-up asking again, once no thread works on those port rules, GoBGP holds no path of any of them exactly
    * when it has refused to delete none.
    */
  lemma CleanUpCompletes(before: seq<Event>, after: seq<Event>, v: Ip, protocol: Octet)
    requires IsRun(START, before) && Enabled(RunTo(START, before), CleansUp(Key(v, Some(protocol), None)))
    requires GoesAhead(RunTo(START, before).table, Key(v, Some(protocol), None))
    requires var w' := Step(RunTo(START, before), CleansUp(Key(v, Some(protocol), None)));
             && IsRun(w', after) && NoPortAdded(w', after, v, protocol)
             && NoPortThreads(RunTo(w', after), v, protocol)
    requires forall e :: e in after ==> !AsksAgain(e, v, protocol)
    ensures var w' := Step(RunTo(START, before), CleansUp(Key(v, Some(protocol), None)));
            NoPortPaths(RunTo(w', after), v, protocol) <==> !PortRefusalSeen(w', after, v, protocol)
  {
    Reached(before);
    var w := RunTo(START, before);
    var e := CleansUp(Key(v, Some(protocol), None));
    var w' := Step(w, e);
    InvariantStep(w, e);
    forall k: Key | IsPort(k, v, protocol) ensures Leaving(w', k) || (Stuck(w', k) && Refused(w', k)) {
      CleanUpReachesPort(w, v, protocol, k);
    }
    hide Invariant, Step, NoPortThreads, NoPortPaths, Leaving, Stuck, IsRun, RunTo, NoPortAdded;
    if k: Key :| IsPort(k, v, protocol) && Stuck(w', k) && Refused(w', k) {
      assert PortRefusalPending(w', v, protocol);
      SeenNow(w', after, v, protocol);
      StuckPortRun(w', after, v, protocol, k);
      StuckPortHasPath(RunTo(w', after), v, protocol, k);
    } else {
      PortsLeavingRun(w', after, v, protocol);
    }
  }
}
