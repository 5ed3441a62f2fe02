/** What escalation guarantees: until UNBAN no packet that a path of the victim matched goes unmatched. */
module LifecycleCover {
  import opened Octets
  import opened FlowSpecRule
  import opened Filter
  import opened Lifecycle
  import opened LifecycleMeaning
  import opened LifecycleRuns
  import opened LifecycleSafety
  import opened LifecycleUnban

  /** GoBGP holds the path of a protocol-only rule and nobody is working on it. */
  ghost predicate Covers(w: World, only: Key) {
    && only in w.table.rules && w.table.rules[only].state == Installed && only !in w.threads
    && HasPath(w, w.table.rules[only].uuid, w.table.rules[only].rule)
  }

  lemma InstalledCovers(w: World, only: Key)
    requires Invariant(w) && only in w.table.rules && w.table.rules[only].state == Installed
    ensures Covers(w, only)
  {
    hide Invariant, Keyed;
    InvariantKey(w, only);
  }

  lemma CoverEntryStep(w: World, e: Event, only: Key)
    requires Enabled(w, e) && Covers(w, only) && only.port.None? && e != Unbans(only.victim)
    ensures only in Step(w, e).table.rules && Step(w, e).table.rules[only].state == Installed
  {
    hide ClearFence, RefreshPlan, HasRules, Started, ThreadsAfter, PathsAfter, CleanersAfter, Keyed;
    match e {
      case Unbans(u) =>
        ClearFenceKeepsRules(RequestAll(w.table.(fenced := w.table.fenced + {u}), VictimKeys(w.table, u)), u);
      case FinishesCapture(u) => ClearFenceKeepsRules(w.table.(refreshing := w.table.refreshing - {u}), u);
      case FailsAnnounce(k) => ClearFenceKeepsRules(w.table.(rules := w.table.rules - {k}), k.victim);
      case CompletesWithdraw(k) => ClearFenceKeepsRules(w.table.(rules := w.table.rules - {k}), k.victim);
      case _ =>
    }
  }

  lemma CoverStep(w: World, e: Event, only: Key)
    requires Enabled(w, e) && Invariant(w) && Covers(w, only) && only.port.None? && e != Unbans(only.victim)
    ensures Covers(Step(w, e), only)
  {
    hide Step, Enabled, Invariant, Covers;
    InvariantStep(w, e);
    CoverEntryStep(w, e, only);
    InstalledCovers(Step(w, e), only);
  }

  /** Once a protocol-only path is installed, it stays at GoBGP until UNBAN, whatever happens to the port rules. */
  lemma {:induction false} CoverStaysUntilUnban(w: World, events: seq<Event>, only: Key)
    requires Invariant(w) && IsRun(w, events) && Covers(w, only) && only.port.None?
    requires Unbans(only.victim) !in events
    ensures Covers(RunTo(w, events), only)
    decreases |events|
  {
    hide Invariant, Enabled, Step, Covers;
    if events != [] {
      assert events[0] in events;
      CoverStep(w, events[0], only);
      InvariantStep(w, events[0]);
      CoverStaysUntilUnban(Step(w, events[0]), events[1..], only);
    }
  }

  /** Escalation withdraws port rules only while GoBGP holds the covering path, and only port rules of that protocol. */
  lemma CleanUpIsCovered(events: seq<Event>, only: Key)
    requires IsRun(START, events) && Enabled(RunTo(START, events), CleansUp(only))
    requires Started(RunTo(START, events), CleansUp(only)) != map[]
    ensures var w := RunTo(START, events);
            && only.port.None? && Covers(w, only)
            && forall k :: k in Started(w, CleansUp(only)) ==> SameProtocol(k, only) && k.port.Some?
  {
    hide IsRun, RunTo, Invariant, Covers;
    Reached(events);
    InvariantKey(RunTo(START, events), only);
    InstalledCovers(RunTo(START, events), only);
  }

  /** A failed add touches no other rule: after a failed escalation the port rules are all still there. */
  lemma FailedAddLeavesOthers(w: World, only: Key, k: Key)
    requires Enabled(w, FailsAnnounce(only)) && k != only && k in w.table.rules
    ensures var w' := Step(w, FailsAnnounce(only));
            && k in w'.table.rules && w'.table.rules[k] == w.table.rules[k] && w'.paths == w.paths
  {
    hide ClearFence;
    ClearFenceKeepsRules(w.table.(rules := w.table.rules - {only}), only.victim);
  }

  // ----- what is being withdrawn is covered -----

  predicate IsWithdrawn(t: Table, k: Key) {
    k in t.rules && (t.rules[k].state == WithdrawRequested || t.rules[k].state == Withdrawing)
  }

  function OnlyKey(k: Key): Key {
    Key(k.victim, k.protocol, None)
  }

  /** While no UNBAN is in progress, a rule on its way out is a port rule whose protocol-only rule is installed. */
  ghost predicate WithdrawnIsCovered(w: World, k: Key) {
    k.victim !in w.table.fenced && IsWithdrawn(w.table, k) ==>
      k.port.Some? && k.protocol.Some? && Covers(w, OnlyKey(k))
  }

  /** The only steps that begin a withdrawal are UNBAN and the clean-up after an escalation. */
  lemma WithdrawalBegins(w: World, e: Event, k: Key)
    requires Enabled(w, e) && Invariant(w) && IsWithdrawn(Step(w, e).table, k)
    ensures || IsWithdrawn(w.table, k)
            || e == Unbans(k.victim)
            || (e.CleansUp? && MayCleanUp(w.table, e.key) && e.key.port.None? && SameProtocol(k, e.key) && k.port.Some?)
  {
    hide RefreshPlan, ClearFence, HasRules, Started, ThreadsAfter, PathsAfter, CleanersAfter, Invariant, Keyed;
    match e {
      case Unbans(u) =>
        ClearFenceKeepsRules(RequestAll(w.table.(fenced := w.table.fenced + {u}), VictimKeys(w.table, u)), u);
      case FinishesCapture(u) => ClearFenceKeepsRules(w.table.(refreshing := w.table.refreshing - {u}), u);
      case FailsAnnounce(j) => ClearFenceKeepsRules(w.table.(rules := w.table.rules - {j}), j.victim);
      case CompletesWithdraw(j) =>
        InvariantKey(w, j);
        ClearFenceKeepsRules(w.table.(rules := w.table.rules - {j}), j.victim);
      case CleansUp(j) => InvariantKey(w, j);
      case PlansRefresh(only, requests, maxPorts) => PlanIsNew(w.table, only, requests, maxPorts);
      case _ =>
    }
  }

  /** The fence goes up with UNBAN and comes down only when the victim has no rules. */
  lemma FenceSteps(w: World, e: Event, v: Ip)
    requires Enabled(w, e)
    ensures v in w.table.fenced ==> v in Step(w, e).table.fenced || !HasRules(Step(w, e).table, v)
    ensures v !in w.table.fenced && e != Unbans(v) ==> v !in Step(w, e).table.fenced
    ensures e == Unbans(v) ==> v in Step(w, e).table.fenced || !HasRules(Step(w, e).table, v)
  {
    hide RefreshPlan, ClearFence, Started, ThreadsAfter, PathsAfter, CleanersAfter, Keyed;
    match e {
      case Unbans(u) => UnbanFenceStep(w, u, v);
      case FinishesCapture(u) => ClearFenceKeepsRules(w.table.(refreshing := w.table.refreshing - {u}), u);
      case FailsAnnounce(k) => ClearFenceKeepsRules(w.table.(rules := w.table.rules - {k}), k.victim);
      case CompletesWithdraw(k) => ClearFenceKeepsRules(w.table.(rules := w.table.rules - {k}), k.victim);
      case _ =>
    }
  }

  lemma UnbanFenceStep(w: World, u: Ip, v: Ip)
    ensures var t := BeginWithdraw(w.table, u);
            && (v in w.table.fenced || u == v ==> v in t.fenced || !HasRules(t, v))
            && (v !in w.table.fenced && u != v ==> v !in t.fenced)
  {
  }

  lemma WithdrawnStep(w: World, e: Event, k: Key)
    requires Enabled(w, e) && Invariant(w) && WithdrawnIsCovered(w, k)
    ensures WithdrawnIsCovered(Step(w, e), k)
  {
    var w' := Step(w, e);
    hide Step, Enabled, Invariant, Covers;
    if k.victim !in w'.table.fenced && IsWithdrawn(w'.table, k) {
      FenceSteps(w, e, k.victim);
      assert HasRules(w'.table, k.victim);
      WithdrawalBegins(w, e, k);
      if !IsWithdrawn(w.table, k) {
        assert e.key == OnlyKey(k);
        InstalledCovers(w, e.key);
      }
      CoverStep(w, e, OnlyKey(k));
    }
  }

  lemma {:induction false} WithdrawnRun(w: World, events: seq<Event>)
    requires Invariant(w) && IsRun(w, events) && forall k: Key :: WithdrawnIsCovered(w, k)
    ensures forall k: Key :: WithdrawnIsCovered(RunTo(w, events), k)
    decreases |events|
  {
    hide Invariant, Enabled, Step, WithdrawnIsCovered;
    if events != [] {
      InvariantStep(w, events[0]);
      forall k: Key ensures WithdrawnIsCovered(Step(w, events[0]), k) {
        WithdrawnStep(w, events[0], k);
      }
      WithdrawnRun(Step(w, events[0]), events[1..]);
    }
  }

  // ----- the packets matched -----

  /** A path GoBGP holds for the victim matches the packet. */
  ghost predicate IsMatched(w: World, v: Ip, p: Packet) {
    exists uuid :: uuid in w.paths && OfVictim(w.paths[uuid], v) && Matches(p, w.paths[uuid])
  }

  /** A path that goes away leaves the path of its protocol-only rule, which matches everything it matched. */
  lemma DeletedIsCovered(w: World, k: Key, p: Packet)
    requires Invariant(w) && Enabled(w, PathDeleted(k)) && WithdrawnIsCovered(w, k) && k.victim !in w.table.fenced
    ensures var uuid := w.threads[k].uuid;
            uuid in w.paths && Matches(p, w.paths[uuid]) ==> IsMatched(Step(w, PathDeleted(k)), k.victim, p)
  {
    hide Invariant, Matches, RuleKey, Plain;
    InvariantKey(w, k);
    InvariantKey(w, OnlyKey(k));
    var only := w.table.rules[OnlyKey(k)];
    EscalationCovers(p, w.table.rules[k].rule, only.rule);
    assert OfVictim(w.paths[only.uuid], k.victim);
    assert only.uuid in Step(w, PathDeleted(k)).paths;
  }

  lemma OtherPathsStay(w: World, e: Event, uuid: Uuid)
    requires Enabled(w, e) && Invariant(w) && uuid in w.paths
    requires e.PathDeleted? ==> uuid != w.threads[e.key].uuid
    ensures uuid in Step(w, e).paths && Step(w, e).paths[uuid] == w.paths[uuid]
  {
    hide TableAfter, ThreadsAfter, CleanersAfter, Started, KeyOk, CleanerOk, FenceOk, Keyed;
    assert Tracked(w, uuid);
  }

  lemma MatchedStep(w: World, e: Event, v: Ip, p: Packet)
    requires Enabled(w, e) && Invariant(w) && v !in w.table.fenced && e != Unbans(v)
    requires forall k: Key :: WithdrawnIsCovered(w, k)
    requires IsMatched(w, v, p)
    ensures IsMatched(Step(w, e), v, p) && v !in Step(w, e).table.fenced
  {
    FenceSteps(w, e, v);
    var uuid :| uuid in w.paths && OfVictim(w.paths[uuid], v) && Matches(p, w.paths[uuid]);
    if e.PathDeleted? && w.threads[e.key].uuid == uuid {
      hide Step, Invariant, WithdrawnIsCovered, Matches, RuleKey, Plain;
      InvariantKey(w, e.key);
      assert e.key.victim == v;
      assert WithdrawnIsCovered(w, e.key);
      DeletedIsCovered(w, e.key, p);
    } else {
      hide Step, Invariant, Enabled, WithdrawnIsCovered, Matches, RuleKey;
      OtherPathsStay(w, e, uuid);
      assert OfVictim(Step(w, e).paths[uuid], v);
    }
  }

  lemma {:induction false} MatchedRun(w: World, events: seq<Event>, v: Ip, p: Packet)
    requires Invariant(w) && IsRun(w, events) && v !in w.table.fenced && Unbans(v) !in events
    requires forall k: Key :: WithdrawnIsCovered(w, k)
    requires IsMatched(w, v, p)
    ensures IsMatched(RunTo(w, events), v, p)
    decreases |events|
  {
    hide Invariant, Enabled, Step, WithdrawnIsCovered, IsMatched;
    if events != [] {
      assert events[0] in events;
      var w' := Step(w, events[0]);
      MatchedStep(w, events[0], v, p);
      InvariantStep(w, events[0]);
      forall k: Key ensures WithdrawnIsCovered(w', k) {
        WithdrawnStep(w, events[0], k);
      }
      MatchedRun(w', events[1..], v, p);
    }
  }

  /**
    * At every point of every run at which no UNBAN of the victim is in progress, a packet matched by a path of the
    * victim stays matched by a path of the victim until the next UNBAN: through refreshes, escalations, their clean-ups,
    * failed adds and refused deletes, in every order.
    */
  lemma MatchedUntilUnban(before: seq<Event>, after: seq<Event>, v: Ip, p: Packet)
    requires IsRun(START, before) && IsRun(RunTo(START, before), after)
    requires v !in RunTo(START, before).table.fenced && Unbans(v) !in after
    requires IsMatched(RunTo(START, before), v, p)
    ensures IsMatched(RunTo(RunTo(START, before), after), v, p)
  {
    assert forall k: Key :: WithdrawnIsCovered(START, k);
    hide Invariant, IsRun, RunTo, IsMatched, WithdrawnIsCovered;
    Reached(before);
    StartIsFine();
    WithdrawnRun(START, before);
    MatchedRun(RunTo(START, before), after, v, p);
  }
}
