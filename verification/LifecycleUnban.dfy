/** What UNBAN guarantees: it is final, and it removes every path of the victim unless a delete is refused. */
module LifecycleUnban {
  import opened Octets
  import opened FlowSpecRule
  import opened Lifecycle
  import opened LifecycleMeaning
  import opened LifecycleRuns
  import opened LifecycleSafety

  predicate OfVictim(r: Rule, v: Ip) {
    RuleKey(r).Some? && RuleKey(r).value.victim == v
  }

  ghost predicate NoPaths(w: World, v: Ip) {
    forall uuid :: uuid in w.paths ==> !OfVictim(w.paths[uuid], v)
  }

  ghost predicate NoThreads(w: World, v: Ip) {
    forall k :: k in w.threads ==> k.victim != v
  }

  /** Nothing of the victim is left anywhere. */
  ghost predicate Clean(w: World, v: Ip) {
    !HasRules(w.table, v) && NoThreads(w, v) && NoPaths(w, v) && v !in w.table.refreshing
  }

  lemma NoRulesIsClean(w: World, v: Ip)
    requires Invariant(w) && !HasRules(w.table, v) && v !in w.table.refreshing
    ensures Clean(w, v)
  {
    hide ThreadFits, FenceOk, RuleKey, Plain, CleanerOk;
    forall k | k in w.threads ensures k.victim != v {
      assert KeyOk(w, k);
    }
    NoRulesNoPaths(w, v);
  }

  lemma NoRulesNoPaths(w: World, v: Ip)
    requires Invariant(w) && !HasRules(w.table, v)
    ensures NoPaths(w, v)
  {
    hide KeyOk, FenceOk, RuleKey, Plain, CleanerOk;
    forall uuid | uuid in w.paths ensures !OfVictim(w.paths[uuid], v) {
      assert Tracked(w, uuid);
    }
  }

  lemma InvariantKey(w: World, k: Key)
    requires Invariant(w)
    ensures KeyOk(w, k) && CleanerOk(w, k)
  {
    hide KeyOk, FenceOk, Tracked, CleanerOk;
  }

  lemma InvariantFence(w: World, v: Ip)
    requires Invariant(w)
    ensures FenceOk(w, v)
  {
    hide KeyOk, FenceOk, Tracked, CleanerOk;
  }

  // ----- behind the fence nothing is added -----

  predicate IsAdding(w: World, k: Key) {
    k in w.threads && w.threads[k].Adding?
  }

  /**
    * Between two points of a run no rule of the victim enters the table, no add is begun, and every path of the victim
    * at the later point was there at the earlier one or comes from an add that was under way then.
    */
  ghost predicate NothingAdded(w: World, w': World, v: Ip) {
    && VictimKeys(w'.table, v) <= VictimKeys(w.table, v)
    && (forall k: Key :: k.victim == v && IsAdding(w', k) ==> IsAdding(w, k))
    && (forall uuid :: uuid in w'.paths && OfVictim(w'.paths[uuid], v) ==>
          (uuid in w.paths && w.paths[uuid] == w'.paths[uuid]) || IsAdding(w, RuleKey(w'.paths[uuid]).value))
  }

  lemma NothingAddedTransitive(w: World, w': World, w'': World, v: Ip)
    requires NothingAdded(w, w', v) && NothingAdded(w', w'', v)
    ensures NothingAdded(w, w'', v)
  {
    hide VictimKeys, RuleKey, IsAdding;
  }

  lemma FencedTableStep(w: World, e: Event, v: Ip)
    requires Enabled(w, e) && v in w.table.fenced
    ensures VictimKeys(Step(w, e).table, v) <= VictimKeys(w.table, v)
    ensures var t := Step(w, e).table;
            && (v in t.fenced || (!HasRules(t, v) && v !in t.refreshing))
            && (v in w.table.refreshing && e != FinishesCapture(v) ==> v in t.fenced && v in t.refreshing)
  {
    hide RefreshPlan, ClearFence, Started, ThreadsAfter, PathsAfter, CleanersAfter, ToDelete, Keyed;
    match e {
      case Unbans(u) =>
        ClearFenceKeepsRules(RequestAll(w.table.(fenced := w.table.fenced + {u}), VictimKeys(w.table, u)), u);
      case FinishesCapture(u) => ClearFenceKeepsRules(w.table.(refreshing := w.table.refreshing - {u}), u);
      case FailsAnnounce(k) => ClearFenceKeepsRules(w.table.(rules := w.table.rules - {k}), k.victim);
      case CompletesWithdraw(k) => ClearFenceKeepsRules(w.table.(rules := w.table.rules - {k}), k.victim);
      case PlansRefresh(only, requests, maxPorts) => PlanIsNew(w.table, only, requests, maxPorts);
      case _ =>
    }
  }

  lemma FencedThreadStep(w: World, e: Event, v: Ip, k: Key)
    requires Enabled(w, e) && v in w.table.fenced && k.victim == v && IsAdding(Step(w, e), k)
    ensures IsAdding(w, k)
  {
    hide RefreshPlan, TableAfter, PathsAfter, CleanersAfter, ToDelete, Keyed;
    if e.PlansRefresh? {
      PlanIsNew(w.table, e.only, e.requests, e.maxPorts);
    }
  }

  lemma FencedPathStep(w: World, e: Event, v: Ip, uuid: Uuid)
    requires Enabled(w, e) && Invariant(w) && uuid in Step(w, e).paths
    ensures var r := Step(w, e).paths[uuid];
            (uuid in w.paths && w.paths[uuid] == r) || (RuleKey(r).Some? && IsAdding(w, RuleKey(r).value))
  {
    hide TableAfter, ThreadsAfter, CleanersAfter, Started, RuleKey, Invariant;
    if e.PathAdded? {
      InvariantKey(w, e.key);
    }
  }

  lemma FencedStepAddsNothing(w: World, e: Event, v: Ip)
    requires Enabled(w, e) && Invariant(w) && v in w.table.fenced
    ensures NothingAdded(w, Step(w, e), v)
  {
    hide Invariant, Step, Enabled, HasRules, VictimKeys, IsAdding, RuleKey;
    FencedTableStep(w, e, v);
    forall k: Key | k.victim == v && IsAdding(Step(w, e), k) ensures IsAdding(w, k) {
      FencedThreadStep(w, e, v, k);
    }
    forall uuid | uuid in Step(w, e).paths && OfVictim(Step(w, e).paths[uuid], v)
      ensures (uuid in w.paths && w.paths[uuid] == Step(w, e).paths[uuid]) || IsAdding(w, RuleKey(Step(w, e).paths[uuid]).value)
    {
      FencedPathStep(w, e, v, uuid);
    }
  }

  /** The fence falls only over a clean victim. */
  lemma FencedStep(w: World, e: Event, v: Ip)
    requires Enabled(w, e) && Invariant(w) && v in w.table.fenced
    ensures v in Step(w, e).table.fenced || Clean(Step(w, e), v)
    ensures v in w.table.refreshing && e != FinishesCapture(v) ==>
              v in Step(w, e).table.fenced && v in Step(w, e).table.refreshing
  {
    hide Clean, Invariant, Step, Enabled, HasRules, VictimKeys;
    InvariantStep(w, e);
    FencedTableStep(w, e, v);
    if v !in Step(w, e).table.fenced {
      NoRulesIsClean(Step(w, e), v);
    }
  }

  lemma FencedIsNotClean(w: World, v: Ip)
    requires Invariant(w) && v in w.table.fenced
    ensures !Clean(w, v)
  {
    hide Invariant, NoThreads, NoPaths, HasRules;
    InvariantFence(w, v);
  }

  /** Along the run there is a moment at which nothing of the victim is left. */
  ghost predicate CleanAtSomePoint(w: World, events: seq<Event>, v: Ip)
    requires IsRun(w, events)
    decreases |events|
  {
    Clean(w, v) || (events != [] && CleanAtSomePoint(Step(w, events[0]), events[1..], v))
  }

  lemma CleanNow(w: World, events: seq<Event>, v: Ip)
    requires Clean(w, v) && IsRun(w, events)
    ensures CleanAtSomePoint(w, events, v)
  {
    hide Clean, Step, Enabled;
  }

  lemma {:induction false} FencedRun(w: World, events: seq<Event>, v: Ip)
    requires Invariant(w) && IsRun(w, events) && v in w.table.fenced
    ensures || CleanAtSomePoint(w, events, v)
            || (v in RunTo(w, events).table.fenced && NothingAdded(w, RunTo(w, events), v))
    decreases |events|
  {
    hide Invariant, Enabled, Step, Clean;
    if events == [] {
      hide VictimKeys, RuleKey, IsAdding;
    } else {
      hide NothingAdded;
      var w' := Step(w, events[0]);
      FencedStep(w, events[0], v);
      FencedStepAddsNothing(w, events[0], v);
      InvariantStep(w, events[0]);
      if v in w'.table.fenced {
        FencedRun(w', events[1..], v);
        if !CleanAtSomePoint(w, events, v) {
          NothingAddedTransitive(w, w', RunTo(w, events), v);
        }
      } else {
        assert Clean(w', v) && CleanAtSomePoint(w', events[1..], v);
      }
    }
  }

  /**
    * A refresh that began before UNBAN cannot add a path after it: until the refresh gives up its token, the fence stays
    * up, no rule of the victim enters the table, no add begins, and GoBGP gets no path of the victim but from the adds
    * that were already under way.
    */
  lemma {:induction false} RefreshCannotOutliveUnban(w: World, events: seq<Event>, v: Ip)
    requires Invariant(w) && IsRun(w, events) && v in w.table.fenced && v in w.table.refreshing
    requires FinishesCapture(v) !in events
    ensures v in RunTo(w, events).table.fenced
    ensures NothingAdded(w, RunTo(w, events), v)
    decreases |events|
  {
    hide Invariant, Enabled, Step, Clean;
    if events == [] {
      hide VictimKeys, RuleKey, IsAdding;
    } else {
      hide NothingAdded;
      assert events[0] in events;
      FencedStep(w, events[0], v);
      FencedStepAddsNothing(w, events[0], v);
      InvariantStep(w, events[0]);
      RefreshCannotOutliveUnban(Step(w, events[0]), events[1..], v);
      NothingAddedTransitive(w, Step(w, events[0]), RunTo(w, events), v);
    }
  }

  // ----- refused deletes -----

  /** GoBGP has refused to delete a path of the victim and the table has not been told yet. */
  ghost predicate RefusalPending(w: World, v: Ip) {
    exists k :: k in w.threads && k.victim == v && w.threads[k].Deleted? && !w.threads[k].success
  }

  /** Along the run, before the fence falls, GoBGP refuses to delete a path of the victim. */
  ghost predicate RefusalSeen(w: World, events: seq<Event>, v: Ip)
    requires IsRun(w, events)
    decreases |events|
  {
    v in w.table.fenced && (RefusalPending(w, v) || (events != [] && RefusalSeen(Step(w, events[0]), events[1..], v)))
  }

  predicate Refused(w: World, k: Key) {
    k in w.threads && w.threads[k].Deleted? && !w.threads[k].success
  }

  /** Nobody will go on with this entry, or only to learn of the refusal. */
  predicate Stuck(w: World, k: Key) {
    k in w.table.rules && (k !in w.threads || Refused(w, k))
  }

  /** The thread working on this entry will remove it, unless GoBGP refuses. */
  predicate Leaving(w: World, k: Key) {
    k in w.table.rules ==> k in w.threads && !Refused(w, k) && w.table.rules[k].state != Announcing
  }

  lemma StuckStep(w: World, e: Event, k: Key)
    requires Enabled(w, e) && Invariant(w) && Stuck(w, k) && e != Unbans(k.victim)
    requires !(e.CleansUp? && k.victim !in w.table.fenced && SameProtocol(k, e.key) && k.port.Some?)
    ensures Stuck(Step(w, e), k)
  {
    hide RefreshPlan, ClearFence, PathsAfter, CleanersAfter, Invariant, Keyed, HasRules;
    InvariantKey(w, k);
    match e {
      case Unbans(u) =>
        ClearFenceKeepsRules(RequestAll(w.table.(fenced := w.table.fenced + {u}), VictimKeys(w.table, u)), u);
      case FinishesCapture(u) => ClearFenceKeepsRules(w.table.(refreshing := w.table.refreshing - {u}), u);
      case FailsAnnounce(j) => ClearFenceKeepsRules(w.table.(rules := w.table.rules - {j}), j.victim);
      case CompletesWithdraw(j) => ClearFenceKeepsRules(w.table.(rules := w.table.rules - {j}), j.victim);
      case PlansRefresh(only, requests, maxPorts) => PlanIsNew(w.table, only, requests, maxPorts);
      case _ =>
    }
  }

  lemma LeavingStep(w: World, e: Event, k: Key)
    requires Enabled(w, e) && Invariant(w) && Leaving(w, k) && e != DeleteRefused(k)
    requires k in Step(w, e).table.rules ==> k in w.table.rules
    ensures Leaving(Step(w, e), k)
  {
    hide RefreshPlan, ClearFence, PathsAfter, CleanersAfter, Invariant, Keyed, HasRules;
    InvariantKey(w, k);
    match e {
      case Unbans(u) =>
        ClearFenceKeepsRules(RequestAll(w.table.(fenced := w.table.fenced + {u}), VictimKeys(w.table, u)), u);
      case FinishesCapture(u) => ClearFenceKeepsRules(w.table.(refreshing := w.table.refreshing - {u}), u);
      case FailsAnnounce(j) => ClearFenceKeepsRules(w.table.(rules := w.table.rules - {j}), j.victim);
      case CompletesWithdraw(j) => ClearFenceKeepsRules(w.table.(rules := w.table.rules - {j}), j.victim);
      case PlansRefresh(only, requests, maxPorts) => PlanIsNew(w.table, only, requests, maxPorts);
      case _ =>
    }
  }

  /** A stuck entry keeps the fence up. */
  lemma StuckKeepsFence(w: World, e: Event, k: Key)
    requires Enabled(w, e) && Invariant(w) && k.victim in w.table.fenced
    requires Stuck(w, k) && e != Unbans(k.victim)
    ensures Stuck(Step(w, e), k) && k.victim in Step(w, e).table.fenced
  {
    hide Step, Enabled, Invariant, VictimKeys;
    StuckStep(w, e, k);
    FencedTableStep(w, e, k.victim);
  }

  lemma {:induction false} StuckRun(w: World, events: seq<Event>, k: Key)
    requires Invariant(w) && IsRun(w, events) && k.victim in w.table.fenced
    requires Stuck(w, k) && Unbans(k.victim) !in events
    ensures !CleanAtSomePoint(w, events, k.victim)
    ensures Invariant(RunTo(w, events)) && Stuck(RunTo(w, events), k) && k.victim in RunTo(w, events).table.fenced
    decreases |events|
  {
    hide Invariant, Enabled, Step, Clean, Stuck;
    FencedIsNotClean(w, k.victim);
    if events != [] {
      assert events[0] in events;
      StuckKeepsFence(w, events[0], k);
      InvariantStep(w, events[0]);
      StuckRun(Step(w, events[0]), events[1..], k);
    }
  }

  /** With no thread on it, a stuck entry has its path at GoBGP. */
  lemma StuckHasPath(w: World, k: Key)
    requires Invariant(w) && Stuck(w, k) && NoThreads(w, k.victim)
    ensures !NoPaths(w, k.victim)
  {
    hide Invariant, RuleKey, Plain;
    InvariantKey(w, k);
    assert OfVictim(w.paths[w.table.rules[k].uuid], k.victim);
  }

  ghost predicate AllLeaving(w: World, v: Ip) {
    forall k: Key :: k.victim == v ==> Leaving(w, k)
  }

  lemma AllLeavingStep(w: World, e: Event, v: Ip)
    requires Enabled(w, e) && Invariant(w) && v in w.table.fenced
    requires AllLeaving(w, v) && e != Unbans(v) && !(e.DeleteRefused? && e.key.victim == v)
    ensures AllLeaving(Step(w, e), v)
  {
    hide Step, Enabled, Invariant, Leaving;
    FencedTableStep(w, e, v);
    forall k: Key | k.victim == v ensures Leaving(Step(w, e), k) {
      assert Leaving(w, k);
      assert k in Step(w, e).table.rules ==> k in VictimKeys(Step(w, e).table, v);
      LeavingStep(w, e, k);
    }
  }

  lemma AllLeavingNoRefusal(w: World, v: Ip)
    requires Invariant(w) && AllLeaving(w, v)
    ensures !RefusalPending(w, v)
  {
    hide Invariant, ThreadFits, HasPath, Keyed;
    forall k | k in w.threads && k.victim == v ensures !Refused(w, k) {
      InvariantKey(w, k);
      assert Leaving(w, k);
    }
  }

  lemma AllGone(w: World, v: Ip)
    requires Invariant(w) && AllLeaving(w, v) && NoThreads(w, v)
    ensures NoPaths(w, v)
  {
    hide Invariant, NoPaths;
    NoRulesNoPaths(w, v);
  }

  lemma RefusalStep(w: World, k: Key)
    requires Enabled(w, DeleteRefused(k)) && Invariant(w) && k.victim in w.table.fenced
    ensures var w' := Step(w, DeleteRefused(k));
            Stuck(w', k) && RefusalPending(w', k.victim) && k.victim in w'.table.fenced
  {
    hide Invariant;
    InvariantKey(w, k);
    assert Refused(Step(w, DeleteRefused(k)), k);
  }

  /** The paths of a victim behind the fence are all gone in the end exactly when GoBGP refuses no delete. */
  lemma {:induction false} LeavingRun(w: World, events: seq<Event>, v: Ip)
    requires Invariant(w) && IsRun(w, events) && v in w.table.fenced && AllLeaving(w, v)
    requires Unbans(v) !in events && NoThreads(RunTo(w, events), v)
    ensures CleanAtSomePoint(w, events, v) || NoPaths(RunTo(w, events), v) <==> !RefusalSeen(w, events, v)
    ensures RefusalSeen(w, events, v) ==> v in RunTo(w, events).table.fenced && !CleanAtSomePoint(w, events, v)
    decreases |events|
  {
    hide Invariant, Enabled, Step, Clean, AllLeaving, NoThreads, NoPaths, RefusalPending;
    FencedIsNotClean(w, v);
    AllLeavingNoRefusal(w, v);
    if events == [] {
      AllGone(w, v);
    } else {
      var e, w', rest := events[0], Step(w, events[0]), events[1..];
      assert e in events;
      InvariantStep(w, e);
      if e.DeleteRefused? && e.key.victim == v {
        RefusalStep(w, e.key);
        StuckRun(w', rest, e.key);
        StuckHasPath(RunTo(w', rest), e.key);
      } else {
        AllLeavingStep(w, e, v);
        FencedStep(w, e, v);
        if v in w'.table.fenced {
          LeavingRun(w', rest, v);
        } else {
          assert Clean(w', v) && CleanAtSomePoint(w', rest, v);
        }
      }
    }
  }

  // ----- UNBAN -----

  lemma SameRulesSameVictims(t: Table, u: Table, v: Ip)
    requires t.rules == u.rules
    ensures HasRules(t, v) == HasRules(u, v)
  {
  }

  /** UNBAN puts up the fence, or there was nothing to withdraw. */
  lemma UnbanFences(w: World, v: Ip)
    requires Invariant(w)
    ensures v in Step(w, Unbans(v)).table.fenced || Clean(Step(w, Unbans(v)), v)
  {
    hide Invariant, ClearFence, HasRules, Clean, FenceOk;
    var t := RequestAll(w.table.(fenced := w.table.fenced + {v}), VictimKeys(w.table, v));
    ClearFenceKeepsRules(t, v);
    InvariantStep(w, Unbans(v));
    if v !in Step(w, Unbans(v)).table.fenced {
      SameRulesSameVictims(t, ClearFence(t, v), v);
      NoRulesIsClean(Step(w, Unbans(v)), v);
    }
  }

  lemma UnbanAddsNothing(w: World, v: Ip)
    requires Invariant(w)
    ensures NothingAdded(w, Step(w, Unbans(v)), v)
  {
    hide Invariant, ClearFence, RuleKey;
    ClearFenceKeepsRules(RequestAll(w.table.(fenced := w.table.fenced + {v}), VictimKeys(w.table, v)), v);
  }

  /** After UNBAN every entry of the victim is on its way out, or its delete has just been refused. */
  lemma UnbanReachesEntry(w: World, k: Key)
    requires Invariant(w)
    ensures var w' := Step(w, Unbans(k.victim));
            Leaving(w', k) || (Stuck(w', k) && Refused(w', k))
  {
    hide Invariant, ClearFence, HasRules, Keyed, HasPath;
    InvariantKey(w, k);
    ClearFenceKeepsRules(RequestAll(w.table.(fenced := w.table.fenced + {k.victim}), VictimKeys(w.table, k.victim)), k.victim);
  }

  lemma UnbanRun(w: World, events: seq<Event>, v: Ip)
    requires Invariant(w) && IsRun(Step(w, Unbans(v)), events)
    requires var w' := Step(w, Unbans(v)); Unbans(v) !in events && NoThreads(RunTo(w', events), v)
    ensures var w' := Step(w, Unbans(v));
            && (CleanAtSomePoint(w', events, v) || NoPaths(RunTo(w', events), v) <==> !RefusalSeen(w', events, v))
            && (RefusalSeen(w', events, v) ==> v in RunTo(w', events).table.fenced && !CleanAtSomePoint(w', events, v))
  {
    var w' := Step(w, Unbans(v));
    InvariantStep(w, Unbans(v));
    UnbanFences(w, v);
    forall k: Key | k.victim == v ensures Leaving(w', k) || (Stuck(w', k) && Refused(w', k)) {
      UnbanReachesEntry(w, k);
    }
    hide Invariant, Step, Clean, NoThreads, NoPaths, Leaving, Stuck;
    if v !in w'.table.fenced {
      CleanNow(w', events, v);
    } else if k: Key :| k.victim == v && Stuck(w', k) && Refused(w', k) {
      assert RefusalPending(w', v);
      StuckRun(w', events, k);
      StuckHasPath(RunTo(w', events), k);
    } else {
      LeavingRun(w', events, v);
    }
  }

  /**
    * UNBAN is final: in every run after it, until the moment nothing of the victim is left (no rule, no thread, no
    * path at GoBGP, no refresh in progress), the fence stays up, no rule of the victim enters the table and GoBGP gets
    * no path of it but from the adds that were under way. And UNBAN is complete: without a second UNBAN, once no thread
    * works for the victim, GoBGP holds no path of it (or there was such a moment in between) exactly when GoBGP has
    * refused no delete. A refused delete leaves a path and the fence in place.
    */
  lemma UnbanIsFinal(before: seq<Event>, after: seq<Event>, v: Ip)
    requires IsRun(START, before) && IsRun(Step(RunTo(START, before), Unbans(v)), after)
    ensures var w := RunTo(START, before);
            var w' := Step(w, Unbans(v));
            var end := RunTo(w', after);
            && (CleanAtSomePoint(w', after, v) || (v in end.table.fenced && NothingAdded(w, end, v)))
            && (Unbans(v) !in after && NoThreads(end, v) ==>
                  && (CleanAtSomePoint(w', after, v) || NoPaths(end, v) <==> !RefusalSeen(w', after, v))
                  && (RefusalSeen(w', after, v) ==> v in end.table.fenced && !NoPaths(end, v)))
  {
    Reached(before);
    var w := RunTo(START, before);
    var w' := Step(w, Unbans(v));
    UnbanFences(w, v);
    UnbanAddsNothing(w, v);
    InvariantStep(w, Unbans(v));
    hide Invariant, Step, Clean, NothingAdded, IsRun, RunTo, NoThreads, NoPaths;
    if Unbans(v) !in after && NoThreads(RunTo(w', after), v) {
      UnbanRun(w, after, v);
    }
    if v in w'.table.fenced {
      FencedRun(w', after, v);
      if !CleanAtSomePoint(w', after, v) {
        NothingAddedTransitive(w, w', RunTo(w', after), v);
      }
    } else {
      CleanNow(w', after, v);
    }
  }

  // ----- UNBAN without further adds -----

  /** The event puts a rule of the victim into the table. */
  predicate AddsRule(w: World, e: Event, v: Ip) {
    || (e.Announces? && e.key.victim == v && MayAnnounce(w.table, e.key))
    || (e.PlansRefresh? && e.only.key.victim == v && v !in w.table.fenced)
  }

  ghost predicate NoAdds(w: World, events: seq<Event>, v: Ip)
    requires IsRun(w, events)
    decreases |events|
  {
    events != [] ==> !AddsRule(w, events[0], v) && NoAdds(Step(w, events[0]), events[1..], v)
  }

  lemma OtherStepsAddNothing(w: World, e: Event, v: Ip)
    requires Enabled(w, e) && !AddsRule(w, e, v)
    ensures VictimKeys(Step(w, e).table, v) <= VictimKeys(w.table, v)
  {
    hide RefreshPlan, ClearFence, Started, ThreadsAfter, PathsAfter, CleanersAfter, ToDelete, Keyed;
    match e {
      case Unbans(u) =>
        ClearFenceKeepsRules(RequestAll(w.table.(fenced := w.table.fenced + {u}), VictimKeys(w.table, u)), u);
      case FinishesCapture(u) => ClearFenceKeepsRules(w.table.(refreshing := w.table.refreshing - {u}), u);
      case FailsAnnounce(k) => ClearFenceKeepsRules(w.table.(rules := w.table.rules - {k}), k.victim);
      case CompletesWithdraw(k) => ClearFenceKeepsRules(w.table.(rules := w.table.rules - {k}), k.victim);
      case PlansRefresh(only, requests, maxPorts) => PlanIsNew(w.table, only, requests, maxPorts);
      case _ =>
    }
  }

  lemma {:induction false} RunAddsNothing(w: World, events: seq<Event>, v: Ip)
    requires IsRun(w, events) && NoAdds(w, events, v)
    ensures VictimKeys(RunTo(w, events).table, v) <= VictimKeys(w.table, v)
    decreases |events|
  {
    hide Enabled, Step, VictimKeys, AddsRule;
    if events != [] {
      OtherStepsAddNothing(w, events[0], v);
      RunAddsNothing(Step(w, events[0]), events[1..], v);
    }
  }

  lemma NoKeysNoRules(t: Table, v: Ip)
    ensures VictimKeys(t, v) == {} <==> !HasRules(t, v)
  {
    if k :| k in t.rules && k.victim == v {
      assert k in VictimKeys(t, v);
    }
  }

  lemma {:induction false} CleanStaysClean(w: World, events: seq<Event>, v: Ip)
    requires Invariant(w) && IsRun(w, events) && NoAdds(w, events, v) && CleanAtSomePoint(w, events, v)
    ensures NoPaths(RunTo(w, events), v)
    decreases |events|
  {
    hide Invariant, Enabled, Step, VictimKeys, AddsRule, HasRules, NoPaths, NoThreads;
    if Clean(w, v) {
      NoKeysNoRules(w.table, v);
      RunAddsNothing(w, events, v);
      NoKeysNoRules(RunTo(w, events).table, v);
      RunKeepsInvariant(w, events);
      NoRulesNoPaths(RunTo(w, events), v);
    } else {
      InvariantStep(w, events[0]);
      CleanStaysClean(Step(w, events[0]), events[1..], v);
    }
  }

  /**
    * When no rule of the victim is added after the last UNBAN, then, once no thread works for the victim, GoBGP holds no
    * path of it exactly when it has refused no delete.
    */
  lemma UnbanCompletes(w: World, events: seq<Event>, v: Ip)
    requires Invariant(w) && IsRun(Step(w, Unbans(v)), events)
    requires var w' := Step(w, Unbans(v));
             Unbans(v) !in events && NoAdds(w', events, v) && NoThreads(RunTo(w', events), v)
    ensures var w' := Step(w, Unbans(v));
            NoPaths(RunTo(w', events), v) <==> !RefusalSeen(w', events, v)
  {
    hide Invariant, Step, Clean, NoThreads, NoPaths, IsRun, RunTo, NoAdds;
    var w' := Step(w, Unbans(v));
    UnbanRun(w, events, v);
    InvariantStep(w, Unbans(v));
    if CleanAtSomePoint(w', events, v) {
      CleanStaysClean(w', events, v);
    }
  }

  // ----- a refused delete -----

  /** The table and GoBGP before anything is announced, with the victims that have a refresh in progress. */
  function Blank(refreshing: set<Ip>): World {
    World(Table(map[], {}, refreshing), map[], multiset{}, map[], {})
  }

  /** One path is installed. */
  function Held(k: Key, r: Rule, uuid: Uuid, refreshing: set<Ip>): World {
    World(Table(map[k := Entry(Installed, r, uuid)], {}, refreshing), map[], multiset{}, map[uuid := r], {uuid})
  }

  lemma AddOne(k: Key, r: Rule, uuid: Uuid, refreshing: set<Ip>) returns (w1: World, w2: World)
    requires Keyed(k, r) && uuid != []
    ensures Enabled(Blank(refreshing), Announces(k, r)) && Step(Blank(refreshing), Announces(k, r)) == w1
    ensures Enabled(w1, PathAdded(k, uuid)) && Step(w1, PathAdded(k, uuid)) == w2
    ensures Enabled(w2, CompletesAnnounce(k)) && Step(w2, CompletesAnnounce(k)) == Held(k, r, uuid, refreshing)
  {
    hide Keyed, RuleKey, Plain;
    w1 := World(Table(map[k := Entry(Announcing, r, [])], {}, refreshing), map[k := Adding(r, false)], multiset{}, map[], {});
    w2 := w1.(threads := map[k := Added(uuid, false)], paths := map[uuid := r], issued := {uuid});
  }

  lemma RequestOne(t: Table, k: Key, r: Rule, uuid: Uuid)
    requires t == Table(map[k := Entry(Installed, r, uuid)], {}, {})
    ensures BeginWithdraw(t, k.victim) == Table(map[k := Entry(Withdrawing, r, uuid)], {k.victim}, {})
    ensures ToDelete(t, VictimKeys(t, k.victim)) == map[k := uuid]
  {
    var u := RequestAll(t.(fenced := t.fenced + {k.victim}), VictimKeys(t, k.victim));
    assert u.rules == map[k := Entry(Withdrawing, r, uuid)] && k in u.rules;
    assert HasRules(u, k.victim);
  }

  lemma RefuseOne(w4: World, w5: World, w6: World, k: Key, r: Rule, uuid: Uuid)
    requires w4.table == Table(map[k := Entry(Withdrawing, r, uuid)], {k.victim}, {}) && w4.threads == map[k := Deleting(uuid)]
    requires w5 == w4.(threads := map[k := Deleted(uuid, false)])
    requires w6 == w5.(table := Table(map[k := Entry(WithdrawRequested, r, uuid)], {k.victim}, {}), threads := map[])
    ensures Enabled(w4, DeleteRefused(k)) && Step(w4, DeleteRefused(k)) == w5
    ensures Enabled(w5, CompletesWithdraw(k)) && Step(w5, CompletesWithdraw(k)) == w6
  {
    hide ClearFence;
  }

  lemma WithdrawOne(w3: World, w4: World, k: Key, r: Rule, uuid: Uuid)
    requires w3.table == Table(map[k := Entry(Installed, r, uuid)], {}, {}) && w3.threads == map[]
    requires w4 == w3.(table := Table(map[k := Entry(Withdrawing, r, uuid)], {k.victim}, {}), threads := map[k := Deleting(uuid)])
    ensures Enabled(w3, Unbans(k.victim)) && Step(w3, Unbans(k.victim)) == w4
  {
    hide BeginWithdraw, ToDelete, VictimKeys;
    RequestOne(w3.table, k, r, uuid);
  }

  /** The failing input: GoBGP refuses the only delete. The path stays, with no thread on it, behind the fence. */
  lemma RefusedDeleteLeavesPath(k: Key, r: Rule, uuid: Uuid)
    requires Keyed(k, r) && uuid != []
    ensures var events := [Announces(k, r), PathAdded(k, uuid), CompletesAnnounce(k),
                           Unbans(k.victim), DeleteRefused(k), CompletesWithdraw(k)];
            && IsRun(START, events)
            && var w := RunTo(START, events);
               w.threads == map[] && uuid in w.paths && w.paths[uuid] == r && k.victim in w.table.fenced
  {
    hide Enabled, Step, Keyed, IsRun, RunTo;
    var w3 := Held(k, r, uuid, {});
    var w4 := w3.(table := Table(map[k := Entry(Withdrawing, r, uuid)], {k.victim}, {}), threads := map[k := Deleting(uuid)]);
    var w5 := w4.(threads := map[k := Deleted(uuid, false)]);
    var w6 := w5.(table := Table(map[k := Entry(WithdrawRequested, r, uuid)], {k.victim}, {}), threads := map[]);
    var w1, w2 := AddOne(k, r, uuid, {});
    WithdrawOne(w3, w4, k, r, uuid);
    RefuseOne(w4, w5, w6, k, r, uuid);
    OneByOne(START, [w1, w2, w3, w4, w5, w6], [Announces(k, r), PathAdded(k, uuid), CompletesAnnounce(k),
                                               Unbans(k.victim), DeleteRefused(k), CompletesWithdraw(k)]);
  }
}
