/** The operations of the lifecycle table said once more in its fields: which entries change, and to what. */
module LifecycleTable {
  import opened Octets
  import opened FlowSpecRule
  import opened Lifecycle
  import opened LifecycleRuns

  /** Announcing: an unfenced victim and a key that is not in the table. */
  lemma AnnounceEnters(t: Table, k: Key, r: Rule)
    ensures var t' := BeginAnnounce(t, k, r);
            && (MayAnnounce(t, k) <==> k.victim !in t.fenced && k !in t.rules)
            && t'.fenced == t.fenced && t'.refreshing == t.refreshing
            && t'.rules == if k.victim !in t.fenced && k !in t.rules then t.rules[k := Entry(Announcing, r, [])] else t.rules
  {
  }

  /** A refresh begins for a victim without fence and without a refresh; UNBAN and announcements have no say otherwise. */
  lemma TokenTaken(t: Table, v: Ip)
    ensures var t' := BeginCapture(t, v);
            && (MayBeginCapture(t, v) <==> v !in t.fenced && v !in t.refreshing)
            && t'.fenced == t.fenced && t'.rules == t.rules
            && t'.refreshing == if v in t.fenced then t.refreshing else t.refreshing + {v}
  {
  }

  /** The fence of one victim, and of no other, falls when it has neither a rule nor a refresh in progress. */
  lemma FenceFalls(t: Table, v: Ip, u: Ip)
    ensures ClearFence(t, v).rules == t.rules && ClearFence(t, v).refreshing == t.refreshing
    ensures u in ClearFence(t, v).fenced <==>
            u in t.fenced && (u == v ==> v in t.refreshing || exists k :: k in t.rules && k.victim == v)
  {
  }

  lemma TokenReturned(t: Table, v: Ip, u: Ip)
    ensures var t' := FinishCapture(t, v);
            && t'.rules == t.rules && t'.refreshing == t.refreshing - {v}
            && (u in t'.fenced <==> u in t.fenced && (u == v ==> exists k :: k in t.rules && k.victim == v))
  {
    FenceFalls(t.(refreshing := t.refreshing - {v}), v, u);
  }

  /**
    * The answer to an add: a path that is still wanted is installed, one that was withdrawn meanwhile is deleted at once,
    * and any other answer is ignored.
    */
  lemma AddAnswered(t: Table, k: Key, uuid: Uuid)
    ensures var t', e := CompleteAnnounce(t, k, uuid), if k in t.rules then Some(t.rules[k]) else None;
            && t'.fenced == t.fenced && t'.refreshing == t.refreshing
            && if e.Some? && uuid != [] && e.value.state == Announcing then
                 t'.rules == t.rules[k := Entry(Installed, e.value.rule, uuid)] && AnnounceOutcome(t, k, uuid) == NowInstalled
               else if e.Some? && uuid != [] && e.value.state == WithdrawRequested && e.value.uuid == [] then
                 t'.rules == t.rules[k := Entry(Withdrawing, e.value.rule, uuid)] && AnnounceOutcome(t, k, uuid) == WithdrawRequired
               else
                 t'.rules == t.rules && AnnounceOutcome(t, k, uuid) == AnnounceIgnored
  {
  }

  /** A failed add: the entry goes if its path was never confirmed, and with the last entry goes the fence. */
  lemma AddFailed(t: Table, k: Key, u: Ip)
    ensures var t' := FailAnnounce(t, k);
            var gone := k in t.rules && (t.rules[k].state == Announcing
                                         || (t.rules[k].state == WithdrawRequested && t.rules[k].uuid == []));
            && t'.refreshing == t.refreshing && t'.rules == (if gone then t.rules - {k} else t.rules)
            && (u in t'.fenced <==>
                  u in t.fenced && (gone && u == k.victim ==> u in t.refreshing || exists j :: j in t'.rules && j.victim == u))
  {
    FenceFalls(t.(rules := t.rules - {k}), k.victim, u);
  }

  /** The answer to a delete, if it is that of the path being deleted: the entry goes, or waits to be asked again. */
  lemma DeleteAnswered(t: Table, k: Key, uuid: Uuid, success: bool, u: Ip)
    ensures var t' := CompleteWithdraw(t, k, uuid, success);
            var known := k in t.rules && t.rules[k].state == Withdrawing && t.rules[k].uuid == uuid;
            && t'.refreshing == t.refreshing
            && WithdrawOutcome(t, k, uuid, success)
               == (if !known then WithdrawIgnored else if success then Erased else RetryPending)
            && t'.rules == (if !known then t.rules
                            else if success then t.rules - {k}
                            else t.rules[k := Entry(WithdrawRequested, t.rules[k].rule, uuid)])
            && (u in t'.fenced <==>
                  u in t.fenced
                  && (known && success && u == k.victim ==> u in t.refreshing || exists j :: j in t'.rules && j.victim == u))
  {
    FenceFalls(t.(rules := t.rules - {k}), k.victim, u);
  }

  /**
    * UNBAN: the victim is fenced as long as it has rules or a refresh; each of its entries is on its way out, and exactly
    * those with a path that nobody is deleting are to be deleted now.
    */
  lemma VictimWithdrawn(t: Table, v: Ip, k: Key, u: Ip)
    ensures var t' := BeginWithdraw(t, v);
            && t'.refreshing == t.refreshing && (k in t'.rules <==> k in t.rules)
            && (k in t.rules ==>
                  t'.rules[k] == if k.victim != v then t.rules[k]
                                 else match t.rules[k].state
                                      case Announcing => t.rules[k].(state := WithdrawRequested)
                                      case Installed => t.rules[k].(state := Withdrawing)
                                      case WithdrawRequested =>
                                        if t.rules[k].uuid != [] then t.rules[k].(state := Withdrawing) else t.rules[k]
                                      case Withdrawing => t.rules[k])
            && (u in t'.fenced <==>
                  if u == v then v in t.refreshing || exists j :: j in t.rules && j.victim == v else u in t.fenced)
    ensures var deletes := ToDelete(t, VictimKeys(t, v));
            && (k in deletes <==>
                  && k in t.rules && k.victim == v
                  && (t.rules[k].state == Installed || (t.rules[k].state == WithdrawRequested && t.rules[k].uuid != [])))
            && (k in deletes ==> deletes[k] == t.rules[k].uuid)
  {
    var s := RequestAll(t.(fenced := t.fenced + {v}), VictimKeys(t, v));
    assert s.rules.Keys == t.rules.Keys;
    FenceFalls(s, v, u);
  }

  // ----- planning -----

  /** For each new port the first request for it is the one announced, and every port asked for and not there is new. */
  lemma {:induction false} FirstRequestWins(t: Table, only: Key, requests: seq<Request>, k: Key)
    ensures k in NewPorts(t, only, requests) <==>
            && k !in t.rules && k.victim == only.victim && k.protocol.Some? && k.protocol == only.protocol && k.port.Some?
            && exists i :: 0 <= i < |requests| && requests[i].key == k
    ensures k in NewPorts(t, only, requests) ==>
              exists i :: && 0 <= i < |requests| && requests[i] == Request(k, NewPorts(t, only, requests)[k])
                          && forall j :: 0 <= j < i ==> requests[j].key != k
    decreases |requests|
  {
    if requests != [] {
      var n := |requests| - 1;
      FirstRequestWins(t, only, requests[..n], k);
      if k in NewPorts(t, only, requests[..n]) {
        var i :| && 0 <= i < n && requests[..n][i] == Request(k, NewPorts(t, only, requests[..n])[k])
                 && forall j :: 0 <= j < i ==> requests[..n][j].key != k;
        assert requests[i] == requests[..n][i] && forall j :: 0 <= j < i ==> requests[..n][j] == requests[j];
      } else if IsNewPort(t, only, requests[n].key) && requests[n].key == k {
        forall j | 0 <= j < n ensures requests[j].key != k {
          assert requests[..n][j] == requests[j];
        }
      } else if IsNewPort(t, only, k) {
        forall i | 0 <= i < |requests| ensures requests[i].key != k {
          assert i < n ==> requests[..n][i] == requests[i];
        }
      }
    }
  }

  /**
    * The plan of a refresh for one protocol. An UNBAN in progress or a protocol-only rule in the table settles it; without
    * a new port there is nothing to do; and the new ports are announced if they fit the limit together with those there,
    * otherwise the protocol-only rule is.
    */
  lemma PlanExactly(t: Table, v: Ip, protocol: Octet, r: Rule, requests: seq<Request>, maxPorts: nat)
    ensures var only := Key(v, Some(protocol), None);
            var plan := RefreshPlan(t, Request(only, r), requests, maxPorts);
            var there := set k | k in t.rules && k.victim == v && k.protocol == Some(protocol) && k.port.Some?;
            var wanted := NewPorts(t, only, requests);
            && (plan.action == WithdrawInProgress <==> v in t.fenced)
            && (plan.action == ProtocolOnlyCovers <==> v !in t.fenced && only in t.rules)
            && (plan.action == NoNewPortRules <==> v !in t.fenced && only !in t.rules && |wanted| == 0)
            && (plan.action == EscalateProtocolOnly <==>
                  v !in t.fenced && only !in t.rules && |wanted| > 0 && |there| + |wanted| > maxPorts)
            && (plan.action == AddPortRules <==>
                  v !in t.fenced && only !in t.rules && |wanted| > 0 && |there| + |wanted| <= maxPorts)
            && plan.announce == (if plan.action == AddPortRules then wanted
                                 else if plan.action == EscalateProtocolOnly then map[only := r] else map[])
            && (plan.existing, plan.added) == (if v in t.fenced || only in t.rules then (0, 0) else (|there|, |wanted|))
  {
    var only := Key(v, Some(protocol), None);
    CoveredMeans(t, v, protocol);
    PortKeysMeans(t, v, protocol);
    Empty(NewPorts(t, only, requests));
    hide NewPorts, Covered, PortKeys;
  }

  lemma CoveredMeans(t: Table, v: Ip, protocol: Octet)
    ensures Covered(t, Key(v, Some(protocol), None)) <==> Key(v, Some(protocol), None) in t.rules
  {
    var only := Key(v, Some(protocol), None);
    if k :| k in t.rules && SameProtocol(k, only) && k.port.None? {
      assert k == only;
    }
    assert only in t.rules ==> SameProtocol(only, only);
  }

  lemma PortKeysMeans(t: Table, v: Ip, protocol: Octet)
    ensures PortKeys(t, Key(v, Some(protocol), None))
         == set k | k in t.rules && k.victim == v && k.protocol == Some(protocol) && k.port.Some?
  {
  }

  lemma Empty(m: map<Key, Rule>)
    ensures |m| == 0 <==> m == map[]
  {
    assert |m.Keys| == |m|;
  }

  // ----- an escalation leads to a clean-up -----

  /** The thread of an escalating plan cleans up: once its path is added and installed, a clean-up is due. */
  lemma EscalationCleansUp(w: World, only: Request, requests: seq<Request>, maxPorts: nat)
    requires Enabled(w, PlansRefresh(only, requests, maxPorts)) && Invariant(w)
    requires RefreshPlan(w.table, only, requests, maxPorts).action == EscalateProtocolOnly
    ensures var threads := Step(w, PlansRefresh(only, requests, maxPorts)).threads;
            only.key in threads && threads[only.key] == Adding(only.rule, true)
  {
    hide Invariant, KeyOk, RefreshPlan, TableAfter, ThreadsAfter, CleanersAfter, PathsAfter;
    PlanEscalatesAlone(w.table, only, requests, maxPorts);
    var started := Started(w, PlansRefresh(only, requests, maxPorts));
    assert only.key in started && started[only.key] == Adding(only.rule, true);
  }

  lemma AddedKeepsPurpose(w: World, k: Key, uuid: Uuid)
    requires Enabled(w, PathAdded(k, uuid))
    ensures Step(w, PathAdded(k, uuid)).threads[k] == Added(uuid, w.threads[k].cleanUp)
  {
  }

  lemma CleanUpIsDue(w: World, k: Key)
    requires Enabled(w, CompletesAnnounce(k)) && k in w.table.rules && w.table.rules[k].state == Announcing
    requires w.threads[k].uuid != []
    ensures var w' := Step(w, CompletesAnnounce(k));
            && w'.table.rules[k].state == Installed
            && w'.cleaners[k] == w.cleaners[k] + if w.threads[k].cleanUp then 1 else 0
  {
  }
}
