/** The lifecycle object itself: its methods change the table in place, and each does what its function says. */
module LifecycleObject {
  import opened Octets
  import opened FlowSpecRule
  import opened Lifecycle

  class FlowSpecLifecycle {
    var rules: map<Key, Entry>
    var fenced: set<Ip>
    var refreshing: set<Ip>

    function Value(): Table
      reads this
    {
      Table(rules, fenced, refreshing)
    }

    constructor ()
      ensures Value() == Table(map[], {}, {})
    {
      rules, fenced, refreshing := map[], {}, {};
    }

    method VictimHasRules(victim: Ip) returns (found: bool)
      ensures found <==> HasRules(Value(), victim)
    {
      var todo := rules.Keys;
      while todo != {}
        invariant todo <= rules.Keys
        invariant forall k :: k in rules && k !in todo ==> k.victim != victim
        decreases |todo|
      {
        var k :| k in todo;
        if k.victim == victim {
          return true;
        }
        todo := todo - {k};
      }
      return false;
    }

    method ClearFenceIfFinished(victim: Ip)
      modifies this`fenced
      ensures Value() == ClearFence(old(Value()), victim)
    {
      var found := VictimHasRules(victim);
      if found || victim in refreshing {
        return;
      }
      fenced := fenced - {victim};
    }

    /** Announcing for a BAN; a refresh announces in the same way. */
    method BeginAnnounce(k: Key, r: Rule) returns (ok: bool)
      modifies this`rules
      ensures ok <==> MayAnnounce(old(Value()), k)
      ensures Value() == Lifecycle.BeginAnnounce(old(Value()), k, r)
    {
      if k.victim in fenced {
        return false;
      }
      if k in rules {
        return false;
      }
      rules := rules[k := Entry(Announcing, r, [])];
      return true;
    }

    method BeginRefreshCapture(victim: Ip) returns (ok: bool)
      modifies this`refreshing
      ensures ok <==> MayBeginCapture(old(Value()), victim)
      ensures Value() == BeginCapture(old(Value()), victim)
    {
      if victim in fenced || victim in refreshing {
        return false;
      }
      refreshing := refreshing + {victim};
      return true;
    }

    method FinishRefreshCapture(victim: Ip)
      modifies this
      ensures Value() == FinishCapture(old(Value()), victim)
    {
      refreshing := refreshing - {victim};
      ClearFenceIfFinished(victim);
    }

    method FailAnnounce(k: Key)
      modifies this
      ensures Value() == Lifecycle.FailAnnounce(old(Value()), k)
    {
      if k !in rules {
        return;
      }
      if rules[k].state == Announcing || (rules[k].state == WithdrawRequested && rules[k].uuid == []) {
        rules := rules - {k};
        ClearFenceIfFinished(k.victim);
      }
    }

    method CompleteAnnounce(k: Key, uuid: Uuid) returns (outcome: AnnounceCompletion)
      modifies this`rules
      ensures outcome == AnnounceOutcome(old(Value()), k, uuid)
      ensures Value() == Lifecycle.CompleteAnnounce(old(Value()), k, uuid)
    {
      if k !in rules || uuid == [] {
        return AnnounceIgnored;
      }
      if rules[k].state == Announcing {
        rules := rules[k := rules[k].(state := Installed, uuid := uuid)];
        return NowInstalled;
      }
      if rules[k].state == WithdrawRequested && rules[k].uuid == [] {
        rules := rules[k := rules[k].(state := Withdrawing, uuid := uuid)];
        return WithdrawRequired;
      }
      return AnnounceIgnored;
    }

    method CompleteWithdraw(k: Key, uuid: Uuid, success: bool) returns (outcome: WithdrawCompletion)
      modifies this
      ensures outcome == WithdrawOutcome(old(Value()), k, uuid, success)
      ensures Value() == Lifecycle.CompleteWithdraw(old(Value()), k, uuid, success)
    {
      if k !in rules || rules[k].state != Withdrawing || rules[k].uuid != uuid {
        return WithdrawIgnored;
      }
      if success {
        rules := rules - {k};
        ClearFenceIfFinished(k.victim);
        return Erased;
      }
      rules := rules[k := rules[k].(state := WithdrawRequested)];
      return RetryPending;
    }

    /** Withdraws some keys in one pass over the table in its order, sorting them by what is left to do. */
    method RequestKeys(keys: set<Key>)
      returns (requests: seq<WithdrawRequest>, deferred: seq<Request>, inProgress: seq<Request>)
      modifies this`rules
      ensures Value() == RequestAll(old(Value()), keys)
      ensures ListsRequests(requests, old(rules), ToDelete(old(Value()), keys))
      ensures ListsRules(deferred, old(rules), WaitingKeys(old(Value()), keys))
      ensures ListsRules(inProgress, old(rules), LeavingKeys(old(Value()), keys))
    {
      hide RequestAll, ToDelete, ListsRequests, ListsRules, WaitingKeys, LeavingKeys;
      requests, deferred, inProgress := [], [], [];
      var todo := keys * rules.Keys;
      ghost var t := Value();
      ghost var done: set<Key> := {};
      NothingRequested(t);
      while todo != {}
        invariant done + todo == keys * t.rules.Keys && done !! todo
        invariant forall j, k :: j in done && k in todo ==> Before(j, k)
        invariant Value() == RequestAll(t, done)
        invariant ListsRequests(requests, t.rules, ToDelete(t, done))
        invariant ListsRules(deferred, t.rules, WaitingKeys(t, done))
        invariant ListsRules(inProgress, t.rules, LeavingKeys(t, done))
        decreases |todo|
      {
        LeastExists(todo);
        var k :| k in todo && IsLeast(k, todo);
        OneMoreKey(t, done, k);
        OneMoreWaits(t, done, k);
        var e := rules[k];
        if e.state == Announcing {
          rules := rules[k := e.(state := WithdrawRequested)];
          OneMoreRule(deferred, t.rules, WaitingKeys(t, done), k);
          deferred := deferred + [Request(k, e.rule)];
        } else if e.state == Installed || (e.state == WithdrawRequested && e.uuid != []) {
          rules := rules[k := e.(state := Withdrawing)];
          OneMoreRequest(requests, t.rules, ToDelete(t, done), k, e.uuid);
          requests := requests + [WithdrawRequest(k, e.rule, e.uuid)];
        } else if e.state == WithdrawRequested {
          OneMoreRule(deferred, t.rules, WaitingKeys(t, done), k);
          deferred := deferred + [Request(k, e.rule)];
        } else {
          OneMoreRule(inProgress, t.rules, LeavingKeys(t, done), k);
          inProgress := inProgress + [Request(k, e.rule)];
        }
        todo, done := todo - {k}, done + {k};
      }
      OtherKeysDoNotMatter(t, keys, done);
    }

    /**
      * Withdraws every rule of the victim. The three lists together hold each of them exactly once: the paths to delete
      * now, the rules whose add is still under way, and those whose delete is.
      */
    method BeginWithdrawForVictim(victim: Ip)
      returns (requests: seq<WithdrawRequest>, deferred: seq<Request>, inProgress: seq<Request>)
      modifies this
      ensures Value() == BeginWithdraw(old(Value()), victim)
      ensures ListsRequests(requests, old(rules), ToDelete(old(Value()), VictimKeys(old(Value()), victim)))
      ensures ListsRules(deferred, old(rules), WaitingKeys(old(Value()), VictimKeys(old(Value()), victim)))
      ensures ListsRules(inProgress, old(rules), LeavingKeys(old(Value()), VictimKeys(old(Value()), victim)))
      ensures requests == [] && deferred == [] && inProgress == [] <==> !HasRules(old(Value()), victim)
    {
      hide ListsRequests, ListsRules, ToDelete, WaitingKeys, LeavingKeys, HasRules, ClearFence;
      fenced := fenced + {victim};
      ghost var keys := VictimKeys(old(Value()), victim);
      requests, deferred, inProgress := RequestKeys(set k | k in rules && k.victim == victim);
      FenceDoesNotMatter(old(Value()), Table(old(rules), fenced, old(refreshing)), keys);
      ListsShowRules(old(Value()), victim, requests, deferred, inProgress);
      ClearFenceIfFinished(victim);
    }

    method BeginEscalationCleanup(only: Key) returns (requests: seq<WithdrawRequest>)
      modifies this`rules
      ensures Value() == CleanUp(old(Value()), only)
      ensures MayCleanUp(old(Value()), only) ==>
                ListsRequests(requests, old(rules), ToDelete(old(Value()), PortKeys(old(Value()), only)))
      ensures !MayCleanUp(old(Value()), only) ==> requests == []
    {
      hide ListsRequests, ListsRules, ToDelete, WaitingKeys, LeavingKeys;
      if only !in rules || rules[only].state != Installed || only.victim in fenced {
        return [];
      }
      var deferred, inProgress;
      requests, deferred, inProgress := RequestKeys(set k | k in rules && SameProtocol(k, only) && k.port.Some?);
    }

    /** Counts the port rules of a protocol in table order: a protocol-only rule comes before them all and ends the count. */
    method CountPortRules(only: Key) returns (covered: bool, existing: nat)
      ensures covered <==> Covered(Value(), only)
      ensures existing == if covered then 0 else |PortKeys(Value(), only)|
    {
      hide SameProtocol, Before, IsLeast;
      existing := 0;
      var todo := rules.Keys;
      ghost var counted: set<Key> := {};
      while todo != {}
        invariant todo <= rules.Keys
        invariant forall k :: k in rules && SameProtocol(k, only) && k !in todo ==> k.port.Some?
        invariant counted == PortKeys(Value(), only) - todo && existing == |counted|
        invariant forall j, k :: j in counted && k in todo ==> Before(j, k)
        decreases |todo|
      {
        LeastExists(todo);
        var k :| k in todo && IsLeast(k, todo);
        LeastBefore(k, todo);
        todo := todo - {k};
        if SameProtocol(k, only) {
          if k.port.None? {
            NoPortComesFirst(counted, k, only);
            return true, existing;
          }
          counted := counted + {k};
          existing := existing + 1;
        }
      }
      covered := false;
      assert counted == PortKeys(Value(), only);
    }

    /** The first request for each port that has no rule yet. */
    method CollectNewPorts(only: Key, requests: seq<Request>) returns (ports: map<Key, Rule>)
      ensures ports == NewPorts(Value(), only, requests)
    {
      ports := map[];
      for i := 0 to |requests|
        invariant ports == NewPorts(Value(), only, requests[..i])
      {
        var q := requests[i];
        assert requests[..i + 1][..i] == requests[..i];
        if SameProtocol(q.key, only) && q.key.port.Some? {
          if q.key !in rules && q.key !in ports {
            ports := ports[q.key := q.rule];
          }
        }
      }
      assert requests[..|requests|] == requests;
    }

    /** Puts rules that are about to be announced into the table, leaving present ones alone. */
    method ReserveKeys(announce: map<Key, Rule>)
      modifies this`rules
      ensures Value() == Reserve(old(Value()), announce)
    {
      hide Reserve;
      var rest := announce;
      ghost var t := Value();
      while rest != map[]
        invariant Reserve(Value(), rest) == Reserve(t, announce)
        decreases |rest|
      {
        var k :| k in rest;
        ReserveOne(Value(), rest, k);
        OneFewer(rest, k);
        if k !in rules {
          rules := rules[k := Entry(Announcing, rest[k], [])];
        }
        rest := rest - {k};
      }
      NothingReserved(Value());
    }

    /** Plans the rules of one protocol and reserves them, all under one lock. */
    method BeginRefreshProtocolRules(only: Request, requests: seq<Request>, maxPorts: nat) returns (plan: Plan)
      modifies this`rules
      ensures plan == RefreshPlan(old(Value()), only, requests, maxPorts)
      ensures Value() == Reserve(old(Value()), plan.announce)
    {
      hide Covered, PortKeys, NewPorts;
      NothingReserved(Value());
      if only.key.victim in fenced {
        return Plan(WithdrawInProgress, 0, 0, map[]);
      }
      var covered, existing := CountPortRules(only.key);
      if covered {
        return Plan(ProtocolOnlyCovers, 0, 0, map[]);
      }
      var ports := CollectNewPorts(only.key, requests);
      if |ports| == 0 {
        return Plan(NoNewPortRules, existing, 0, map[]);
      }
      if existing + |ports| > maxPorts {
        plan := Plan(EscalateProtocolOnly, existing, |ports|, map[only.key := only.rule]);
      } else {
        plan := Plan(AddPortRules, existing, |ports|, ports);
      }
      ReserveKeys(plan.announce);
    }
  }

  lemma OneFewer(m: map<Key, Rule>, k: Key)
    requires k in m
    ensures |m - {k}| < |m|
  {
    assert m.Keys == (m - {k}).Keys + {k};
  }

  lemma ReserveOne(t: Table, announce: map<Key, Rule>, k: Key)
    requires k in announce
    ensures var t' := if k in t.rules then t else t.(rules := t.rules[k := Entry(Announcing, announce[k], [])]);
            Reserve(t', announce - {k}) == Reserve(t, announce)
  {
    hide Reserve;
    var t' := if k in t.rules then t else t.(rules := t.rules[k := Entry(Announcing, announce[k], [])]);
    ReservedEntries(t, announce);
    ReservedEntries(t', announce - {k});
    assert Reserve(t', announce - {k}).rules == Reserve(t, announce).rules;
  }

  lemma ReservedEntries(t: Table, announce: map<Key, Rule>)
    ensures var t' := Reserve(t, announce);
            && t'.fenced == t.fenced && t'.refreshing == t.refreshing
            && t'.rules.Keys == t.rules.Keys + announce.Keys
            && forall j :: j in t'.rules ==>
                 t'.rules[j] == if j in t.rules then t.rules[j] else Entry(Announcing, announce[j], [])
  {
  }

  lemma NothingReserved(t: Table)
    ensures Reserve(t, map[]) == t
  {
  }

  predicate IsLeast(k: Key, keys: set<Key>) {
    forall j :: j in keys && j != k ==> Before(k, j)
  }

  /** The order is total, so every non-empty set of keys has a first one. */
  lemma {:induction false} LeastExists(keys: set<Key>)
    requires keys != {}
    ensures exists k :: k in keys && IsLeast(k, keys)
    decreases |keys|
  {
    var k :| k in keys;
    var rest := keys - {k};
    if rest == {} {
      assert keys == {k};
      assert IsLeast(k, keys);
    } else {
      LeastExists(rest);
      var l :| l in rest && IsLeast(l, rest);
      if Before(k, l) {
        forall j | j in keys && j != k ensures Before(k, j) {
          assert j in rest && (j == l || Before(l, j));
        }
        assert IsLeast(k, keys);
      } else {
        assert IsLeast(l, keys);
      }
    }
  }

  lemma LeastBefore(k: Key, keys: set<Key>)
    requires IsLeast(k, keys)
    ensures forall j :: j in keys - {k} ==> Before(k, j)
  {
  }

  /** No port rule comes before the rule of its protocol without a port. */
  lemma NoPortComesFirst(keys: set<Key>, k: Key, only: Key)
    requires SameProtocol(k, only) && k.port.None?
    requires forall j :: j in keys ==> SameProtocol(j, only) && j.port.Some? && Before(j, k)
    ensures keys == {}
  {
    if j :| j in keys {
      assert false;
    }
  }

  predicate Asks(requests: seq<WithdrawRequest>, k: Key) {
    exists i :: 0 <= i < |requests| && requests[i].key == k
  }

  /** The list holds each path to delete exactly once, with its rule, in the order of the table. */
  ghost predicate ListsRequests(requests: seq<WithdrawRequest>, rules: map<Key, Entry>, uuids: map<Key, Uuid>) {
    && (forall i, j :: 0 <= i < j < |requests| ==> Before(requests[i].key, requests[j].key))
    && (forall i :: 0 <= i < |requests| ==>
          var q := requests[i];
          q.key in uuids && q.key in rules && q.rule == rules[q.key].rule && q.uuid == uuids[q.key])
    && (forall k :: k in uuids ==> Asks(requests, k))
  }

  predicate Names(list: seq<Request>, k: Key) {
    exists i :: 0 <= i < |list| && list[i].key == k
  }

  /** The list holds the rule of each key exactly once, in the order of the table. */
  ghost predicate ListsRules(list: seq<Request>, rules: map<Key, Entry>, keys: set<Key>) {
    && (forall i, j :: 0 <= i < j < |list| ==> Before(list[i].key, list[j].key))
    && (forall i :: 0 <= i < |list| ==>
          list[i].key in keys && list[i].key in rules && list[i].rule == rules[list[i].key].rule)
    && (forall k :: k in keys ==> Names(list, k))
  }

  lemma NothingRequested(t: Table)
    ensures RequestAll(t, {}) == t && ListsRequests([], t.rules, ToDelete(t, {}))
    ensures ListsRules([], t.rules, WaitingKeys(t, {})) && ListsRules([], t.rules, LeavingKeys(t, {}))
  {
  }

  lemma OneMoreKey(t: Table, done: set<Key>, k: Key)
    requires k in t.rules && k !in done
    ensures k in RequestAll(t, done).rules && RequestAll(t, done).rules[k] == t.rules[k]
    ensures RequestAll(t, done + {k}) == t.(rules := RequestAll(t, done).rules[k := Requested(t.rules[k])])
    ensures RequestAll(t, done).rules[k := t.rules[k]] == RequestAll(t, done).rules
    ensures ToDelete(t, done).Keys <= done
    ensures ToDelete(t, done + {k})
         == if MustDelete(t.rules[k]) then ToDelete(t, done)[k := t.rules[k].uuid] else ToDelete(t, done)
  {
  }

  lemma OneMoreRequest(requests: seq<WithdrawRequest>, rules: map<Key, Entry>, uuids: map<Key, Uuid>, k: Key, uuid: Uuid)
    requires ListsRequests(requests, rules, uuids) && k in rules && k !in uuids
    requires forall j :: j in uuids ==> Before(j, k)
    ensures ListsRequests(requests + [WithdrawRequest(k, rules[k].rule, uuid)], rules, uuids[k := uuid])
  {
    var longer := requests + [WithdrawRequest(k, rules[k].rule, uuid)];
    forall j | j in uuids[k := uuid] ensures Asks(longer, j) {
      if j == k {
        assert longer[|requests|].key == j;
      } else {
        assert Asks(requests, j);
        var i :| 0 <= i < |requests| && requests[i].key == j;
        assert longer[i].key == j;
      }
    }
  }

  lemma OneMoreWaits(t: Table, done: set<Key>, k: Key)
    requires k in t.rules && k !in done
    ensures WaitingKeys(t, done) <= done && LeavingKeys(t, done) <= done
    ensures WaitingKeys(t, done + {k}) == if MustWait(t.rules[k]) then WaitingKeys(t, done) + {k} else WaitingKeys(t, done)
    ensures LeavingKeys(t, done + {k})
         == if t.rules[k].state == Withdrawing then LeavingKeys(t, done) + {k} else LeavingKeys(t, done)
  {
  }

  lemma OneMoreRule(list: seq<Request>, rules: map<Key, Entry>, keys: set<Key>, k: Key)
    requires ListsRules(list, rules, keys) && k in rules && k !in keys
    requires forall j :: j in keys ==> Before(j, k)
    ensures ListsRules(list + [Request(k, rules[k].rule)], rules, keys + {k})
  {
    var longer := list + [Request(k, rules[k].rule)];
    forall j | j in keys + {k} ensures Names(longer, j) {
      if j == k {
        assert longer[|list|].key == j;
      } else {
        assert Names(list, j);
        var i :| 0 <= i < |list| && list[i].key == j;
        assert longer[i].key == j;
      }
    }
  }

  lemma OtherKeysDoNotMatter(t: Table, keys: set<Key>, done: set<Key>)
    requires done == keys * t.rules.Keys
    ensures RequestAll(t, keys) == RequestAll(t, done) && ToDelete(t, keys) == ToDelete(t, done)
    ensures WaitingKeys(t, keys) == WaitingKeys(t, done) && LeavingKeys(t, keys) == LeavingKeys(t, done)
  {
  }

  lemma FenceDoesNotMatter(t: Table, u: Table, keys: set<Key>)
    requires t.rules == u.rules
    ensures ToDelete(t, keys) == ToDelete(u, keys)
    ensures WaitingKeys(t, keys) == WaitingKeys(u, keys) && LeavingKeys(t, keys) == LeavingKeys(u, keys)
  {
  }

  /** The lists are all empty only when the victim has no rules. */
  lemma ListsShowRules(t: Table, victim: Ip, requests: seq<WithdrawRequest>, deferred: seq<Request>, inProgress: seq<Request>)
    requires ListsRequests(requests, t.rules, ToDelete(t, VictimKeys(t, victim)))
    requires ListsRules(deferred, t.rules, WaitingKeys(t, VictimKeys(t, victim)))
    requires ListsRules(inProgress, t.rules, LeavingKeys(t, VictimKeys(t, victim)))
    ensures requests == [] && deferred == [] && inProgress == [] <==> !HasRules(t, victim)
  {
    var keys := VictimKeys(t, victim);
    assert requests != [] ==> requests[0].key in ToDelete(t, keys);
    assert deferred != [] ==> deferred[0].key in WaitingKeys(t, keys);
    assert inProgress != [] ==> inProgress[0].key in LeavingKeys(t, keys);
    if k :| k in t.rules && k.victim == victim {
      assert k in ToDelete(t, keys) || k in WaitingKeys(t, keys) || k in LeavingKeys(t, keys);
      assert Asks(requests, k) || Names(deferred, k) || Names(inProgress, k);
    }
  }
}
