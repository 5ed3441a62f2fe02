/**
  * FlowSpec paths over whole runs: the threads that add and delete paths through GoBGP, the paths GoBGP holds, and
  * the lifecycle table between them. Any number of threads interleave at their calls to GoBGP and to the table.
  */
module LifecycleRuns {
  import opened Octets
  import opened FlowSpecRule
  import opened Lifecycle
  import opened LifecycleMeaning

  /** What a thread is about to do with the path of a key. */
  datatype Thread =
    | Adding(rule: Rule, cleanUp: bool)
    | Added(uuid: Uuid, cleanUp: bool)
    | AddFailed
    | Deleting(uuid: Uuid)
    | Deleted(uuid: Uuid, success: bool)

  /** `cleaners` are the threads about to clean up after an escalation; `issued` are all UUIDs GoBGP ever gave out. */
  datatype World = World(
    table: Table,
    threads: map<Key, Thread>,
    cleaners: multiset<Key>,
    paths: map<Uuid, Rule>,
    issued: set<Uuid>)

  const START := World(Table(map[], {}, {}), map[], multiset{}, map[], {})

  datatype Event =
    | Announces(key: Key, rule: Rule)
    | PlansRefresh(only: Request, requests: seq<Request>, maxPorts: nat)
    | Unbans(victim: Ip)
    | BeginsCapture(victim: Ip)
    | FinishesCapture(victim: Ip)
    | PathAdded(key: Key, uuid: Uuid)
    | PathRefused(key: Key)
    | CompletesAnnounce(key: Key)
    | FailsAnnounce(key: Key)
    | CleansUp(key: Key)
    | PathDeleted(key: Key)
    | DeleteRefused(key: Key)
    | CompletesWithdraw(key: Key)

  /** The key of a rule built for GoBGP. */
  predicate Keyed(k: Key, r: Rule) {
    Plain(r) && RuleKey(r) == Some(k)
  }

  /**
    * Rules are announced under their own keys. GoBGP gives every path a new, non-empty UUID; a refused request changes
    * nothing there.
    */
  predicate Enabled(w: World, e: Event) {
    match e
    case Announces(k, r) => Keyed(k, r)
    case PlansRefresh(only, requests, _) =>
      only.key.protocol.Some? && only.key.port.None? && Keyed(only.key, only.rule) && forall q :: q in requests ==> Keyed(q.key, q.rule)
    case PathAdded(k, uuid) => k in w.threads && w.threads[k].Adding? && uuid != [] && uuid !in w.issued
    case PathRefused(k) => k in w.threads && w.threads[k].Adding?
    case CompletesAnnounce(k) => k in w.threads && w.threads[k].Added?
    case FailsAnnounce(k) => k in w.threads && w.threads[k].AddFailed?
    case CleansUp(k) => k in w.cleaners
    case PathDeleted(k) => k in w.threads && w.threads[k].Deleting?
    case DeleteRefused(k) => k in w.threads && w.threads[k].Deleting?
    case CompletesWithdraw(k) => k in w.threads && w.threads[k].Deleted?
    case _ => true
  }

  /** The threads an event starts, by key. */
  function Started(w: World, e: Event): map<Key, Thread> {
    match e
    case Announces(k, r) => if MayAnnounce(w.table, k) then map[k := Adding(r, false)] else map[]
    case PlansRefresh(only, requests, maxPorts) =>
      var plan := RefreshPlan(w.table, only, requests, maxPorts);
      map k | k in plan.announce :: Adding(plan.announce[k], plan.action == EscalateProtocolOnly)
    case Unbans(v) =>
      var uuids := ToDelete(w.table, VictimKeys(w.table, v));
      map k | k in uuids :: Deleting(uuids[k])
    case CleansUp(only) =>
      var uuids := if MayCleanUp(w.table, only) then ToDelete(w.table, PortKeys(w.table, only)) else map[];
      map k | k in uuids :: Deleting(uuids[k])
    case _ => map[]
  }

  ghost function TableAfter(w: World, e: Event): Table
    requires Enabled(w, e)
  {
    match e
    case Announces(k, r) => BeginAnnounce(w.table, k, r)
    case PlansRefresh(only, requests, maxPorts) => Reserve(w.table, RefreshPlan(w.table, only, requests, maxPorts).announce)
    case Unbans(v) => BeginWithdraw(w.table, v)
    case BeginsCapture(v) => BeginCapture(w.table, v)
    case FinishesCapture(v) => FinishCapture(w.table, v)
    case CompletesAnnounce(k) => CompleteAnnounce(w.table, k, w.threads[k].uuid)
    case FailsAnnounce(k) => FailAnnounce(w.table, k)
    case CleansUp(k) => CleanUp(w.table, k)
    case CompletesWithdraw(k) => CompleteWithdraw(w.table, k, w.threads[k].uuid, w.threads[k].success)
    case _ => w.table
  }

  /** The thread working on a key goes on, or is done with it. */
  function ThreadsAfter(w: World, e: Event): map<Key, Thread>
    requires Enabled(w, e)
  {
    match e
    case PathAdded(k, uuid) => w.threads[k := Added(uuid, w.threads[k].cleanUp)]
    case PathRefused(k) => w.threads[k := AddFailed]
    case CompletesAnnounce(k) =>
      if AnnounceOutcome(w.table, k, w.threads[k].uuid) == WithdrawRequired then w.threads[k := Deleting(w.threads[k].uuid)]
      else w.threads - {k}
    case FailsAnnounce(k) => w.threads - {k}
    case PathDeleted(k) => w.threads[k := Deleted(w.threads[k].uuid, true)]
    case DeleteRefused(k) => w.threads[k := Deleted(w.threads[k].uuid, false)]
    case CompletesWithdraw(k) => w.threads - {k}
    case _ => w.threads
  }

  function CleanersAfter(w: World, e: Event): multiset<Key>
    requires Enabled(w, e)
  {
    match e
    case CompletesAnnounce(k) =>
      if w.threads[k].cleanUp && AnnounceOutcome(w.table, k, w.threads[k].uuid) == NowInstalled then w.cleaners + multiset{k}
      else w.cleaners
    case CleansUp(k) => w.cleaners - multiset{k}
    case _ => w.cleaners
  }

  function PathsAfter(w: World, e: Event): map<Uuid, Rule>
    requires Enabled(w, e)
  {
    match e
    case PathAdded(k, uuid) => w.paths[uuid := w.threads[k].rule]
    case PathDeleted(k) => w.paths - {w.threads[k].uuid}
    case _ => w.paths
  }

  ghost function Step(w: World, e: Event): World
    requires Enabled(w, e)
  {
    World(TableAfter(w, e), ThreadsAfter(w, e) + Started(w, e), CleanersAfter(w, e), PathsAfter(w, e),
          if e.PathAdded? then w.issued + {e.uuid} else w.issued)
  }

  ghost predicate IsRun(w: World, events: seq<Event>)
    decreases |events|
  {
    events == [] || (Enabled(w, events[0]) && IsRun(Step(w, events[0]), events[1..]))
  }

  ghost function RunTo(w: World, events: seq<Event>): World
    requires IsRun(w, events)
    decreases |events|
  {
    if events == [] then w else RunTo(Step(w, events[0]), events[1..])
  }

  // ----- the invariant -----

  /** GoBGP holds a path with this UUID for this rule. */
  predicate HasPath(w: World, uuid: Uuid, r: Rule) {
    uuid != [] && uuid in w.paths && w.paths[uuid] == r
  }

  /** A thread agrees with the entry of the key it works on. */
  predicate ThreadFits(w: World, th: Thread, e: Entry) {
    match th
    case Adding(r, _) => AddPending(e) && r == e.rule
    case Added(uuid, _) => AddPending(e) && HasPath(w, uuid, e.rule)
    case AddFailed => AddPending(e)
    case Deleting(uuid) => e.state == Withdrawing && e.uuid == uuid && HasPath(w, uuid, e.rule)
    case Deleted(uuid, success) =>
      e.state == Withdrawing && e.uuid == uuid && (if success then uuid in w.issued && uuid !in w.paths else HasPath(w, uuid, e.rule))
  }

  /** Every entry someone should be working on has its thread; the others have their path at GoBGP. */
  predicate KeyOk(w: World, k: Key) {
    && (k in w.table.rules ==> Keyed(k, w.table.rules[k].rule))
    && (k in w.threads ==> k in w.table.rules && ThreadFits(w, w.threads[k], w.table.rules[k]))
    && (k in w.table.rules && k !in w.threads ==>
          MustDelete(w.table.rules[k]) && HasPath(w, w.table.rules[k].uuid, w.table.rules[k].rule))
  }

  /** The path is in the table, or in the hands of the thread that has just added it. */
  predicate Tracked(w: World, uuid: Uuid) {
    uuid in w.paths ==>
      && uuid != [] && uuid in w.issued && Plain(w.paths[uuid]) && RuleKey(w.paths[uuid]).Some?
      && var k := RuleKey(w.paths[uuid]).value;
         && k in w.table.rules
         && (w.table.rules[k].uuid == uuid || (k in w.threads && w.threads[k].Added? && w.threads[k].uuid == uuid))
  }

  ghost predicate FenceOk(w: World, v: Ip) {
    v in w.table.fenced ==> HasRules(w.table, v) || v in w.table.refreshing
  }

  /** Only the threads of protocol-only rules clean up. */
  predicate CleanerOk(w: World, k: Key) {
    && (k in w.cleaners ==> k.port.None?)
    && (k in w.threads && (w.threads[k].Adding? || w.threads[k].Added?) && w.threads[k].cleanUp ==> k.port.None?)
  }

  ghost predicate Invariant(w: World) {
    && (forall k: Key :: KeyOk(w, k))
    && (forall k: Key :: CleanerOk(w, k))
    && (forall uuid: Uuid :: Tracked(w, uuid))
    && (forall v: Ip :: FenceOk(w, v))
  }

  // ----- every step keeps it -----

  lemma PlanIsNew(t: Table, only: Request, requests: seq<Request>, maxPorts: nat)
    requires only.key.port.None?
    ensures var announce := RefreshPlan(t, only, requests, maxPorts).announce;
            forall k :: k in announce ==>
              && k !in t.rules && k.victim == only.key.victim && k.victim !in t.fenced
              && (Request(k, announce[k]) == only || Request(k, announce[k]) in requests)
  {
    NewPortsAreNew(t, only.key, requests);
  }

  lemma {:induction false} NewPortsAreNew(t: Table, only: Key, requests: seq<Request>)
    ensures forall k :: k in NewPorts(t, only, requests) ==>
              IsNewPort(t, only, k) && Request(k, NewPorts(t, only, requests)[k]) in requests
    decreases |requests|
  {
    if requests != [] {
      NewPortsAreNew(t, only, requests[..|requests| - 1]);
    }
  }

  /** No event starts a thread on a key another thread is working on. */
  lemma StartsOnFreeKeys(w: World, e: Event)
    requires Enabled(w, e) && Invariant(w)
    ensures Started(w, e).Keys !! ThreadsAfter(w, e).Keys
  {
    hide RefreshPlan, FenceOk, Tracked;
    if e.PlansRefresh? {
      PlanIsNew(w.table, e.only, e.requests, e.maxPorts);
    }
    forall k | k in Started(w, e) ensures k !in w.threads {
      assert KeyOk(w, k);
    }
  }

  lemma ClearFenceKeepsRules(t: Table, v: Ip)
    ensures ClearFence(t, v).rules == t.rules && ClearFence(t, v).refreshing == t.refreshing
    ensures ClearFence(t, v).fenced <= t.fenced && forall u :: u in t.fenced && u != v ==> u in ClearFence(t, v).fenced
    ensures v in ClearFence(t, v).fenced ==> HasRules(t, v) || v in t.refreshing
    ensures v in t.fenced && (HasRules(t, v) || v in t.refreshing) ==> v in ClearFence(t, v).fenced
  {
  }

  lemma AnnounceKeepsKey(w: World, e: Event, k: Key)
    requires Enabled(w, e) && KeyOk(w, k) && e.Announces?
    ensures KeyOk(Step(w, e), k)
  {
    assert k == e.key && MayAnnounce(w.table, k) ==> k !in w.threads;
  }

  /** A plan announces every rule under its own key. */
  lemma PlanIsKeyed(w: World, e: Event, k: Key)
    requires Enabled(w, e) && e.PlansRefresh?
    requires k in RefreshPlan(w.table, e.only, e.requests, e.maxPorts).announce
    ensures k !in w.table.rules && Keyed(k, RefreshPlan(w.table, e.only, e.requests, e.maxPorts).announce[k])
  {
    hide RefreshPlan, Keyed;
    PlanIsNew(w.table, e.only, e.requests, e.maxPorts);
    var q := Request(k, RefreshPlan(w.table, e.only, e.requests, e.maxPorts).announce[k]);
    assert q == e.only || q in e.requests;
  }

  lemma PlanKeepsKey(w: World, e: Event, k: Key)
    requires Enabled(w, e) && KeyOk(w, k) && e.PlansRefresh?
    ensures KeyOk(Step(w, e), k)
  {
    hide RefreshPlan, Keyed, Enabled;
    if k in RefreshPlan(w.table, e.only, e.requests, e.maxPorts).announce {
      PlanIsKeyed(w, e, k);
    }
  }

  /** Requesting withdrawals and starting a thread for every path to delete. */
  lemma RequestsKeepKey(w: World, w': World, keys: set<Key>, k: Key)
    requires KeyOk(w, k)
    requires w'.table.rules == RequestAll(w.table, keys).rules && w'.paths == w.paths && w'.issued == w.issued
    requires var uuids := ToDelete(w.table, keys);
             w'.threads == w.threads + map j | j in uuids :: Deleting(uuids[j])
    ensures KeyOk(w', k)
  {
  }

  lemma UnbanKeepsKey(w: World, e: Event, k: Key)
    requires Enabled(w, e) && KeyOk(w, k) && e.Unbans?
    ensures KeyOk(Step(w, e), k)
  {
    hide ClearFence, ToDelete, RequestAll, VictimKeys, KeyOk;
    var keys := VictimKeys(w.table, e.victim);
    ClearFenceKeepsRules(RequestAll(w.table.(fenced := w.table.fenced + {e.victim}), keys), e.victim);
    RequestsIgnoreFence(w.table, e.victim, keys);
    RequestsKeepKey(w, Step(w, e), keys, k);
  }

  lemma RequestsIgnoreFence(t: Table, v: Ip, keys: set<Key>)
    ensures RequestAll(t.(fenced := t.fenced + {v}), keys).rules == RequestAll(t, keys).rules
  {
  }

  lemma CleanUpKeepsKey(w: World, e: Event, k: Key)
    requires Enabled(w, e) && KeyOk(w, k) && e.CleansUp?
    ensures KeyOk(Step(w, e), k)
  {
    if MayCleanUp(w.table, e.key) {
      hide ToDelete, RequestAll, PortKeys, KeyOk;
      RequestsKeepKey(w, Step(w, e), PortKeys(w.table, e.key), k);
    }
  }

  lemma PathAddedKeepsKey(w: World, e: Event, k: Key)
    requires Enabled(w, e) && KeyOk(w, k) && e.PathAdded?
    requires forall uuid: Uuid :: Tracked(w, uuid)
    ensures KeyOk(Step(w, e), k)
  {
    if k in w.table.rules { assert Tracked(w, w.table.rules[k].uuid); }
    if k in w.threads && w.threads[k].Added? { assert Tracked(w, w.threads[k].uuid); }
  }

  lemma PathDeletedKeepsKey(w: World, e: Event, k: Key)
    requires Enabled(w, e) && KeyOk(w, k) && e.PathDeleted? && KeyOk(w, e.key)
    requires Tracked(w, w.threads[e.key].uuid)
    ensures KeyOk(Step(w, e), k)
  {
    assert HasPath(w, w.threads[e.key].uuid, w.table.rules[e.key].rule);
  }

  lemma QuietStepsKeepKey(w: World, e: Event, k: Key)
    requires Enabled(w, e) && KeyOk(w, k)
    requires e.PathRefused? || e.DeleteRefused? || e.BeginsCapture? || e.FinishesCapture?
    ensures KeyOk(Step(w, e), k)
  {
    hide ClearFence;
    if e.FinishesCapture? {
      ClearFenceKeepsRules(w.table.(refreshing := w.table.refreshing - {e.victim}), e.victim);
    }
  }

  lemma AnnounceCompletionKeepsKey(w: World, e: Event, k: Key)
    requires Enabled(w, e) && KeyOk(w, k) && e.CompletesAnnounce? && KeyOk(w, e.key)
    ensures KeyOk(Step(w, e), k)
  {
  }

  lemma AnnounceFailureKeepsKey(w: World, e: Event, k: Key)
    requires Enabled(w, e) && KeyOk(w, k) && e.FailsAnnounce? && KeyOk(w, e.key)
    ensures KeyOk(Step(w, e), k)
  {
    hide HasRules, ClearFence;
    ClearFenceKeepsRules(w.table.(rules := w.table.rules - {e.key}), e.key.victim);
  }

  lemma WithdrawCompletionKeepsKey(w: World, e: Event, k: Key)
    requires Enabled(w, e) && KeyOk(w, k) && e.CompletesWithdraw? && KeyOk(w, e.key)
    ensures KeyOk(Step(w, e), k)
  {
    hide HasRules, ClearFence;
    ClearFenceKeepsRules(w.table.(rules := w.table.rules - {e.key}), e.key.victim);
  }

  lemma KeyStep(w: World, e: Event, k: Key)
    requires Enabled(w, e) && Invariant(w)
    ensures KeyOk(Step(w, e), k)
  {
    hide Step, Enabled, Tracked, FenceOk, HasPath, ThreadFits;
    assert KeyOk(w, k);
    match e {
      case Announces(_, _) => AnnounceKeepsKey(w, e, k);
      case PlansRefresh(_, _, _) => PlanKeepsKey(w, e, k);
      case Unbans(_) => UnbanKeepsKey(w, e, k);
      case CleansUp(_) => CleanUpKeepsKey(w, e, k);
      case PathAdded(_, _) => PathAddedKeepsKey(w, e, k);
      case PathDeleted(j) => DeletedPathKnown(w, e); PathDeletedKeepsKey(w, e, k);
      case CompletesAnnounce(j) => assert KeyOk(w, j); AnnounceCompletionKeepsKey(w, e, k);
      case FailsAnnounce(j) => assert KeyOk(w, j); AnnounceFailureKeepsKey(w, e, k);
      case CompletesWithdraw(j) => assert KeyOk(w, j); WithdrawCompletionKeepsKey(w, e, k);
      case _ => QuietStepsKeepKey(w, e, k);
    }
  }

  lemma DeletedPathKnown(w: World, e: Event)
    requires Enabled(w, e) && e.PathDeleted? && Invariant(w)
    ensures KeyOk(w, e.key) && Tracked(w, w.threads[e.key].uuid)
  {
    hide KeyOk, Tracked, FenceOk;
  }

  // ----- no path is lost -----

  lemma TableStepsTrack(w: World, e: Event, uuid: Uuid)
    requires Enabled(w, e) && Tracked(w, uuid)
    requires e.Announces? || e.PlansRefresh? || e.BeginsCapture? || e.FinishesCapture? || e.Unbans? || e.CleansUp?
    requires Started(w, e).Keys !! w.threads.Keys
    ensures Tracked(Step(w, e), uuid)
  {
    hide RefreshPlan, ClearFence, VictimKeys, PortKeys;
    match e {
      case FinishesCapture(v) => ClearFenceKeepsRules(w.table.(refreshing := w.table.refreshing - {v}), v);
      case Unbans(v) =>
        ClearFenceKeepsRules(RequestAll(w.table.(fenced := w.table.fenced + {v}), VictimKeys(w.table, v)), v);
      case _ =>
    }
  }

  lemma ThreadStepsTrack(w: World, e: Event, uuid: Uuid)
    requires Enabled(w, e) && Tracked(w, uuid)
    requires e.PathAdded? || e.PathRefused? || e.PathDeleted? || e.DeleteRefused?
    requires KeyOk(w, e.key)
    ensures Tracked(Step(w, e), uuid)
  {
  }

  lemma CompletionsTrack(w: World, e: Event, uuid: Uuid)
    requires Enabled(w, e) && Tracked(w, uuid)
    requires e.CompletesAnnounce? || e.FailsAnnounce? || e.CompletesWithdraw?
    requires KeyOk(w, e.key)
    ensures Tracked(Step(w, e), uuid)
  {
    hide ClearFence;
    ClearFenceKeepsRules(w.table.(rules := w.table.rules - {e.key}), e.key.victim);
  }

  lemma TrackedStep(w: World, e: Event, uuid: Uuid)
    requires Enabled(w, e) && Invariant(w)
    ensures Tracked(Step(w, e), uuid)
  {
    hide Step, Enabled, KeyOk, FenceOk, Started, Tracked;
    StartsOnFreeKeys(w, e);
    assert Tracked(w, uuid);
    match e {
      case PathAdded(k, _) => assert KeyOk(w, k); ThreadStepsTrack(w, e, uuid);
      case PathRefused(k) => assert KeyOk(w, k); ThreadStepsTrack(w, e, uuid);
      case PathDeleted(k) => assert KeyOk(w, k); ThreadStepsTrack(w, e, uuid);
      case DeleteRefused(k) => assert KeyOk(w, k); ThreadStepsTrack(w, e, uuid);
      case CompletesAnnounce(k) => assert KeyOk(w, k); CompletionsTrack(w, e, uuid);
      case FailsAnnounce(k) => assert KeyOk(w, k); CompletionsTrack(w, e, uuid);
      case CompletesWithdraw(k) => assert KeyOk(w, k); CompletionsTrack(w, e, uuid);
      case _ => QuietThreads(w, e); TableStepsTrack(w, e, uuid);
    }
  }

  lemma QuietThreads(w: World, e: Event)
    requires Enabled(w, e)
    requires e.Announces? || e.PlansRefresh? || e.BeginsCapture? || e.FinishesCapture? || e.Unbans? || e.CleansUp?
    ensures ThreadsAfter(w, e) == w.threads
  {
  }

  // ----- the fence -----

  lemma FenceStep(w: World, e: Event, v: Ip)
    requires Enabled(w, e) && FenceOk(w, v)
    ensures FenceOk(Step(w, e), v)
  {
    hide RefreshPlan, ClearFence, Started, ThreadsAfter, PathsAfter, CleanersAfter;
    match e {
      case Unbans(u) =>
        ClearFenceKeepsRules(RequestAll(w.table.(fenced := w.table.fenced + {u}), VictimKeys(w.table, u)), u);
      case FinishesCapture(u) => ClearFenceKeepsRules(w.table.(refreshing := w.table.refreshing - {u}), u);
      case FailsAnnounce(k) => ClearFenceKeepsRules(w.table.(rules := w.table.rules - {k}), k.victim);
      case CompletesWithdraw(k) => ClearFenceKeepsRules(w.table.(rules := w.table.rules - {k}), k.victim);
      case _ =>
    }
  }

  // ----- the cleaners -----

  lemma PlanEscalatesAlone(t: Table, only: Request, requests: seq<Request>, maxPorts: nat)
    ensures var plan := RefreshPlan(t, only, requests, maxPorts);
            plan.action == EscalateProtocolOnly ==> plan.announce == map[only.key := only.rule]
  {
  }

  lemma CleanerStep(w: World, e: Event, k: Key)
    requires Enabled(w, e) && CleanerOk(w, k)
    ensures CleanerOk(Step(w, e), k)
  {
    hide RefreshPlan, TableAfter, PathsAfter, ToDelete, Keyed, PortKeys, VictimKeys, MayCleanUp;
    if e.PlansRefresh? {
      PlanEscalatesAlone(w.table, e.only, e.requests, e.maxPorts);
    }
  }

  /** Every step of every thread keeps the invariant. */
  lemma InvariantStep(w: World, e: Event)
    requires Enabled(w, e) && Invariant(w)
    ensures Invariant(Step(w, e))
  {
    hide Step, Enabled, KeyOk, CleanerOk, FenceOk, Tracked;
    forall k: Key ensures KeyOk(Step(w, e), k) {
      KeyStep(w, e, k);
    }
    forall k: Key ensures CleanerOk(Step(w, e), k) {
      assert CleanerOk(w, k);
      CleanerStep(w, e, k);
    }
    forall uuid: Uuid ensures Tracked(Step(w, e), uuid) {
      TrackedStep(w, e, uuid);
    }
    forall v: Ip ensures FenceOk(Step(w, e), v) {
      assert FenceOk(w, v);
      FenceStep(w, e, v);
    }
  }

  lemma {:induction false} RunKeepsInvariant(w: World, events: seq<Event>)
    requires Invariant(w) && IsRun(w, events)
    ensures Invariant(RunTo(w, events))
    decreases |events|
  {
    hide Invariant, Enabled, Step;
    if events != [] {
      InvariantStep(w, events[0]);
      RunKeepsInvariant(Step(w, events[0]), events[1..]);
    }
  }

  lemma StartIsFine()
    ensures Invariant(START)
  {
  }

  ghost predicate Follows(w: World, states: seq<World>, events: seq<Event>, i: nat)
    requires |states| == |events| && i < |events|
  {
    var from := if i == 0 then w else states[i - 1];
    Enabled(from, events[i]) && states[i] == Step(from, events[i])
  }

  /** A run given by the states it goes through. */
  lemma {:induction false} OneByOne(w: World, states: seq<World>, events: seq<Event>)
    requires |states| == |events|
    requires forall i :: 0 <= i < |events| ==> Follows(w, states, events, i)
    ensures IsRun(w, events) && RunTo(w, events) == if events == [] then w else states[|states| - 1]
    decreases |events|
  {
    hide Enabled, Step;
    if events != [] {
      assert Follows(w, states, events, 0);
      forall i | 0 <= i < |events[1..]| ensures Follows(states[0], states[1..], events[1..], i) {
        assert Follows(w, states, events, i + 1);
      }
      OneByOne(states[0], states[1..], events[1..]);
    }
  }
}
