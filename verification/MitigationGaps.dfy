/** The runs in which a host without a ban keeps a path at GoBGP: each part of being settled is needed. */
module MitigationGaps {
  import opened Octets
  import opened FlowSpecRule
  import opened Lifecycle
  import opened LifecycleUnban
  import opened Mitigation
  import Bans = BanProtocol
  import Paths = LifecycleRuns

  // ----- runs given by their states -----

  lemma {:induction false} RunAndRun(c: Config, s: System, first: seq<Event>, second: seq<Event>)
    requires IsRun(c, s, first) && IsRun(c, RunTo(c, s, first), second)
    ensures IsRun(c, s, first + second) && RunTo(c, s, first + second) == RunTo(c, RunTo(c, s, first), second)
    decreases |first|
  {
    hide Enabled, Step;
    if first == [] {
      assert first + second == second;
    } else {
      RunAndRun(c, Step(c, s, first[0]), first[1..], second);
      assert (first + second)[1..] == first[1..] + second;
    }
  }

  ghost predicate Leads(c: Config, s: System, e: Event, s': System) {
    Enabled(c, s, e) && Step(c, s, e) == s'
  }

  lemma TwoSteps(c: Config, s: System, e1: Event, s1: System, e2: Event, s2: System)
    requires Leads(c, s, e1, s1) && Leads(c, s1, e2, s2)
    ensures IsRun(c, s, [e1, e2]) && RunTo(c, s, [e1, e2]) == s2
  {
    hide Enabled, Step;
    assert [e1, e2][1..] == [e2] && [e2][1..] == [];
    assert IsRun(c, s1, [e2]) && RunTo(c, s1, [e2]) == s2;
  }

  lemma ThreeSteps(c: Config, s: System, e1: Event, s1: System, e2: Event, s2: System, e3: Event, s3: System)
    requires Leads(c, s, e1, s1) && Leads(c, s1, e2, s2) && Leads(c, s2, e3, s3)
    ensures IsRun(c, s, [e1, e2, e3]) && RunTo(c, s, [e1, e2, e3]) == s3
  {
    hide Enabled, Step;
    TwoSteps(c, s1, e2, s2, e3, s3);
    assert [e1, e2, e3][1..] == [e2, e3];
  }

  lemma FourSteps(c: Config, s: System, e1: Event, s1: System, e2: Event, s2: System,
                  e3: Event, s3: System, e4: Event, s4: System)
    requires Leads(c, s, e1, s1) && Leads(c, s1, e2, s2) && Leads(c, s2, e3, s3) && Leads(c, s3, e4, s4)
    ensures IsRun(c, s, [e1, e2, e3, e4]) && RunTo(c, s, [e1, e2, e3, e4]) == s4
  {
    hide Enabled, Step, Leads, IsRun, RunTo;
    TwoSteps(c, s, e1, s1, e2, s2);
    TwoSteps(c, s2, e3, s3, e4, s4);
    RunAndRun(c, s, [e1, e2], [e3, e4]);
    assert [e1, e2] + [e3, e4] == [e1, e2, e3, e4];
  }

  /** Everything has come to rest, the host is not banned, and GoBGP holds its path. */
  ghost predicate Leaks(s: System, v: Ip) {
    && s.bans.bans == map[] && s.bans.worker.Resting? && s.bans.sweeper.SweeperIdle? && s.bans.detector.DetectorIdle?
    && s.bans.buckets == map[] && s.bans.managers == multiset{} && s.bans.tokens == {}
    && s.orders == multiset{} && s.paths.threads == map[] && s.paths.table.fenced == {} && !NoPaths(s.paths, v)
  }

  // ----- a ban announced late -----

  function Ask(k: Key, r: Rule): Option<Request> {
    Some(Request(k, r))
  }

  function On(b: Bans.Event): Event {
    Protocol(b, None)
  }

  /** A step of the ban protocol that neither starts a thread nor moves a token. */
  lemma Turns(c: Config, s: System, b: Bans.Event, bans: Bans.State)
    requires Bans.Enabled(c, s.bans, b) && Bans.Step(c, s.bans, b) == bans
    requires !b.BeginRefresh? && TokenEvent(c, s.bans, b).None? && Ordered(c, s.bans, b, None) == multiset{}
    ensures Enabled(c, s, On(b)) && Step(c, s, On(b)) == s.(bans := bans)
  {
    hide Bans.Enabled, Bans.Step, TokenEvent, Ordered;
  }

  /** One that moves a token. */
  lemma TurnsToken(c: Config, s: System, b: Bans.Event, p: Paths.Event, s': System)
    requires Bans.Enabled(c, s.bans, b) && Bans.Step(c, s.bans, b) == s'.bans
    requires b.BeginRefresh? ==> (b.fenced <==> s.bans.worker.ip in s.paths.table.fenced)
    requires TokenEvent(c, s.bans, b) == Some(p) && Ordered(c, s.bans, b, None) == multiset{}
    requires Paths.Enabled(s.paths, p) && Paths.Step(s.paths, p) == s'.paths && s'.orders == s.orders
    ensures Enabled(c, s, On(b)) && Step(c, s, On(b)) == s'
  {
    hide Bans.Enabled, Bans.Step, Paths.Enabled, Paths.Step, TokenEvent, Ordered;
  }

  /** One that starts a thread. */
  lemma Orders(c: Config, s: System, b: Bans.Event, wanted: Option<Request>, s': System)
    requires Bans.Enabled(c, s.bans, b) && Bans.Step(c, s.bans, b) == s'.bans
    requires wanted.Some? ==>
               Paths.Keyed(wanted.value.key, wanted.value.rule) && BannedHost(s.bans, b) == Some(wanted.value.key.victim)
    requires !b.BeginRefresh? && TokenEvent(c, s.bans, b).None? && s'.paths == s.paths
    requires s'.orders == s.orders + Ordered(c, s.bans, b, wanted)
    ensures Enabled(c, s, Protocol(b, wanted)) && Step(c, s, Protocol(b, wanted)) == s'
  {
    hide Bans.Enabled, Bans.Step, TokenEvent, Ordered, Paths.Keyed, BannedHost;
  }

  /** A detached thread gets to the table. */
  lemma Carries(c: Config, s: System, order: Order, s': System)
    requires order in s.orders && s'.bans == s.bans && s'.orders == s.orders - multiset{order}
    requires var p := if order.Announce? then Paths.Announces(order.key, order.rule) else Paths.Unbans(order.victim);
             Paths.Enabled(s.paths, p) && Paths.Step(s.paths, p) == s'.paths
    ensures Enabled(c, s, CarriesOut(order)) && Step(c, s, CarriesOut(order)) == s'
  {
    hide Paths.Enabled, Paths.Step;
  }

  lemma Calls(c: Config, s: System, p: Paths.Event, w: Paths.World)
    requires Paths.Enabled(s.paths, p) && Paths.Step(s.paths, p) == w
    ensures OfThread(p) ==> Enabled(c, s, Works(p)) && Step(c, s, Works(p)) == s.(paths := w)
    ensures forall v :: v in s.bans.managers && OfManager(v, p) ==>
              Enabled(c, s, Refreshes(v, p)) && Step(c, s, Refreshes(v, p)) == s.(paths := w)
  {
    hide Paths.Enabled, Paths.Step;
  }

  // Single steps of the ban protocol, with the state they lead to.

  function RefreshBucket(c: Config, details: Bans.Ban): Bans.Bucket {
    Bans.Bucket(Bans.RefreshOnce, c.noCapacity, details)
  }

  lemma VictimChosen(c: Config, s: System, v: Ip)
    requires s.bans.worker.Scheduling? && v in s.bans.worker.victims && v !in s.bans.buckets
    ensures Enabled(c, s, On(Bans.ChoosesVictim(v)))
    ensures Step(c, s, On(Bans.ChoosesVictim(v)))
         == s.(bans := s.bans.(worker := Bans.Chosen(v, s.bans.worker.victims[v], s.bans.worker.victims - {v})))
  {
    Turns(c, s, Bans.ChoosesVictim(v),
          s.bans.(worker := Bans.Chosen(v, s.bans.worker.victims[v], s.bans.worker.victims - {v})));
  }

  lemma RefreshEnabled(c: Config, s: System)
    requires s.bans.worker.Began? && s.bans.worker.ip !in s.bans.buckets
    ensures Enabled(c, s, On(Bans.EnableRefresh))
    ensures Step(c, s, On(Bans.EnableRefresh)) == s.(bans := s.bans.(worker := Bans.Scheduling(s.bans.worker.victims),
                       buckets := s.bans.buckets[s.bans.worker.ip := RefreshBucket(c, s.bans.worker.details)]))
  {
    Turns(c, s, Bans.EnableRefresh, s.bans.(worker := Bans.Scheduling(s.bans.worker.victims),
                       buckets := s.bans.buckets[s.bans.worker.ip := RefreshBucket(c, s.bans.worker.details)]));
  }

  lemma SchedulingStopped(c: Config, s: System)
    requires s.bans.worker.Scheduling? && s.bans.worker.victims == map[]
    ensures Enabled(c, s, On(Bans.StopScheduling))
    ensures Step(c, s, On(Bans.StopScheduling)) == s.(bans := s.bans.(worker := Bans.Resting))
  {
    Turns(c, s, Bans.StopScheduling, s.bans.(worker := Bans.Resting));
  }

  lemma BucketFilled(c: Config, s: System, v: Ip)
    requires s.bans.worker.Resting? && v in s.bans.buckets
    ensures Enabled(c, s, On(Bans.PacketFills(v)))
    ensures Step(c, s, On(Bans.PacketFills(v)))
         == s.(bans := s.bans.(buckets := s.bans.buckets[v := s.bans.buckets[v].(filled := true)]))
  {
    Turns(c, s, Bans.PacketFills(v), s.bans.(buckets := s.bans.buckets[v := s.bans.buckets[v].(filled := true)]));
  }

  lemma FilledCollected(c: Config, s: System, order: seq<Ip>)
    requires s.bans.worker.Resting? && Bans.ListsFilled(order, s.bans.buckets)
    ensures Enabled(c, s, On(Bans.CollectFilled(order)))
    ensures Step(c, s, On(Bans.CollectFilled(order))) == s.(bans := s.bans.(worker := Bans.Processing(order, [])))
  {
    Turns(c, s, Bans.CollectFilled(order), s.bans.(worker := Bans.Processing(order, [])));
  }

  lemma RefreshQueued(c: Config, s: System, v: Ip)
    requires s.bans.worker == Bans.Processing([v], []) && Bans.Refreshing(s.bans, v)
    ensures Enabled(c, s, On(Bans.ProcessBucket))
    ensures Step(c, s, On(Bans.ProcessBucket))
         == s.(bans := s.bans.(buckets := s.bans.buckets - {v}, worker := Bans.Processing([v][1..], [] + [v])))
  {
    Turns(c, s, Bans.ProcessBucket,
          s.bans.(buckets := s.bans.buckets - {v}, worker := Bans.Processing([v][1..], [] + [v])));
  }

  lemma LockReleased(c: Config, s: System)
    requires s.bans.worker.Processing? && s.bans.worker.rest == []
    ensures Enabled(c, s, On(Bans.ReleaseLock))
    ensures Step(c, s, On(Bans.ReleaseLock)) == s.(bans := s.bans.(worker := Bans.HandingOver(s.bans.worker.queue)))
  {
    Turns(c, s, Bans.ReleaseLock, s.bans.(worker := Bans.HandingOver(s.bans.worker.queue)));
  }

  lemma RefreshHandedOver(c: Config, s: System, v: Ip)
    requires c.refresh && s.bans.worker == Bans.HandingOver([v])
    ensures Enabled(c, s, On(Bans.ProcessRefresh(true)))
    ensures Step(c, s, On(Bans.ProcessRefresh(true))) == s.(bans := s.bans.(worker := Bans.HandingOver([v][1..]),
                       managers := s.bans.managers + multiset{v}, handed := s.bans.handed + multiset{v}))
  {
    Turns(c, s, Bans.ProcessRefresh(true), s.bans.(worker := Bans.HandingOver([v][1..]),
                       managers := s.bans.managers + multiset{v}, handed := s.bans.handed + multiset{v}));
  }

  lemma SchedulingStarted(c: Config, s: System)
    requires c.refresh && s.bans.worker == Bans.HandingOver([])
    ensures Enabled(c, s, On(Bans.StartScheduling))
    ensures Step(c, s, On(Bans.StartScheduling)) == s.(bans := s.bans.(worker := Bans.Scheduling(s.bans.bans)))
  {
    Turns(c, s, Bans.StartScheduling, s.bans.(worker := Bans.Scheduling(s.bans.bans)));
  }

  lemma RefreshBegun(c: Config, s: System, v: Ip)
    requires s.bans.worker.Chosen? && s.bans.worker.ip == v && v !in s.bans.tokens && s.paths == Blank({})
    ensures Enabled(c, s, On(Bans.BeginRefresh(false)))
    ensures Step(c, s, On(Bans.BeginRefresh(false)))
         == s.(bans := s.bans.(tokens := s.bans.tokens + {v}, begun := s.bans.begun + multiset{v},
                               worker := Bans.Began(v, s.bans.worker.details, s.bans.worker.victims)),
               paths := Blank({v}))
  {
    TokenTaken(v);
    hide Paths.Enabled, Paths.Step;
    TurnsToken(c, s, Bans.BeginRefresh(false), Paths.BeginsCapture(v),
               s.(bans := s.bans.(tokens := s.bans.tokens + {v}, begun := s.bans.begun + multiset{v},
                                  worker := Bans.Began(v, s.bans.worker.details, s.bans.worker.victims)),
                  paths := Blank({v})));
  }

  lemma TokenTaken(v: Ip)
    ensures Paths.Enabled(Blank({}), Paths.BeginsCapture(v))
    ensures Paths.Step(Blank({}), Paths.BeginsCapture(v)) == Blank({v})
  {
  }

  function Wanted(wanted: Option<Request>): multiset<Order> {
    if wanted.Some? then multiset{Announce(wanted.value.key, wanted.value.rule)} else multiset{}
  }

  lemma ApiBanned(c: Config, s: System, v: Ip, b: Bans.Ban, wanted: Option<Request>)
    requires b.source == Bans.Manual
    requires wanted.Some? ==> Paths.Keyed(wanted.value.key, wanted.value.rule) && wanted.value.key.victim == v
    ensures var e := Protocol(Bans.ApiBans(v, b), wanted);
            && Enabled(c, s, e)
            && Step(c, s, e)
            == System(s.bans.(bans := s.bans.bans[v := b]), s.paths,
                      s.orders + Wanted(wanted))
  {
    hide Paths.Keyed;
    Orders(c, s, Bans.ApiBans(v, b), wanted,
           System(s.bans.(bans := s.bans.bans[v := b]), s.paths,
                  s.orders + Wanted(wanted)));
  }

  lemma ApiUnbanned(c: Config, s: System, v: Ip)
    requires v in s.bans.bans
    ensures var e := On(Bans.ApiUnbans(v));
            && Enabled(c, s, e)
            && Step(c, s, e) == System(s.bans.(bans := s.bans.bans - {v}), s.paths, s.orders + multiset{Withdraw(v)})
  {
    Orders(c, s, Bans.ApiUnbans(v), None,
           System(s.bans.(bans := s.bans.bans - {v}), s.paths, s.orders + multiset{Withdraw(v)}));
  }

  lemma WithdrawsNothing(refreshing: set<Ip>, v: Ip)
    requires v !in refreshing
    ensures Paths.Enabled(Blank(refreshing), Paths.Unbans(v))
    ensures Paths.Step(Blank(refreshing), Paths.Unbans(v)) == Blank(refreshing)
  {
    var t := Table(map[], {v}, refreshing);
    assert RequestAll(t, {}).rules == map[];
    assert {v} - {v} == {};
    assert BeginWithdraw(Blank(refreshing).table, v) == Table(map[], {}, refreshing) by {
      assert VictimKeys(Blank(refreshing).table, v) == {};
      assert Blank(refreshing).table.(fenced := {} + {v}) == t;
    }
  }

  /** The unban overtakes the ban: its thread finds nothing to withdraw, and the ban announces after it. */
  lemma LateBanLeaks(c: Config, k: Key, r: Rule, uuid: Uuid, b: Bans.Ban)
    requires Paths.Keyed(k, r) && uuid != [] && b.source == Bans.Manual
    ensures var v := k.victim;
            var events := [Protocol(Bans.ApiBans(v, b), Ask(k, r)), On(Bans.ApiUnbans(v)), CarriesOut(Withdraw(v)),
                           CarriesOut(Announce(k, r)), Works(Paths.PathAdded(k, uuid)),
                           Works(Paths.CompletesAnnounce(k))];
            IsRun(c, INITIAL, events) && Leaks(RunTo(c, INITIAL, events), v)
  {
    var v := k.victim;
    hide Bans.Enabled, Bans.Step, Bans.ListsFilled, TokenEvent, Ordered, Paths.Enabled, Paths.Step, Enabled, Step,
         IsRun, RunTo, Paths.Keyed, NoPaths;
    var events := [Protocol(Bans.ApiBans(v, b), Ask(k, r)), On(Bans.ApiUnbans(v)), CarriesOut(Withdraw(v)),
                   CarriesOut(Announce(k, r)), Works(Paths.PathAdded(k, uuid)), Works(Paths.CompletesAnnounce(k))];
    var w1, w2 := AddOne(k, r, uuid, {});
    WithdrawsNothing({}, v);
    var s1 := System(Bans.INITIAL.(bans := map[v := b]), Paths.START, multiset{Announce(k, r)});
    var s2 := System(Bans.INITIAL, Paths.START, multiset{Announce(k, r), Withdraw(v)});
    var s3 := s2.(orders := multiset{Announce(k, r)});
    var s4 := System(Bans.INITIAL, w1, multiset{});
    var s5 := s4.(paths := w2);
    var s6 := s4.(paths := Held(k, r, uuid, {}));
    assert map[v := b] - {v} == map[];
    ApiBanned(c, INITIAL, v, b, Ask(k, r));
    ApiUnbanned(c, s1, v);
    Carries(c, s2, Withdraw(v), s3);
    Carries(c, s3, Announce(k, r), s4);
    Calls(c, s4, Paths.PathAdded(k, uuid), w2);
    Calls(c, s5, Paths.CompletesAnnounce(k), s6.paths);
    FourSteps(c, INITIAL, events[0], s1, events[1], s2, events[2], s3, events[3], s4);
    TwoSteps(c, s4, events[4], s5, events[5], s6);
    assert events[..4] == [events[0], events[1], events[2], events[3]] && events[4..] == [events[4], events[5]];
    RunAndRun(c, INITIAL, events[..4], events[4..]);
    assert events[..4] + events[4..] == events;
    HeldHasPath(k, r, uuid, {});
  }

  lemma HeldHasPath(k: Key, r: Rule, uuid: Uuid, refreshing: set<Ip>)
    requires Paths.Keyed(k, r)
    ensures !NoPaths(Held(k, r, uuid, refreshing), k.victim)
  {
    assert uuid in Held(k, r, uuid, refreshing).paths && OfVictim(r, k.victim);
  }

  // ----- a refresh begun late -----

  /** The bucket thread goes by a copy of the ban list that names the host; nothing else is under way. */
  ghost predicate StaleCopy(s: System, v: Ip) {
    && s.bans.bans == map[] && s.bans.buckets == map[] && s.bans.tokens == {} && s.bans.managers == multiset{}
    && s.bans.detector.DetectorIdle? && s.bans.sweeper.SweeperIdle?
    && s.bans.worker.Scheduling? && s.bans.worker.victims.Keys == {v}
    && s.paths == Blank({}) && s.orders == multiset{}
  }

  /** A refresh capture of the host is under way. */
  ghost predicate Captures(s: System, v: Ip) {
    && s.bans.bans == map[] && s.bans.tokens == {v} && s.bans.managers == multiset{}
    && s.bans.detector.DetectorIdle? && s.bans.sweeper.SweeperIdle? && s.bans.worker.Resting?
    && s.bans.buckets.Keys == {v} && s.bans.buckets[v].pattern == Bans.RefreshOnce
    && s.paths == Blank({v}) && s.orders == multiset{}
  }

  /** A refresh manager is at work for the host. */
  ghost predicate Manages(s: System, v: Ip) {
    && s.bans.bans == map[] && s.bans.buckets == map[] && s.bans.tokens == {v} && s.bans.managers == multiset{v}
    && s.bans.detector.DetectorIdle? && s.bans.sweeper.SweeperIdle? && s.bans.worker.Resting?
    && s.paths == Blank({v}) && s.orders == multiset{}
  }

  function CaptureEvents(v: Ip): seq<Event> {
    [On(Bans.ChoosesVictim(v)), On(Bans.BeginRefresh(false)), On(Bans.EnableRefresh), On(Bans.StopScheduling)]
  }

  lemma StaleCopyCaptures(c: Config, s: System, v: Ip)
    requires StaleCopy(s, v)
    ensures IsRun(c, s, CaptureEvents(v)) && Captures(RunTo(c, s, CaptureEvents(v)), v)
  {
    var d := s.bans.worker.victims[v];
    var s1 := s.(bans := s.bans.(worker := Bans.Chosen(v, d, map[])));
    var s2 := System(s.bans.(tokens := {v}, begun := s.bans.begun + multiset{v}, worker := Bans.Began(v, d, map[])),
                     Blank({v}), multiset{});
    var s3 := s2.(bans := s2.bans.(worker := Bans.Scheduling(map[]),
                                   buckets := map[v := RefreshBucket(c, d)]));
    var s4 := s3.(bans := s3.bans.(worker := Bans.Resting));
    assert s.bans.worker.victims - {v} == map[];
    assert map[][v := RefreshBucket(c, d)] == s3.bans.buckets;
    hide Bans.Enabled, Bans.Step, Bans.ListsFilled, TokenEvent, Ordered, Paths.Enabled, Paths.Step, Enabled, Step,
         IsRun, RunTo;
    assert Leads(c, s, On(Bans.ChoosesVictim(v)), s1) by { VictimChosen(c, s, v); }
    assert Leads(c, s1, On(Bans.BeginRefresh(false)), s2) by { RefreshBegun(c, s1, v); }
    assert Leads(c, s2, On(Bans.EnableRefresh), s3) by { RefreshEnabled(c, s2); }
    assert Leads(c, s3, On(Bans.StopScheduling), s4) by { SchedulingStopped(c, s3); }
    FourSteps(c, s, On(Bans.ChoosesVictim(v)), s1, On(Bans.BeginRefresh(false)), s2, On(Bans.EnableRefresh), s3,
              On(Bans.StopScheduling), s4);
  }

  function QueueEvents(v: Ip): seq<Event> {
    [On(Bans.PacketFills(v)), On(Bans.CollectFilled([v])), On(Bans.ProcessBucket), On(Bans.ReleaseLock)]
  }

  function HandOverEvents(): seq<Event> {
    [On(Bans.ProcessRefresh(true)), On(Bans.StartScheduling), On(Bans.StopScheduling)]
  }

  lemma BucketQueued(c: Config, s: System, v: Ip)
    requires Captures(s, v)
    ensures IsRun(c, s, QueueEvents(v))
    ensures RunTo(c, s, QueueEvents(v)) == s.(bans := s.bans.(buckets := map[], worker := Bans.HandingOver([v])))
  {
    var b := s.bans.buckets[v].(filled := true);
    var s1 := s.(bans := s.bans.(buckets := map[v := b]));
    var s2 := s.(bans := s1.bans.(worker := Bans.Processing([v], [])));
    var s3 := s.(bans := s.bans.(buckets := map[], worker := Bans.Processing([], [v])));
    var s4 := s.(bans := s3.bans.(worker := Bans.HandingOver([v])));
    assert s.bans.buckets[v := b] == map[v := b] && map[v := b] - {v} == map[];
    assert [v][1..] == [] && [] + [v] == [v];
    assert Bans.ListsFilled([v], s1.bans.buckets);
    hide Bans.Enabled, Bans.Step, Bans.ListsFilled, TokenEvent, Ordered, Paths.Enabled, Paths.Step, Enabled, Step,
         IsRun, RunTo;
    assert Leads(c, s, On(Bans.PacketFills(v)), s1) by { BucketFilled(c, s, v); }
    assert Leads(c, s1, On(Bans.CollectFilled([v])), s2) by { FilledCollected(c, s1, [v]); }
    assert Leads(c, s2, On(Bans.ProcessBucket), s3) by { RefreshQueued(c, s2, v); }
    assert Leads(c, s3, On(Bans.ReleaseLock), s4) by { LockReleased(c, s3); }
    FourSteps(c, s, On(Bans.PacketFills(v)), s1, On(Bans.CollectFilled([v])), s2, On(Bans.ProcessBucket), s3,
              On(Bans.ReleaseLock), s4);
  }

  lemma QueueHandedOver(c: Config, s: System, v: Ip)
    requires c.refresh && s.bans.worker == Bans.HandingOver([v])
    requires s.bans.bans == map[] && s.bans.managers == multiset{}
    ensures IsRun(c, s, HandOverEvents())
    ensures RunTo(c, s, HandOverEvents())
         == s.(bans := s.bans.(worker := Bans.Resting, managers := multiset{v}, handed := s.bans.handed + multiset{v}))
  {
    var s1 := s.(bans := s.bans.(worker := Bans.HandingOver([]),
                                 managers := multiset{v}, handed := s.bans.handed + multiset{v}));
    var s2 := s.(bans := s1.bans.(worker := Bans.Scheduling(map[])));
    var s3 := s.(bans := s1.bans.(worker := Bans.Resting));
    assert [v][1..] == [];
    hide Bans.Enabled, Bans.Step, Bans.ListsFilled, TokenEvent, Ordered, Paths.Enabled, Paths.Step, Enabled, Step,
         IsRun, RunTo;
    assert Leads(c, s, On(Bans.ProcessRefresh(true)), s1) by { RefreshHandedOver(c, s, v); }
    assert Leads(c, s1, On(Bans.StartScheduling), s2) by { SchedulingStarted(c, s1); }
    assert Leads(c, s2, On(Bans.StopScheduling), s3) by { SchedulingStopped(c, s2); }
    ThreeSteps(c, s, On(Bans.ProcessRefresh(true)), s1, On(Bans.StartScheduling), s2, On(Bans.StopScheduling), s3);
  }

  lemma CaptureHandedOver(c: Config, s: System, v: Ip)
    requires c.refresh && Captures(s, v)
    ensures var events := QueueEvents(v) + HandOverEvents();
            IsRun(c, s, events) && Manages(RunTo(c, s, events), v)
  {
    hide Enabled, Step, IsRun, RunTo, QueueEvents, HandOverEvents;
    BucketQueued(c, s, v);
    QueueHandedOver(c, RunTo(c, s, QueueEvents(v)), v);
    RunAndRun(c, s, QueueEvents(v), HandOverEvents());
  }

  function ManagerEvents(k: Key, r: Rule, uuid: Uuid): seq<Event> {
    [Refreshes(k.victim, Paths.Announces(k, r)), Works(Paths.PathAdded(k, uuid)), Works(Paths.CompletesAnnounce(k)),
     On(Bans.ManagerFinishes(k.victim))]
  }

  lemma TokenReturned(k: Key, r: Rule, uuid: Uuid)
    ensures var w := Held(k, r, uuid, {k.victim});
            && Paths.Enabled(w, Paths.FinishesCapture(k.victim))
            && Paths.Step(w, Paths.FinishesCapture(k.victim)) == Held(k, r, uuid, {})
  {
    assert {k.victim} - {k.victim} == {};
  }

  lemma ManagerLeaks(c: Config, s: System, k: Key, r: Rule, uuid: Uuid)
    requires Manages(s, k.victim) && Paths.Keyed(k, r) && uuid != []
    ensures IsRun(c, s, ManagerEvents(k, r, uuid)) && Leaks(RunTo(c, s, ManagerEvents(k, r, uuid)), k.victim)
  {
    hide Paths.Keyed, Paths.Enabled, Paths.Step, Enabled, Step, IsRun, RunTo, NoPaths;
    var v := k.victim;
    var w1, w2 := AddOne(k, r, uuid, {v});
    TokenReturned(k, r, uuid);
    var s1, s2, s3 := s.(paths := w1), s.(paths := w2), s.(paths := Held(k, r, uuid, {v}));
    var s4 := System(s.bans.(managers := multiset{}, tokens := {}), Held(k, r, uuid, {}), multiset{});
    assert {v} - {v} == {};
    assert Leads(c, s, Refreshes(k.victim, Paths.Announces(k, r)), s1) by { Calls(c, s, Paths.Announces(k, r), w1); }
    assert Leads(c, s1, Works(Paths.PathAdded(k, uuid)), s2) by { Calls(c, s1, Paths.PathAdded(k, uuid), w2); }
    assert Leads(c, s2, Works(Paths.CompletesAnnounce(k)), s3) by {
      Calls(c, s2, Paths.CompletesAnnounce(k), s3.paths);
    }
    assert Leads(c, s3, On(Bans.ManagerFinishes(k.victim)), s4) by {
      TurnsToken(c, s3, Bans.ManagerFinishes(v), Paths.FinishesCapture(v), s4);
    }
    FourSteps(c, s, Refreshes(k.victim, Paths.Announces(k, r)), s1, Works(Paths.PathAdded(k, uuid)), s2,
              Works(Paths.CompletesAnnounce(k)), s3, On(Bans.ManagerFinishes(k.victim)), s4);
    HeldHasPath(k, r, uuid, {});
  }

  /** From a stale copy to a path of a host without a ban. */
  function StaleEvents(k: Key, r: Rule, uuid: Uuid): seq<Event> {
    CaptureEvents(k.victim) + (QueueEvents(k.victim) + HandOverEvents()) + ManagerEvents(k, r, uuid)
  }

  lemma StaleCopyLeaks(c: Config, s: System, k: Key, r: Rule, uuid: Uuid)
    requires c.refresh && StaleCopy(s, k.victim) && Paths.Keyed(k, r) && uuid != []
    ensures IsRun(c, s, StaleEvents(k, r, uuid)) && Leaks(RunTo(c, s, StaleEvents(k, r, uuid)), k.victim)
  {
    hide StaleCopy, Captures, Manages, Leaks, IsRun, RunTo, CaptureEvents, QueueEvents, HandOverEvents, ManagerEvents;
    var v := k.victim;
    StaleCopyCaptures(c, s, v);
    var s1 := RunTo(c, s, CaptureEvents(v));
    CaptureHandedOver(c, s1, v);
    RunAndRun(c, s, CaptureEvents(v), QueueEvents(v) + HandOverEvents());
    var s2 := RunTo(c, s1, QueueEvents(v) + HandOverEvents());
    ManagerLeaks(c, s2, k, r, uuid);
    RunAndRun(c, s, CaptureEvents(v) + (QueueEvents(v) + HandOverEvents()), ManagerEvents(k, r, uuid));
  }

  function CopyEvents(v: Ip, b: Bans.Ban): seq<Event> {
    [On(Bans.ApiBans(v, b)), On(Bans.CollectFilled([])), On(Bans.ReleaseLock), On(Bans.StartScheduling)]
  }

  function UnbanEvents(v: Ip): seq<Event> {
    [On(Bans.ApiUnbans(v)), CarriesOut(Withdraw(v))]
  }

  lemma BannedHostCopied(c: Config, v: Ip, b: Bans.Ban)
    requires c.refresh && b.source == Bans.Manual
    ensures IsRun(c, INITIAL, CopyEvents(v, b))
    ensures RunTo(c, INITIAL, CopyEvents(v, b))
         == INITIAL.(bans := Bans.INITIAL.(bans := map[v := b], worker := Bans.Scheduling(map[v := b])))
  {
    var banned := Bans.INITIAL.(bans := map[v := b]);
    var s1 := INITIAL.(bans := banned);
    var s2 := INITIAL.(bans := banned.(worker := Bans.Processing([], [])));
    var s3 := INITIAL.(bans := banned.(worker := Bans.HandingOver([])));
    var s4 := INITIAL.(bans := banned.(worker := Bans.Scheduling(map[v := b])));
    assert Bans.ListsFilled([], map[]);
    hide Bans.Enabled, Bans.Step, Bans.ListsFilled, TokenEvent, Ordered, Paths.Enabled, Paths.Step, Enabled, Step,
         IsRun, RunTo;
    assert Leads(c, INITIAL, On(Bans.ApiBans(v, b)), s1) by { ApiBanned(c, INITIAL, v, b, None); }
    assert Leads(c, s1, On(Bans.CollectFilled([])), s2) by { FilledCollected(c, s1, []); }
    assert Leads(c, s2, On(Bans.ReleaseLock), s3) by { LockReleased(c, s2); }
    assert Leads(c, s3, On(Bans.StartScheduling), s4) by { SchedulingStarted(c, s3); }
    FourSteps(c, INITIAL, On(Bans.ApiBans(v, b)), s1, On(Bans.CollectFilled([])), s2, On(Bans.ReleaseLock), s3,
              On(Bans.StartScheduling), s4);
  }

  lemma CopiedHostUnbanned(c: Config, s: System, v: Ip, b: Bans.Ban)
    requires s == INITIAL.(bans := Bans.INITIAL.(bans := map[v := b], worker := Bans.Scheduling(map[v := b])))
    ensures IsRun(c, s, UnbanEvents(v)) && StaleCopy(RunTo(c, s, UnbanEvents(v)), v)
  {
    var s1 := System(s.bans.(bans := map[]), Paths.START, multiset{Withdraw(v)});
    var s2 := s1.(orders := multiset{});
    WithdrawsNothing({}, v);
    assert map[v := b] - {v} == map[];
    hide Bans.Enabled, Bans.Step, Bans.ListsFilled, TokenEvent, Ordered, Paths.Enabled, Paths.Step, Enabled, Step,
         IsRun, RunTo;
    assert Leads(c, s, On(Bans.ApiUnbans(v)), s1) by { ApiUnbanned(c, s, v); }
    assert Leads(c, s1, CarriesOut(Withdraw(v)), s2) by { Carries(c, s1, Withdraw(v), s2); }
    TwoSteps(c, s, On(Bans.ApiUnbans(v)), s1, CarriesOut(Withdraw(v)), s2);
  }

  /**
    * The withdrawal gets to the table while the bucket thread still has the host on its copy of the ban list: a refresh
    * begins after the fence has fallen and announces.
    */
  lemma LateRefreshLeaks(c: Config, k: Key, r: Rule, uuid: Uuid, b: Bans.Ban)
    requires c.refresh && Paths.Keyed(k, r) && uuid != [] && b.source == Bans.Manual
    ensures var events := CopyEvents(k.victim, b) + UnbanEvents(k.victim) + StaleEvents(k, r, uuid);
            IsRun(c, INITIAL, events) && Leaks(RunTo(c, INITIAL, events), k.victim)
  {
    hide StaleCopy, Leaks, IsRun, RunTo, CopyEvents, UnbanEvents, StaleEvents;
    var v := k.victim;
    BannedHostCopied(c, v, b);
    var s1 := RunTo(c, INITIAL, CopyEvents(v, b));
    CopiedHostUnbanned(c, s1, v, b);
    RunAndRun(c, INITIAL, CopyEvents(v, b), UnbanEvents(v));
    StaleCopyLeaks(c, RunTo(c, s1, UnbanEvents(v)), k, r, uuid);
    RunAndRun(c, INITIAL, CopyEvents(v, b) + UnbanEvents(v), StaleEvents(k, r, uuid));
  }

  // ----- a ban erased late -----

  lemma BucketTested(c: Config, s: System, v: Ip)
    requires s.bans.detector.DetectorIdle? && s.bans.worker.Resting? && v !in s.bans.buckets
    ensures Enabled(c, s, On(Bans.DetectorTestsBucket(v)))
    ensures Step(c, s, On(Bans.DetectorTestsBucket(v))) == s.(bans := s.bans.(detector := Bans.SawNoBucket(v)))
  {
    Turns(c, s, Bans.DetectorTestsBucket(v), s.bans.(detector := Bans.SawNoBucket(v)));
  }

  lemma BanTested(c: Config, s: System, v: Ip)
    requires s.bans.detector == Bans.SawNoBucket(v) && v !in s.bans.bans
    ensures Enabled(c, s, On(Bans.DetectorTestsBan))
    ensures Step(c, s, On(Bans.DetectorTestsBan)) == s.(bans := s.bans.(detector := Bans.SawNoBan(v)))
  {
    Turns(c, s, Bans.DetectorTestsBan, s.bans.(detector := Bans.SawNoBan(v)));
  }

  lemma CaptureEnabled(c: Config, s: System, v: Ip, b: Bans.Ban)
    requires s.bans.detector == Bans.SawNoBan(v) && s.bans.worker.Resting? && v !in s.bans.buckets
    requires b.source == Bans.Automatic
    ensures Enabled(c, s, On(Bans.DetectorEnables(b)))
    ensures Step(c, s, On(Bans.DetectorEnables(b)))
         == s.(bans := s.bans.(detector := Bans.DetectorIdle,
                       buckets := s.bans.buckets[v := Bans.Bucket(Bans.Once, c.noCapacity, b)]))
  {
    Turns(c, s, Bans.DetectorEnables(b),
          s.bans.(detector := Bans.DetectorIdle,
                       buckets := s.bans.buckets[v := Bans.Bucket(Bans.Once, c.noCapacity, b)]));
  }

  lemma HostBanned(c: Config, s: System, v: Ip)
    requires s.bans.worker == Bans.Processing([v], []) && Bans.Capturing(s.bans, v)
    ensures Enabled(c, s, On(Bans.ProcessBucket))
    ensures Step(c, s, On(Bans.ProcessBucket))
         == s.(bans := s.bans.(bans := s.bans.bans[v := s.bans.buckets[v].details],
                               worker := Bans.Banned(v, [v][1..], [])))
  {
    Turns(c, s, Bans.ProcessBucket,
          s.bans.(bans := s.bans.bans[v := s.bans.buckets[v].details], worker := Bans.Banned(v, [v][1..], [])));
  }

  lemma BucketErased(c: Config, s: System, v: Ip)
    requires s.bans.worker == Bans.Banned(v, [], [])
    ensures Enabled(c, s, On(Bans.EraseBucket))
    ensures Step(c, s, On(Bans.EraseBucket))
         == s.(bans := s.bans.(buckets := s.bans.buckets - {v}, worker := Bans.Processing([], [])))
  {
    Turns(c, s, Bans.EraseBucket, s.bans.(buckets := s.bans.buckets - {v}, worker := Bans.Processing([], [])));
  }

  lemma SweepBegun(c: Config, s: System, now: int)
    requires s.bans.sweeper.SweeperIdle?
    ensures Enabled(c, s, On(Bans.SweepStarts(now)))
    ensures Step(c, s, On(Bans.SweepStarts(now))) == s.(bans := s.bans.(sweeper := Bans.Deciding(now, s.bans.bans, {})))
  {
    Turns(c, s, Bans.SweepStarts(now), s.bans.(sweeper := Bans.Deciding(now, s.bans.bans, {})));
  }

  lemma SweepTurned(c: Config, s: System, v: Ip, now: int)
    requires s.bans.sweeper == Bans.Deciding(now, map[], {v})
    ensures Enabled(c, s, On(Bans.SweepStartsErasing))
    ensures Step(c, s, On(Bans.SweepStartsErasing)) == s.(bans := s.bans.(sweeper := Bans.Erasing({v})))
  {
    Turns(c, s, Bans.SweepStartsErasing, s.bans.(sweeper := Bans.Erasing({v})));
  }

  lemma SweepErased(c: Config, s: System, v: Ip)
    requires s.bans.sweeper == Bans.Erasing({v})
    ensures Enabled(c, s, On(Bans.SweepErases(v)))
    ensures Step(c, s, On(Bans.SweepErases(v)))
         == s.(bans := s.bans.(bans := s.bans.bans - {v}, sweeper := Bans.Erasing({v} - {v})))
  {
    Turns(c, s, Bans.SweepErases(v), s.bans.(bans := s.bans.bans - {v}, sweeper := Bans.Erasing({v} - {v})));
  }

  lemma SweepStopped(c: Config, s: System)
    requires s.bans.sweeper == Bans.Erasing({})
    ensures Enabled(c, s, On(Bans.SweepStops))
    ensures Step(c, s, On(Bans.SweepStops)) == s.(bans := s.bans.(sweeper := Bans.SweeperIdle))
  {
    Turns(c, s, Bans.SweepStops, s.bans.(sweeper := Bans.SweeperIdle));
  }

  lemma SweepDecided(c: Config, s: System, v: Ip, b: Bans.Ban, now: int)
    requires s.bans.sweeper == Bans.Deciding(now, map[v := b], {}) && Bans.Liftable(c, b, now, true)
    ensures var e := On(Bans.SweepDecides(v, true));
            && Enabled(c, s, e)
            && Step(c, s, e)
            == System(s.bans.(sweeper := Bans.Deciding(now, map[v := b] - {v}, {} + {v})), s.paths,
                      s.orders + multiset{Withdraw(v)})
  {
    hide Bans.Liftable;
    Orders(c, s, Bans.SweepDecides(v, true), None,
           System(s.bans.(sweeper := Bans.Deciding(now, map[v := b] - {v}, {} + {v})), s.paths,
                      s.orders + multiset{Withdraw(v)}));
  }

  function DetectionEvents(v: Ip, b: Bans.Ban): seq<Event> {
    [On(Bans.DetectorTestsBucket(v)), On(Bans.DetectorTestsBan), On(Bans.DetectorEnables(b)), On(Bans.PacketFills(v))]
  }

  function BanningEvents(v: Ip): seq<Event> {
    [On(Bans.CollectFilled([v])), On(Bans.ProcessBucket), On(Bans.EraseBucket), On(Bans.ReleaseLock)]
  }

  function SweepEvents(v: Ip, now: int): seq<Event> {
    [On(Bans.SweepStarts(now)), On(Bans.SweepDecides(v, true)), CarriesOut(Withdraw(v)), On(Bans.StartScheduling)]
  }

  function EraseEvents(v: Ip): seq<Event> {
    [On(Bans.SweepStartsErasing), On(Bans.SweepErases(v)), On(Bans.SweepStops)]
  }

  lemma HostDetected(c: Config, v: Ip, b: Bans.Ban)
    requires b.source == Bans.Automatic
    ensures IsRun(c, INITIAL, DetectionEvents(v, b))
    ensures RunTo(c, INITIAL, DetectionEvents(v, b))
         == INITIAL.(bans := Bans.INITIAL.(buckets := map[v := Bans.Bucket(Bans.Once, true, b)]))
  {
    var s1 := INITIAL.(bans := Bans.INITIAL.(detector := Bans.SawNoBucket(v)));
    var s2 := INITIAL.(bans := Bans.INITIAL.(detector := Bans.SawNoBan(v)));
    var s3 := INITIAL.(bans := Bans.INITIAL.(buckets := map[v := Bans.Bucket(Bans.Once, c.noCapacity, b)]));
    var s4 := INITIAL.(bans := Bans.INITIAL.(buckets := map[v := Bans.Bucket(Bans.Once, true, b)]));
    hide Bans.Enabled, Bans.Step, Bans.ListsFilled, TokenEvent, Ordered, Paths.Enabled, Paths.Step, Enabled, Step,
         IsRun, RunTo;
    assert Leads(c, INITIAL, On(Bans.DetectorTestsBucket(v)), s1) by { BucketTested(c, INITIAL, v); }
    assert Leads(c, s1, On(Bans.DetectorTestsBan), s2) by { BanTested(c, s1, v); }
    assert Leads(c, s2, On(Bans.DetectorEnables(b)), s3) by { CaptureEnabled(c, s2, v, b); }
    assert Leads(c, s3, On(Bans.PacketFills(v)), s4) by { BucketFilled(c, s3, v); }
    assert s3.bans.buckets[v := s3.bans.buckets[v].(filled := true)] == s4.bans.buckets;
    FourSteps(c, INITIAL, On(Bans.DetectorTestsBucket(v)), s1, On(Bans.DetectorTestsBan), s2,
              On(Bans.DetectorEnables(b)), s3, On(Bans.PacketFills(v)), s4);
  }

  lemma DetectedHostBanned(c: Config, s: System, v: Ip, b: Bans.Ban)
    requires s == INITIAL.(bans := Bans.INITIAL.(buckets := map[v := Bans.Bucket(Bans.Once, true, b)]))
    ensures IsRun(c, s, BanningEvents(v))
    ensures RunTo(c, s, BanningEvents(v))
         == INITIAL.(bans := Bans.INITIAL.(bans := map[v := b], worker := Bans.HandingOver([])))
  {
    var banned := Bans.INITIAL.(bans := map[v := b]);
    var s1 := s.(bans := s.bans.(worker := Bans.Processing([v], [])));
    var s2 := s.(bans := s.bans.(bans := map[v := b], worker := Bans.Banned(v, [], [])));
    var s3 := s.(bans := banned.(worker := Bans.Processing([], [])));
    var s4 := s.(bans := banned.(worker := Bans.HandingOver([])));
    assert Bans.ListsFilled([v], s.bans.buckets);
    assert [v][1..] == [] && s.bans.buckets - {v} == map[];
    hide Bans.Enabled, Bans.Step, Bans.ListsFilled, TokenEvent, Ordered, Paths.Enabled, Paths.Step, Enabled, Step,
         IsRun, RunTo;
    assert Leads(c, s, On(Bans.CollectFilled([v])), s1) by { FilledCollected(c, s, [v]); }
    assert Leads(c, s1, On(Bans.ProcessBucket), s2) by { HostBanned(c, s1, v); }
    assert Leads(c, s2, On(Bans.EraseBucket), s3) by { BucketErased(c, s2, v); }
    assert Leads(c, s3, On(Bans.ReleaseLock), s4) by { LockReleased(c, s3); }
    FourSteps(c, s, On(Bans.CollectFilled([v])), s1, On(Bans.ProcessBucket), s2, On(Bans.EraseBucket), s3,
              On(Bans.ReleaseLock), s4);
  }

  lemma SweptHostCopied(c: Config, s: System, v: Ip, b: Bans.Ban, now: int)
    requires c.refresh && Bans.Liftable(c, b, now, true)
    requires s == INITIAL.(bans := Bans.INITIAL.(bans := map[v := b], worker := Bans.HandingOver([])))
    ensures IsRun(c, s, SweepEvents(v, now))
    ensures RunTo(c, s, SweepEvents(v, now))
         == s.(bans := s.bans.(worker := Bans.Scheduling(map[v := b]), sweeper := Bans.Deciding(now, map[], {v})))
  {
    var s1 := s.(bans := s.bans.(sweeper := Bans.Deciding(now, map[v := b], {})));
    var s3 := s.(bans := s.bans.(sweeper := Bans.Deciding(now, map[], {v})));
    var s2 := s3.(orders := multiset{Withdraw(v)});
    var s4 := s3.(bans := s3.bans.(worker := Bans.Scheduling(map[v := b])));
    WithdrawsNothing({}, v);
    assert map[v := b] - {v} == map[] && {} + {v} == {v};
    assert multiset{} + multiset{Withdraw(v)} == multiset{Withdraw(v)};
    hide Bans.Enabled, Bans.Step, Bans.ListsFilled, TokenEvent, Ordered, Paths.Enabled, Paths.Step, Enabled, Step,
         IsRun, RunTo, Bans.Liftable;
    assert Leads(c, s, On(Bans.SweepStarts(now)), s1) by { SweepBegun(c, s, now); }
    assert Leads(c, s1, On(Bans.SweepDecides(v, true)), s2) by { SweepDecided(c, s1, v, b, now); }
    assert Leads(c, s2, CarriesOut(Withdraw(v)), s3) by { Carries(c, s2, Withdraw(v), s3); }
    assert Leads(c, s3, On(Bans.StartScheduling), s4) by { SchedulingStarted(c, s3); }
    FourSteps(c, s, On(Bans.SweepStarts(now)), s1, On(Bans.SweepDecides(v, true)), s2, CarriesOut(Withdraw(v)), s3,
              On(Bans.StartScheduling), s4);
  }

  lemma SweptHostErased(c: Config, s: System, v: Ip, b: Bans.Ban, now: int)
    requires s == INITIAL.(bans := Bans.INITIAL.(bans := map[v := b], worker := Bans.Scheduling(map[v := b]),
                                                 sweeper := Bans.Deciding(now, map[], {v})))
    ensures IsRun(c, s, EraseEvents(v)) && StaleCopy(RunTo(c, s, EraseEvents(v)), v)
  {
    var s1 := s.(bans := s.bans.(sweeper := Bans.Erasing({v})));
    var s2 := s.(bans := s.bans.(bans := map[], sweeper := Bans.Erasing({})));
    var s3 := s.(bans := s.bans.(bans := map[], sweeper := Bans.SweeperIdle));
    assert map[v := b] - {v} == map[] && {v} - {v} == {};
    hide Bans.Enabled, Bans.Step, Bans.ListsFilled, TokenEvent, Ordered, Paths.Enabled, Paths.Step, Enabled, Step,
         IsRun, RunTo;
    assert Leads(c, s, On(Bans.SweepStartsErasing), s1) by { SweepTurned(c, s, v, now); }
    assert Leads(c, s1, On(Bans.SweepErases(v)), s2) by { SweepErased(c, s1, v); }
    assert Leads(c, s2, On(Bans.SweepStops), s3) by { SweepStopped(c, s2); }
    ThreeSteps(c, s, On(Bans.SweepStartsErasing), s1, On(Bans.SweepErases(v)), s2, On(Bans.SweepStops), s3);
  }

  function LateEraseEvents(v: Ip, b: Bans.Ban, now: int): seq<Event> {
    DetectionEvents(v, b) + BanningEvents(v) + SweepEvents(v, now) + EraseEvents(v)
  }

  lemma SweepDuringScheduling(c: Config, v: Ip, b: Bans.Ban, now: int)
    requires c.refresh && Bans.Liftable(c, b, now, true)
    ensures IsRun(c, INITIAL, LateEraseEvents(v, b, now)) && StaleCopy(RunTo(c, INITIAL, LateEraseEvents(v, b, now)), v)
  {
    hide Enabled, Step, IsRun, RunTo, StaleCopy, DetectionEvents, BanningEvents, SweepEvents, EraseEvents;
    HostDetected(c, v, b);
    var s1 := RunTo(c, INITIAL, DetectionEvents(v, b));
    DetectedHostBanned(c, s1, v, b);
    RunAndRun(c, INITIAL, DetectionEvents(v, b), BanningEvents(v));
    var s2 := RunTo(c, s1, BanningEvents(v));
    SweptHostCopied(c, s2, v, b, now);
    RunAndRun(c, INITIAL, DetectionEvents(v, b) + BanningEvents(v), SweepEvents(v, now));
    var s3 := RunTo(c, s2, SweepEvents(v, now));
    SweptHostErased(c, s3, v, b, now);
    RunAndRun(c, INITIAL, DetectionEvents(v, b) + BanningEvents(v) + SweepEvents(v, now), EraseEvents(v));
  }

  /**
    * The sweep withdraws before it erases the ban. In between the bucket thread copies the ban list, and a refresh of
    * the host begins, captures and announces after the ban is gone.
    */
  lemma LateEraseLeaks(c: Config, k: Key, r: Rule, uuid: Uuid, b: Bans.Ban, now: int)
    requires c.refresh && Paths.Keyed(k, r) && uuid != [] && Bans.Liftable(c, b, now, true)
    ensures var events := LateEraseEvents(k.victim, b, now) + StaleEvents(k, r, uuid);
            IsRun(c, INITIAL, events) && Leaks(RunTo(c, INITIAL, events), k.victim)
  {
    hide StaleCopy, Leaks, IsRun, RunTo, LateEraseEvents, StaleEvents;
    SweepDuringScheduling(c, k.victim, b, now);
    StaleCopyLeaks(c, RunTo(c, INITIAL, LateEraseEvents(k.victim, b, now)), k, r, uuid);
    RunAndRun(c, INITIAL, LateEraseEvents(k.victim, b, now), StaleEvents(k, r, uuid));
  }
}
