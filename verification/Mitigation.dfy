/**
  * The ban protocol and the path lifecycle together. A ban or an unban starts a detached thread that announces or
  * withdraws at the lifecycle table whenever it gets there, refresh captures take and return their tokens at the table,
  * and refresh managers announce at it.
  */
module Mitigation {
  import opened Octets
  import opened FlowSpecRule
  import opened Lifecycle
  import opened LifecycleUnban
  import Bans = BanProtocol
  import BanRuns
  import Paths = LifecycleRuns

  type Config = Bans.Config

  /** What a detached thread is to do, once it gets to the table. */
  datatype Order = Announce(key: Key, rule: Rule) | Withdraw(victim: Ip)

  datatype System = System(bans: Bans.State, paths: Paths.World, orders: multiset<Order>)

  const INITIAL := System(Bans.INITIAL, Paths.START, multiset{})

  /** A step of the ban protocol, with the rule a ban asks for if any; of a detached thread; of a manager; at GoBGP. */
  datatype Event =
    | Protocol(step: Bans.Event, wanted: Option<Request>)
    | CarriesOut(order: Order)
    | Refreshes(victim: Ip, call: Paths.Event)
    | Works(call: Paths.Event)

  /** The host a step bans: the API any, the bucket thread that of the attack capture it takes up. */
  function BannedHost(s: Bans.State, e: Bans.Event): Option<Ip> {
    match e
    case ApiBans(ip, _) => Some(ip)
    case ProcessBucket =>
      if s.worker.Processing? && s.worker.rest != [] && s.worker.rest[0] in s.buckets
         && s.buckets[s.worker.rest[0]].pattern == Bans.Once then Some(s.worker.rest[0])
      else None
    case _ => None
  }

  /** The detached threads a step starts. The sweep starts its own before it erases the ban. */
  function Ordered(c: Config, s: Bans.State, e: Bans.Event, wanted: Option<Request>): multiset<Order> {
    if wanted.Some? then multiset{Announce(wanted.value.key, wanted.value.rule)}
    else
      match e
      case ApiUnbans(ip) => if ip in s.bans then multiset{Withdraw(ip)} else multiset{}
      case SweepDecides(ip, finished) =>
        if s.sweeper.Deciding? && ip in s.sweeper.todo && Bans.Liftable(c, s.sweeper.todo[ip], s.sweeper.now, finished)
        then multiset{Withdraw(ip)} else multiset{}
      case _ => multiset{}
  }

  /** What a step of the ban protocol does at the lifecycle table: refresh tokens come and go. */
  function TokenEvent(c: Config, s: Bans.State, e: Bans.Event): Option<Paths.Event> {
    match e
    case BeginRefresh(_) => if s.worker.Chosen? then Some(Paths.BeginsCapture(s.worker.ip)) else None
    case OrphanRemoved(ip) => if Bans.Refreshing(s, ip) then Some(Paths.FinishesCapture(ip)) else None
    case ProcessRefresh(handOver) =>
      if c.refresh && !handOver && s.worker.HandingOver? && s.worker.queue != [] then
        Some(Paths.FinishesCapture(s.worker.queue[0]))
      else None
    case EnableRefresh =>
      if s.worker.Began? && s.worker.ip in s.buckets then Some(Paths.FinishesCapture(s.worker.ip)) else None
    case ManagerFinishes(ip) => Some(Paths.FinishesCapture(ip))
    case _ => None
  }

  function PathEvent(c: Config, s: System, e: Event): Option<Paths.Event> {
    match e
    case Protocol(b, _) => TokenEvent(c, s.bans, b)
    case CarriesOut(Announce(k, r)) => Some(Paths.Announces(k, r))
    case CarriesOut(Withdraw(v)) => Some(Paths.Unbans(v))
    case Refreshes(_, p) => Some(p)
    case Works(p) => Some(p)
  }

  /** The steps of threads in the middle of their calls to GoBGP. */
  predicate OfThread(e: Paths.Event) {
    || e.PathAdded? || e.PathRefused? || e.CompletesAnnounce? || e.FailsAnnounce? || e.CleansUp?
    || e.PathDeleted? || e.DeleteRefused? || e.CompletesWithdraw?
  }

  /** A manager plans port rules for its victim, or announces one without a port. */
  predicate OfManager(v: Ip, e: Paths.Event) {
    (e.PlansRefresh? && e.only.key.victim == v) || (e.Announces? && e.key.victim == v)
  }

  ghost predicate Enabled(c: Config, s: System, e: Event) {
    && (PathEvent(c, s, e).Some? ==> Paths.Enabled(s.paths, PathEvent(c, s, e).value))
    && match e
       case Protocol(b, wanted) =>
         && Bans.Enabled(c, s.bans, b)
         && (b.BeginRefresh? ==> (b.fenced <==> s.bans.worker.ip in s.paths.table.fenced))
         && (wanted.Some? ==> Paths.Keyed(wanted.value.key, wanted.value.rule)
                              && BannedHost(s.bans, b) == Some(wanted.value.key.victim))
       case CarriesOut(order) => order in s.orders
       case Refreshes(v, p) => v in s.bans.managers && OfManager(v, p)
       case Works(p) => OfThread(p)
  }

  function BansAfter(c: Config, s: System, e: Event): Bans.State
    requires Enabled(c, s, e)
  {
    if e.Protocol? then Bans.Step(c, s.bans, e.step) else s.bans
  }

  ghost function PathsAfter(c: Config, s: System, e: Event): Paths.World
    requires Enabled(c, s, e)
  {
    match PathEvent(c, s, e)
    case None => s.paths
    case Some(p) => Paths.Step(s.paths, p)
  }

  function OrdersAfter(c: Config, s: System, e: Event): multiset<Order> {
    match e
    case Protocol(b, wanted) => s.orders + Ordered(c, s.bans, b, wanted)
    case CarriesOut(order) => s.orders - multiset{order}
    case _ => s.orders
  }

  ghost function Step(c: Config, s: System, e: Event): System
    requires Enabled(c, s, e)
  {
    System(BansAfter(c, s, e), PathsAfter(c, s, e), OrdersAfter(c, s, e))
  }

  ghost predicate IsRun(c: Config, s: System, events: seq<Event>)
    decreases |events|
  {
    events == [] || (Enabled(c, s, events[0]) && IsRun(c, Step(c, s, events[0]), events[1..]))
  }

  ghost function RunTo(c: Config, s: System, events: seq<Event>): System
    requires IsRun(c, s, events)
    decreases |events|
  {
    if events == [] then s else RunTo(c, Step(c, s, events[0]), events[1..])
  }

  // ----- every run is a run of both -----

  function BanEvents(events: seq<Event>): seq<Bans.Event> {
    if events == [] then []
    else (if events[0].Protocol? then [events[0].step] else []) + BanEvents(events[1..])
  }

  function Listed(p: Option<Paths.Event>): seq<Paths.Event> {
    if p.Some? then [p.value] else []
  }

  ghost function PathEvents(c: Config, s: System, events: seq<Event>): seq<Paths.Event>
    requires IsRun(c, s, events)
    decreases |events|
  {
    if events == [] then []
    else Listed(PathEvent(c, s, events[0])) + PathEvents(c, Step(c, s, events[0]), events[1..])
  }

  /** What the threads of the ban protocol do is a run of it: whatever holds over its runs holds here. */
  lemma {:induction false} RunOfBans(c: Config, s: System, events: seq<Event>)
    requires IsRun(c, s, events)
    ensures Bans.IsRun(c, s.bans, BanEvents(events))
    ensures Bans.RunTo(c, s.bans, BanEvents(events)) == RunTo(c, s, events).bans
    decreases |events|
  {
    hide Bans.Enabled, Bans.Step, PathsAfter, OrdersAfter, PathEvent;
    if events != [] {
      var rest := BanEvents(events[1..]);
      RunOfBans(c, Step(c, s, events[0]), events[1..]);
      if events[0].Protocol? {
        assert ([events[0].step] + rest)[1..] == rest;
      } else {
        assert [] + rest == rest;
      }
    }
  }

  /** So is what happens at the lifecycle table and at GoBGP. */
  lemma {:induction false} RunOfPaths(c: Config, s: System, events: seq<Event>)
    requires IsRun(c, s, events)
    ensures Paths.IsRun(s.paths, PathEvents(c, s, events))
    ensures Paths.RunTo(s.paths, PathEvents(c, s, events)) == RunTo(c, s, events).paths
    decreases |events|
  {
    hide Paths.Enabled, Paths.Step, BansAfter, OrdersAfter, PathEvent;
    if events != [] {
      var rest := PathEvents(c, Step(c, s, events[0]), events[1..]);
      RunOfPaths(c, Step(c, s, events[0]), events[1..]);
      var p := PathEvent(c, s, events[0]);
      if p.Some? {
        assert ([p.value] + rest)[1..] == rest;
      } else {
        assert [] + rest == rest;
      }
    }
  }

  // ----- the tokens are one -----

  /** The invariants of both, and the victims with a refresh in progress are the same to both. */
  ghost predicate Joint(c: Config, s: System) {
    BanRuns.TokenInvariant(c, s.bans) && Paths.Invariant(s.paths) && s.bans.tokens == s.paths.table.refreshing
  }

  lemma RefreshingMoves(w: Paths.World, p: Paths.Event)
    requires Paths.Enabled(w, p)
    ensures Paths.Step(w, p).table.refreshing
         == match p
            case BeginsCapture(v) => if v in w.table.fenced then w.table.refreshing else w.table.refreshing + {v}
            case FinishesCapture(v) => w.table.refreshing - {v}
            case _ => w.table.refreshing
  {
    hide RefreshPlan, ClearFence, HasRules, Paths.Started, Paths.ThreadsAfter, Paths.PathsAfter, Paths.CleanersAfter, Paths.Keyed;
    match p {
      case Unbans(u) =>
        Paths.ClearFenceKeepsRules(RequestAll(w.table.(fenced := w.table.fenced + {u}), VictimKeys(w.table, u)), u);
      case FinishesCapture(u) => Paths.ClearFenceKeepsRules(w.table.(refreshing := w.table.refreshing - {u}), u);
      case FailsAnnounce(k) => Paths.ClearFenceKeepsRules(w.table.(rules := w.table.rules - {k}), k.victim);
      case CompletesWithdraw(k) => Paths.ClearFenceKeepsRules(w.table.(rules := w.table.rules - {k}), k.victim);
      case _ =>
    }
  }

  lemma TokensMove(c: Config, s: Bans.State, b: Bans.Event)
    requires Bans.Enabled(c, s, b) && (b.ProcessRefresh? ==> c.refresh)
    ensures Bans.Step(c, s, b).tokens
         == match TokenEvent(c, s, b)
            case None => s.tokens
            case Some(p) =>
              if p.BeginsCapture? then (if b.BeginRefresh? && b.fenced then s.tokens else s.tokens + {p.victim})
              else if p.FinishesCapture? then s.tokens - {p.victim}
              else s.tokens
  {
    hide Bans.ListsFilled, Bans.Liftable;
  }

  lemma TokenEventMoves(c: Config, s: Bans.State, b: Bans.Event)
    ensures var p := TokenEvent(c, s, b); p.None? || p.value.FinishesCapture? || (p.value.BeginsCapture? && b.BeginRefresh?)
  {
  }

  lemma JointStep(c: Config, s: System, e: Event)
    requires Enabled(c, s, e) && Joint(c, s)
    ensures Joint(c, Step(c, s, e))
  {
    hide BanRuns.TokenInvariant, Paths.Invariant, Bans.Step, Bans.Enabled, Paths.Step, Paths.Enabled, TokenEvent, Ordered,
         BannedHost, Paths.Keyed, OfThread, OfManager;
    var p := PathEvent(c, s, e);
    if p.Some? {
      Paths.InvariantStep(s.paths, p.value);
      RefreshingMoves(s.paths, p.value);
    }
    if e.Protocol? {
      BanRuns.TokenStep(c, s.bans, e.step);
      if e.step.ProcessRefresh? {
        BanRuns.QueueMeansRefresh(c, s.bans, e.step);
      }
      TokensMove(c, s.bans, e.step);
      TokenEventMoves(c, s.bans, e.step);
      BeginsAtWorker(c, s.bans, e.step);
    } else {
      OthersKeepTokens(c, s, e);
    }
  }

  lemma BeginsAtWorker(c: Config, s: Bans.State, b: Bans.Event)
    requires Bans.Enabled(c, s, b)
    ensures b.BeginRefresh? ==> TokenEvent(c, s, b) == Some(Paths.BeginsCapture(s.worker.ip))
  {
  }

  lemma OthersKeepTokens(c: Config, s: System, e: Event)
    requires Enabled(c, s, e) && !e.Protocol?
    ensures PathEvent(c, s, e).Some?
    ensures var p := PathEvent(c, s, e).value; !p.BeginsCapture? && !p.FinishesCapture?
  {
    hide Bans.Enabled, Paths.Enabled;
  }

  lemma {:induction false} RunKeepsJoint(c: Config, s: System, events: seq<Event>)
    requires Joint(c, s) && IsRun(c, s, events)
    ensures Joint(c, RunTo(c, s, events))
    decreases |events|
  {
    hide Joint, Enabled, Step;
    if events != [] {
      JointStep(c, s, events[0]);
      RunKeepsJoint(c, Step(c, s, events[0]), events[1..]);
    }
  }

  /** In every run the bucket thread and the lifecycle table agree on the victims with a refresh in progress. */
  lemma TokensAgree(c: Config, events: seq<Event>)
    requires IsRun(c, INITIAL, events)
    ensures Joint(c, RunTo(c, INITIAL, events))
  {
    BanRuns.InitialTokens(c);
    Paths.StartIsFine();
    hide BanRuns.TokenInvariant, Paths.Invariant, IsRun, RunTo;
    RunKeepsJoint(c, INITIAL, events);
  }

  // ----- after the last withdrawal -----

  /** The victims the bucket thread has yet to choose from, or has chosen without asking for a token so far. */
  function Scheduled(w: Bans.Worker): set<Ip> {
    match w
    case Scheduling(victims) => victims.Keys
    case Chosen(ip, _, victims) => victims.Keys + {ip}
    case Began(_, _, victims) => victims.Keys
    case _ => {}
  }

  /** Nothing left over from a ban of the host will announce: it is not banned, and no order or stale copy names it. */
  ghost predicate Settled(s: System, v: Ip) {
    && v !in s.bans.bans && v !in Scheduled(s.bans.worker)
    && forall order :: order in s.orders && order.Announce? ==> order.key.victim != v
  }

  /** The step bans the host. */
  predicate NewBan(s: System, e: Event, v: Ip) {
    e.Protocol? && BannedHost(s.bans, e.step) == Some(v)
  }

  ghost predicate NoNewBan(c: Config, s: System, events: seq<Event>, v: Ip)
    requires IsRun(c, s, events)
    decreases |events|
  {
    events != [] ==> !NewBan(s, events[0], v) && NoNewBan(c, Step(c, s, events[0]), events[1..], v)
  }

  /** A refresh of the host that is under way is behind the fence. */
  predicate TokenFenced(s: System, v: Ip) {
    v in s.bans.tokens ==> v in s.paths.table.fenced
  }

  lemma UnbannedStep(c: Config, s: Bans.State, b: Bans.Event, v: Ip)
    requires Bans.Enabled(c, s, b) && v !in s.bans && v !in Scheduled(s.worker) && BannedHost(s, b) != Some(v)
    ensures v !in Bans.Step(c, s, b).bans && v !in Scheduled(Bans.Step(c, s, b).worker)
    ensures TokenEvent(c, s, b) != Some(Paths.BeginsCapture(v))
  {
    hide Bans.ListsFilled, Bans.Liftable;
  }

  lemma SettledStep(c: Config, s: System, e: Event, v: Ip)
    requires Enabled(c, s, e) && Settled(s, v) && !NewBan(s, e, v)
    ensures Settled(Step(c, s, e), v)
    ensures PathEvent(c, s, e) != Some(Paths.BeginsCapture(v))
  {
    hide Bans.Enabled, Bans.Step, Paths.Enabled, Paths.Step, TokenEvent, BannedHost, Scheduled, Bans.Liftable, Paths.Keyed;
    if e.Protocol? {
      UnbannedStep(c, s.bans, e.step, v);
    }
  }

  lemma TokenFencedStep(c: Config, s: System, e: Event, v: Ip)
    requires Enabled(c, s, e) && Joint(c, s) && TokenFenced(s, v) && PathEvent(c, s, e) != Some(Paths.BeginsCapture(v))
    ensures TokenFenced(Step(c, s, e), v)
  {
    hide BanRuns.TokenInvariant, Paths.Invariant, Bans.Step, Bans.Enabled, Paths.Step, Paths.Enabled, PathEvent, Ordered,
         HasRules, VictimKeys, BannedHost, Paths.Keyed;
    JointStep(c, s, e);
    var p := PathEvent(c, s, e);
    if p.Some? {
      RefreshingMoves(s.paths, p.value);
      if v in s.paths.table.fenced {
        FencedTableStep(s.paths, p.value, v);
      }
    }
  }

  /** A manager at work for a host holds its token. */
  lemma ManagerHoldsToken(c: Config, s: Bans.State, v: Ip)
    requires BanRuns.TokenInvariant(c, s) && v in s.managers
    ensures v in s.tokens
  {
    hide Bans.BanInvariant, BanRuns.InFlight;
    assert BanRuns.Conserved(s, v);
  }

  lemma SettledAddsNothing(c: Config, s: System, e: Event, v: Ip)
    requires Enabled(c, s, e) && Joint(c, s) && Settled(s, v) && TokenFenced(s, v)
    ensures PathEvent(c, s, e).Some? ==> !AddsRule(s.paths, PathEvent(c, s, e).value, v)
  {
    hide BanRuns.TokenInvariant, Paths.Invariant, Bans.Enabled, Paths.Enabled, Scheduled;
    if e.Refreshes? && e.victim == v {
      ManagerHoldsToken(c, s.bans, v);
    }
  }

  lemma {:induction false} SettledRun(c: Config, s: System, events: seq<Event>, v: Ip)
    requires Joint(c, s) && IsRun(c, s, events) && NoNewBan(c, s, events, v) && Settled(s, v) && TokenFenced(s, v)
    ensures Settled(RunTo(c, s, events), v)
    ensures Paths.IsRun(s.paths, PathEvents(c, s, events)) && NoAdds(s.paths, PathEvents(c, s, events), v)
    decreases |events|
  {
    hide Joint, Enabled, BansAfter, OrdersAfter, Settled, TokenFenced, Paths.Enabled, Paths.Step, PathEvent, AddsRule, NewBan;
    RunOfPaths(c, s, events);
    if events != [] {
      var s' := Step(c, s, events[0]);
      JointStep(c, s, events[0]);
      SettledStep(c, s, events[0], v);
      TokenFencedStep(c, s, events[0], v);
      SettledAddsNothing(c, s, events[0], v);
      SettledRun(c, s', events[1..], v);
      var p, rest := PathEvent(c, s, events[0]), PathEvents(c, s', events[1..]);
      if p.Some? {
        assert ([p.value] + rest)[1..] == rest;
      } else {
        assert [] + rest == rest;
      }
    }
  }

  lemma {:induction false} NoOtherUnban(c: Config, s: System, events: seq<Event>, v: Ip)
    requires IsRun(c, s, events) && CarriesOut(Withdraw(v)) !in events
    ensures Paths.Unbans(v) !in PathEvents(c, s, events)
    decreases |events|
  {
    hide Bans.Enabled, Paths.Enabled, Step;
    if events != [] {
      assert events[0] in events;
      NoOtherUnban(c, Step(c, s, events[0]), events[1..], v);
      assert PathEvent(c, s, events[0]) != Some(Paths.Unbans(v));
    }
  }

  lemma WithdrawalFences(c: Config, s: System, v: Ip)
    requires Enabled(c, s, CarriesOut(Withdraw(v))) && Joint(c, s)
    ensures TokenFenced(Step(c, s, CarriesOut(Withdraw(v))), v)
  {
    hide BanRuns.TokenInvariant, Paths.Invariant, Paths.Enabled, Clean;
    UnbanFences(s.paths, v);
    RefreshingMoves(s.paths, Paths.Unbans(v));
    CleanHasNoToken(Step(c, s, CarriesOut(Withdraw(v))).paths, v);
  }

  lemma CleanHasNoToken(w: Paths.World, v: Ip)
    ensures Clean(w, v) ==> v !in w.table.refreshing
  {
  }

  /**
    * When the last withdrawal of a host reaches the table at a moment at which the host is settled, and it is not banned
    * again, then in every continuation nothing of the host is announced, and once no thread works for it, GoBGP holds no
    * path of it exactly when it has refused no delete since.
    */
  lemma UnbannedHostHasNoPath(c: Config, before: seq<Event>, after: seq<Event>, v: Ip)
    requires IsRun(c, INITIAL, before)
    requires var s := RunTo(c, INITIAL, before);
             && Settled(s, v) && Enabled(c, s, CarriesOut(Withdraw(v)))
             && IsRun(c, Step(c, s, CarriesOut(Withdraw(v))), after)
             && NoNewBan(c, Step(c, s, CarriesOut(Withdraw(v))), after, v)
             && CarriesOut(Withdraw(v)) !in after
             && NoThreads(RunTo(c, Step(c, s, CarriesOut(Withdraw(v))), after).paths, v)
    ensures var s := Step(c, RunTo(c, INITIAL, before), CarriesOut(Withdraw(v)));
            && Settled(RunTo(c, s, after), v)
            && Paths.IsRun(s.paths, PathEvents(c, s, after))
            && (NoPaths(RunTo(c, s, after).paths, v) <==> !RefusalSeen(s.paths, PathEvents(c, s, after), v))
  {
    var s0 := RunTo(c, INITIAL, before);
    var e := CarriesOut(Withdraw(v));
    var s := Step(c, s0, e);
    TokensAgree(c, before);
    JointStep(c, s0, e);
    SettledStep(c, s0, e, v);
    WithdrawalFences(c, s0, v);
    assert Paths.Invariant(s0.paths) && s.paths == Paths.Step(s0.paths, Paths.Unbans(v));
    hide Joint, Enabled, Step, Settled, TokenFenced, IsRun, RunTo, NoNewBan, NoThreads, NoPaths, NoAdds, Paths.Invariant,
         Paths.IsRun, Paths.RunTo, Paths.Step, PathEvents;
    SettledRun(c, s, after, v);
    RunOfPaths(c, s, after);
    NoOtherUnban(c, s, after, v);
    UnbanCompletes(s0.paths, PathEvents(c, s, after), v);
  }
}
