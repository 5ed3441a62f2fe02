/** What holds over every run of the banning threads, however their steps interleave. */
module BanRuns {
  import opened Octets
  import opened BanProtocol

  // ----- no host is banned automatically twice -----

  lemma {:induction false} RunKeepsBans(c: Config, s: State, events: seq<Event>)
    requires BanInvariant(s) && IsRun(c, s, events)
    ensures BanInvariant(RunTo(c, s, events))
    decreases |events|
  {
    hide BanInvariant, Enabled, Step;
    if events != [] {
      BanStep(c, s, events[0]);
      RunKeepsBans(c, Step(c, s, events[0]), events[1..]);
    }
  }

  lemma InitialBans()
    ensures BanInvariant(INITIAL)
  {
  }

  /**
    * Whenever the bucket thread bans a host, in any run, no automatic ban of that host is in force; the ban it adds
    * is automatic. This rests on the detector testing for a bucket before it tests for a ban, and on the bucket thread
    * adding the ban before it erases the bucket.
    */
  lemma NeverBannedTwice(c: Config, events: seq<Event>, e: Event, ip: Ip)
    requires IsRun(c, INITIAL, events)
    requires Enabled(c, RunTo(c, INITIAL, events), e) && Banning(RunTo(c, INITIAL, events), e, ip)
    ensures var s := RunTo(c, INITIAL, events);
            && !AutoBanned(s, ip)
            && AutoBanned(Step(c, s, e), ip)
  {
    hide ListsFilled, RunTo, IsRun;
    InitialBans();
    RunKeepsBans(c, INITIAL, events);
  }

  /** A capture that was filled when the bucket thread took the lock is gone when it releases it. */
  lemma NoFilledBucketLeft(c: Config, events: seq<Event>)
    requires IsRun(c, INITIAL, events) && Enabled(c, RunTo(c, INITIAL, events), ReleaseLock)
    ensures forall ip :: ip in RunTo(c, INITIAL, events).buckets ==> !RunTo(c, INITIAL, events).buckets[ip].filled
  {
    InitialBans();
    RunKeepsBans(c, INITIAL, events);
  }

  // ----- captures come and go -----

  /** A new bucket is that of a detection or of a refresh, and it is filled from the start only without capacity. */
  lemma BucketOrigin(c: Config, s: State, e: Event, ip: Ip)
    requires Enabled(c, s, e) && ip !in s.buckets && ip in Step(c, s, e).buckets
    ensures var b := Step(c, s, e).buckets[ip];
            && b.filled == c.noCapacity
            && ((e.DetectorEnables? && s.detector == SawNoBan(ip) && b.pattern == Once && b.details == e.details)
                || (e == EnableRefresh && s.worker.Began? && s.worker.ip == ip && b.pattern == RefreshOnce
                    && b.details == s.worker.details))
  {
    hide ListsFilled, Liftable;
  }

  /**
    * No bucket is ever replaced or lost: it keeps its kind and its details and stays filled once it is, until it is
    * removed unfilled, its host has been banned from it, or its packets wait in the refresh queue.
    */
  lemma BucketStays(c: Config, s: State, e: Event, ip: Ip)
    requires Enabled(c, s, e) && ip in s.buckets
    ensures var b, s' := s.buckets[ip], Step(c, s, e);
            || (ip in s'.buckets && s'.buckets[ip] == b.(filled := b.filled || e == PacketFills(ip)))
            || (e == OrphanRemoved(ip) && !b.filled && ip !in s'.buckets)
            || (e == EraseBucket && s.worker.Banned? && s.worker.ip == ip && ip !in s'.buckets)
            || (e == ProcessBucket && b.pattern == RefreshOnce && s'.worker.Processing? && ip in s'.worker.queue
                && ip !in s'.buckets)
  {
    hide ListsFilled, Liftable;
  }

  // ----- every ban has a cause -----

  /** A ban of a host changes in four ways only; taking up a refresh capture is none of them. */
  lemma BanChanges(c: Config, s: State, e: Event, ip: Ip)
    requires Enabled(c, s, e)
    ensures var b, b' := s.bans, Step(c, s, e).bans;
            || ((ip in b <==> ip in b') && (ip in b ==> b'[ip] == b[ip]))
            || (Banning(s, e, ip) && ip in b' && b'[ip] == s.buckets[ip].details)
            || (e.ApiBans? && e.ip == ip && ip in b' && b'[ip] == e.details)
            || (((e.ApiUnbans? && e.ip == ip) || (e.SweepErases? && e.ip == ip)) && ip !in b')
  {
    hide ListsFilled, Liftable;
  }

  /** The bans a run asks for: those of the API, and those of the captures the detector starts. */
  ghost function Causes(c: Config, s: State, events: seq<Event>): set<(Ip, Ban)>
    requires IsRun(c, s, events)
    decreases |events|
  {
    if events == [] then {}
    else
      var e := events[0];
      var now := match e
        case ApiBans(ip, details) => {(ip, details)}
        case DetectorEnables(details) => {(s.detector.ip, details)}
        case _ => {};
      now + Causes(c, Step(c, s, e), events[1..])
  }

  lemma {:induction false} BanHasCauseFrom(c: Config, s: State, events: seq<Event>, ip: Ip)
    requires IsRun(c, s, events) && ip in RunTo(c, s, events).bans
    ensures var b := RunTo(c, s, events).bans[ip];
            || (ip in s.bans && s.bans[ip] == b)
            || (Capturing(s, ip) && s.buckets[ip].details == b)
            || (ip, b) in Causes(c, s, events)
    decreases |events|
  {
    hide Enabled, Step;
    if events != [] {
      var e := events[0];
      BanHasCauseFrom(c, Step(c, s, e), events[1..], ip);
      BanChanges(c, s, e, ip);
      if Capturing(Step(c, s, e), ip) {
        CaptureOrigin(c, s, e, ip);
      }
    }
  }

  /** Every ban in force was asked for by the API or detected with exactly its details: no refresh capture adds one. */
  lemma EveryBanHasCause(c: Config, events: seq<Event>, ip: Ip)
    requires IsRun(c, INITIAL, events) && ip in RunTo(c, INITIAL, events).bans
    ensures (ip, RunTo(c, INITIAL, events).bans[ip]) in Causes(c, INITIAL, events)
  {
    hide IsRun, RunTo, Causes;
    BanHasCauseFrom(c, INITIAL, events, ip);
  }

  // ----- refresh tokens are conserved -----

  function Queue(w: Worker): seq<Ip> {
    match w
    case Processing(_, queue) => queue
    case Banned(_, _, queue) => queue
    case HandingOver(queue) => queue
    case _ => []
  }

  function One(b: bool): nat {
    if b then 1 else 0
  }

  /** Refresh captures of this victim that were begun and neither completed nor handed over. */
  function InFlight(s: State, ip: Ip): nat {
    One(Refreshing(s, ip)) + multiset(Queue(s.worker))[ip] + One(s.worker.Began? && s.worker.ip == ip)
  }

  predicate Conserved(s: State, ip: Ip) {
    && s.begun[ip] == s.completed[ip] + s.handed[ip] + InFlight(s, ip)
    && InFlight(s, ip) + s.managers[ip] == One(ip in s.tokens)
  }

  ghost predicate TokenInvariant(c: Config, s: State) {
    && BanInvariant(s)
    && (!c.refresh ==> s.tokens == {} && !s.worker.Scheduling? && !s.worker.Chosen? && !s.worker.Began?)
    && forall ip: Ip :: Conserved(s, ip)
  }

  ghost predicate MovesToken(e: Event) {
    || e.OrphanRemoved? || e.ProcessBucket? || e.EraseBucket? || e.ProcessRefresh?
    || e.BeginRefresh? || e.EnableRefresh? || e.ManagerFinishes?
  }

  lemma OtherStepsConserve(c: Config, s: State, e: Event, ip: Ip)
    requires Enabled(c, s, e) && Conserved(s, ip) && !MovesToken(e)
    ensures Conserved(Step(c, s, e), ip)
  {
    hide ListsFilled, Liftable;
    var s' := Step(c, s, e);
    assert Queue(s'.worker) == Queue(s.worker);
    assert Refreshing(s', ip) == Refreshing(s, ip);
  }

  lemma OrphanConserves(c: Config, s: State, e: Event, ip: Ip)
    requires Enabled(c, s, e) && Conserved(s, ip) && e.OrphanRemoved?
    ensures Conserved(Step(c, s, e), ip)
  {
  }

  lemma ProcessConserves(c: Config, s: State, e: Event, ip: Ip)
    requires Enabled(c, s, e) && Conserved(s, ip) && e.ProcessBucket?
    ensures Conserved(Step(c, s, e), ip)
  {
    var queue, first := s.worker.queue, s.worker.rest[0];
    assert multiset(queue + [first]) == multiset(queue) + multiset{first};
  }

  lemma EraseConserves(c: Config, s: State, e: Event, ip: Ip)
    requires Enabled(c, s, e) && Conserved(s, ip) && e.EraseBucket? && Capturing(s, s.worker.ip)
    ensures Conserved(Step(c, s, e), ip)
  {
  }

  lemma HandOverConserves(c: Config, s: State, e: Event, ip: Ip)
    requires Enabled(c, s, e) && Conserved(s, ip) && e.ProcessRefresh? && c.refresh
    ensures Conserved(Step(c, s, e), ip)
  {
    var first, rest := s.worker.queue[0], s.worker.queue[1..];
    assert s.worker.queue == [first] + rest;
    assert multiset(s.worker.queue) == multiset{first} + multiset(rest);
  }

  lemma BeginConserves(c: Config, s: State, e: Event, ip: Ip)
    requires Enabled(c, s, e) && Conserved(s, ip) && e.BeginRefresh?
    ensures Conserved(Step(c, s, e), ip)
  {
    assert s.worker.Chosen?;
  }

  lemma EnableConserves(c: Config, s: State, e: Event, ip: Ip)
    requires Enabled(c, s, e) && Conserved(s, ip) && e.EnableRefresh?
    ensures Conserved(Step(c, s, e), ip)
  {
    assert s.worker.Began?;
  }

  lemma ManagerConserves(c: Config, s: State, e: Event, ip: Ip)
    requires Enabled(c, s, e) && Conserved(s, ip) && e.ManagerFinishes?
    ensures Conserved(Step(c, s, e), ip)
  {
    assert Refreshing(Step(c, s, e), ip) == Refreshing(s, ip);
  }

  lemma ConservedStep(c: Config, s: State, e: Event, ip: Ip)
    requires Enabled(c, s, e) && TokenInvariant(c, s)
    ensures Conserved(Step(c, s, e), ip)
  {
    hide Enabled, Step, BanInvariant, ListsFilled;
    assert Conserved(s, ip);
    match e {
      case OrphanRemoved(_) => OrphanConserves(c, s, e, ip);
      case ProcessBucket => ProcessConserves(c, s, e, ip);
      case EraseBucket =>
        BanOwnsCapture(c, s);
        EraseConserves(c, s, e, ip);
      case ProcessRefresh(_) =>
        QueueMeansRefresh(c, s, e);
        HandOverConserves(c, s, e, ip);
      case BeginRefresh(_) => BeginConserves(c, s, e, ip);
      case EnableRefresh => EnableConserves(c, s, e, ip);
      case ManagerFinishes(_) => ManagerConserves(c, s, e, ip);
      case _ => OtherStepsConserve(c, s, e, ip);
    }
  }

  lemma BanOwnsCapture(c: Config, s: State)
    requires Enabled(c, s, EraseBucket) && BanInvariant(s)
    ensures s.worker.Banned? && Capturing(s, s.worker.ip)
  {
    hide ListsFilled;
  }

  /** A capture waits to be handed over only where refresh is switched on. */
  lemma QueueMeansRefresh(c: Config, s: State, e: Event)
    requires Enabled(c, s, e) && e.ProcessRefresh? && TokenInvariant(c, s)
    ensures c.refresh
  {
    hide BanInvariant;
    var ip := s.worker.queue[0];
    assert ip in multiset(s.worker.queue);
    assert Conserved(s, ip);
  }

  lemma RefreshOffStep(c: Config, s: State, e: Event)
    requires Enabled(c, s, e) && TokenInvariant(c, s) && !c.refresh
    ensures var s' := Step(c, s, e);
            s'.tokens == {} && !s'.worker.Scheduling? && !s'.worker.Chosen? && !s'.worker.Began?
  {
    hide BanInvariant, ListsFilled, Liftable, Conserved;
  }

  lemma TokenStep(c: Config, s: State, e: Event)
    requires Enabled(c, s, e) && TokenInvariant(c, s)
    ensures TokenInvariant(c, Step(c, s, e))
  {
    hide Enabled, Step, BanInvariant, Conserved;
    BanStep(c, s, e);
    if !c.refresh {
      RefreshOffStep(c, s, e);
    }
    forall ip: Ip ensures Conserved(Step(c, s, e), ip) {
      ConservedStep(c, s, e, ip);
    }
  }

  lemma {:induction false} RunKeepsTokens(c: Config, s: State, events: seq<Event>)
    requires TokenInvariant(c, s) && IsRun(c, s, events)
    ensures TokenInvariant(c, RunTo(c, s, events))
    decreases |events|
  {
    hide TokenInvariant, Enabled, Step;
    if events != [] {
      TokenStep(c, s, events[0]);
      RunKeepsTokens(c, Step(c, s, events[0]), events[1..]);
    }
  }

  lemma InitialTokens(c: Config)
    ensures TokenInvariant(c, INITIAL)
  {
    InitialBans();
    hide BanInvariant;
  }

  /**
    * In every run, for every victim, the refresh captures begun are exactly those completed, those handed over to a
    * refresh manager, and at most one that is still in flight; a victim's token is taken exactly while one capture or
    * one manager owns it.
    */
  lemma TokensConserved(c: Config, events: seq<Event>, ip: Ip)
    requires IsRun(c, INITIAL, events)
    ensures var s := RunTo(c, INITIAL, events);
            && s.begun[ip] == s.completed[ip] + s.handed[ip] + InFlight(s, ip)
            && InFlight(s, ip) <= 1
            && (ip in s.tokens <==> InFlight(s, ip) + s.managers[ip] == 1)
  {
    InitialTokens(c);
    RunKeepsTokens(c, INITIAL, events);
    hide IsRun, RunTo, BanInvariant, InFlight;
    assert Conserved(RunTo(c, INITIAL, events), ip);
  }

  // ----- what the sweep lifts -----

  /** Hosts the running sweep has decided to unban. */
  function Doomed(w: Sweeper): set<Ip> {
    match w
    case SweeperIdle => {}
    case Deciding(_, _, erase) => erase
    case Erasing(erase) => erase
  }

  predicate ApiTouches(e: Event, ip: Ip) {
    (e.ApiBans? || e.ApiUnbans?) && e.ip == ip
  }

  /** The sweep looked at this ban of the host and found it liftable by its reading of the clock. */
  ghost predicate Judged(c: Config, b: Ban, now: int, ip: Ip, events: seq<Event>) {
    exists e :: e in events && e.SweepDecides? && e.ip == ip && Liftable(c, b, now, e.finished)
  }

  /** As long as the API leaves the host alone, what the sweep has copied of it is still the truth. */
  ghost predicate Tracked(c: Config, s: State, now: int, snapshot: map<Ip, Ban>, ip: Ip, seen: seq<Event>) {
    && (s.sweeper.Deciding? ==> s.sweeper.now == now)
    && (s.sweeper.Deciding? && ip in s.sweeper.todo ==>
          && ip in snapshot && s.sweeper.todo[ip] == snapshot[ip]
          && (snapshot[ip].source == Automatic ==> ip in s.bans && s.bans[ip] == snapshot[ip])
          && ip !in s.sweeper.erase)
    && (ip in Doomed(s.sweeper) ==>
          && ip in snapshot && snapshot[ip].source == Automatic && ip in s.bans && s.bans[ip] == snapshot[ip]
          && Judged(c, snapshot[ip], now, ip, seen))
  }

  /** In the fields of the ban: allowed to be lifted, too old, and of an attack found finished where that is required. */
  lemma JudgedMeans(c: Config, b: Ban, now: int, ip: Ip, events: seq<Event>)
    requires Judged(c, b, now, ip, events)
    ensures b.source == Automatic && b.unbanEnabled && now - b.since > b.duration
    ensures c.unbanOnlyIfFinished ==> SweepDecides(ip, true) in events
  {
    var e :| e in events && e.SweepDecides? && e.ip == ip && Liftable(c, b, now, e.finished);
    assert e.finished ==> e == SweepDecides(ip, true);
  }

  /**
    * The decision of a sweep on one host: it is to be erased exactly when its copied ban is automatic, allowed to be
    * lifted and older than its ban time by the sweep's clock, and its attack is finished where the settings ask for it.
    */
  lemma SweepChooses(c: Config, s: State, ip: Ip, finished: bool)
    requires Enabled(c, s, SweepDecides(ip, finished)) && ip !in s.sweeper.erase
    ensures var b, now := s.sweeper.todo[ip], s.sweeper.now;
            ip in Doomed(Step(c, s, SweepDecides(ip, finished)).sweeper) <==>
              && b.source == Automatic && b.unbanEnabled && now - b.since > b.duration
              && (!c.unbanOnlyIfFinished || finished)
  {
  }

  lemma BansMove(c: Config, s: State, e: Event, ip: Ip)
    requires Enabled(c, s, e) && BanInvariant(s)
    requires ip in s.bans && s.bans[ip].source == Automatic
    requires !ApiTouches(e, ip) && !(e.SweepErases? && e.ip == ip)
    ensures ip in Step(c, s, e).bans && Step(c, s, e).bans[ip] == s.bans[ip]
  {
    hide ListsFilled, Liftable;
    assert Banning(s, e, ip) ==> !AutoBanned(s, ip);
  }

  lemma JudgedLater(c: Config, b: Ban, now: int, ip: Ip, events: seq<Event>, e: Event)
    ensures Judged(c, b, now, ip, events) ==> Judged(c, b, now, ip, events + [e])
    ensures e.SweepDecides? && e.ip == ip && Liftable(c, b, now, e.finished) ==> Judged(c, b, now, ip, events + [e])
  {
    if Judged(c, b, now, ip, events) {
      var d :| d in events && d.SweepDecides? && d.ip == ip && Liftable(c, b, now, d.finished);
      assert d in events + [e];
    }
    assert e in events + [e];
  }

  /** What a step does to the work of a running sweep. */
  lemma SweeperMoves(c: Config, s: State, e: Event)
    requires Enabled(c, s, e) && !e.SweepStarts?
    ensures var sw, sw' := s.sweeper, Step(c, s, e).sweeper;
            && (sw'.Deciding? ==>
                  && sw.Deciding? && sw'.now == sw.now
                  && (forall ip :: ip in sw'.todo ==>
                        ip in sw.todo && sw'.todo[ip] == sw.todo[ip] && !(e.SweepDecides? && e.ip == ip))
                  && sw'.erase <= sw.erase + if e.SweepDecides? then {e.ip} else {})
            && (forall ip :: ip in Doomed(sw') ==>
                  && (ip in Doomed(sw)
                      || (e.SweepDecides? && e.ip == ip && sw.Deciding? && ip in sw.todo
                          && Liftable(c, sw.todo[ip], sw.now, e.finished)))
                  && !(e.SweepErases? && e.ip == ip))
  {
    hide ListsFilled;
  }

  lemma TrackedStep(c: Config, s: State, e: Event, now: int, snapshot: map<Ip, Ban>, ip: Ip, seen: seq<Event>)
    requires Enabled(c, s, e) && BanInvariant(s) && !ApiTouches(e, ip) && !e.SweepStarts?
    requires Tracked(c, s, now, snapshot, ip, seen)
    ensures Tracked(c, Step(c, s, e), now, snapshot, ip, seen + [e])
  {
    hide Step, BanInvariant, Judged;
    SweeperMoves(c, s, e);
    if ip in snapshot {
      JudgedLater(c, snapshot[ip], now, ip, seen, e);
    }
    if AutoBanned(s, ip) && !(e.SweepErases? && e.ip == ip) {
      BansMove(c, s, e, ip);
    }
  }

  lemma {:induction false} RunTracked(c: Config, s: State, events: seq<Event>, now: int, snapshot: map<Ip, Ban>, ip: Ip,
                                      seen: seq<Event>)
    requires BanInvariant(s) && IsRun(c, s, events)
    requires forall e :: e in events ==> !e.SweepStarts? && !ApiTouches(e, ip)
    requires Tracked(c, s, now, snapshot, ip, seen)
    ensures Tracked(c, RunTo(c, s, events), now, snapshot, ip, seen + events)
    decreases |events|
  {
    hide Tracked, Enabled, Step, BanInvariant, ApiTouches;
    if events == [] {
      assert seen + events == seen;
    } else {
      assert events[0] in events;
      BanStep(c, s, events[0]);
      TrackedStep(c, s, events[0], now, snapshot, ip, seen);
      RunTracked(c, Step(c, s, events[0]), events[1..], now, snapshot, ip, seen + [events[0]]);
      assert seen + [events[0]] + events[1..] == seen + events;
    }
  }

  /**
    * A sweep lifts only bans it has judged liftable: when it erases a host the API did not touch since the sweep
    * began, the ban in force is automatic, allowed to be lifted, older than its ban time by the clock as the sweep read
    * it when it began and, where configured, of a finished attack.
    */
  lemma SweepLiftsOnlyLiftable(c: Config, before: seq<Event>, now: int, during: seq<Event>, ip: Ip)
    requires IsRun(c, INITIAL, before) && Enabled(c, RunTo(c, INITIAL, before), SweepStarts(now))
    requires IsRun(c, Step(c, RunTo(c, INITIAL, before), SweepStarts(now)), during)
    requires forall e :: e in during ==> !e.SweepStarts? && !ApiTouches(e, ip)
    requires Enabled(c, RunTo(c, Step(c, RunTo(c, INITIAL, before), SweepStarts(now)), during), SweepErases(ip))
    ensures var s := RunTo(c, Step(c, RunTo(c, INITIAL, before), SweepStarts(now)), during);
            && ip in s.bans && s.bans[ip].source == Automatic && s.bans[ip].unbanEnabled
            && now - s.bans[ip].since > s.bans[ip].duration
            && (c.unbanOnlyIfFinished ==> SweepDecides(ip, true) in during)
  {
    var s0 := RunTo(c, INITIAL, before);
    var s1 := Step(c, s0, SweepStarts(now));
    assert Tracked(c, s1, now, s0.bans, ip, []);
    InitialBans();
    RunKeepsBans(c, INITIAL, before);
    hide ListsFilled, Judged, IsRun, RunTo, ApiTouches;
    BanStep(c, s0, SweepStarts(now));
    RunTracked(c, s1, during, now, s0.bans, ip, []);
    assert [] + during == during;
    JudgedMeans(c, s0.bans[ip], now, ip, during);
  }
}
