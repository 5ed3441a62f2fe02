/**
  * Manual bans: exactly when such a ban is certain to stay until the API lifts it, however the threads interleave.
  */
module ManualBans {
  import opened Octets
  import opened BanProtocol
  import opened BanRuns

  predicate ManuallyBanned(s: State, ip: Ip) {
    ip in s.bans && s.bans[ip].source == Manual
  }

  /** A ban that a sweep with this reading of the clock lifts, once its attack is finished. */
  predicate Pardonable(b: Ban, now: int) {
    b.source == Automatic && b.unbanEnabled && now - b.since > b.duration
  }

  /** The running sweep works on a copy of the ban list, which may hold an automatic ban of the host that has aged. */
  predicate StaleInSweep(s: State, ip: Ip) {
    ip in Doomed(s.sweeper) || (s.sweeper.Deciding? && ip in s.sweeper.todo && Pardonable(s.sweeper.todo[ip], s.sweeper.now))
  }

  /** An attack capture that has yet to lead to a ban. */
  ghost predicate CaptureAhead(s: State, ip: Ip) {
    Capturing(s, ip) && !(s.worker.Banned? && s.worker.ip == ip)
  }

  /**
    * A manual ban nothing under way will undo: no attack capture of the host is in flight or about to be started, and
    * no sweep is working on a ban of it that had aged when the sweep began.
    */
  ghost predicate SafelyManual(s: State, ip: Ip) {
    && ManuallyBanned(s, ip)
    && !CaptureAhead(s, ip) && s.detector != SawNoBan(ip) && !StaleInSweep(s, ip)
  }

  lemma BanKept(c: Config, s: State, e: Event, ip: Ip)
    requires Enabled(c, s, e) && ip in s.bans && !StaleInSweep(s, ip) && e != ApiUnbans(ip)
    ensures ip in Step(c, s, e).bans
  {
    hide ListsFilled, Liftable;
  }

  lemma StaleOrigin(c: Config, s: State, e: Event, ip: Ip)
    requires Enabled(c, s, e) && StaleInSweep(Step(c, s, e), ip)
    ensures StaleInSweep(s, ip) || AutoBanned(s, ip)
  {
    hide ListsFilled;
  }

  lemma SafelyManualStep(c: Config, s: State, e: Event, ip: Ip)
    requires Enabled(c, s, e) && SafelyManual(s, ip) && e != ApiUnbans(ip)
    ensures SafelyManual(Step(c, s, e), ip)
  {
    hide Step, ListsFilled, StaleInSweep, Doomed;
    var s' := Step(c, s, e);
    BanKept(c, s, e, ip);
    DetectorMoves(c, s, e);
    WorkerBans(c, s, e);
    if AutoBanned(s', ip) { AutoBanOrigin(c, s, e, ip); }
    if Capturing(s', ip) { CaptureOrigin(c, s, e, ip); }
    if StaleInSweep(s', ip) { StaleOrigin(c, s, e, ip); }
  }

  /** Whatever the threads do, such a ban stays in force and manual until the API lifts it. */
  lemma {:induction false} ManualBanStays(c: Config, s: State, events: seq<Event>, ip: Ip)
    requires SafelyManual(s, ip) && IsRun(c, s, events) && ApiUnbans(ip) !in events
    ensures SafelyManual(RunTo(c, s, events), ip)
    decreases |events|
  {
    hide SafelyManual, Enabled, Step;
    if events != [] {
      assert events[0] in events;
      SafelyManualStep(c, s, events[0], ip);
      ManualBanStays(c, Step(c, s, events[0]), events[1..], ip);
    }
  }

  // ----- otherwise it can be lost -----

  /** Some run without an unban request for the host ends with its manual ban gone or replaced. */
  ghost predicate Losable(c: Config, s: State, ip: Ip) {
    exists events :: IsRun(c, s, events) && ApiUnbans(ip) !in events && !ManuallyBanned(RunTo(c, s, events), ip)
  }

  lemma LostAlready(c: Config, s: State, ip: Ip)
    requires !ManuallyBanned(s, ip)
    ensures Losable(c, s, ip)
  {
    assert IsRun(c, s, []) && RunTo(c, s, []) == s;
  }

  lemma LosableBefore(c: Config, s: State, e: Event, ip: Ip)
    requires Enabled(c, s, e) && e != ApiUnbans(ip) && Losable(c, Step(c, s, e), ip)
    ensures Losable(c, s, ip)
  {
    hide Enabled, Step, ManuallyBanned;
    var s' := Step(c, s, e);
    var events :| IsRun(c, s', events) && ApiUnbans(ip) !in events && !ManuallyBanned(RunTo(c, s', events), ip);
    var longer := [e] + events;
    assert longer[1..] == events;
    assert IsRun(c, s, longer) && RunTo(c, s, longer) == RunTo(c, s', events);
    assert ApiUnbans(ip) !in longer;
  }

  /** How far the bucket thread is from resting. */
  function Phase(w: Worker): nat {
    match w
    case Resting => 0
    case Scheduling(_) => 1
    case Chosen(_, _, _) => 1
    case Began(_, _, _) => 1
    case HandingOver(_) => 2
    case Processing(_, _) => 3
    case Banned(_, _, _) => 3
  }

  function Work(w: Worker): nat {
    match w
    case Resting => 0
    case Scheduling(victims) => 2 * |victims|
    case Chosen(_, _, victims) => 2 * |victims| + 1
    case Began(_, _, victims) => 2 * |victims| + 1
    case HandingOver(queue) => |queue|
    case Processing(rest, _) => 2 * |rest|
    case Banned(_, rest, _) => 2 * |rest| + 1
  }

  ghost predicate Closer(w': Worker, w: Worker) {
    Phase(w') < Phase(w) || (Phase(w') == Phase(w) && Work(w') < Work(w))
  }

  /** The steps with which the bucket thread gets to rest, starting no capture and giving up those it queued. */
  ghost predicate Drains(e: Event) {
    || e.ProcessBucket? || e.EraseBucket? || e.ReleaseLock? || e == ProcessRefresh(false) || e.StartScheduling?
    || e.SkipVictim? || e.StopScheduling? || e == BeginRefresh(true) || e == EnableRefresh
  }

  lemma ProcessingDrains(c: Config, s: State)
    requires BanInvariant(s) && s.worker.Processing?
    ensures var e := if s.worker.rest == [] then ReleaseLock else ProcessBucket;
            Enabled(c, s, e) && Closer(Step(c, s, e).worker, s.worker)
  {
    hide Liftable, DetectorAlone, CapturesUnbanned, CapturesAutomatic;
    if s.worker.rest != [] {
      assert s.worker.rest[0] in s.worker.rest;
    }
  }

  lemma HandingOverDrains(c: Config, s: State)
    requires s.worker.HandingOver?
    ensures var e := if s.worker.queue == [] then StartScheduling else ProcessRefresh(false);
            Enabled(c, s, e) && Closer(Step(c, s, e).worker, s.worker)
  {
    hide Liftable;
  }

  lemma SkippingDrains(c: Config, s: State, ip: Ip)
    requires s.worker.Scheduling? && ip in s.worker.victims
    ensures Enabled(c, s, SkipVictim(ip)) && Closer(Step(c, s, SkipVictim(ip)).worker, s.worker)
  {
    var victims := s.worker.victims;
    assert victims.Keys == (victims - {ip}).Keys + {ip};
  }

  lemma ShortDrains(c: Config, s: State)
    ensures s.worker.Banned? ==> Enabled(c, s, EraseBucket) && Closer(Step(c, s, EraseBucket).worker, s.worker)
    ensures s.worker.Chosen? ==> Enabled(c, s, BeginRefresh(true)) && Closer(Step(c, s, BeginRefresh(true)).worker, s.worker)
    ensures s.worker.Began? ==> Enabled(c, s, EnableRefresh) && Closer(Step(c, s, EnableRefresh).worker, s.worker)
    ensures s.worker.Scheduling? && s.worker.victims == map[] ==>
              Enabled(c, s, StopScheduling) && Closer(Step(c, s, StopScheduling).worker, s.worker)
  {
  }

  /** The bucket thread always has a step of its own that brings it closer to resting. */
  lemma DrainStep(c: Config, s: State) returns (e: Event)
    requires BanInvariant(s) && !s.worker.Resting?
    ensures Drains(e) && Enabled(c, s, e) && Closer(Step(c, s, e).worker, s.worker)
  {
    hide Enabled, Step, Closer, BanInvariant;
    ShortDrains(c, s);
    match s.worker {
      case Processing(rest, queue) =>
        e := if rest == [] then ReleaseLock else ProcessBucket;
        ProcessingDrains(c, s);
      case Banned(ip, rest, queue) => e := EraseBucket;
      case HandingOver(queue) =>
        e := if queue == [] then StartScheduling else ProcessRefresh(false);
        HandingOverDrains(c, s);
      case Scheduling(victims) =>
        if victims == map[] {
          e := StopScheduling;
        } else {
          var ip :| ip in victims;
          e := SkipVictim(ip);
          SkippingDrains(c, s, ip);
        }
      case Chosen(ip, details, victims) => e := BeginRefresh(true);
      case Began(ip, details, victims) => e := EnableRefresh;
    }
  }

  lemma DrainKeepsCapture(c: Config, s: State, e: Event, ip: Ip)
    requires BanInvariant(s) && Enabled(c, s, e) && Drains(e) && CaptureAhead(s, ip)
    ensures CaptureAhead(Step(c, s, e), ip) || AutoBanned(Step(c, s, e), ip)
  {
    hide ListsFilled;
  }

  // ----- losing to a capture -----

  lemma Enumerate(hosts: set<Ip>) returns (order: seq<Ip>)
    ensures forall i, j :: 0 <= i < j < |order| ==> order[i] != order[j]
    ensures forall ip :: ip in order <==> ip in hosts
    decreases |hosts|
  {
    if hosts == {} {
      order := [];
    } else {
      var ip :| ip in hosts;
      var rest := Enumerate(hosts - {ip});
      order := [ip] + rest;
    }
  }

  /** From rest, the bucket thread can be made to take up a given bucket first. */
  lemma TakeUp(c: Config, s: State, ip: Ip) returns (order: seq<Ip>)
    requires s.worker.Resting? && ip in s.buckets
    ensures Enabled(c, s, PacketFills(ip)) && Enabled(c, Step(c, s, PacketFills(ip)), CollectFilled(order))
    ensures var s2 := Step(c, Step(c, s, PacketFills(ip)), CollectFilled(order));
            && Enabled(c, s2, ProcessBucket) && s2.worker.rest[0] == ip
            && s2.detector == s.detector
            && ip in s2.buckets && s2.buckets[ip] == s.buckets[ip].(filled := true)
  {
    var buckets := Step(c, s, PacketFills(ip)).buckets;
    var rest := Enumerate((set h | h in buckets && buckets[h].filled) - {ip});
    order := [ip] + rest;
  }

  /** An attack capture that is under way can be completed, and its automatic ban replaces any manual one. */
  lemma {:induction false} LosesToCapture(c: Config, s: State, ip: Ip)
    requires BanInvariant(s) && CaptureAhead(s, ip)
    ensures Losable(c, s, ip)
    decreases Phase(s.worker), Work(s.worker)
  {
    hide Enabled, Step, BanInvariant, Losable, ListsFilled, IsRun, RunTo;
    if s.worker.Resting? {
      var order := TakeUp(c, s, ip);
      var s1 := Step(c, s, PacketFills(ip));
      var s2 := Step(c, s1, CollectFilled(order));
      BanStep(c, s, PacketFills(ip));
      BanStep(c, s1, CollectFilled(order));
      BansOnProcess(c, s2, ip);
      LostAlready(c, Step(c, s2, ProcessBucket), ip);
      LosableBefore(c, s2, ProcessBucket, ip);
      LosableBefore(c, s1, CollectFilled(order), ip);
      LosableBefore(c, s, PacketFills(ip), ip);
    } else {
      var e := DrainStep(c, s);
      DrainKeepsCapture(c, s, e, ip);
      BanStep(c, s, e);
      if CaptureAhead(Step(c, s, e), ip) {
        LosesToCapture(c, Step(c, s, e), ip);
      } else {
        LostAlready(c, Step(c, s, e), ip);
      }
      LosableBefore(c, s, e, ip);
    }
  }

  lemma BansOnProcess(c: Config, s: State, ip: Ip)
    requires BanInvariant(s) && Enabled(c, s, ProcessBucket) && s.worker.rest[0] == ip && Capturing(s, ip)
    ensures !ManuallyBanned(Step(c, s, ProcessBucket), ip)
  {
    hide ListsFilled;
  }

  // ----- losing to the detector -----

  const DETECTED := Ban(Automatic, true, 0, 0)

  lemma DrainKeepsDetector(c: Config, s: State, e: Event, ip: Ip)
    requires Enabled(c, s, e) && Drains(e)
    ensures Step(c, s, e).detector == s.detector
    ensures !LockFree(s) && ip !in s.buckets ==> ip !in Step(c, s, e).buckets
  {
    hide ListsFilled, Liftable;
  }

  lemma DetectorStartsCapture(c: Config, s: State, ip: Ip)
    requires s.detector == SawNoBan(ip) && LockFree(s) && ip !in s.buckets
    ensures Enabled(c, s, DetectorEnables(DETECTED))
    ensures CaptureAhead(Step(c, s, DetectorEnables(DETECTED)), ip)
  {
  }

  /** Past its test for a ban, the detector starts a capture as soon as the lock and the bucket's place are free. */
  lemma {:induction false} LosesToFreeDetector(c: Config, s: State, ip: Ip)
    requires BanInvariant(s) && s.detector == SawNoBan(ip) && ip !in s.buckets
    ensures Losable(c, s, ip)
    decreases Phase(s.worker), Work(s.worker)
  {
    hide Enabled, Step, BanInvariant, Losable, CaptureAhead;
    if LockFree(s) {
      var e := DetectorEnables(DETECTED);
      DetectorStartsCapture(c, s, ip);
      BanStep(c, s, e);
      LosesToCapture(c, Step(c, s, e), ip);
      LosableBefore(c, s, e, ip);
    } else {
      var e := DrainStep(c, s);
      DrainKeepsDetector(c, s, e, ip);
      BanStep(c, s, e);
      LosesToFreeDetector(c, Step(c, s, e), ip);
      LosableBefore(c, s, e, ip);
    }
  }

  /** A refresh capture in the way is taken up and gone first. */
  lemma {:induction false} LosesToDetector(c: Config, s: State, ip: Ip)
    requires BanInvariant(s) && s.detector == SawNoBan(ip)
    ensures Losable(c, s, ip)
    decreases Phase(s.worker), Work(s.worker)
  {
    hide Enabled, Step, BanInvariant, Losable, ListsFilled;
    if ip !in s.buckets {
      LosesToFreeDetector(c, s, ip);
    } else if s.worker.Resting? {
      var order := TakeUp(c, s, ip);
      var s1 := Step(c, s, PacketFills(ip));
      var s2 := Step(c, s1, CollectFilled(order));
      BanStep(c, s, PacketFills(ip));
      BanStep(c, s1, CollectFilled(order));
      BanStep(c, s2, ProcessBucket);
      RefreshTakenUp(c, s2, ip);
      LosesToFreeDetector(c, Step(c, s2, ProcessBucket), ip);
      LosableBefore(c, s2, ProcessBucket, ip);
      LosableBefore(c, s1, CollectFilled(order), ip);
      LosableBefore(c, s, PacketFills(ip), ip);
    } else {
      var e := DrainStep(c, s);
      DrainKeepsDetector(c, s, e, ip);
      BanStep(c, s, e);
      LosesToDetector(c, Step(c, s, e), ip);
      LosableBefore(c, s, e, ip);
    }
  }

  lemma RefreshTakenUp(c: Config, s: State, ip: Ip)
    requires BanInvariant(s) && s.detector == SawNoBan(ip)
    requires Enabled(c, s, ProcessBucket) && s.worker.rest[0] == ip
    ensures ip !in Step(c, s, ProcessBucket).buckets && Step(c, s, ProcessBucket).detector == s.detector
  {
    hide ListsFilled;
    assert !Capturing(s, ip);
  }

  // ----- losing to the sweep -----

  lemma SweepErasesHost(c: Config, s: State, ip: Ip)
    requires s.sweeper.Erasing? && ip in s.sweeper.erase
    ensures Enabled(c, s, SweepErases(ip)) && !ManuallyBanned(Step(c, s, SweepErases(ip)), ip)
  {
  }

  lemma SweepTurnsToErasing(c: Config, s: State)
    requires s.sweeper.Deciding? && s.sweeper.todo == map[]
    ensures Enabled(c, s, SweepStartsErasing) && Step(c, s, SweepStartsErasing).sweeper == Erasing(s.sweeper.erase)
  {
  }

  lemma SweepDecidesNext(c: Config, s: State, h: Ip)
    requires s.sweeper.Deciding? && h in s.sweeper.todo
    ensures Enabled(c, s, SweepDecides(h, true))
    ensures var sw := Step(c, s, SweepDecides(h, true)).sweeper;
            sw.Deciding? && sw.todo == s.sweeper.todo - {h} && s.sweeper.erase <= sw.erase
  {
    hide Liftable;
  }

  lemma SweepGoesOn(c: Config, s: State) returns (e: Event)
    requires s.sweeper.Deciding?
    ensures Enabled(c, s, e) && !e.ApiUnbans? && Doomed(s.sweeper) <= Doomed(Step(c, s, e).sweeper)
    ensures var s' := Step(c, s, e);
            s'.sweeper.Erasing? || (s'.sweeper.Deciding? && |s'.sweeper.todo| < |s.sweeper.todo|)
  {
    hide Enabled, Step;
    var todo := s.sweeper.todo;
    if todo == map[] {
      e := SweepStartsErasing;
      SweepTurnsToErasing(c, s);
    } else {
      var h :| h in todo;
      e := SweepDecides(h, true);
      SweepDecidesNext(c, s, h);
      assert todo.Keys == (todo - {h}).Keys + {h};
    }
  }

  lemma {:induction false} LosesToErasing(c: Config, s: State, ip: Ip)
    requires ip in Doomed(s.sweeper)
    ensures Losable(c, s, ip)
    decreases if s.sweeper.Deciding? then 1 + |s.sweeper.todo| else 0
  {
    hide Losable, Enabled, Step;
    if s.sweeper.Erasing? {
      SweepErasesHost(c, s, ip);
      LostAlready(c, Step(c, s, SweepErases(ip)), ip);
      LosableBefore(c, s, SweepErases(ip), ip);
    } else {
      var e := SweepGoesOn(c, s);
      LosesToErasing(c, Step(c, s, e), ip);
      LosableBefore(c, s, e, ip);
    }
  }

  lemma LosesToSweep(c: Config, s: State, ip: Ip)
    requires StaleInSweep(s, ip)
    ensures Losable(c, s, ip)
  {
    hide Losable, ListsFilled;
    if ip in Doomed(s.sweeper) {
      LosesToErasing(c, s, ip);
    } else {
      var e := SweepDecides(ip, true);
      LosesToErasing(c, Step(c, s, e), ip);
      LosableBefore(c, s, e, ip);
    }
  }

  // ----- exactly -----

  /**
    * A manual ban is certain to stay in force until the API lifts it exactly when no attack capture of the host is
    * ahead of its ban, the detector is not about to start one, and no sweep holds a liftable ban of it that had aged when
    * the sweep began.
    * Otherwise some interleaving replaces or removes it. Every state a run can reach meets the precondition.
    */
  lemma ManualBanStaysExactly(c: Config, s: State, ip: Ip)
    requires BanInvariant(s) && ManuallyBanned(s, ip)
    ensures SafelyManual(s, ip) <==>
            forall events :: IsRun(c, s, events) && ApiUnbans(ip) !in events ==> ManuallyBanned(RunTo(c, s, events), ip)
  {
    hide BanInvariant, IsRun, RunTo, StaleInSweep, CaptureAhead;
    if SafelyManual(s, ip) {
      forall events | IsRun(c, s, events) && ApiUnbans(ip) !in events
        ensures ManuallyBanned(RunTo(c, s, events), ip)
      {
        ManualBanStays(c, s, events, ip);
      }
    } else if CaptureAhead(s, ip) {
      LosesToCapture(c, s, ip);
    } else if s.detector == SawNoBan(ip) {
      LosesToDetector(c, s, ip);
    } else {
      LosesToSweep(c, s, ip);
    }
  }

  /**
    * The program does get there: the detector looks at a host and finds neither a bucket nor a ban, and before it
    * asks for a capture the API bans the host. From then on the manual ban can be lost without any unban request.
    */
  lemma ManualBanAtRisk(c: Config, ip: Ip, b: Ban)
    requires b.source == Manual
    ensures var events := [DetectorTestsBucket(ip), DetectorTestsBan, ApiBans(ip, b)];
            && IsRun(c, INITIAL, events)
            && ManuallyBanned(RunTo(c, INITIAL, events), ip)
            && !SafelyManual(RunTo(c, INITIAL, events), ip)
            && Losable(c, RunTo(c, INITIAL, events), ip)
  {
    var events := [DetectorTestsBucket(ip), DetectorTestsBan, ApiBans(ip, b)];
    var s1 := Step(c, INITIAL, events[0]);
    var s2 := Step(c, s1, events[1]);
    var s3 := Step(c, s2, events[2]);
    assert events[1..] == [events[1], events[2]] && events[1..][1..] == [events[2]] && [events[2]][1..] == [];
    assert s1.detector == SawNoBucket(ip) && s2.detector == SawNoBan(ip) && s3.detector == SawNoBan(ip);
    assert IsRun(c, s3, []) && RunTo(c, s3, []) == s3;
    assert IsRun(c, s2, [events[2]]) && RunTo(c, s2, [events[2]]) == s3;
    assert IsRun(c, s1, events[1..]) && RunTo(c, s1, events[1..]) == s3;
    InitialBans();
    RunKeepsBans(c, INITIAL, events);
    LosesToDetector(c, s3, ip);
  }
}
