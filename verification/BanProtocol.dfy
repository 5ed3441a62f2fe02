/**
  * The threads that ban and unban IPv4 hosts, as interleaved steps: the detector, the packet path, the bucket thread
  * (which works through filled buckets under the bucket lock and then schedules refresh captures), the refresh
  * managers it starts, the unban sweep and the two API handlers. A step is what a thread does between two points
  * where another thread can get in.
  */
module BanProtocol {
  import opened Octets

  datatype Pattern = Once | RefreshOnce

  datatype Source = Automatic | Manual

  datatype Ban = Ban(source: Source, unbanEnabled: bool, since: int, duration: int)

  datatype Bucket = Bucket(pattern: Pattern, filled: bool, details: Ban)

  /** Settings that do not change while the program runs. Captures without capacity are filled from the start. */
  datatype Config = Config(refresh: bool, unbanOnlyIfFinished: bool, noCapacity: bool)

  /** The detector tests for a bucket, then for a ban, then asks for a capture. */
  datatype Detector = DetectorIdle | SawNoBucket(ip: Ip) | SawNoBan(ip: Ip)

  /** The bucket thread; it holds the bucket lock while processing filled buckets. */
  datatype Worker =
    | Resting
    | Processing(rest: seq<Ip>, queue: seq<Ip>)
    | Banned(ip: Ip, rest: seq<Ip>, queue: seq<Ip>)
    | HandingOver(queue: seq<Ip>)
    | Scheduling(victims: map<Ip, Ban>)
    | Chosen(ip: Ip, details: Ban, victims: map<Ip, Ban>)
    | Began(ip: Ip, details: Ban, victims: map<Ip, Ban>)

  /** The sweep reads the clock once, copies the ban list, and decides on the copy by that one reading. */
  datatype Sweeper = SweeperIdle | Deciding(now: int, todo: map<Ip, Ban>, erase: set<Ip>) | Erasing(erase: set<Ip>)

  /** `tokens` are the victims with a refresh in progress; the last three fields only count. */
  datatype State = State(
    bans: map<Ip, Ban>,
    buckets: map<Ip, Bucket>,
    tokens: set<Ip>,
    managers: multiset<Ip>,
    detector: Detector,
    worker: Worker,
    sweeper: Sweeper,
    begun: multiset<Ip>,
    completed: multiset<Ip>,
    handed: multiset<Ip>)

  const INITIAL := State(map[], map[], {}, multiset{}, DetectorIdle, Resting, SweeperIdle, multiset{}, multiset{}, multiset{})

  datatype Event =
    | DetectorTestsBucket(ip: Ip)
    | DetectorTestsBan
    | DetectorEnables(details: Ban)
    | PacketFills(ip: Ip)
    | OrphanRemoved(ip: Ip)
    | CollectFilled(order: seq<Ip>)
    | ProcessBucket
    | EraseBucket
    | ReleaseLock
    | ProcessRefresh(handOver: bool)
    | StartScheduling
    | SkipVictim(ip: Ip)
    | ChoosesVictim(ip: Ip)
    | BeginRefresh(fenced: bool)
    | EnableRefresh
    | StopScheduling
    | ManagerFinishes(ip: Ip)
    | SweepStarts(now: int)
    | SweepDecides(ip: Ip, finished: bool)
    | SweepStartsErasing
    | SweepErases(ip: Ip)
    | SweepStops
    | ApiBans(ip: Ip, details: Ban)
    | ApiUnbans(ip: Ip)

  ghost predicate LockFree(s: State) {
    !s.worker.Processing? && !s.worker.Banned?
  }

  /** The order in which the filled buckets are worked through: each of them once. */
  ghost predicate ListsFilled(order: seq<Ip>, buckets: map<Ip, Bucket>) {
    && (forall i, j :: 0 <= i < j < |order| ==> order[i] != order[j])
    && (forall ip :: ip in order <==> ip in buckets && buckets[ip].filled)
  }

  /** What the sweep asks of a ban before it lifts it. */
  predicate Liftable(c: Config, b: Ban, now: int, finished: bool) {
    && b.unbanEnabled && b.source == Automatic && now - b.since > b.duration
    && (c.unbanOnlyIfFinished ==> finished)
  }

  ghost predicate Enabled(c: Config, s: State, e: Event) {
    match e
    case DetectorTestsBucket(_) => s.detector.DetectorIdle? && LockFree(s)
    case DetectorTestsBan => s.detector.SawNoBucket?
    case DetectorEnables(details) => s.detector.SawNoBan? && LockFree(s) && details.source == Automatic
    case PacketFills(_) => LockFree(s)
    case OrphanRemoved(ip) => s.worker.Resting? && ip in s.buckets && !s.buckets[ip].filled
    case CollectFilled(order) => s.worker.Resting? && ListsFilled(order, s.buckets)
    case ProcessBucket => s.worker.Processing? && s.worker.rest != [] && s.worker.rest[0] in s.buckets
    case EraseBucket => s.worker.Banned?
    case ReleaseLock => s.worker.Processing? && s.worker.rest == []
    case ProcessRefresh(_) => s.worker.HandingOver? && s.worker.queue != []
    case StartScheduling => s.worker.HandingOver? && s.worker.queue == []
    case SkipVictim(ip) => s.worker.Scheduling? && ip in s.worker.victims
    case ChoosesVictim(ip) => s.worker.Scheduling? && ip in s.worker.victims && ip !in s.buckets
    case BeginRefresh(_) => s.worker.Chosen?
    case EnableRefresh => s.worker.Began?
    case StopScheduling => s.worker.Scheduling? && s.worker.victims == map[]
    case ManagerFinishes(ip) => ip in s.managers
    case SweepStarts(_) => s.sweeper.SweeperIdle?
    case SweepDecides(ip, _) => s.sweeper.Deciding? && ip in s.sweeper.todo
    case SweepStartsErasing => s.sweeper.Deciding? && s.sweeper.todo == map[]
    case SweepErases(ip) => s.sweeper.Erasing? && ip in s.sweeper.erase
    case SweepStops => s.sweeper.Erasing? && s.sweeper.erase == {}
    case ApiBans(_, details) => details.source == Manual
    case ApiUnbans(_) => true
  }

  // ----- the detector and the packet path -----

  function AfterDetectorEnables(c: Config, s: State, details: Ban): State
    requires s.detector.SawNoBan?
  {
    var ip := s.detector.ip;
    var s' := s.(detector := DetectorIdle);
    if ip in s.buckets then s' else s'.(buckets := s.buckets[ip := Bucket(Once, c.noCapacity, details)])
  }

  function AfterPacket(s: State, ip: Ip): State {
    if ip in s.buckets then s.(buckets := s.buckets[ip := s.buckets[ip].(filled := true)]) else s
  }

  // ----- the bucket thread -----

  /** A refresh capture that will not be handed over gives its token back. */
  function Complete(s: State, ip: Ip): State {
    s.(tokens := s.tokens - {ip}, completed := s.completed + multiset{ip})
  }

  function AfterOrphanRemoved(s: State, ip: Ip): State
    requires ip in s.buckets
  {
    var s' := if s.buckets[ip].pattern == RefreshOnce then Complete(s, ip) else s;
    s'.(buckets := s.buckets - {ip})
  }

  /** A filled bucket either goes to the refresh queue or has its host banned, with the bucket still in place. */
  function AfterProcessBucket(s: State): State
    requires s.worker.Processing? && s.worker.rest != [] && s.worker.rest[0] in s.buckets
  {
    var ip, rest, queue := s.worker.rest[0], s.worker.rest[1..], s.worker.queue;
    if s.buckets[ip].pattern == RefreshOnce then
      s.(buckets := s.buckets - {ip}, worker := Processing(rest, queue + [ip]))
    else
      s.(bans := s.bans[ip := s.buckets[ip].details], worker := Banned(ip, rest, queue))
  }

  /** With refresh switched off the capture is dropped without giving the token back. */
  function AfterProcessRefresh(c: Config, s: State, handOver: bool): State
    requires s.worker.HandingOver? && s.worker.queue != []
  {
    var ip := s.worker.queue[0];
    var s' := s.(worker := HandingOver(s.worker.queue[1..]));
    if !c.refresh then s'
    else if handOver then s'.(managers := s.managers + multiset{ip}, handed := s.handed + multiset{ip})
    else Complete(s', ip)
  }

  /** A victim seen without a bucket gets the token, unless it is fenced or has one; a bucket may appear meanwhile. */
  function AfterBeginRefresh(s: State, fenced: bool): State
    requires s.worker.Chosen?
  {
    var ip, victims := s.worker.ip, s.worker.victims;
    if fenced || ip in s.tokens then s.(worker := Scheduling(victims))
    else s.(tokens := s.tokens + {ip}, begun := s.begun + multiset{ip}, worker := Began(ip, s.worker.details, victims))
  }

  function AfterEnableRefresh(c: Config, s: State): State
    requires s.worker.Began?
  {
    var ip := s.worker.ip;
    var s' := s.(worker := Scheduling(s.worker.victims));
    if ip in s.buckets then Complete(s', ip)
    else s'.(buckets := s.buckets[ip := Bucket(RefreshOnce, c.noCapacity, s.worker.details)])
  }

  function Step(c: Config, s: State, e: Event): State
    requires Enabled(c, s, e)
  {
    match e
    case DetectorTestsBucket(ip) => s.(detector := if ip in s.buckets then DetectorIdle else SawNoBucket(ip))
    case DetectorTestsBan =>
      s.(detector := if s.detector.ip in s.bans then DetectorIdle else SawNoBan(s.detector.ip))
    case DetectorEnables(details) => AfterDetectorEnables(c, s, details)
    case PacketFills(ip) => AfterPacket(s, ip)
    case OrphanRemoved(ip) => AfterOrphanRemoved(s, ip)
    case CollectFilled(order) => s.(worker := Processing(order, []))
    case ProcessBucket => AfterProcessBucket(s)
    case EraseBucket => s.(buckets := s.buckets - {s.worker.ip}, worker := Processing(s.worker.rest, s.worker.queue))
    case ReleaseLock => s.(worker := HandingOver(s.worker.queue))
    case ProcessRefresh(handOver) => AfterProcessRefresh(c, s, handOver)
    case StartScheduling => s.(worker := if c.refresh then Scheduling(s.bans) else Resting)
    case SkipVictim(ip) => s.(worker := Scheduling(s.worker.victims - {ip}))
    case ChoosesVictim(ip) => s.(worker := Chosen(ip, s.worker.victims[ip], s.worker.victims - {ip}))
    case BeginRefresh(fenced) => AfterBeginRefresh(s, fenced)
    case EnableRefresh => AfterEnableRefresh(c, s)
    case StopScheduling => s.(worker := Resting)
    case ManagerFinishes(ip) => s.(managers := s.managers - multiset{ip}, tokens := s.tokens - {ip})
    case SweepStarts(now) => s.(sweeper := Deciding(now, s.bans, {}))
    case SweepDecides(ip, finished) =>
      var now, todo := s.sweeper.now, s.sweeper.todo;
      var erase := s.sweeper.erase + if Liftable(c, todo[ip], now, finished) then {ip} else {};
      s.(sweeper := Deciding(now, todo - {ip}, erase))
    case SweepStartsErasing => s.(sweeper := Erasing(s.sweeper.erase))
    case SweepErases(ip) => s.(bans := s.bans - {ip}, sweeper := Erasing(s.sweeper.erase - {ip}))
    case SweepStops => s.(sweeper := SweeperIdle)
    case ApiBans(ip, details) => s.(bans := s.bans[ip := details])
    case ApiUnbans(ip) => s.(bans := s.bans - {ip})
  }

  /** Every event happens in a state that allows it. */
  ghost predicate IsRun(c: Config, s: State, events: seq<Event>)
    decreases |events|
  {
    events == [] || (Enabled(c, s, events[0]) && IsRun(c, Step(c, s, events[0]), events[1..]))
  }

  function RunTo(c: Config, s: State, events: seq<Event>): State
    requires IsRun(c, s, events)
    decreases |events|
  {
    if events == [] then s else RunTo(c, Step(c, s, events[0]), events[1..])
  }

  // ----- bans -----

  ghost predicate AutoBanned(s: State, ip: Ip) {
    ip in s.bans && s.bans[ip].source == Automatic
  }

  ghost predicate Capturing(s: State, ip: Ip) {
    ip in s.buckets && s.buckets[ip].pattern == Once
  }

  predicate Refreshing(s: State, ip: Ip) {
    ip in s.buckets && s.buckets[ip].pattern == RefreshOnce
  }

  /** Past the test for a bucket, no attack capture of that host is under way: only the detector starts one. */
  ghost predicate DetectorAlone(s: State) {
    && (s.detector.SawNoBucket? ==> !Capturing(s, s.detector.ip))
    && (s.detector.SawNoBan? ==> !Capturing(s, s.detector.ip) && !AutoBanned(s, s.detector.ip))
  }

  /** A host with an attack capture is not banned automatically, but for the moment between its ban and the erase. */
  ghost predicate CapturesUnbanned(s: State) {
    forall ip :: Capturing(s, ip) && !(s.worker.Banned? && s.worker.ip == ip) ==> !AutoBanned(s, ip)
  }

  ghost predicate CapturesAutomatic(s: State) {
    forall ip :: Capturing(s, ip) ==> s.buckets[ip].details.source == Automatic
  }

  /** While the lock is held, exactly the filled buckets are still to be worked through. */
  ghost predicate WorkListExact(s: State) {
    && (s.worker.Processing? ==> ListsFilled(s.worker.rest, s.buckets))
    && (s.worker.Banned? ==> Capturing(s, s.worker.ip) && ListsFilled([s.worker.ip] + s.worker.rest, s.buckets))
  }

  ghost predicate BanInvariant(s: State) {
    DetectorAlone(s) && CapturesUnbanned(s) && CapturesAutomatic(s) && WorkListExact(s)
  }

  lemma RestListed(order: seq<Ip>, buckets: map<Ip, Bucket>)
    requires order != [] && ListsFilled(order, buckets)
    ensures ListsFilled(order[1..], buckets - {order[0]})
  {
    forall ip ensures ip in order[1..] <==> ip in buckets - {order[0]} && buckets[ip].filled {
      if ip in order[1..] {
        var i :| 0 <= i < |order[1..]| && order[1..][i] == ip;
        assert order[i + 1] == ip;
      }
      if ip in order && ip != order[0] {
        var i :| 0 <= i < |order| && order[i] == ip;
        assert order[1..][i - 1] == ip;
      }
    }
  }

  /** The bucket thread is about to ban this host. */
  ghost predicate Banning(s: State, e: Event, ip: Ip) {
    e.ProcessBucket? && s.worker.Processing? && s.worker.rest != [] && s.worker.rest[0] == ip && Capturing(s, ip)
  }

  /** An automatic ban comes from one place only. */
  lemma AutoBanOrigin(c: Config, s: State, e: Event, ip: Ip)
    requires Enabled(c, s, e) && AutoBanned(Step(c, s, e), ip)
    ensures AutoBanned(s, ip) || Banning(s, e, ip)
  {
    hide ListsFilled, Liftable;
  }

  /** So does an attack capture, and it carries the details of the detection. */
  lemma CaptureOrigin(c: Config, s: State, e: Event, ip: Ip)
    requires Enabled(c, s, e) && Capturing(Step(c, s, e), ip)
    ensures || (Capturing(s, ip) && Step(c, s, e).buckets[ip].details == s.buckets[ip].details)
            || (e.DetectorEnables? && s.detector.ip == ip && Step(c, s, e).buckets[ip].details == e.details)
    ensures !(e.EraseBucket? && s.worker.ip == ip)
  {
    hide ListsFilled, Liftable;
  }

  lemma DetectorMoves(c: Config, s: State, e: Event)
    requires Enabled(c, s, e)
    ensures var d, d' := s.detector, Step(c, s, e).detector;
            && (d'.SawNoBucket? ==> d' == d || (e.DetectorTestsBucket? && d'.ip !in s.buckets))
            && (d'.SawNoBan? ==> (d' == d || (d == SawNoBucket(d'.ip) && d'.ip !in s.bans)) && !e.DetectorEnables?)
            && (e.DetectorTestsBan? || e.DetectorTestsBucket? ==> Step(c, s, e).bans == s.bans && Step(c, s, e).buckets == s.buckets)
  {
    hide ListsFilled, Liftable;
  }

  lemma WorkerBans(c: Config, s: State, e: Event)
    requires Enabled(c, s, e)
    ensures forall ip :: Banning(s, e, ip) ==> Step(c, s, e).worker.Banned? && Step(c, s, e).worker.ip == ip
    ensures s.worker.Banned? ==> e.EraseBucket? || Step(c, s, e).worker == s.worker
  {
    hide ListsFilled, Liftable;
  }

  /** Every step of every thread keeps the invariant. */
  lemma BanStep(c: Config, s: State, e: Event)
    requires Enabled(c, s, e) && BanInvariant(s)
    ensures BanInvariant(Step(c, s, e))
  {
    DetectorAloneStep(c, s, e);
    CapturesUnbannedStep(c, s, e);
    CapturesAutomaticStep(c, s, e);
    WorkListExactStep(c, s, e);
  }

  lemma DetectorAloneStep(c: Config, s: State, e: Event)
    requires Enabled(c, s, e) && BanInvariant(s)
    ensures DetectorAlone(Step(c, s, e))
  {
    hide Step, ListsFilled;
    var s' := Step(c, s, e);
    DetectorMoves(c, s, e);
    if s'.detector.SawNoBucket? || s'.detector.SawNoBan? {
      var ip := s'.detector.ip;
      if Capturing(s', ip) { CaptureOrigin(c, s, e, ip); }
      if AutoBanned(s', ip) { AutoBanOrigin(c, s, e, ip); }
    }
  }

  lemma CapturesUnbannedStep(c: Config, s: State, e: Event)
    requires Enabled(c, s, e) && BanInvariant(s)
    ensures CapturesUnbanned(Step(c, s, e))
  {
    hide Step, ListsFilled;
    var s' := Step(c, s, e);
    WorkerBans(c, s, e);
    forall ip | Capturing(s', ip) && !(s'.worker.Banned? && s'.worker.ip == ip)
      ensures !AutoBanned(s', ip)
    {
      CaptureOrigin(c, s, e, ip);
      if AutoBanned(s', ip) { AutoBanOrigin(c, s, e, ip); }
    }
  }

  lemma CapturesAutomaticStep(c: Config, s: State, e: Event)
    requires Enabled(c, s, e) && BanInvariant(s)
    ensures CapturesAutomatic(Step(c, s, e))
  {
    hide Step, ListsFilled;
    forall ip | Capturing(Step(c, s, e), ip) ensures Step(c, s, e).buckets[ip].details.source == Automatic {
      CaptureOrigin(c, s, e, ip);
    }
  }

  lemma WorkListExactStep(c: Config, s: State, e: Event)
    requires Enabled(c, s, e) && BanInvariant(s)
    ensures WorkListExact(Step(c, s, e))
  {
    hide ListsFilled, Liftable;
    if e.ProcessBucket? {
      var order := s.worker.rest;
      RestListed(order, s.buckets);
      assert [order[0]] + order[1..] == order;
    } else if e.EraseBucket? {
      var order := [s.worker.ip] + s.worker.rest;
      RestListed(order, s.buckets);
      assert order[1..] == s.worker.rest;
    }
  }
}
