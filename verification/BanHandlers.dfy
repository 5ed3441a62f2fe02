/**
  * The ban list and the handlers that work on it in place: the unban sweep and the processing of filled buckets. Each
  * handler, run undisturbed, is shown to be a run of the interleaved steps.
  */
module BanHandlers {
  import opened Octets
  import opened BanProtocol

  class BanList {
    var storage: map<Ip, Ban>

    constructor ()
      ensures storage == map[]
    {
      storage := map[];
    }

    method IsBlackholed(ip: Ip) returns (banned: bool)
      ensures banned <==> ip in storage
    {
      return ip in storage;
    }

    method AddToBlackhole(ip: Ip, ban: Ban)
      modifies this
      ensures storage == old(storage)[ip := ban]
    {
      storage := storage[ip := ban];
    }

    method RemoveFromBlackhole(ip: Ip)
      modifies this
      ensures storage == old(storage) - {ip}
    {
      storage := storage - {ip};
    }

    method RemoveAndKeepCopy(ip: Ip) returns (copy: Option<Ban>)
      modifies this
      ensures storage == old(storage) - {ip}
      ensures copy == if ip in old(storage) then Some(old(storage)[ip]) else None
    {
      if ip !in storage {
        return None;
      }
      copy := Some(storage[ip]);
      storage := storage - {ip};
    }

    method GetWholeBanlist() returns (copy: map<Ip, Ban>)
      ensures copy == storage
    {
      return storage;
    }
  }

  class BucketStorage {
    var buckets: map<Ip, Bucket>

    constructor ()
      ensures buckets == map[]
    {
      buckets := map[];
    }

    method HasBucket(ip: Ip) returns (present: bool)
      ensures present <==> ip in buckets
    {
      return ip in buckets;
    }

    /** Refuses a host that already has a bucket. */
    method EnableCapture(ip: Ip, pattern: Pattern, details: Ban, capacity: nat) returns (ok: bool)
      modifies this
      ensures ok <==> ip !in old(buckets)
      ensures buckets == if ok then old(buckets)[ip := Bucket(pattern, capacity == 0, details)] else old(buckets)
    {
      if ip in buckets {
        return false;
      }
      buckets := buckets[ip := Bucket(pattern, capacity == 0, details)];
      return true;
    }
  }

  // ----- runs -----

  /** Some run leads from one state to the other. */
  ghost predicate Reaches(c: Config, s: State, t: State) {
    exists events :: IsRun(c, s, events) && RunTo(c, s, events) == t
  }

  lemma ReachesSelf(c: Config, s: State)
    ensures Reaches(c, s, s)
  {
    assert IsRun(c, s, []) && RunTo(c, s, []) == s;
  }

  lemma {:induction false} RunAndStep(c: Config, s: State, events: seq<Event>, e: Event)
    requires IsRun(c, s, events) && Enabled(c, RunTo(c, s, events), e)
    ensures IsRun(c, s, events + [e]) && RunTo(c, s, events + [e]) == Step(c, RunTo(c, s, events), e)
    decreases |events|
  {
    hide Enabled, Step;
    var longer := events + [e];
    if events == [] {
      var t := Step(c, s, e);
      assert longer[1..] == [] && IsRun(c, t, []) && RunTo(c, t, []) == t;
    } else {
      RunAndStep(c, Step(c, s, events[0]), events[1..], e);
      assert longer[1..] == events[1..] + [e];
    }
  }

  lemma ReachesOn(c: Config, s: State, t: State, e: Event)
    requires Reaches(c, s, t) && Enabled(c, t, e)
    ensures Reaches(c, s, Step(c, t, e))
  {
    hide Enabled, Step;
    var events :| IsRun(c, s, events) && RunTo(c, s, events) == t;
    RunAndStep(c, s, events, e);
  }

  // ----- the detector -----

  /**
    * A host over its thresholds: undisturbed, a capture is started exactly when it has neither a bucket nor a ban, by
    * steps of the interleaved model.
    */
  method DetectAttack(c: Config, storage: BucketStorage, list: BanList, ip: Ip, details: Ban, capacity: nat, ghost s: State)
      returns (captured: bool)
    requires s.detector == DetectorIdle && LockFree(s) && s.bans == list.storage && s.buckets == storage.buckets
    requires details.source == Automatic && c.noCapacity == (capacity == 0)
    modifies storage
    ensures captured <==> ip !in old(storage.buckets) && ip !in list.storage
    ensures storage.buckets == if captured then old(storage.buckets)[ip := Bucket(Once, capacity == 0, details)]
                               else old(storage.buckets)
    ensures Reaches(c, s, s.(buckets := storage.buckets))
  {
    hide Enabled, Step, Reaches;
    ReachesSelf(c, s);
    DetectorRuns(c, s, ip, details);
    ReachesOn(c, s, s, DetectorTestsBucket(ip));
    var present := storage.HasBucket(ip);
    if present {
      return false;
    }
    ReachesOn(c, s, s.(detector := SawNoBucket(ip)), DetectorTestsBan);
    var banned := list.IsBlackholed(ip);
    if banned {
      return false;
    }
    ReachesOn(c, s, s.(detector := SawNoBan(ip)), DetectorEnables(details));
    captured := storage.EnableCapture(ip, Once, details, capacity);
  }

  lemma DetectorRuns(c: Config, s: State, ip: Ip, details: Ban)
    requires s.detector == DetectorIdle && LockFree(s) && details.source == Automatic
    ensures Enabled(c, s, DetectorTestsBucket(ip))
    ensures Step(c, s, DetectorTestsBucket(ip)) == if ip in s.buckets then s else s.(detector := SawNoBucket(ip))
    ensures var t := s.(detector := SawNoBucket(ip));
            && Enabled(c, t, DetectorTestsBan)
            && Step(c, t, DetectorTestsBan) == if ip in s.bans then s else s.(detector := SawNoBan(ip))
    ensures var t := s.(detector := SawNoBan(ip));
            && Enabled(c, t, DetectorEnables(details))
            && (ip !in s.buckets ==>
                  Step(c, t, DetectorEnables(details)) == s.(buckets := s.buckets[ip := Bucket(Once, c.noCapacity, details)]))
  {
  }

  // ----- the unban sweep -----

  ghost predicate Lifted(c: Config, bans: map<Ip, Ban>, now: int, finished: set<Ip>, ip: Ip) {
    ip in bans && Liftable(c, bans[ip], now, ip in finished)
  }

  lemma LiftedMeans(c: Config, bans: map<Ip, Ban>, now: int, finished: set<Ip>)
    ensures forall ip :: Lifted(c, bans, now, finished, ip) <==>
              && ip in bans && bans[ip].source == Automatic && bans[ip].unbanEnabled && now - bans[ip].since > bans[ip].duration
              && (!c.unbanOnlyIfFinished || ip in finished)
  {
  }

  /** Judges every ban on a copy of the list. */
  method JudgeBans(c: Config, copy: map<Ip, Ban>, now: int, finished: set<Ip>, ghost s: State) returns (erase: set<Ip>)
    requires s.sweeper == Deciding(now, copy, {})
    ensures forall ip :: ip in erase <==>
              && ip in copy && copy[ip].source == Automatic && copy[ip].unbanEnabled && now - copy[ip].since > copy[ip].duration
              && (!c.unbanOnlyIfFinished || ip in finished)
    ensures Reaches(c, s, s.(sweeper := Deciding(now, map[], erase)))
  {
    hide Enabled, Step, Reaches, Liftable;
    var todo := copy;
    erase := {};
    ReachesSelf(c, s);
    while todo != map[]
      invariant forall ip :: ip in todo ==> ip in copy && todo[ip] == copy[ip]
      invariant forall ip :: ip in erase <==> ip !in todo && Lifted(c, copy, now, finished, ip)
      invariant Reaches(c, s, s.(sweeper := Deciding(now, todo, erase)))
      decreases |todo|
    {
      var ip :| ip in todo;
      ghost var t := s.(sweeper := Deciding(now, todo, erase));
      SweepNext(c, t, ip, ip in finished);
      ReachesOn(c, s, t, SweepDecides(ip, ip in finished));
      if Liftable(c, todo[ip], now, ip in finished) {
        erase := erase + {ip};
      }
      assert todo.Keys == (todo - {ip}).Keys + {ip};
      todo := todo - {ip};
    }
    LiftedMeans(c, copy, now, finished);
  }

  /** Erases the hosts chosen. */
  method EraseBans(c: Config, list: BanList, erase: set<Ip>, ghost s: State)
    requires s.sweeper == Erasing(erase) && s.bans == list.storage
    modifies list
    ensures list.storage == old(list.storage) - erase
    ensures Reaches(c, s, s.(bans := list.storage, sweeper := Erasing({})))
  {
    hide Enabled, Step, Reaches;
    var rest := erase;
    ReachesSelf(c, s);
    while rest != {}
      invariant rest <= erase
      invariant list.storage == old(list.storage) - (erase - rest)
      invariant Reaches(c, s, s.(bans := list.storage, sweeper := Erasing(rest)))
      decreases |rest|
    {
      var ip :| ip in rest;
      ghost var t := s.(bans := list.storage, sweeper := Erasing(rest));
      SweepRemoves(c, t, ip);
      ReachesOn(c, s, t, SweepErases(ip));
      list.RemoveFromBlackhole(ip);
      rest := rest - {ip};
      assert list.storage == old(list.storage) - (erase - rest);
    }
  }

  /**
    * The sweep: undisturbed, and by steps of the interleaved model, it removes exactly the automatic bans that are
    * allowed to be lifted, have lasted longer than their ban time and, where configured, are of a finished attack.
    */
  method ExecuteUnban(c: Config, list: BanList, now: int, finished: set<Ip>, ghost s: State)
    requires s.sweeper == SweeperIdle && s.bans == list.storage
    modifies list
    ensures forall ip :: ip in list.storage ==> ip in old(list.storage) && list.storage[ip] == old(list.storage)[ip]
    ensures forall ip :: ip in old(list.storage) ==>
              var b := old(list.storage)[ip];
              ip !in list.storage <==>
                && b.source == Automatic && b.unbanEnabled && now - b.since > b.duration
                && (!c.unbanOnlyIfFinished || ip in finished)
    ensures Reaches(c, s, s.(bans := list.storage))
  {
    hide Enabled, Step, Reaches, Liftable;
    var copy := list.GetWholeBanlist();
    ghost var t := s.(sweeper := Deciding(now, copy, {}));
    SweepFirst(c, s, now);
    ReachesSelf(c, s);
    ReachesOn(c, s, s, SweepStarts(now));
    var erase := JudgeBans(c, copy, now, finished, t);
    ghost var u := t.(sweeper := Deciding(now, map[], erase));
    ReachesTransitive(c, s, t, u);
    SweepTurns(c, u);
    ReachesOn(c, s, u, SweepStartsErasing);
    ghost var v := u.(sweeper := Erasing(erase));
    EraseBans(c, list, erase, v);
    ghost var w := v.(bans := list.storage, sweeper := Erasing({}));
    ReachesTransitive(c, s, v, w);
    SweepLast(c, w);
    ReachesOn(c, s, w, SweepStops);
  }

  lemma {:induction false} RunAndRun(c: Config, s: State, first: seq<Event>, second: seq<Event>)
    requires IsRun(c, s, first) && IsRun(c, RunTo(c, s, first), second)
    ensures IsRun(c, s, first + second) && RunTo(c, s, first + second) == RunTo(c, RunTo(c, s, first), second)
    decreases |first|
  {
    hide Enabled, Step;
    if first == [] {
      assert first + second == second;
    } else {
      RunAndRun(c, Step(c, s, first[0]), first[1..], second);
      assert (first + second)[1..] == first[1..] + second;
    }
  }

  lemma ReachesTransitive(c: Config, s: State, t: State, u: State)
    requires Reaches(c, s, t) && Reaches(c, t, u)
    ensures Reaches(c, s, u)
  {
    hide Enabled, Step;
    var first :| IsRun(c, s, first) && RunTo(c, s, first) == t;
    var second :| IsRun(c, t, second) && RunTo(c, t, second) == u;
    RunAndRun(c, s, first, second);
  }

  lemma SweepFirst(c: Config, s: State, now: int)
    requires s.sweeper.SweeperIdle?
    ensures Enabled(c, s, SweepStarts(now)) && Step(c, s, SweepStarts(now)) == s.(sweeper := Deciding(now, s.bans, {}))
  {
  }

  lemma SweepNext(c: Config, s: State, ip: Ip, finished: bool)
    requires s.sweeper.Deciding? && ip in s.sweeper.todo
    ensures var e, sw := SweepDecides(ip, finished), s.sweeper;
            && Enabled(c, s, e)
            && Step(c, s, e) == s.(sweeper := Deciding(sw.now, sw.todo - {ip},
                 if Liftable(c, sw.todo[ip], sw.now, finished) then sw.erase + {ip} else sw.erase))
  {
    assert s.sweeper.erase + {} == s.sweeper.erase;
  }

  lemma SweepTurns(c: Config, s: State)
    requires s.sweeper.Deciding? && s.sweeper.todo == map[]
    ensures Enabled(c, s, SweepStartsErasing)
    ensures Step(c, s, SweepStartsErasing) == s.(sweeper := Erasing(s.sweeper.erase))
  {
  }

  lemma SweepRemoves(c: Config, s: State, ip: Ip)
    requires s.sweeper.Erasing? && ip in s.sweeper.erase
    ensures Enabled(c, s, SweepErases(ip))
    ensures Step(c, s, SweepErases(ip)) == s.(bans := s.bans - {ip}, sweeper := Erasing(s.sweeper.erase - {ip}))
  {
  }

  lemma SweepLast(c: Config, s: State)
    requires s.sweeper.Erasing? && s.sweeper.erase == {}
    ensures Enabled(c, s, SweepStops) && Step(c, s, SweepStops) == s.(sweeper := SweeperIdle)
  {
  }

  // ----- filled buckets -----

  method CollectFilledHosts(buckets: map<Ip, Bucket>) returns (order: seq<Ip>)
    ensures ListsFilled(order, buckets)
  {
    order := [];
    var todo := buckets.Keys;
    while todo != {}
      invariant todo <= buckets.Keys
      invariant forall ip :: ip in order <==> ip in buckets && buckets[ip].filled && ip !in todo
      invariant forall i, j :: 0 <= i < j < |order| ==> order[i] != order[j]
      decreases |todo|
    {
      var ip :| ip in todo;
      if buckets[ip].filled {
        order := order + [ip];
      }
      todo := todo - {ip};
    }
  }

  predicate FilledWith(buckets: map<Ip, Bucket>, pattern: Pattern, ip: Ip) {
    ip in buckets && buckets[ip].filled && buckets[ip].pattern == pattern
  }

  /** The ban list after every filled attack capture has banned its host. */
  function AfterBans(bans: map<Ip, Ban>, buckets: map<Ip, Bucket>): map<Ip, Ban> {
    bans + map ip | ip in buckets && FilledWith(buckets, Once, ip) :: buckets[ip].details
  }

  function AfterBuckets(buckets: map<Ip, Bucket>): map<Ip, Bucket> {
    map ip | ip in buckets && !buckets[ip].filled :: buckets[ip]
  }

  /** What is left to do never changes what the whole pass will have done. */
  lemma OneProcessed(bans: map<Ip, Ban>, buckets: map<Ip, Bucket>, ip: Ip)
    requires ip in buckets && buckets[ip].filled
    ensures AfterBuckets(buckets - {ip}) == AfterBuckets(buckets)
    ensures buckets[ip].pattern == Once ==> AfterBans(bans[ip := buckets[ip].details], buckets - {ip}) == AfterBans(bans, buckets)
    ensures buckets[ip].pattern == RefreshOnce ==> AfterBans(bans, buckets - {ip}) == AfterBans(bans, buckets)
  {
    hide AfterBans;
    if buckets[ip].pattern == Once {
      OneBanned(bans, buckets, ip);
    } else {
      OneSkipped(bans, buckets, ip);
    }
  }

  lemma OneBanned(bans: map<Ip, Ban>, buckets: map<Ip, Bucket>, ip: Ip)
    requires FilledWith(buckets, Once, ip)
    ensures AfterBans(bans[ip := buckets[ip].details], buckets - {ip}) == AfterBans(bans, buckets)
  {
  }

  lemma OneSkipped(bans: map<Ip, Ban>, buckets: map<Ip, Bucket>, ip: Ip)
    requires FilledWith(buckets, RefreshOnce, ip)
    ensures AfterBans(bans, buckets - {ip}) == AfterBans(bans, buckets)
  {
  }

  lemma TakesUpRefresh(c: Config, s: State, ip: Ip, rest: seq<Ip>, queue: seq<Ip>)
    requires s.worker == Processing([ip] + rest, queue) && Refreshing(s, ip)
    ensures Enabled(c, s, ProcessBucket)
    ensures Step(c, s, ProcessBucket) == s.(buckets := s.buckets - {ip}, worker := Processing(rest, queue + [ip]))
  {
    assert ([ip] + rest)[1..] == rest;
  }

  lemma BansAndErases(c: Config, s: State, ip: Ip, rest: seq<Ip>, queue: seq<Ip>)
    requires s.worker == Processing([ip] + rest, queue) && Capturing(s, ip)
    ensures var s' := s.(bans := s.bans[ip := s.buckets[ip].details], worker := Banned(ip, rest, queue));
            && Enabled(c, s, ProcessBucket) && Step(c, s, ProcessBucket) == s'
            && Enabled(c, s', EraseBucket)
            && Step(c, s', EraseBucket) == s'.(buckets := s.buckets - {ip}, worker := Processing(rest, queue))
  {
    assert ([ip] + rest)[1..] == rest;
  }

  /** One filled bucket: queued for refresh, or its host banned and then the bucket erased. */
  method ProcessOne(c: Config, storage: BucketStorage, list: BanList, ip: Ip, queue: seq<Ip>, ghost rest: seq<Ip>, ghost s: State)
      returns (queue': seq<Ip>)
    requires s.bans == list.storage && s.buckets == storage.buckets && s.worker == Processing([ip] + rest, queue)
    requires ip in storage.buckets && storage.buckets[ip].filled
    modifies storage, list
    ensures storage.buckets == old(storage.buckets) - {ip}
    ensures AfterBans(list.storage, storage.buckets) == old(AfterBans(list.storage, storage.buckets))
    ensures AfterBuckets(storage.buckets) == old(AfterBuckets(storage.buckets))
    ensures queue' == if old(storage.buckets)[ip].pattern == RefreshOnce then queue + [ip] else queue
    ensures Reaches(c, s, s.(bans := list.storage, buckets := storage.buckets, worker := Processing(rest, queue')))
  {
    hide Enabled, Step, Reaches, AfterBans, AfterBuckets;
    OneProcessed(list.storage, storage.buckets, ip);
    ReachesSelf(c, s);
    var bucket := storage.buckets[ip];
    if bucket.pattern == RefreshOnce {
      TakesUpRefresh(c, s, ip, rest, queue);
      ReachesOn(c, s, s, ProcessBucket);
      storage.buckets := storage.buckets - {ip};
      return queue + [ip];
    }
    BansAndErases(c, s, ip, rest, queue);
    ghost var t := s.(bans := s.bans[ip := bucket.details], worker := Banned(ip, rest, queue));
    ReachesOn(c, s, s, ProcessBucket);
    list.AddToBlackhole(ip, bucket.details);
    ReachesOn(c, s, t, EraseBucket);
    storage.buckets := storage.buckets - {ip};
    return queue;
  }

  /**
    * The locked part of bucket processing: every host with a filled attack capture is banned with the details of its
    * detection, every filled bucket is gone, and the filled refresh captures, each once, are returned for later.
    */
  method ProcessFilledBuckets(c: Config, storage: BucketStorage, list: BanList, ghost s: State) returns (queue: seq<Ip>)
    requires s.worker == Resting && s.bans == list.storage && s.buckets == storage.buckets
    modifies storage, list
    ensures storage.buckets == AfterBuckets(old(storage.buckets))
    ensures list.storage == AfterBans(old(list.storage), old(storage.buckets))
    ensures forall ip :: ip in queue <==> FilledWith(old(storage.buckets), RefreshOnce, ip)
    ensures forall i, j :: 0 <= i < j < |queue| ==> queue[i] != queue[j]
    ensures Reaches(c, s, s.(bans := list.storage, buckets := storage.buckets, worker := HandingOver(queue)))
  {
    hide Enabled, Step, Reaches, AfterBans, AfterBuckets, ListsFilled;
    var order := CollectFilledHosts(storage.buckets);
    queue := [];
    StartsProcessing(c, s, order);
    ReachesSelf(c, s);
    ReachesOn(c, s, s, CollectFilled(order));
    ghost var before := storage.buckets;
    assert order[0..] == order;
    for i := 0 to |order|
      invariant ListsFilled(order[i..], storage.buckets)
      invariant AfterBans(list.storage, storage.buckets) == old(AfterBans(list.storage, storage.buckets))
      invariant AfterBuckets(storage.buckets) == AfterBuckets(before)
      invariant forall ip :: ip in queue || FilledWith(storage.buckets, RefreshOnce, ip) <==> FilledWith(before, RefreshOnce, ip)
      invariant forall k :: 0 <= k < |queue| ==> queue[k] !in storage.buckets
      invariant forall k, j :: 0 <= k < j < |queue| ==> queue[k] != queue[j]
      invariant Reaches(c, s, s.(bans := list.storage, buckets := storage.buckets, worker := Processing(order[i..], queue)))
    {
      var ip := order[i];
      ghost var t := s.(bans := list.storage, buckets := storage.buckets, worker := Processing(order[i..], queue));
      assert order[i..] == [ip] + order[i + 1..];
      NextListed(order[i..], storage.buckets);
      queue := ProcessOne(c, storage, list, ip, queue, order[i + 1..], t);
      ReachesTransitive(c, s, t, s.(bans := list.storage, buckets := storage.buckets, worker := Processing(order[i + 1..], queue)));
    }
    assert order[|order|..] == [];
    NothingFilled(list.storage, storage.buckets);
    ghost var t := s.(bans := list.storage, buckets := storage.buckets, worker := Processing([], queue));
    ReleasesLock(c, t);
    ReachesOn(c, s, t, ReleaseLock);
  }

  lemma StartsProcessing(c: Config, s: State, order: seq<Ip>)
    requires s.worker.Resting? && ListsFilled(order, s.buckets)
    ensures Enabled(c, s, CollectFilled(order)) && Step(c, s, CollectFilled(order)) == s.(worker := Processing(order, []))
  {
  }

  lemma ReleasesLock(c: Config, s: State)
    requires s.worker.Processing? && s.worker.rest == []
    ensures Enabled(c, s, ReleaseLock) && Step(c, s, ReleaseLock) == s.(worker := HandingOver(s.worker.queue))
  {
  }

  lemma NextListed(order: seq<Ip>, buckets: map<Ip, Bucket>)
    requires order != [] && ListsFilled(order, buckets)
    ensures order[0] in buckets && buckets[order[0]].filled && ListsFilled(order[1..], buckets - {order[0]})
  {
    assert order[0] in order;
    RestListed(order, buckets);
  }

  lemma NothingFilled(bans: map<Ip, Ban>, buckets: map<Ip, Bucket>)
    requires ListsFilled([], buckets)
    ensures AfterBans(bans, buckets) == bans && AfterBuckets(buckets) == buckets
    ensures forall ip :: ip in buckets ==> !buckets[ip].filled
  {
    forall ip | ip in buckets ensures !buckets[ip].filled {
      assert ip !in [];
    }
  }
}
