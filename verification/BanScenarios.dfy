/** What the threads do when nothing gets in between: from detection to ban, and one refresh of a banned host. */
module BanScenarios {
  import opened Octets
  import opened BanProtocol

  /** One event after the other. */
  lemma TwoSteps(c: Config, s: State, first: Event, rest: seq<Event>)
    requires Enabled(c, s, first) && IsRun(c, Step(c, s, first), rest)
    ensures IsRun(c, s, [first] + rest)
    ensures RunTo(c, s, [first] + rest) == RunTo(c, Step(c, s, first), rest)
  {
    hide Enabled, Step;
    assert ([first] + rest)[1..] == rest;
  }

  lemma NoStep(c: Config, s: State)
    ensures IsRun(c, s, []) && RunTo(c, s, []) == s
  {
  }

  ghost predicate Leads(c: Config, s: State, events: seq<Event>, s': State) {
    IsRun(c, s, events) && RunTo(c, s, events) == s'
  }

  lemma LeadsOn(c: Config, s: State, first: Event, rest: seq<Event>, s': State)
    requires Enabled(c, s, first) && Leads(c, Step(c, s, first), rest, s')
    ensures Leads(c, s, [first] + rest, s')
  {
    hide Enabled, Step;
    TwoSteps(c, s, first, rest);
  }

  lemma LeadsNowhere(c: Config, s: State)
    ensures Leads(c, s, [], s)
  {
  }

  lemma LeadsOnce(c: Config, s: State, e: Event)
    requires Enabled(c, s, e)
    ensures Leads(c, s, [e], Step(c, s, e))
  {
    hide Enabled, Step, Leads;
    LeadsNowhere(c, Step(c, s, e));
    LeadsOn(c, s, e, [], Step(c, s, e));
    assert [e] + [] == [e];
  }

  lemma LeadsTwice(c: Config, s: State, e: Event, f: Event)
    requires Enabled(c, s, e) && Enabled(c, Step(c, s, e), f)
    ensures Leads(c, s, [e, f], Step(c, Step(c, s, e), f))
  {
    hide Enabled, Step, Leads;
    LeadsOnce(c, Step(c, s, e), f);
    LeadsOn(c, s, e, [f], Step(c, Step(c, s, e), f));
    assert [e] + [f] == [e, f];
  }

  lemma LeadsThrice(c: Config, s: State, e: Event, f: Event, g: Event)
    requires Enabled(c, s, e) && Enabled(c, Step(c, s, e), f) && Enabled(c, Step(c, Step(c, s, e), f), g)
    ensures Leads(c, s, [e, f, g], Step(c, Step(c, Step(c, s, e), f), g))
  {
    hide Enabled, Step, Leads;
    LeadsTwice(c, Step(c, s, e), f, g);
    LeadsOn(c, s, e, [f, g], Step(c, Step(c, Step(c, s, e), f), g));
    assert [e] + [f, g] == [e, f, g];
  }

  // ----- from detection to ban -----

  /** A host under attack without bucket and ban gets a capture with the details of the detection. */
  lemma AttackIsCaptured(c: Config, s: State, ip: Ip, details: Ban)
    requires s.detector == DetectorIdle && !s.worker.Processing? && !s.worker.Banned?
    requires ip !in s.buckets && ip !in s.bans && details.source == Automatic
    ensures Leads(c, s, [DetectorTestsBucket(ip), DetectorTestsBan, DetectorEnables(details)],
                  s.(buckets := s.buckets[ip := Bucket(Once, c.noCapacity, details)]))
  {
    hide Leads;
    LeadsThrice(c, s, DetectorTestsBucket(ip), DetectorTestsBan, DetectorEnables(details));
  }

  /** A host with a bucket, or with a ban, is left alone by the detector. */
  lemma KnownIsLeftAlone(c: Config, s: State, ip: Ip)
    requires s.detector == DetectorIdle && !s.worker.Processing? && !s.worker.Banned?
    ensures ip in s.buckets ==> Leads(c, s, [DetectorTestsBucket(ip)], s)
    ensures ip !in s.buckets && ip in s.bans ==> Leads(c, s, [DetectorTestsBucket(ip), DetectorTestsBan], s)
  {
    hide Leads;
    LeadsOnce(c, s, DetectorTestsBucket(ip));
    if ip !in s.buckets {
      LeadsTwice(c, s, DetectorTestsBucket(ip), DetectorTestsBan);
    }
  }

  /** A filled attack capture ends in a ban with its details and is gone. */
  lemma FilledIsBanned(c: Config, s: State, ip: Ip, rest: seq<Ip>, queue: seq<Ip>)
    requires s.worker == Processing([ip] + rest, queue) && ip in s.buckets && s.buckets[ip].pattern == Once
    ensures Leads(c, s, [ProcessBucket, EraseBucket],
                  s.(bans := s.bans[ip := s.buckets[ip].details], buckets := s.buckets - {ip}, worker := Processing(rest, queue)))
  {
    hide Leads;
    LeadsTwice(c, s, ProcessBucket, EraseBucket);
  }

  // ----- one refresh -----

  /** A banned host without bucket, token and fence gets a refresh capture with the details of its ban. */
  lemma RefreshIsCaptured(c: Config, s: State, ip: Ip, victims: map<Ip, Ban>)
    requires s.worker == Scheduling(victims) && ip in victims && ip !in s.buckets && ip !in s.tokens
    ensures Leads(c, s, [ChoosesVictim(ip), BeginRefresh(false), EnableRefresh],
                  s.(tokens := s.tokens + {ip}, begun := s.begun + multiset{ip}, worker := Scheduling(victims - {ip}),
                     buckets := s.buckets[ip := Bucket(RefreshOnce, c.noCapacity, victims[ip])]))
  {
    hide Leads;
    LeadsThrice(c, s, ChoosesVictim(ip), BeginRefresh(false), EnableRefresh);
  }

  /** A fenced host, or one whose token is taken, gets none. */
  lemma RefreshIsDenied(c: Config, s: State, ip: Ip, victims: map<Ip, Ban>, fenced: bool)
    requires s.worker == Scheduling(victims) && ip in victims && ip !in s.buckets && (fenced || ip in s.tokens)
    ensures Leads(c, s, [ChoosesVictim(ip), BeginRefresh(fenced)], s.(worker := Scheduling(victims - {ip})))
  {
    hide Leads;
    LeadsTwice(c, s, ChoosesVictim(ip), BeginRefresh(fenced));
  }

  /** A filled refresh capture bans nobody; it is queued. */
  lemma FilledIsQueued(c: Config, s: State, ip: Ip, rest: seq<Ip>, queue: seq<Ip>)
    requires s.worker == Processing([ip] + rest, queue) && ip in s.buckets && s.buckets[ip].pattern == RefreshOnce
    ensures Leads(c, s, [ProcessBucket], s.(buckets := s.buckets - {ip}, worker := Processing(rest, queue + [ip])))
  {
    hide Leads;
    LeadsOnce(c, s, ProcessBucket);
  }

  /** Handed over, it ends with its token returned. */
  lemma RefreshEnds(c: Config, s: State, ip: Ip, queue: seq<Ip>)
    requires s.worker == HandingOver([ip] + queue) && c.refresh
    ensures Leads(c, s, [ProcessRefresh(true), ManagerFinishes(ip)],
                  s.(worker := HandingOver(queue), tokens := s.tokens - {ip}, handed := s.handed + multiset{ip}))
  {
    hide Leads;
    LeadsTwice(c, s, ProcessRefresh(true), ManagerFinishes(ip));
    assert s.managers + multiset{ip} - multiset{ip} == s.managers;
  }
}
