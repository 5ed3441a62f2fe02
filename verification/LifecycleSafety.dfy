/** What the lifecycle guarantees in every run: no answer is ignored, one thread works on a path, no path is lost. */
module LifecycleSafety {
  import opened Octets
  import opened FlowSpecRule
  import opened Lifecycle
  import opened LifecycleMeaning
  import opened LifecycleRuns

  lemma Reached(events: seq<Event>)
    requires IsRun(START, events)
    ensures Invariant(RunTo(START, events))
  {
    hide Invariant, IsRun, RunTo;
    StartIsFine();
    RunKeepsInvariant(START, events);
  }

  /**
    * The table never ignores an answer: an added path always becomes installed or is withdrawn at once, a failed add
    * always frees its key, and an answered delete always erases the entry or leaves it for a retry. The error branches
    * of the callers are unreachable.
    */
  lemma NoAnswerIgnored(events: seq<Event>, e: Event)
    requires IsRun(START, events) && Enabled(RunTo(START, events), e)
    ensures var w := RunTo(START, events);
            match e
            case CompletesAnnounce(k) => AnnounceOutcome(w.table, k, w.threads[k].uuid) != AnnounceIgnored
            case FailsAnnounce(k) => k in w.table.rules && k !in Step(w, e).table.rules
            case CompletesWithdraw(k) =>
              WithdrawOutcome(w.table, k, w.threads[k].uuid, w.threads[k].success)
              == if w.threads[k].success then Erased else RetryPending
            case _ => true
  {
    hide IsRun, RunTo, ClearFence, Tracked, FenceOk;
    Reached(events);
    var w := RunTo(START, events);
    match e {
      case CompletesAnnounce(k) => assert KeyOk(w, k);
      case FailsAnnounce(k) =>
        assert KeyOk(w, k);
        ClearFenceKeepsRules(w.table.(rules := w.table.rules - {k}), k.victim);
      case CompletesWithdraw(k) => assert KeyOk(w, k);
      case _ =>
    }
  }

  /** Whenever the table starts a thread on a key, no other thread is working on that key. */
  lemma OneThreadPerKey(events: seq<Event>, e: Event)
    requires IsRun(START, events) && Enabled(RunTo(START, events), e)
    ensures var w := RunTo(START, events);
            Started(w, e).Keys !! ThreadsAfter(w, e).Keys
  {
    hide IsRun, RunTo, Invariant;
    Reached(events);
    StartsOnFreeKeys(RunTo(START, events), e);
  }

  /**
    * No path is ever lost: every path GoBGP holds is in the table under its own UUID or in the hands of the thread
    * that just added it, and once all threads are done the table and GoBGP hold exactly the same paths.
    */
  lemma NoPathLost(events: seq<Event>)
    requires IsRun(START, events)
    ensures var w := RunTo(START, events);
            && (forall uuid :: uuid in w.paths ==>
                  && RuleKey(w.paths[uuid]).Some?
                  && var k := RuleKey(w.paths[uuid]).value;
                     && k in w.table.rules
                     && (w.table.rules[k].uuid == uuid || (k in w.threads && w.threads[k].Added? && w.threads[k].uuid == uuid)))
            && (w.threads == map[] ==>
                  && (forall k :: k in w.table.rules ==> HasPath(w, w.table.rules[k].uuid, w.table.rules[k].rule))
                  && (forall uuid :: uuid in w.paths ==> w.table.rules[RuleKey(w.paths[uuid]).value].uuid == uuid))
  {
    hide IsRun, RunTo, FenceOk, RuleKey, Plain, CleanerOk;
    Reached(events);
    var w := RunTo(START, events);
    assert forall uuid :: uuid in w.paths ==> Tracked(w, uuid);
    assert forall k :: k in w.table.rules ==> KeyOk(w, k);
  }
}
