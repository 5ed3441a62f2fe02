/** The outcome of the port classifier in the true sums over the samples, by field and in the numbers of the protocols. */
module ClassifierOutcome {
  import opened Octets
  import opened PortClassifier

  // ----- what a sample adds -----

  lemma NoSamples(victim: Ip, protocol: Word32, port: Word16)
    ensures CountSum([], victim, protocol) == 0 && TotalSum([], victim, protocol) == 0
    ensures PortSum([], victim, protocol, port) == 0
  {
  }

  /** A sample that fails one of these tests adds nothing; a later fragment fails even if it has a port. */
  lemma SampleIgnored(samples: seq<Sample>, s: Sample, victim: Ip, protocol: Word32, port: Word16)
    requires s.version != 4 || !s.incoming || s.destination != victim || s.protocol != protocol || s.port == 0
             || (s.fragmented && s.fragmentOffset > 0)
    ensures CountSum(samples + [s], victim, protocol) == CountSum(samples, victim, protocol)
    ensures TotalSum(samples + [s], victim, protocol) == TotalSum(samples, victim, protocol)
    ensures PortSum(samples + [s], victim, protocol, port) == PortSum(samples, victim, protocol, port)
  {
    SumsStep(samples + [s], |samples|, victim, protocol, port);
    assert (samples + [s])[..|samples|] == samples && (samples + [s])[..|samples| + 1] == samples + [s];
  }

  /** Any other sample counts once and weighs as many packets as it stands for, on its destination port only. */
  lemma SampleAdded(samples: seq<Sample>, s: Sample, victim: Ip, protocol: Word32, port: Word16)
    requires s.version == 4 && s.incoming && s.destination == victim && s.protocol == protocol && s.port > 0
    requires !s.fragmented || s.fragmentOffset == 0
    ensures CountSum(samples + [s], victim, protocol) == CountSum(samples, victim, protocol) + 1
    ensures TotalSum(samples + [s], victim, protocol) == TotalSum(samples, victim, protocol) + s.packets * s.ratio
    ensures PortSum(samples + [s], victim, protocol, port)
         == PortSum(samples, victim, protocol, port) + if s.port == port then s.packets * s.ratio else 0
  {
    SumsStep(samples + [s], |samples|, victim, protocol, port);
    assert (samples + [s])[..|samples|] == samples && (samples + [s])[..|samples| + 1] == samples + [s];
  }

  lemma PortWithin(samples: seq<Sample>, victim: Ip, protocol: Word32, port: Word16)
    ensures PortSum(samples, victim, protocol, port) <= TotalSum(samples, victim, protocol)
  {
    hide PortSum, TotalSum;
    PortsShareTotal(samples, victim, protocol, [port]);
    assert SumOver(samples, victim, protocol, [port]) == PortSum(samples, victim, protocol, port);
  }

  lemma {:induction false} SomeWeight(samples: seq<Sample>, victim: Ip, protocol: Word32) returns (port: Word16)
    requires TotalSum(samples, victim, protocol) > 0
    ensures PortSum(samples, victim, protocol, port) > 0
  {
    hide Load;
    var n := |samples| - 1;
    if TotalSum(samples[..n], victim, protocol) > 0 {
      port := SomeWeight(samples[..n], victim, protocol);
    } else {
      port := samples[n].port;
    }
  }

  lemma TotalKept(samples: seq<Sample>, victim: Ip, protocol: Word32)
    requires Unsaturated(samples, victim, protocol)
    ensures TotalWeight(samples, victim, protocol) == TotalSum(samples, victim, protocol)
  {
  }

  // ----- the share of a port -----

  /** A port has its percentage of the total: the only two true sums involved fit 64 bits. */
  lemma DominatesExactly(samples: seq<Sample>, victim: Ip, protocol: Word32, port: Word16, percent: Octet)
    requires Unsaturated(samples, victim, protocol) && percent <= 100
    ensures Dominates(samples, victim, protocol, port, percent) <==>
            && TotalSum(samples, victim, protocol) > 0
            && 100 * PortSum(samples, victim, protocol, port) >= TotalSum(samples, victim, protocol) * percent
  {
    hide PortSum, TotalSum;
    PortWithin(samples, victim, protocol, port);
    if TotalSum(samples, victim, protocol) > 0 {
      MeetsPercentExactly(TotalWeight(samples, victim, protocol), percent);
    }
  }

  // ----- the decision of a BAN -----

  /** Strictly more packets went to this port than to any other. */
  ghost predicate Leads(samples: seq<Sample>, victim: Ip, protocol: Word32, port: Word16) {
    forall p: Word16 :: p != port ==> PortSum(samples, victim, protocol, p) < PortSum(samples, victim, protocol, port)
  }

  lemma SingleHeaviestLeads(samples: seq<Sample>, victim: Ip, protocol: Word32, port: Word16)
    requires Unsaturated(samples, victim, protocol) && TotalSum(samples, victim, protocol) > 0
    ensures Heaviest(samples, victim, protocol, port) && !Tied(samples, victim, protocol, port) <==> Leads(samples, victim, protocol, port)
  {
    hide PortSum, TotalSum, Occurs;
    forall p: Word16
      ensures PortWeight(samples, victim, protocol, p) == PortSum(samples, victim, protocol, p)
      ensures PortSum(samples, victim, protocol, p) > 0 ==> Occurs(samples, victim, protocol, p)
    {
      PortWithin(samples, victim, protocol, p);
      if !Occurs(samples, victim, protocol, p) {
        AbsentWeighsNothing(samples, victim, protocol, p);
      }
    }
    var some := SomeWeight(samples, victim, protocol);
    assert PortSum(samples, victim, protocol, some) > 0;
    if Leads(samples, victim, protocol, port) {
      assert some != port ==> PortSum(samples, victim, protocol, some) < PortSum(samples, victim, protocol, port);
      assert Heaviest(samples, victim, protocol, port);
      forall p: Word16 | p != port ensures !Heaviest(samples, victim, protocol, p) {
        assert PortSum(samples, victim, protocol, p) < PortSum(samples, victim, protocol, port);
      }
    } else if Heaviest(samples, victim, protocol, port) {
      assert PortSum(samples, victim, protocol, some) <= PortSum(samples, victim, protocol, port);
      var p: Word16 :| p != port && PortSum(samples, victim, protocol, p) >= PortSum(samples, victim, protocol, port);
      assert Heaviest(samples, victim, protocol, p);
    }
  }

  /**
    * The outcome as long as no sum outgrows 64 bits: TCP and UDP are classified, nothing else; the number of samples
    * must reach the minimum; and a port is selected exactly when it leads and has the percentage.
    */
  lemma OutcomeExactly(r: Classification, samples: seq<Sample>, victim: Ip, incoming: bool, protocol: Word32,
                       minSamples: Word64, percent: Octet)
    requires Justified(r, samples, victim, incoming, protocol, minSamples, percent)
    requires Unsaturated(samples, victim, protocol) && CountSum(samples, victim, protocol) <= MAX_64 && percent <= 100
    ensures r.reason == NotIncoming <==> !incoming
    ensures r.reason == UnsupportedProtocol <==> incoming && protocol != 6 && protocol != 17
    ensures r.reason == NoQualifyingSamples <==>
            incoming && (protocol == 6 || protocol == 17) && TotalSum(samples, victim, protocol) == 0
    ensures r.reason == InsufficientSamples <==>
            && incoming && (protocol == 6 || protocol == 17) && TotalSum(samples, victim, protocol) > 0
            && CountSum(samples, victim, protocol) < minSamples
    ensures r.reason == Selected <==>
            && incoming && (protocol == 6 || protocol == 17) && CountSum(samples, victim, protocol) >= minSamples
            && exists port: Word16 :: Leads(samples, victim, protocol, port)
                 && 100 * PortSum(samples, victim, protocol, port) >= TotalSum(samples, victim, protocol) * percent
    ensures r.reason == Selected ==> r.dominant.Some? && Leads(samples, victim, protocol, r.dominant.value)
  {
    hide PortSum, TotalSum, CountSum, Leads, Heaviest, Tied, Dominates, Unsaturated;
    TotalKept(samples, victim, protocol);
    if TotalSum(samples, victim, protocol) > 0 {
      forall port: Word16
        ensures Leads(samples, victim, protocol, port) <==>
                Heaviest(samples, victim, protocol, port) && !Tied(samples, victim, protocol, port)
        ensures Dominates(samples, victim, protocol, port, percent) <==>
                100 * PortSum(samples, victim, protocol, port) >= TotalSum(samples, victim, protocol) * percent
      {
        SingleHeaviestLeads(samples, victim, protocol, port);
        DominatesExactly(samples, victim, protocol, port, percent);
      }
      OneLeader(samples, victim, protocol);
    } else {
      NoLeader(samples, victim, protocol);
    }
  }

  lemma OneLeader(samples: seq<Sample>, victim: Ip, protocol: Word32)
    ensures forall p: Word16, q: Word16 ::
              Leads(samples, victim, protocol, p) && Leads(samples, victim, protocol, q) ==> p == q
    ensures forall p: Word16, q: Word16 ::
              Heaviest(samples, victim, protocol, p) && !Tied(samples, victim, protocol, p) && Heaviest(samples, victim, protocol, q)
              ==> p == q
  {
    hide PortSum, Occurs, Heaviest;
    forall p: Word16, q: Word16 | Leads(samples, victim, protocol, p) && Leads(samples, victim, protocol, q) ensures p == q {
      assert p != q ==> PortSum(samples, victim, protocol, p) < PortSum(samples, victim, protocol, q);
    }
  }

  lemma NoLeader(samples: seq<Sample>, victim: Ip, protocol: Word32)
    requires TotalSum(samples, victim, protocol) == 0
    ensures forall port: Word16 :: !Leads(samples, victim, protocol, port)
  {
    hide PortSum, TotalSum;
    forall port: Word16 ensures !Leads(samples, victim, protocol, port) {
      PortWithin(samples, victim, protocol, port);
      var other: Word16 := if port == 0 then 1 else 0;
      assert PortSum(samples, victim, protocol, other) >= 0;
    }
  }

  // ----- the decision of a refresh -----

  /** A refresh lists, for TCP and UDP with enough samples, exactly the ports with their share of a total that is not zero. */
  lemma RefreshExactly(r: ProtocolResult, samples: seq<Sample>, victim: Ip, protocol: Word32, minSamples: Word64, share: Octet,
                       port: Word16)
    requires Decided(r, samples, victim, protocol, minSamples, share)
    requires Unsaturated(samples, victim, protocol) && CountSum(samples, victim, protocol) <= MAX_64 && share <= 100
    ensures Lists(r.ports, port) <==>
            && (protocol == 6 || protocol == 17) && CountSum(samples, victim, protocol) >= minSamples
            && Occurs(samples, victim, protocol, port) && TotalSum(samples, victim, protocol) > 0
            && 100 * PortSum(samples, victim, protocol, port) >= TotalSum(samples, victim, protocol) * share
    ensures protocol == 1 ==> r.reason == Selected && r.ports == []
    ensures r.reason == UnsupportedProtocol <==> protocol != 1 && protocol != 6 && protocol != 17
  {
    hide PortSum, TotalSum, CountSum, Occurs, Dominates, PortWeight, IsShare, Unsaturated;
    TotalKept(samples, victim, protocol);
    DominatesExactly(samples, victim, protocol, port, share);
  }
}
