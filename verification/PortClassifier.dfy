/** Which destination ports an attack aims at, judged from captured samples weighted by their sampling rate. */
module PortClassifier {
  import opened Octets

  // ----- arithmetic that does not overflow -----

  function Saturated(x: nat): Word64 {
    if x > MAX_64 then MAX_64 else x
  }

  function SaturatingAdd(a: Word64, b: Word64): (r: Word64)
    ensures r == Saturated(a + b)
  {
    if MAX_64 - a < b then MAX_64 else a + b
  }

  function SaturatingMultiply(a: Word64, b: Word64): (r: Word64)
    ensures r == Saturated(Product(a, b))
  {
    ProductFits(a, b);
    if a != 0 && b > MAX_64 / a then MAX_64 else a * b
  }

  function Product(a: nat, b: nat): nat {
    a * b
  }

  /** Dividing the largest number tells exactly whether a product overflows. */
  lemma ProductFits(a: nat, b: nat)
    ensures a != 0 && b > MAX_64 / a <==> Product(a, b) > MAX_64
  {
    if a != 0 {
      var q := MAX_64 / a;
      assert MAX_64 == a * q + MAX_64 % a;
      if b > q {
        ProductMonotone(a, q + 1, b);
      } else {
        ProductMonotone(a, b, q);
      }
    }
  }

  lemma ProductMonotone(a: nat, b: nat, c: nat)
    requires b <= c
    ensures a * b <= a * c
  {
    assert a * c == a * b + a * (c - b);
  }

  /** Saturating along the way gives the same as saturating once at the end. */
  lemma SaturateOnce(a: nat, b: nat)
    ensures Saturated(Saturated(a) + Saturated(b)) == Saturated(a + b)
  {
  }

  /** The smallest numerator that makes up the percentage, in 64-bit arithmetic. */
  function Threshold(denominator: Word64, percent: Octet): Word64 {
    ((denominator / 100) * percent + (denominator % 100 * percent + 99) / 100) % (MAX_64 + 1)
  }

  function MeetsPercent(numerator: Word64, denominator: Word64, percent: Octet): bool {
    denominator != 0 && numerator >= Threshold(denominator, percent)
  }

  /** The whole threshold before it is cut to 64 bits. */
  function WideThreshold(denominator: nat, percent: nat): nat {
    (denominator * percent + 99) / 100
  }

  lemma ThresholdIsWide(denominator: Word64, percent: Octet)
    ensures Threshold(denominator, percent) == WideThreshold(denominator, percent) % (MAX_64 + 1)
  {
    var h, r, p: int := denominator / 100, denominator % 100, percent;
    SplitProduct(h, r, p);
    assert denominator == 100 * h + r;
  }

  lemma SplitProduct(h: nat, r: nat, p: nat)
    ensures ((100 * h + r) * p + 99) / 100 == h * p + (r * p + 99) / 100
  {
    var x, y := h * p, r * p + 99;
    assert (100 * h + r) * p == 100 * x + r * p;
  }

  lemma WideThresholdReached(n: nat, d: nat, percent: nat)
    ensures n >= WideThreshold(d, percent) <==> 100 * n >= d * percent
  {
    var x := d * percent;
    assert (x + 99) / 100 * 100 <= x + 99 < (x + 99) / 100 * 100 + 100;
  }

  lemma WideThresholdFits(d: Word64, percent: Octet)
    requires percent <= 100
    ensures WideThreshold(d, percent) <= d
  {
    assert d * percent <= d * 100 by { ProductMonotone(d, percent, 100); }
  }

  /**
    * The test is the comparison of fractions it stands for, whatever the numerator, exactly when the threshold fits 64
    * bits. Percentages up to a hundred, the only ones the settings accept, always do; larger ones, which the 8-bit
    * parameter alone admits, may not.
    */
  lemma MeetsPercentExactly(denominator: Word64, percent: Octet)
    requires denominator != 0
    ensures (forall n: Word64 :: MeetsPercent(n, denominator, percent) <==> 100 * n >= denominator * percent)
       <==> WideThreshold(denominator, percent) <= MAX_64
    ensures percent <= 100 ==> WideThreshold(denominator, percent) <= MAX_64
  {
    hide Threshold, WideThreshold;
    ThresholdIsWide(denominator, percent);
    var wide := WideThreshold(denominator, percent);
    if percent <= 100 {
      WideThresholdFits(denominator, percent);
    }
    forall n: Word64 ensures MeetsPercent(n, denominator, percent) <==> n >= wide % (MAX_64 + 1) {
    }
    forall n: Word64 ensures n >= wide <==> 100 * n >= denominator * percent {
      WideThresholdReached(n, denominator, percent);
    }
    if wide > MAX_64 {
      assert MeetsPercent(MAX_64, denominator, percent) && !(100 * MAX_64 >= denominator * percent);
    }
  }

  /** Every percentage above a hundred is too large for some totals: the largest one, for instance. */
  lemma LargePercentOverflows(percent: Octet)
    requires percent > 100
    ensures WideThreshold(MAX_64, percent) > MAX_64
    ensures exists n: Word64 :: MeetsPercent(n, MAX_64, percent) && 100 * n < MAX_64 * percent
  {
    hide MeetsPercent;
    assert MAX_64 * percent > MAX_64 * 100;
    MeetsPercentExactly(MAX_64, percent);
    WideThresholdReached(MAX_64, MAX_64, percent);
    assert !(exists n: Word64 :: !MeetsPercent(n, MAX_64, percent) && 100 * n >= MAX_64 * percent);
  }

  /** The share of the numerator in whole percent, rounded down, at most a hundred. */
  predicate IsShare(percent: Octet, numerator: Word64, denominator: Word64) {
    && percent <= 100 && denominator * percent <= 100 * numerator
    && (percent < 100 ==> 100 * numerator < denominator * (percent + 1))
  }

  /** Percentages are tried upwards until one fails. */
  method CalculatePercent(numerator: Word64, denominator: Word64) returns (percent: Octet)
    ensures if denominator == 0 then percent == 0 else IsShare(percent, numerator, denominator)
  {
    hide MeetsPercent, WideThreshold;
    percent := 0;
    NoShare(numerator, denominator);
    for candidate := 1 to 101
      invariant percent == candidate - 1
      invariant denominator != 0 ==> denominator * percent <= 100 * numerator
      invariant denominator == 0 ==> percent == 0
    {
      if denominator != 0 {
        MeetsPercentExactly(denominator, candidate);
      }
      if !MeetsPercent(numerator, denominator, candidate) {
        return;
      }
      percent := candidate;
    }
  }

  lemma NoShare(numerator: Word64, denominator: Word64)
    ensures denominator == 0 ==> forall p: Octet :: !MeetsPercent(numerator, denominator, p)
  {
  }

  // ----- weighing ports -----

  datatype Sample = Sample(version: Octet, incoming: bool, destination: Ip, protocol: Word32, port: Word16,
                           fragmented: bool, fragmentOffset: Word16, packets: Word64, ratio: Word32)

  /** Samples with a usable port: IPv4 to the victim, of the protocol, and not a later fragment. */
  predicate Qualifies(s: Sample, victim: Ip, protocol: Word32) {
    && s.version == 4 && s.incoming && s.destination == victim && s.protocol == protocol && s.port != 0
    && !(s.fragmented && s.fragmentOffset != 0)
  }

  predicate OnPort(s: Sample, victim: Ip, protocol: Word32, port: Word16) {
    Qualifies(s, victim, protocol) && s.port == port
  }

  /** The packets a sample stands for. */
  function Load(s: Sample): nat {
    Product(s.packets, s.ratio)
  }

  function CountSum(samples: seq<Sample>, victim: Ip, protocol: Word32): nat {
    if samples == [] then 0
    else
      var n := |samples| - 1;
      CountSum(samples[..n], victim, protocol) + if Qualifies(samples[n], victim, protocol) then 1 else 0
  }

  function TotalSum(samples: seq<Sample>, victim: Ip, protocol: Word32): nat {
    if samples == [] then 0
    else
      var n := |samples| - 1;
      TotalSum(samples[..n], victim, protocol) + if Qualifies(samples[n], victim, protocol) then Load(samples[n]) else 0
  }

  function PortSum(samples: seq<Sample>, victim: Ip, protocol: Word32, port: Word16): nat {
    if samples == [] then 0
    else
      var n := |samples| - 1;
      PortSum(samples[..n], victim, protocol, port) + if OnPort(samples[n], victim, protocol, port) then Load(samples[n]) else 0
  }

  predicate Occurs(samples: seq<Sample>, victim: Ip, protocol: Word32, port: Word16) {
    exists i :: 0 <= i < |samples| && OnPort(samples[i], victim, protocol, port)
  }

  datatype Tally = Tally(count: Word64, total: Word64, weights: map<Word16, Word64>)

  /** The tally of the samples: true sums, cut at the largest number. */
  ghost predicate Tallies(t: Tally, samples: seq<Sample>, victim: Ip, protocol: Word32) {
    && t.count == Saturated(CountSum(samples, victim, protocol))
    && t.total == Saturated(TotalSum(samples, victim, protocol))
    && (forall port: Word16 :: port in t.weights <==> Occurs(samples, victim, protocol, port))
    && (forall port: Word16 :: port in t.weights ==> t.weights[port] == Saturated(PortSum(samples, victim, protocol, port)))
  }

  function AddSample(t: Tally, s: Sample, victim: Ip, protocol: Word32): Tally {
    if !Qualifies(s, victim, protocol) then t
    else
      var weight := SaturatingMultiply(s.packets, s.ratio);
      Tally(SaturatingAdd(t.count, 1), SaturatingAdd(t.total, weight),
            t.weights[s.port := SaturatingAdd(if s.port in t.weights then t.weights[s.port] else 0, weight)])
  }

  method TallySamples(samples: seq<Sample>, victim: Ip, protocol: Word32) returns (t: Tally)
    ensures Tallies(t, samples, victim, protocol)
  {
    hide Tallies, AddSample;
    t := Tally(0, 0, map[]);
    NothingTallied(victim, protocol);
    assert samples[..0] == [];
    for i := 0 to |samples|
      invariant Tallies(t, samples[..i], victim, protocol)
    {
      OneMoreTallied(t, samples, i, victim, protocol);
      t := AddSample(t, samples[i], victim, protocol);
    }
    assert samples[..|samples|] == samples;
  }

  lemma NothingTallied(victim: Ip, protocol: Word32)
    ensures Tallies(Tally(0, 0, map[]), [], victim, protocol)
  {
  }

  lemma OccursStep(samples: seq<Sample>, i: nat, victim: Ip, protocol: Word32, port: Word16)
    requires i < |samples|
    ensures Occurs(samples[..i + 1], victim, protocol, port)
       <==> Occurs(samples[..i], victim, protocol, port) || OnPort(samples[i], victim, protocol, port)
  {
    hide OnPort;
    var longer := samples[..i + 1];
    if Occurs(samples[..i], victim, protocol, port) {
      var k :| 0 <= k < i && OnPort(samples[..i][k], victim, protocol, port);
      assert OnPort(longer[k], victim, protocol, port);
    }
    if OnPort(samples[i], victim, protocol, port) {
      assert OnPort(longer[i], victim, protocol, port);
    }
    if Occurs(longer, victim, protocol, port) && !OnPort(samples[i], victim, protocol, port) {
      var k :| 0 <= k < |longer| && OnPort(longer[k], victim, protocol, port);
      assert OnPort(samples[..i][k], victim, protocol, port);
    }
  }

  lemma {:induction false} AbsentWeighsNothing(samples: seq<Sample>, victim: Ip, protocol: Word32, port: Word16)
    requires !Occurs(samples, victim, protocol, port)
    ensures PortSum(samples, victim, protocol, port) == 0
  {
    hide OnPort;
    if samples != [] {
      var n := |samples| - 1;
      assert samples[..n + 1] == samples;
      OccursStep(samples, n, victim, protocol, port);
      AbsentWeighsNothing(samples[..n], victim, protocol, port);
    }
  }

  lemma SumsStep(samples: seq<Sample>, i: nat, victim: Ip, protocol: Word32, port: Word16)
    requires i < |samples|
    ensures var s, before, after := samples[i], samples[..i], samples[..i + 1];
            && CountSum(after, victim, protocol)
               == CountSum(before, victim, protocol) + (if Qualifies(s, victim, protocol) then 1 else 0)
            && TotalSum(after, victim, protocol)
               == TotalSum(before, victim, protocol) + (if Qualifies(s, victim, protocol) then Load(s) else 0)
            && PortSum(after, victim, protocol, port)
               == PortSum(before, victim, protocol, port) + (if OnPort(s, victim, protocol, port) then Load(s) else 0)
  {
    hide Qualifies, OnPort, Load;
    assert samples[..i + 1][..i] == samples[..i];
  }

  lemma OneMoreTallied(t: Tally, samples: seq<Sample>, i: nat, victim: Ip, protocol: Word32)
    requires i < |samples| && Tallies(t, samples[..i], victim, protocol)
    ensures Tallies(AddSample(t, samples[i], victim, protocol), samples[..i + 1], victim, protocol)
  {
    hide Occurs, Qualifies, Product, Saturated, CountSum, TotalSum, PortSum;
    var s, before, after := samples[i], samples[..i], samples[..i + 1];
    var t' := AddSample(t, s, victim, protocol);
    SumsStep(samples, i, victim, protocol, 0);
    SaturateOne();
    SaturateOnce(CountSum(before, victim, protocol), 1);
    SaturateOnce(TotalSum(before, victim, protocol), Load(s));
    forall port: Word16
      ensures port in t'.weights <==> Occurs(after, victim, protocol, port)
      ensures port in t'.weights ==> t'.weights[port] == Saturated(PortSum(after, victim, protocol, port))
    {
      OccursStep(samples, i, victim, protocol, port);
      SumsStep(samples, i, victim, protocol, port);
      SaturateOnce(PortSum(before, victim, protocol, port), Load(s));
      if !Occurs(before, victim, protocol, port) {
        AbsentWeighsNothing(before, victim, protocol, port);
      }
    }
  }

  lemma SaturateOne()
    ensures Saturated(1) == 1 && Saturated(0) == 0
  {
  }

  // ----- the dominant port of a BAN -----

  /** The heaviest port, the lowest of several, and whether there are several. */
  method DominantPort(weights: map<Word16, Word64>) returns (port: Word16, tied: bool)
    requires weights != map[]
    ensures port in weights
    ensures forall p :: p in weights ==> weights[p] <= weights[port]
    ensures forall p :: p in weights && weights[p] == weights[port] ==> port <= p
    ensures tied <==> exists p :: p in weights && p != port && weights[p] == weights[port]
  {
    var found := false;
    port, tied := 0, false;
    for p := 0 to 0x1_0000
      invariant found <==> exists q :: q in weights && q < p
      invariant found ==> port in weights && port < p
      invariant found ==> forall q :: q in weights && q < p ==>
                  weights[q] <= weights[port] && (weights[q] == weights[port] ==> port <= q)
      invariant found ==> (tied <==> exists q :: q in weights && q < p && q != port && weights[q] == weights[port])
    {
      if p in weights {
        if !found || weights[p] > weights[port] {
          found, port, tied := true, p, false;
        } else if weights[p] == weights[port] {
          tied := true;
        }
      }
    }
    SomePort(weights);
  }

  lemma SomePort(weights: map<Word16, Word64>)
    requires weights != map[]
    ensures exists q :: q in weights && q < 0x1_0000
  {
    assert weights.Keys != {};
    var q :| q in weights.Keys;
    assert q in weights && q < 0x1_0000;
  }

  datatype Reason =
    | Selected
    | NotIncoming
    | UnsupportedProtocol
    | NoQualifyingSamples
    | InsufficientSamples
    | BelowDominance
    | AmbiguousDominantPort

  /** The heaviest port with its weight and share, and what was counted for the log. */
  datatype Classification = Classification(selected: Option<Word16>, count: Word64, total: Word64, dominant: Option<Word16>,
                                           dominantWeight: Word64, percent: Octet, reason: Reason)

  function PortWeight(samples: seq<Sample>, victim: Ip, protocol: Word32, port: Word16): Word64 {
    Saturated(PortSum(samples, victim, protocol, port))
  }

  function TotalWeight(samples: seq<Sample>, victim: Ip, protocol: Word32): Word64 {
    Saturated(TotalSum(samples, victim, protocol))
  }

  function SampleCount(samples: seq<Sample>, victim: Ip, protocol: Word32): Word64 {
    Saturated(CountSum(samples, victim, protocol))
  }

  ghost predicate Heaviest(samples: seq<Sample>, victim: Ip, protocol: Word32, port: Word16) {
    && Occurs(samples, victim, protocol, port)
    && forall p: Word16 :: Occurs(samples, victim, protocol, p) ==>
         PortWeight(samples, victim, protocol, p) <= PortWeight(samples, victim, protocol, port)
  }

  ghost predicate Tied(samples: seq<Sample>, victim: Ip, protocol: Word32, port: Word16) {
    exists p: Word16 :: p != port && Heaviest(samples, victim, protocol, p)
  }

  predicate Enough(samples: seq<Sample>, victim: Ip, protocol: Word32, minSamples: Word64) {
    TotalWeight(samples, victim, protocol) != 0 && SampleCount(samples, victim, protocol) >= minSamples
  }

  predicate Dominates(samples: seq<Sample>, victim: Ip, protocol: Word32, port: Word16, percent: Octet) {
    MeetsPercent(PortWeight(samples, victim, protocol, port), TotalWeight(samples, victim, protocol), percent)
  }

  /** What each reason means; the meanings exclude each other, so they determine the outcome. */
  ghost predicate Justified(r: Classification, samples: seq<Sample>, victim: Ip, incoming: bool, protocol: Word32,
                            minSamples: Word64, percent: Octet) {
    var supported := incoming && (protocol == TCP || protocol == UDP);
    match r.reason
    case NotIncoming => !incoming
    case UnsupportedProtocol => incoming && !supported
    case NoQualifyingSamples => supported && TotalWeight(samples, victim, protocol) == 0
    case InsufficientSamples =>
      supported && TotalWeight(samples, victim, protocol) != 0 && !Enough(samples, victim, protocol, minSamples)
    case AmbiguousDominantPort =>
      && supported && Enough(samples, victim, protocol, minSamples)
      && r.dominant.Some? && Heaviest(samples, victim, protocol, r.dominant.value)
      && Tied(samples, victim, protocol, r.dominant.value)
    case BelowDominance =>
      && supported && Enough(samples, victim, protocol, minSamples)
      && r.dominant.Some? && Heaviest(samples, victim, protocol, r.dominant.value)
      && !Tied(samples, victim, protocol, r.dominant.value)
      && !Dominates(samples, victim, protocol, r.dominant.value, percent)
    case Selected =>
      && supported && Enough(samples, victim, protocol, minSamples)
      && r.dominant.Some? && Heaviest(samples, victim, protocol, r.dominant.value)
      && !Tied(samples, victim, protocol, r.dominant.value)
      && Dominates(samples, victim, protocol, r.dominant.value, percent)
  }

  /** What is reported about the heaviest port, the lowest of several. */
  ghost predicate Reported(r: Classification, samples: seq<Sample>, victim: Ip, protocol: Word32) {
    match r.dominant
    case None => r.dominantWeight == 0 && r.percent == 0
    case Some(port) =>
      && Heaviest(samples, victim, protocol, port)
      && (forall p: Word16 :: Heaviest(samples, victim, protocol, p) ==> port <= p)
      && r.dominantWeight == PortWeight(samples, victim, protocol, port)
      && IsShare(r.percent, PortWeight(samples, victim, protocol, port), TotalWeight(samples, victim, protocol))
  }

  /** The port of a BAN: the single heaviest one, if it is heavy enough and there are samples enough. */
  method ClassifyDestinationPort(victim: Ip, incoming: bool, protocol: Word32, samples: seq<Sample>,
                                 minSamples: Word64, percent: Octet) returns (r: Classification)
    ensures Justified(r, samples, victim, incoming, protocol, minSamples, percent)
    ensures Reported(r, samples, victim, protocol)
    ensures r.selected == if r.reason == Selected then r.dominant else None
    ensures r.dominant.None? <==> r.reason in {NotIncoming, UnsupportedProtocol, NoQualifyingSamples}
    ensures if r.reason in {NotIncoming, UnsupportedProtocol} then r.count == 0 && r.total == 0
            else r.count == SampleCount(samples, victim, protocol) && r.total == TotalWeight(samples, victim, protocol)
  {
    hide IsShare, MeetsPercent, Occurs, PortSum, TotalSum, CountSum, Saturated;
    if !incoming {
      return Classification(None, 0, 0, None, 0, 0, NotIncoming);
    }
    if protocol != TCP && protocol != UDP {
      return Classification(None, 0, 0, None, 0, 0, UnsupportedProtocol);
    }
    var t := TallySamples(samples, victim, protocol);
    NoPortsNoWeight(t, samples, victim, protocol);
    if t.weights == map[] || t.total == 0 {
      return Classification(None, t.count, t.total, None, 0, 0, NoQualifyingSamples);
    }
    var port, tied := DominantPort(t.weights);
    TalliedHeaviest(t, samples, victim, protocol, port);
    var share := CalculatePercent(t.weights[port], t.total);
    r := Classification(None, t.count, t.total, Some(port), t.weights[port], share, InsufficientSamples);
    if t.count < minSamples {
      return;
    }
    if tied {
      return r.(reason := AmbiguousDominantPort);
    }
    if !MeetsPercent(t.weights[port], t.total, percent) {
      return r.(reason := BelowDominance);
    }
    return r.(selected := Some(port), reason := Selected);
  }

  lemma TalliedHeaviest(t: Tally, samples: seq<Sample>, victim: Ip, protocol: Word32, port: Word16)
    requires Tallies(t, samples, victim, protocol)
    requires port in t.weights && forall p :: p in t.weights ==> t.weights[p] <= t.weights[port]
    requires forall p :: p in t.weights && t.weights[p] == t.weights[port] ==> port <= p
    ensures Heaviest(samples, victim, protocol, port)
    ensures forall p: Word16 :: Heaviest(samples, victim, protocol, p) ==> port <= p
    ensures Tied(samples, victim, protocol, port) <==> exists p :: p in t.weights && p != port && t.weights[p] == t.weights[port]
  {
    hide Occurs, PortSum, TotalSum, CountSum, Saturated;
    if p: Word16 :| p in t.weights && p != port && t.weights[p] == t.weights[port] {
      assert Heaviest(samples, victim, protocol, p);
    }
  }

  lemma NoPortsNoWeight(t: Tally, samples: seq<Sample>, victim: Ip, protocol: Word32)
    requires Tallies(t, samples, victim, protocol)
    ensures t.weights == map[] ==> t.total == 0
  {
    if t.weights == map[] {
      assert forall p: Word16 :: !Occurs(samples, victim, protocol, p);
      NothingQualifies(samples, victim, protocol);
    }
  }

  lemma {:induction false} NothingQualifies(samples: seq<Sample>, victim: Ip, protocol: Word32)
    requires forall p: Word16 :: !Occurs(samples, victim, protocol, p)
    ensures TotalSum(samples, victim, protocol) == 0
  {
    hide Occurs, Qualifies;
    if samples != [] {
      var n := |samples| - 1;
      assert samples[..n + 1] == samples;
      forall p: Word16 ensures !Occurs(samples[..n], victim, protocol, p) && !OnPort(samples[n], victim, protocol, p) {
        OccursStep(samples, n, victim, protocol, p);
      }
      assert !OnPort(samples[n], victim, protocol, samples[n].port);
      NothingQualifies(samples[..n], victim, protocol);
    }
  }

  // ----- the ports of a refresh -----

  predicate Significant(samples: seq<Sample>, victim: Ip, protocol: Word32, port: Word16, share: Octet) {
    Occurs(samples, victim, protocol, port) && Dominates(samples, victim, protocol, port, share)
  }

  datatype Candidate = Candidate(port: Word16, weight: Word64, percent: Octet)

  datatype ProtocolResult = ProtocolResult(protocol: Word32, count: Word64, total: Word64, reason: Reason, ports: seq<Candidate>)

  /** Exactly the significant ports are listed, in ascending order, each with its weight and its share. */
  ghost predicate ListsPorts(ports: seq<Candidate>, samples: seq<Sample>, victim: Ip, protocol: Word32, share: Octet, n: nat) {
    && (forall i, j :: 0 <= i < j < |ports| ==> ports[i].port < ports[j].port)
    && (forall c :: c in ports ==>
          && c.port < n && Significant(samples, victim, protocol, c.port, share)
          && c.weight == PortWeight(samples, victim, protocol, c.port)
          && IsShare(c.percent, c.weight, TotalWeight(samples, victim, protocol)))
    && (forall port: Word16 :: port < n && Significant(samples, victim, protocol, port, share) ==> Lists(ports, port))
  }

  predicate Lists(ports: seq<Candidate>, port: Word16) {
    exists i :: 0 <= i < |ports| && ports[i].port == port
  }

  lemma NextPort(ports: seq<Candidate>, c: Candidate, samples: seq<Sample>, victim: Ip, protocol: Word32, share: Octet, n: nat)
    requires ListsPorts(ports, samples, victim, protocol, share, n) && c.port == n
    requires Significant(samples, victim, protocol, c.port, share) && c.weight == PortWeight(samples, victim, protocol, c.port)
    requires IsShare(c.percent, c.weight, TotalWeight(samples, victim, protocol))
    ensures ListsPorts(ports + [c], samples, victim, protocol, share, n + 1)
  {
    hide Significant, PortWeight, TotalWeight, IsShare;
    forall port: Word16 | port < n + 1 && Significant(samples, victim, protocol, port, share)
      ensures Lists(ports + [c], port)
    {
      if port == n {
        assert (ports + [c])[|ports|].port == port;
      } else {
        assert Lists(ports, port);
        var i :| 0 <= i < |ports| && ports[i].port == port;
        assert (ports + [c])[i].port == port;
      }
    }
  }

  lemma NoNextPort(ports: seq<Candidate>, samples: seq<Sample>, victim: Ip, protocol: Word32, share: Octet, n: Word16)
    requires ListsPorts(ports, samples, victim, protocol, share, n) && !Significant(samples, victim, protocol, n, share)
    ensures ListsPorts(ports, samples, victim, protocol, share, n + 1)
  {
    hide Significant, PortWeight, TotalWeight, IsShare, Lists;
  }

  /** The ports with a significant share of the tally. */
  method SignificantPorts(t: Tally, ghost samples: seq<Sample>, ghost victim: Ip, ghost protocol: Word32, share: Octet)
      returns (ports: seq<Candidate>)
    requires Tallies(t, samples, victim, protocol) && t.total != 0
    ensures ListsPorts(ports, samples, victim, protocol, share, 0x1_0000)
  {
    hide MeetsPercent, Occurs, PortSum, TotalSum, CountSum, Saturated, ListsPorts, IsShare;
    ports := [];
    assert ListsPorts(ports, samples, victim, protocol, share, 0) by {
      NoPortsYet(samples, victim, protocol, share);
    }
    for p := 0 to 0x1_0000
      invariant ListsPorts(ports, samples, victim, protocol, share, p)
    {
      if p in t.weights && MeetsPercent(t.weights[p], t.total, share) {
        var percent := CalculatePercent(t.weights[p], t.total);
        NextPort(ports, Candidate(p, t.weights[p], percent), samples, victim, protocol, share, p);
        ports := ports + [Candidate(p, t.weights[p], percent)];
      } else {
        NoNextPort(ports, samples, victim, protocol, share, p);
      }
    }
  }

  lemma NoPortsYet(samples: seq<Sample>, victim: Ip, protocol: Word32, share: Octet)
    ensures ListsPorts([], samples, victim, protocol, share, 0)
  {
  }

  /** What a refresh decides about one protocol. */
  ghost predicate Decided(r: ProtocolResult, samples: seq<Sample>, victim: Ip, protocol: Word32, minSamples: Word64, share: Octet) {
    && r.protocol == protocol
    && if protocol == TCP || protocol == UDP then
         && r.count == SampleCount(samples, victim, protocol) && r.total == TotalWeight(samples, victim, protocol)
         && r.reason == (if r.total == 0 then NoQualifyingSamples
                         else if r.count < minSamples then InsufficientSamples
                         else if r.ports == [] then BelowDominance else Selected)
         && if Enough(samples, victim, protocol, minSamples) then ListsPorts(r.ports, samples, victim, protocol, share, 0x1_0000)
            else r.ports == []
       else
         r.count == 0 && r.total == 0 && r.ports == [] && r.reason == if protocol == ICMP then Selected else UnsupportedProtocol
  }

  /** The decision of a refresh on every active protocol: for TCP and UDP all ports with a significant share. */
  method ClassifyRefreshProtocols(victim: Ip, protocols: seq<Word32>, samples: seq<Sample>, minSamples: Word64, share: Octet)
      returns (results: seq<ProtocolResult>)
    ensures |results| == |protocols|
    ensures forall i :: 0 <= i < |protocols| ==> Decided(results[i], samples, victim, protocols[i], minSamples, share)
  {
    hide ListsPorts, Occurs, PortSum, TotalSum, CountSum, Saturated;
    results := [];
    for i := 0 to |protocols|
      invariant |results| == i
      invariant forall j :: 0 <= j < i ==> Decided(results[j], samples, victim, protocols[j], minSamples, share)
    {
      var protocol := protocols[i];
      var r := ProtocolResult(protocol, 0, 0, Selected, []);
      if protocol == ICMP {
      } else if protocol != TCP && protocol != UDP {
        r := r.(reason := UnsupportedProtocol);
      } else {
        var t := TallySamples(samples, victim, protocol);
        NoPortsNoWeight(t, samples, victim, protocol);
        r := r.(count := t.count, total := t.total);
        if t.weights == map[] || t.total == 0 {
          r := r.(reason := NoQualifyingSamples);
        } else if t.count < minSamples {
          r := r.(reason := InsufficientSamples);
        } else {
          var ports := SignificantPorts(t, samples, victim, protocol, share);
          r := r.(ports := ports, reason := if ports == [] then BelowDominance else Selected);
        }
      }
      assert Decided(r, samples, victim, protocol, minSamples, share);
      results := results + [r];
    }
  }

  // ----- shares add up -----

  function SumOver(samples: seq<Sample>, victim: Ip, protocol: Word32, ports: seq<Word16>): nat {
    if ports == [] then 0
    else SumOver(samples, victim, protocol, ports[1..]) + PortSum(samples, victim, protocol, ports[0])
  }

  predicate Distinct(ports: seq<Word16>) {
    forall i, j :: 0 <= i < j < |ports| ==> ports[i] != ports[j]
  }

  lemma {:induction false} SumOverStep(samples: seq<Sample>, victim: Ip, protocol: Word32, ports: seq<Word16>)
    requires samples != [] && Distinct(ports)
    ensures var n := |samples| - 1;
            SumOver(samples, victim, protocol, ports) == SumOver(samples[..n], victim, protocol, ports)
              + if Qualifies(samples[n], victim, protocol) && samples[n].port in ports then Load(samples[n]) else 0
  {
    hide Qualifies, Load;
    if ports != [] {
      SumOverStep(samples, victim, protocol, ports[1..]);
    }
  }

  lemma {:induction false} NoSamplesNoSum(victim: Ip, protocol: Word32, ports: seq<Word16>)
    ensures SumOver([], victim, protocol, ports) == 0
  {
    if ports != [] {
      NoSamplesNoSum(victim, protocol, ports[1..]);
    }
  }

  /** Different ports share the total between them. */
  lemma {:induction false} PortsShareTotal(samples: seq<Sample>, victim: Ip, protocol: Word32, ports: seq<Word16>)
    requires Distinct(ports)
    ensures SumOver(samples, victim, protocol, ports) <= TotalSum(samples, victim, protocol)
  {
    hide Distinct, Qualifies, Load;
    if samples == [] {
      NoSamplesNoSum(victim, protocol, ports);
    } else {
      PortsShareTotal(samples[..|samples| - 1], victim, protocol, ports);
      SumOverStep(samples, victim, protocol, ports);
    }
  }

  /** No weight was cut: the true total fits 64 bits. */
  predicate Unsaturated(samples: seq<Sample>, victim: Ip, protocol: Word32) {
    TotalSum(samples, victim, protocol) <= MAX_64
  }

  lemma {:induction false} SharesAdd(samples: seq<Sample>, victim: Ip, protocol: Word32, ports: seq<Word16>, percent: nat)
    requires forall p :: p in ports ==> 100 * PortSum(samples, victim, protocol, p) >= TotalSum(samples, victim, protocol) * percent
    ensures 100 * SumOver(samples, victim, protocol, ports) >= |ports| * (TotalSum(samples, victim, protocol) * percent)
  {
    hide PortSum, TotalSum;
    if ports != [] {
      SharesAdd(samples, victim, protocol, ports[1..], percent);
      assert |ports| * (TotalSum(samples, victim, protocol) * percent)
          == |ports[1..]| * (TotalSum(samples, victim, protocol) * percent) + TotalSum(samples, victim, protocol) * percent;
    }
  }

  lemma DominatesMeans(samples: seq<Sample>, victim: Ip, protocol: Word32, port: Word16, percent: Octet)
    requires Unsaturated(samples, victim, protocol) && percent <= 100
    requires Dominates(samples, victim, protocol, port, percent)
    ensures TotalSum(samples, victim, protocol) > 0
    ensures 100 * PortSum(samples, victim, protocol, port) >= TotalSum(samples, victim, protocol) * percent
  {
    hide PortSum, TotalSum;
    PortsShareTotal(samples, victim, protocol, [port]);
    assert SumOver(samples, victim, protocol, [port]) == PortSum(samples, victim, protocol, port);
    MeetsPercentExactly(TotalWeight(samples, victim, protocol), percent);
  }

  lemma AtMostHundred(n: nat, total: nat, percent: nat, sum: nat)
    requires total > 0 && sum <= total && 100 * sum >= n * (total * percent)
    ensures n * percent <= 100
  {
    assert n * (total * percent) == total * (n * percent);
    if n * percent > 100 {
      ProductMonotone(total, 101, n * percent);
    }
  }

  /**
    * With a minimum share of so many percent there can be only as many significant ports as fit into a hundred: five
    * at the default of twenty percent.
    */
  lemma SignificantPortsBounded(samples: seq<Sample>, victim: Ip, protocol: Word32, ports: seq<Word16>, share: Octet)
    requires Unsaturated(samples, victim, protocol) && share <= 100 && Distinct(ports)
    requires forall p :: p in ports ==> Dominates(samples, victim, protocol, p, share)
    ensures |ports| * share <= 100
  {
    hide PortSum, TotalSum, Dominates, SumOver, Distinct;
    if ports != [] {
      forall p | p in ports
        ensures 100 * PortSum(samples, victim, protocol, p) >= TotalSum(samples, victim, protocol) * share
      {
        DominatesMeans(samples, victim, protocol, p, share);
      }
      DominatesMeans(samples, victim, protocol, ports[0], share);
      SharesAdd(samples, victim, protocol, ports, share);
      PortsShareTotal(samples, victim, protocol, ports);
      AtMostHundred(|ports|, TotalSum(samples, victim, protocol), share, SumOver(samples, victim, protocol, ports));
    }
  }

  /** So a refresh with a minimum share never asks for more port rules per protocol than that. */
  lemma RefreshPortsBounded(r: ProtocolResult, samples: seq<Sample>, victim: Ip, protocol: Word32, minSamples: Word64, share: Octet)
    requires Decided(r, samples, victim, protocol, minSamples, share)
    requires Unsaturated(samples, victim, protocol) && share <= 100
    ensures |r.ports| * share <= 100
  {
    hide Unsaturated, Dominates, TotalWeight, SampleCount, Occurs, IsShare, PortWeight;
    var ports := seq(|r.ports|, i requires 0 <= i < |r.ports| => r.ports[i].port);
    forall p | p in ports ensures Dominates(samples, victim, protocol, p, share) {
      var i :| 0 <= i < |ports| && ports[i] == p;
      assert r.ports[i] in r.ports;
    }
    SignificantPortsBounded(samples, victim, protocol, ports, share);
  }

  /**
    * Above fifty percent a port that meets the threshold is the single heaviest one, so a tie never hides it: the
    * outcome then depends on the threshold alone.
    */
  lemma MajorityIsUnique(samples: seq<Sample>, victim: Ip, protocol: Word32, port: Word16, other: Word16, percent: Octet)
    requires Unsaturated(samples, victim, protocol) && 50 < percent <= 100
    requires Dominates(samples, victim, protocol, port, percent) && other != port
    ensures PortWeight(samples, victim, protocol, other) < PortWeight(samples, victim, protocol, port)
  {
    hide PortSum, TotalSum, Dominates;
    var total := TotalSum(samples, victim, protocol);
    DominatesMeans(samples, victim, protocol, port, percent);
    PortsShareTotal(samples, victim, protocol, [port, other]);
    assert [port, other][1..] == [other];
    assert SumOver(samples, victim, protocol, [other]) == PortSum(samples, victim, protocol, other);
    Majority(PortSum(samples, victim, protocol, port), PortSum(samples, victim, protocol, other), total, percent);
  }

  lemma Majority(x: nat, y: nat, total: nat, percent: nat)
    requires x + y <= total && 100 * x >= total * percent && percent > 50 && total > 0
    ensures y < x
  {
    ProductMonotone(total, 51, percent);
  }

  /** With enough unsaturated samples and a threshold above fifty percent, a port is selected exactly when one meets it. */
  lemma MajorityDecides(r: Classification, samples: seq<Sample>, victim: Ip, protocol: Word32, minSamples: Word64, percent: Octet)
    requires Justified(r, samples, victim, true, protocol, minSamples, percent)
    requires protocol == TCP || protocol == UDP
    requires Enough(samples, victim, protocol, minSamples) && Unsaturated(samples, victim, protocol) && 50 < percent <= 100
    ensures r.reason == Selected <==>
            exists port: Word16 :: Occurs(samples, victim, protocol, port) && Dominates(samples, victim, protocol, port, percent)
    ensures r.reason == Selected ==>
              forall port: Word16 :: Occurs(samples, victim, protocol, port) && Dominates(samples, victim, protocol, port, percent)
                ==> r.dominant == Some(port)
  {
    hide PortWeight, TotalWeight, Occurs, Unsaturated, Dominates;
    assert r.dominant.Some? && Heaviest(samples, victim, protocol, r.dominant.value);
    forall port: Word16 | Occurs(samples, victim, protocol, port) && Dominates(samples, victim, protocol, port, percent)
      ensures r.dominant == Some(port) && r.reason == Selected
    {
      if r.dominant.value != port {
        MajorityIsUnique(samples, victim, protocol, port, r.dominant.value, percent);
      }
      assert r.dominant.value == port;
      if other: Word16 :| other != r.dominant.value && Heaviest(samples, victim, protocol, other) {
        MajorityIsUnique(samples, victim, protocol, port, other, percent);
      }
    }
  }
}
