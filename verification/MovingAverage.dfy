/**
  * Traffic speeds and their exponential moving average: counters are divided by the period, averaged with the weight
  * `decay` of the past, and cut to whole numbers at every step. Doubles are taken as reals.
  */
module MovingAverage {

  /** The weight of the past, e to the power of minus period over averaging time: strictly between zero and one. */
  type Decay = e: real | 0.0 < e < 1.0 witness 0.5

  type Period = p: real | p > 0.0 witness 1.0

  function InstantSpeed(counter: nat, period: Period): nat {
    SpeedIsNatural(counter, period);
    (counter as real / period).Floor
  }

  lemma SpeedIsNatural(counter: nat, period: Period)
    ensures (counter as real / period).Floor >= 0
  {
  }

  /** The speed is the largest whole number of units per second that the counter amounts to over the period. */
  lemma InstantSpeedMeans(counter: nat, period: Period)
    ensures InstantSpeed(counter, period) as real * period <= counter as real < (InstantSpeed(counter, period) + 1) as real * period
  {
    hide InstantSpeed;
    SpeedIsWhole(counter, period);
    var n := InstantSpeed(counter, period);
    Quotient(n as real, counter as real, (n + 1) as real, period);
  }

  lemma SpeedIsWhole(counter: nat, period: Period)
    ensures InstantSpeed(counter, period) as real <= counter as real / period < (InstantSpeed(counter, period) + 1) as real
  {
  }

  lemma Quotient(low: real, x: real, high: real, period: Period)
    requires low <= x / period < high
    ensures low * period <= x < high * period
  {
    var q := x / period;
    assert q * period == x;
    Stretch(q - low, period);
    Stretch(high - q, period);
    assert low * period + (q - low) * period == x;
    assert x + (high - q) * period == high * period;
  }

  lemma Stretch(d: real, period: Period)
    ensures d >= 0.0 ==> d * period >= 0.0
    ensures d > 0.0 ==> d * period > 0.0
  {
  }

  /** One averaging step, cut towards zero. */
  function Averaged(average: nat, instant: nat, e: Decay): nat {
    MixIsBetween(average, instant, e);
    Mix(average, instant, e).Floor
  }

  function Scaled(d: real, e: Decay): real {
    e * d
  }

  function Mix(average: nat, instant: nat, e: Decay): real {
    instant as real + Scaled(average as real - instant as real, e)
  }

  /** One step is the whole part of the weighted mean, with the weight `e` on the past. */
  lemma AveragedMeans(average: nat, instant: nat, e: Decay)
    ensures Averaged(average, instant, e) as real <= e * average as real + (1.0 - e) * instant as real
    ensures e * average as real + (1.0 - e) * instant as real < Averaged(average, instant, e) as real + 1.0
  {
    WeightedMean(average as real, instant as real, e);
  }

  lemma WeightedMean(a: real, b: real, e: real)
    ensures b + e * (a - b) == e * a + (1.0 - e) * b
  {
  }

  lemma ScaledDown(d: real, e: Decay)
    ensures d >= 0.0 ==> 0.0 <= Scaled(d, e) <= d
    ensures d <= 0.0 ==> d <= Scaled(d, e) <= 0.0
    ensures d > 0.0 ==> 0.0 < Scaled(d, e) < d
    ensures d < 0.0 ==> d < Scaled(d, e) < 0.0
  {
    Signs(e, d);
    Signs(1.0 - e, d);
    assert (1.0 - e) * d == d - e * d;
  }

  lemma Signs(x: real, y: real)
    requires x > 0.0
    ensures y > 0.0 ==> x * y > 0.0
    ensures y < 0.0 ==> x * y < 0.0
    ensures y == 0.0 ==> x * y == 0.0
  {
  }

  lemma MixIsBetween(average: nat, instant: nat, e: Decay)
    ensures average == instant ==> Mix(average, instant, e) == instant as real
    ensures average < instant ==> average as real < Mix(average, instant, e) < instant as real
    ensures average > instant ==> instant as real < Mix(average, instant, e) < average as real
  {
    hide Scaled;
    ScaledDown(average as real - instant as real, e);
  }

  // ----- one step -----

  /** The average never leaves the interval between its old value and the instant speed, and from above it falls. */
  lemma StepStaysBetween(average: nat, instant: nat, e: Decay)
    ensures average <= instant ==> average <= Averaged(average, instant, e) <= instant
    ensures average > instant ==> instant <= Averaged(average, instant, e) < average
    ensures average < instant ==> Averaged(average, instant, e) < instant
  {
    hide Mix;
    MixIsBetween(average, instant, e);
    var low, high := if average < instant then average else instant, if average < instant then instant else average;
    FloorBetween(Mix(average, instant, e), low, high);
  }

  lemma FloorBetween(x: real, low: nat, high: nat)
    requires low as real <= x <= high as real
    ensures low <= x.Floor <= high
    ensures x < high as real ==> x.Floor < high
  {
  }

  /** Rounding down holds the average where it is exactly when it is less than 1 / (1 - e) below the instant speed. */
  lemma StallsExactly(average: nat, instant: nat, e: Decay)
    requires average < instant
    ensures Averaged(average, instant, e) == average <==> (instant - average) as real * (1.0 - e) < 1.0
  {
    hide Scaled, Mix;
    MixByGap(average, instant, e);
    FloorIs(Mix(average, instant, e), average);
  }

  lemma MixByGap(average: nat, instant: nat, e: Decay)
    requires average <= instant
    ensures Mix(average, instant, e) == average as real + (instant - average) as real * (1.0 - e)
  {
    hide Scaled;
    var d := (instant - average) as real;
    ScaledGap(d, e);
    assert average as real - instant as real == -d;
  }

  lemma FloorIs(x: real, n: nat)
    ensures x.Floor == n <==> n as real <= x < n as real + 1.0
  {
  }

  lemma ScaledGap(d: real, e: Decay)
    ensures Scaled(-d, e) == -Scaled(d, e) && d * (1.0 - e) == d - Scaled(d, e)
  {
  }

  // ----- many steps -----

  /** The average after a sequence of instant speeds, the latest last. */
  function AverageAfter(average: nat, instants: seq<nat>, e: Decay): nat {
    if instants == [] then average
    else Averaged(AverageAfter(average, instants[..|instants| - 1], e), instants[|instants| - 1], e)
  }

  /** The average never exceeds the largest, nor undercuts the smallest, of its start and the speeds seen. */
  lemma {:induction false} AverageStaysWithin(average: nat, instants: seq<nat>, e: Decay, low: nat, high: nat)
    requires low <= average <= high
    requires forall i :: 0 <= i < |instants| ==> low <= instants[i] <= high
    ensures low <= AverageAfter(average, instants, e) <= high
  {
    hide Averaged;
    if instants != [] {
      var n := |instants| - 1;
      AverageStaysWithin(average, instants[..n], e, low, high);
      StepStaysBetween(AverageAfter(average, instants[..n], e), instants[n], e);
    }
  }

  /** The average after `n` steps at one speed. */
  function Settled(average: nat, instant: nat, e: Decay, n: nat): nat {
    if n == 0 then average else Averaged(Settled(average, instant, e, n - 1), instant, e)
  }

  /** From above, a constant speed is reached exactly, after at most as many steps as there is distance. */
  lemma {:induction false} ReachedFromAbove(average: nat, instant: nat, e: Decay, n: nat)
    requires average >= instant
    ensures instant <= Settled(average, instant, e, n)
    ensures Settled(average, instant, e, n) == instant || Settled(average, instant, e, n) + n <= average
    ensures n >= average - instant ==> Settled(average, instant, e, n) == instant
  {
    hide Averaged;
    if n > 0 {
      ReachedFromAbove(average, instant, e, n - 1);
      StepStaysBetween(Settled(average, instant, e, n - 1), instant, e);
    }
  }

  /** When traffic stops, the average falls to zero and stays there. */
  lemma StoppedTrafficForgotten(average: nat, e: Decay, n: nat)
    requires n >= average
    ensures Settled(average, 0, e, n) == 0
  {
    hide Settled;
    ReachedFromAbove(average, 0, e, n);
  }

  /** No step moves the average any more. */
  predicate Stalled(average: nat, instant: nat, e: Decay) {
    Averaged(average, instant, e) == average
  }

  /**
    * From below, a constant speed is never exceeded, and after as many steps as there is distance the average has
    * stalled: it equals the speed or lies less than 1 / (1 - e) below it.
    */
  lemma {:induction false} StallsFromBelow(average: nat, instant: nat, e: Decay, n: nat)
    requires average <= instant
    ensures average <= Settled(average, instant, e, n) <= instant
    ensures Stalled(Settled(average, instant, e, n), instant, e) || average + n <= Settled(average, instant, e, n)
    ensures n >= instant - average ==>
              var s := Settled(average, instant, e, n);
              Stalled(s, instant, e) && (s == instant || (instant - s) as real * (1.0 - e) < 1.0)
  {
    hide Averaged;
    StepStaysBetween(Settled(average, instant, e, n), instant, e);
    if n > 0 {
      StallsFromBelow(average, instant, e, n - 1);
      StepStaysBetween(Settled(average, instant, e, n - 1), instant, e);
    }
    if Settled(average, instant, e, n) < instant {
      StallsExactly(Settled(average, instant, e, n), instant, e);
    }
  }

  // ----- the counters of the program -----

  datatype Amount = Amount(bytes: nat, packets: nat)

  datatype Counters = Counters(total: Amount, tcp: Amount, udp: Amount, icmp: Amount, fragmented: Amount,
                               tcpSyn: Amount, dropped: Amount)

  const NOTHING := Amount(0, 0)
  const ZEROED := Counters(NOTHING, NOTHING, NOTHING, NOTHING, NOTHING, NOTHING, NOTHING)
  const DIRECTIONS: nat := 4

  /** The average of one amount, from its counter. */
  function NextAmount(average: Amount, counter: Amount, period: Period, e: Decay): Amount {
    Amount(Averaged(average.bytes, InstantSpeed(counter.bytes, period), e),
           Averaged(average.packets, InstantSpeed(counter.packets, period), e))
  }

  function NextAverage(average: Counters, counter: Counters, period: Period, e: Decay): Counters {
    Counters(NextAmount(average.total, counter.total, period, e), NextAmount(average.tcp, counter.tcp, period, e),
             NextAmount(average.udp, counter.udp, period, e), NextAmount(average.icmp, counter.icmp, period, e),
             NextAmount(average.fragmented, counter.fragmented, period, e),
             NextAmount(average.tcpSyn, counter.tcpSyn, period, e), NextAmount(average.dropped, counter.dropped, period, e))
  }

  /** A traffic kind, to name the amounts one by one. */
  datatype Kind = Total | Tcp | Udp | Icmp | Fragmented | TcpSyn | Dropped

  function AmountOf(c: Counters, kind: Kind): Amount {
    match kind
    case Total => c.total
    case Tcp => c.tcp
    case Udp => c.udp
    case Icmp => c.icmp
    case Fragmented => c.fragmented
    case TcpSyn => c.tcpSyn
    case Dropped => c.dropped
  }

  /** Bytes and packets of every kind are averaged each for itself, from their own counter over the period. */
  lemma EveryAmountAveraged(average: Counters, counter: Counters, period: Period, e: Decay, kind: Kind)
    ensures var next, a, c := AmountOf(NextAverage(average, counter, period, e), kind), AmountOf(average, kind), AmountOf(counter, kind);
            && next.bytes == Averaged(a.bytes, InstantSpeed(c.bytes, period), e)
            && next.packets == Averaged(a.packets, InstantSpeed(c.packets, period), e)
  {
    hide Averaged, InstantSpeed;
  }

  class SpeedCounters {
    const counters: array<Counters>
    const averages: array<Counters>

    ghost predicate Valid() {
      counters != averages && counters.Length == DIRECTIONS && averages.Length == DIRECTIONS
    }

    constructor ()
      ensures Valid() && fresh(counters) && fresh(averages)
      ensures forall i :: 0 <= i < DIRECTIONS ==> counters[i] == ZEROED && averages[i] == ZEROED
    {
      counters := new Counters[DIRECTIONS](i => ZEROED);
      averages := new Counters[DIRECTIONS](i => ZEROED);
    }

    /** For every direction: speeds from the counters into the averages, then the counters start over. */
    method CalculateSpeed(period: Period, e: Decay)
      requires Valid()
      modifies counters, averages
      ensures forall i :: 0 <= i < DIRECTIONS ==>
                counters[i] == ZEROED && averages[i] == NextAverage(old(averages[i]), old(counters[i]), period, e)
    {
      hide NextAmount, ZEROED;
      for i := 0 to DIRECTIONS
        invariant forall k :: 0 <= k < i ==>
                    counters[k] == ZEROED && averages[k] == NextAverage(old(averages[k]), old(counters[k]), period, e)
        invariant forall k :: i <= k < DIRECTIONS ==> counters[k] == old(counters[k]) && averages[k] == old(averages[k])
      {
        var c, a := counters[i], averages[i];
        averages[i] := Counters(
          NextAmount(a.total, c.total, period, e), NextAmount(a.tcp, c.tcp, period, e), NextAmount(a.udp, c.udp, period, e),
          NextAmount(a.icmp, c.icmp, period, e), NextAmount(a.fragmented, c.fragmented, period, e),
          NextAmount(a.tcpSyn, c.tcpSyn, period, e), NextAmount(a.dropped, c.dropped, period, e));
        counters[i] := ZEROED;
      }
    }
  }
}
