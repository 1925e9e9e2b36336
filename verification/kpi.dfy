/** The KPI formulas of the daily aggregation: guarded mean delays and loss
    rates over summed counters, numpy's round-half-to-even, and the NATIONAL
    label. Arithmetic is on exact reals. */
module Kpi {
  import opened Counters

  // ---------------------------------------------------------------------------
  // Rounding

  /** `n` is one of the integers nearest to `x`. */
  predicate IsNearest(x: real, n: int)
  {
    -0.5 <= n as real - x <= 0.5
  }

  /** `x` lies exactly half-way between `n` and a neighbour. */
  predicate IsTie(x: real, n: int)
  {
    n as real - x == 0.5 || x - n as real == 0.5
  }

  /** numpy's `round(0)`: the nearest integer, an even one on a tie. */
  function RoundHalfEven(x: real): (n: int)
    ensures IsNearest(x, n)
    ensures IsTie(x, n) ==> n % 2 == 0
  {
    var f := x.Floor;
    var frac := x - f as real;
    if frac < 0.5 then f
    else if frac > 0.5 then f + 1
    else if f % 2 == 0 then f
    else f + 1
  }

  /** The nearest integer, with ties to even, is unique: any integer with both
      properties is the rounded value. */
  lemma RoundHalfEvenUnique(x: real, n: int)
    requires IsNearest(x, n) && (IsTie(x, n) ==> n % 2 == 0)
    ensures n == RoundHalfEven(x)
  {
  }

  /** Ties go to the even neighbour: 0.5, 1.5 and 2.5 round to 0, 2 and 2. */
  lemma TiesToEven()
    ensures RoundHalfEven(0.5) == 0 && RoundHalfEven(1.5) == 2 && RoundHalfEven(2.5) == 2
    ensures RoundHalfEven(-0.5) == 0 && RoundHalfEven(-1.5) == -2
  {
    RoundHalfEvenUnique(0.5, 0);
    RoundHalfEvenUnique(1.5, 2);
    RoundHalfEvenUnique(2.5, 2);
    RoundHalfEvenUnique(-0.5, 0);
    RoundHalfEvenUnique(-1.5, -2);
  }

  /** The value has at most two decimals. */
  predicate IsCents(x: real)
  {
    (x * 100.0).Floor as real == x * 100.0
  }

  /** `r` is `x` rounded to cents as numpy does it: `r` has at most two
      decimals, and `100 r` is a nearest integer to `100 x`, an even one on a
      tie. */
  predicate IsCentRounding(x: real, r: real)
  {
    var n := (r * 100.0).Floor;
    IsCents(r) && IsNearest(x * 100.0, n) && (IsTie(x * 100.0, n) ==> n % 2 == 0)
  }

  /** numpy's `round(2)`: scale by 100, round half to even, scale back. */
  function RoundCents(x: real): (r: real)
    ensures -0.005 <= r - x <= 0.005
    ensures IsCentRounding(x, r)
  {
    var n := RoundHalfEven(x * 100.0);
    HundredthsOfNearest(x, n);
    n as real / 100.0
  }

  /** An integer nearest to `100 x`, divided by 100, is within 0.005 of `x` and
      has at most two decimals. */
  lemma HundredthsOfNearest(x: real, n: int)
    requires IsNearest(x * 100.0, n)
    ensures -0.005 <= n as real / 100.0 - x <= 0.005
    ensures IsCents(n as real / 100.0)
    ensures (n as real / 100.0 * 100.0).Floor == n
  {
    var y := n as real / 100.0;
    assert y * 100.0 == n as real;
    assert y - x == (n as real - x * 100.0) / 100.0;
    assert (n as real).Floor == n;
  }

  /** The cent rounding of a value is unique: any value with the rounding
      property is the rounded value. */
  lemma CentRoundingUnique(x: real, r: real)
    requires IsCentRounding(x, r)
    ensures r == RoundCents(x)
  {
    var n := (r * 100.0).Floor;
    RoundHalfEvenUnique(x * 100.0, n);
    assert r * 100.0 == n as real;
  }

  /** On a cent tie the even cent wins: 3.125 rounds to 3.12 and 3.135 to 3.14. */
  lemma CentTiesToEven()
    ensures RoundCents(3.125) == 3.12 && RoundCents(3.135) == 3.14
  {
    RoundHalfEvenUnique(312.5, 312);
    RoundHalfEvenUnique(313.5, 314);
  }

  /** A value that already has two decimals is left unchanged. */
  lemma RoundCentsKeepsCents(n: int)
    ensures RoundCents(n as real / 100.0) == n as real / 100.0
  {
    assert n as real / 100.0 * 100.0 == n as real;
    RoundHalfEvenUnique(n as real, n);
  }

  // ---------------------------------------------------------------------------
  // Guarded ratios

  /** `np.where(count > 0, total / count, 0)`: the mean delay per good sample. */
  function MeanDelay(total: nat, count: nat): (d: real)
    ensures count > 0 ==> d * count as real == total as real
    ensures count == 0 ==> d == 0.0
    ensures d >= 0.0
  {
    if count > 0 then total as real / count as real else 0.0
  }

  /** `np.where(packets > 0, lost / packets * 100, 0)`: lost packets as a percentage. */
  function LossRate(lost: nat, packets: nat): (rate: real)
    ensures packets > 0 ==> rate * packets as real == lost as real * 100.0
    ensures packets == 0 ==> rate == 0.0
    ensures rate >= 0.0
  {
    if packets > 0 then lost as real / packets as real * 100.0 else 0.0
  }

  /** A rate stays within 0..100 when no more packets are lost than carried. */
  lemma LossRateAtMostHundred(lost: nat, packets: nat)
    requires lost <= packets
    ensures LossRate(lost, packets) <= 100.0
  {
    if packets > 0 {
      var rate := LossRate(lost, packets);
      assert rate * packets as real <= packets as real * 100.0;
    }
  }

  // ---------------------------------------------------------------------------
  // The KPI set of one output row

  datatype Kpis = Kpis(
    e2eDelay: int,
    synSynAckDelay: int,
    synAckAckDelay: int,
    serverUlLossRate: real,
    serverDlLossRate: real,
    clientUlLossRate: real,
    clientDlLossRate: real)

  /** The KPIs of one group. Each delay is the nearest whole millisecond (an even
      one on a tie) to the mean per good sample, and 0 without good samples. The
      SYN ACK-ACK delay is the nearest whole number to the difference of the two
      unrounded means. Each loss rate is within 0.005 of lost packets over payload
      packets times 100, downlink over downlink packets and uplink over uplink
      packets, is that ratio rounded to cents with ties to the even cent, and
      is 0 without payload packets. */
  function DeriveKpis(c: Counters): (k: Kpis)
    ensures c.tcpRttGoodCount == 0 ==> k.e2eDelay == 0
    ensures c.tcpRttGoodCount > 0 ==>
      var mean := c.tcpRtt as real / c.tcpRttGoodCount as real;
      IsNearest(mean, k.e2eDelay) && (IsTie(mean, k.e2eDelay) ==> k.e2eDelay % 2 == 0)
    ensures c.tcpRttStep1GoodCount == 0 ==> k.synSynAckDelay == 0
    ensures c.tcpRttStep1GoodCount > 0 ==>
      var mean := c.tcpRttStep1 as real / c.tcpRttStep1GoodCount as real;
      IsNearest(mean, k.synSynAckDelay) && (IsTie(mean, k.synSynAckDelay) ==> k.synSynAckDelay % 2 == 0)
    ensures var diff := MeanDelay(c.tcpRtt, c.tcpRttGoodCount) - MeanDelay(c.tcpRttStep1, c.tcpRttStep1GoodCount);
      IsNearest(diff, k.synAckAckDelay) && (IsTie(diff, k.synAckAckDelay) ==> k.synAckAckDelay % 2 == 0)
    ensures IsCentRounding(LossRate(c.serverProbeUlLostPkt, c.tcpUlPackagesWithpl), k.serverUlLossRate)
    ensures IsCentRounding(LossRate(c.serverProbeDwLostPkt, c.tcpDlPackagesWithpl), k.serverDlLossRate)
    ensures IsCentRounding(LossRate(c.userProbeUlLostPkt, c.tcpUlPackagesWithpl), k.clientUlLossRate)
    ensures IsCentRounding(LossRate(c.userProbeDwLostPkt, c.tcpDlPackagesWithpl), k.clientDlLossRate)
    ensures c.tcpUlPackagesWithpl == 0 ==> k.serverUlLossRate == 0.0 && k.clientUlLossRate == 0.0
    ensures c.tcpDlPackagesWithpl == 0 ==> k.serverDlLossRate == 0.0 && k.clientDlLossRate == 0.0
    ensures c.tcpUlPackagesWithpl > 0 ==>
      var packets := c.tcpUlPackagesWithpl as real;
      && -0.005 <= k.serverUlLossRate - c.serverProbeUlLostPkt as real / packets * 100.0 <= 0.005
      && -0.005 <= k.clientUlLossRate - c.userProbeUlLostPkt as real / packets * 100.0 <= 0.005
    ensures c.tcpDlPackagesWithpl > 0 ==>
      var packets := c.tcpDlPackagesWithpl as real;
      && -0.005 <= k.serverDlLossRate - c.serverProbeDwLostPkt as real / packets * 100.0 <= 0.005
      && -0.005 <= k.clientDlLossRate - c.userProbeDwLostPkt as real / packets * 100.0 <= 0.005
  {
    var e2e := MeanDelay(c.tcpRtt, c.tcpRttGoodCount);
    var synSynAck := MeanDelay(c.tcpRttStep1, c.tcpRttStep1GoodCount);
    RoundHalfEvenUnique(0.0, 0);
    RoundCentsKeepsCents(0);
    Kpis(
      RoundHalfEven(e2e),
      RoundHalfEven(synSynAck),
      RoundHalfEven(e2e - synSynAck),
      RoundCents(LossRate(c.serverProbeUlLostPkt, c.tcpUlPackagesWithpl)),
      RoundCents(LossRate(c.serverProbeDwLostPkt, c.tcpDlPackagesWithpl)),
      RoundCents(LossRate(c.userProbeUlLostPkt, c.tcpUlPackagesWithpl)),
      RoundCents(LossRate(c.userProbeDwLostPkt, c.tcpDlPackagesWithpl)))
  }

  /** With no good samples the delay is 0 rather than a division by zero, and
      with no payload packets every rate is 0. */
  lemma ZeroDenominatorsGiveZero(c: Counters)
    requires c.tcpRttGoodCount == 0 && c.tcpRttStep1GoodCount == 0
    requires c.tcpUlPackagesWithpl == 0 && c.tcpDlPackagesWithpl == 0
    ensures DeriveKpis(c) == Kpis(0, 0, 0, 0.0, 0.0, 0.0, 0.0)
  {
    RoundHalfEvenUnique(0.0, 0);
    RoundCentsKeepsCents(0);
  }

  /** The rounded SYN ACK-ACK delay differs by at most one from the difference of
      the two rounded delays. */
  lemma SynAckAckWithinOne(c: Counters)
    ensures var k := DeriveKpis(c);
      -1 <= k.synAckAckDelay - (k.e2eDelay - k.synSynAckDelay) <= 1
  {
  }

  /** E2E 5/2 = 2.5 rounds to 2 and SYN-SYN ACK 3/2 = 1.5 rounds to 2, yet their
      difference 1.0 rounds to 1: the rounded difference is not the difference
      of the rounded delays. */
  lemma RoundedDifferenceExample()
    ensures var k := DeriveKpis(Counters(5, 2, 3, 2, 0, 0, 0, 0, 0, 0));
      k.e2eDelay == 2 && k.synSynAckDelay == 2 && k.synAckAckDelay == 1
  {
    assert MeanDelay(5, 2) == 2.5 && MeanDelay(3, 2) == 1.5;
    RoundHalfEvenUnique(2.5, 2);
    RoundHalfEvenUnique(1.5, 2);
    RoundHalfEvenUnique(1.0, 1);
  }

  /** The SYN ACK-ACK delay has no guard of its own and can be negative. */
  lemma NegativeSynAckAckExample()
    ensures DeriveKpis(Counters(0, 0, 10, 1, 0, 0, 0, 0, 0, 0)).synAckAckDelay == -10
  {
    assert MeanDelay(0, 0) == 0.0 && MeanDelay(10, 1) == 10.0;
    RoundHalfEvenUnique(-10.0, -10);
  }

  /** One server-side uplink loss in 32 payload packets is 3.125 %, reported
      as 3.12: the cent tie goes to the even cent. */
  lemma LossRateTieExample()
    ensures DeriveKpis(Counters(0, 0, 0, 0, 1, 0, 0, 0, 32, 0)).serverUlLossRate == 3.12
  {
    assert LossRate(1, 32) == 3.125;
    CentTiesToEven();
  }

  /** 250 ms of RTT over 25 good samples is an E2E delay of 10 ms. */
  lemma E2EExample()
    ensures DeriveKpis(Counters(250, 25, 0, 0, 0, 0, 0, 0, 0, 0)).e2eDelay == 10
  {
    assert MeanDelay(250, 25) == 10.0;
    RoundHalfEvenUnique(10.0, 10);
  }

  // ---------------------------------------------------------------------------
  // NATIONAL

  const UNKNOWN: string := "Unknown"
  const NATIONAL_PREFIX: string := "Indonesia-"

  /** `f'Indonesia-{x}' if x != 'Unknown' else 'Unknown'`. */
  function National(operator: string): string
  {
    if operator != UNKNOWN then NATIONAL_PREFIX + operator else UNKNOWN
  }

  /** NATIONAL is "Unknown" exactly for the operator "Unknown", and distinct
      operators get distinct labels. */
  lemma NationalIsInjective(a: string, b: string)
    ensures National(a) == UNKNOWN <==> a == UNKNOWN
    ensures National(a) == National(b) ==> a == b
  {
    if a != UNKNOWN {
      assert National(a)[0] == 'I';
    }
    if b != UNKNOWN {
      assert National(b)[0] == 'I';
    }
    if a != UNKNOWN && b != UNKNOWN && National(a) == National(b) {
      assert a == National(a)[|NATIONAL_PREFIX|..];
    }
  }
}
