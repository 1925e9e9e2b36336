/** The ten measurement counters that the daily aggregation sums, as
    non-negative integers. */
module Counters {

  datatype Counters = Counters(
    tcpRtt: nat,
    tcpRttGoodCount: nat,
    tcpRttStep1: nat,
    tcpRttStep1GoodCount: nat,
    serverProbeUlLostPkt: nat,
    serverProbeDwLostPkt: nat,
    userProbeUlLostPkt: nat,
    userProbeDwLostPkt: nat,
    tcpUlPackagesWithpl: nat,
    tcpDlPackagesWithpl: nat)

  const ZERO: Counters := Counters(0, 0, 0, 0, 0, 0, 0, 0, 0, 0)

  /** The field-wise `sum` of two counter sets. */
  function Add(a: Counters, b: Counters): Counters
  {
    Counters(
      a.tcpRtt + b.tcpRtt,
      a.tcpRttGoodCount + b.tcpRttGoodCount,
      a.tcpRttStep1 + b.tcpRttStep1,
      a.tcpRttStep1GoodCount + b.tcpRttStep1GoodCount,
      a.serverProbeUlLostPkt + b.serverProbeUlLostPkt,
      a.serverProbeDwLostPkt + b.serverProbeDwLostPkt,
      a.userProbeUlLostPkt + b.userProbeUlLostPkt,
      a.userProbeDwLostPkt + b.userProbeDwLostPkt,
      a.tcpUlPackagesWithpl + b.tcpUlPackagesWithpl,
      a.tcpDlPackagesWithpl + b.tcpDlPackagesWithpl)
  }

  /** `k` copies of the same counters added together. */
  function Scale(c: Counters, k: nat): Counters
  {
    if k == 0 then ZERO else Add(Scale(c, k - 1), c)
  }

  /** Scaling multiplies every field. */
  lemma {:induction false} ScaleMultiplies(c: Counters, k: nat)
    ensures Scale(c, k) == Counters(
      k * c.tcpRtt, k * c.tcpRttGoodCount, k * c.tcpRttStep1, k * c.tcpRttStep1GoodCount,
      k * c.serverProbeUlLostPkt, k * c.serverProbeDwLostPkt, k * c.userProbeUlLostPkt,
      k * c.userProbeDwLostPkt, k * c.tcpUlPackagesWithpl, k * c.tcpDlPackagesWithpl)
  {
    if k > 0 {
      ScaleMultiplies(c, k - 1);
      var prev := Scale(c, k - 1);
      assert Scale(c, k) == Add(prev, c);
      OneMore(k, c.tcpRtt);
      OneMore(k, c.tcpRttGoodCount);
      OneMore(k, c.tcpRttStep1);
      OneMore(k, c.tcpRttStep1GoodCount);
      OneMore(k, c.serverProbeUlLostPkt);
      OneMore(k, c.serverProbeDwLostPkt);
      OneMore(k, c.userProbeUlLostPkt);
      OneMore(k, c.userProbeDwLostPkt);
      OneMore(k, c.tcpUlPackagesWithpl);
      OneMore(k, c.tcpDlPackagesWithpl);
    }
  }

  lemma OneMore(k: nat, x: nat)
    requires k > 0
    ensures (k - 1) * x + x == k * x
  {
  }
}
