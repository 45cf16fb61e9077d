/** Round-trip estimation after sections 2.2 and 2.3 of RFC 6298, in whole nanoseconds. */
module Estimator {
  import opened Types

  const MILLISECOND: nat := 1_000_000
  const INITIAL_RTT: nat := 500 * MILLISECOND
  const TIMER_GRANULARITY: nat := MILLISECOND

  datatype Estimate = Estimate(latest: nat, smoothed: Option<nat>, variance: nat)
  {
    function Rtt(): nat {
      if smoothed.Some? then smoothed.value else latest
    }

    function Rto(): nat {
      Rtt() + Max(TIMER_GRANULARITY, 4 * variance)
    }

    function Updated(rtt: nat): Estimate {
      match smoothed
      case Some(s) => Estimate(rtt, Some((7 * s + rtt) / 8), (3 * variance + Distance(s, rtt)) / 4)
      case None => Estimate(rtt, Some(rtt), rtt / 2)
    }

    function Cleared(): Estimate {
      this.(smoothed := None)
    }
  }

  const NEW: Estimate := Estimate(INITIAL_RTT, None, 0)

  function Max(a: nat, b: nat): nat {
    if a < b then b else a
  }

  function Distance(a: nat, b: nat): nat {
    if a > b then a - b else b - a
  }

  /** The estimate after a run of samples. */
  function Samples(e: Estimate, rtts: seq<nat>): Estimate {
    if rtts == [] then e else Samples(e, rtts[..|rtts| - 1]).Updated(rtts[|rtts| - 1])
  }

  /**
   * Bounds. After a reset, the smoothed time stays between the least and the greatest sample since,
   * and the variance stays at or below the greatest.
   */
  lemma {:induction false} SamplesBounded(e: Estimate, rtts: seq<nat>, lo: nat, hi: nat)
    requires e.smoothed.None? && rtts != []
    requires forall i :: 0 <= i < |rtts| ==> lo <= rtts[i] <= hi
    ensures var r := Samples(e, rtts); r.smoothed.Some? && lo <= r.smoothed.value <= hi && r.variance <= hi
  {
    var front := rtts[..|rtts| - 1];
    if front != [] {
      SamplesBounded(e, front, lo, hi);
    }
  }

  /** The same sample `r`, `n` times. */
  function Steady(e: Estimate, r: nat, n: nat): Estimate
    decreases n
  {
    if n == 0 then e else Steady(e.Updated(r), r, n - 1)
  }

  /** Close enough to `r` that only floor division keeps it away: 7 ns below at most, variance at most 7 ns. */
  predicate Settled(e: Estimate, r: nat) {
    e.smoothed.Some? && r - 7 <= e.smoothed.value <= r && e.variance <= 7
  }

  lemma SettledRto(e: Estimate, r: nat)
    requires Settled(e, r)
    ensures r + TIMER_GRANULARITY - 7 <= e.Rto() <= r + TIMER_GRANULARITY
  {
  }

  /** Once settled, further samples of `r` change nothing of it. */
  lemma {:induction false} SettledStays(e: Estimate, r: nat, n: nat)
    requires Settled(e, r)
    ensures Settled(Steady(e, r, n), r)
    decreases n
  {
    if n > 0 {
      SettledStays(e.Updated(r), r, n - 1);
    }
  }

  predicate Near(e: Estimate, r: nat) {
    e.smoothed.Some? && r - 7 <= e.smoothed.value <= r
  }

  /** Until it is near, the smoothed time comes at least one nanosecond closer with every sample. */
  lemma Closer(e: Estimate, r: nat)
    requires e.smoothed.Some? && !Near(e, r)
    ensures Distance(e.Updated(r).smoothed.value, r) < Distance(e.smoothed.value, r)
  {
  }

  /** The smoothed time is near within as many samples as it was nanoseconds away. */
  lemma {:induction false} NearWithin(e: Estimate, r: nat, n: nat, v: nat)
    requires e.smoothed.Some? && Distance(e.smoothed.value, r) <= n && Distance(e.smoothed.value, r) <= v
             && e.variance <= v
    ensures Near(Steady(e, r, n), r) && Steady(e, r, n).variance <= v
    decreases n
  {
    if n > 0 {
      var e' := e.Updated(r);
      if Near(e, r) {
        NearStays(e, r);
        if Distance(e'.smoothed.value, r) <= n - 1 {
          NearWithin(e', r, n - 1, v);
        } else {
          NearForever(e', r, n - 1, v);
        }
      } else {
        Closer(e, r);
        NearWithin(e', r, n - 1, v);
      }
    }
  }

  lemma NearStays(e: Estimate, r: nat)
    requires Near(e, r)
    ensures Near(e.Updated(r), r) && Distance(e.Updated(r).smoothed.value, r) <= Distance(e.smoothed.value, r)
  {
  }

  lemma {:induction false} NearForever(e: Estimate, r: nat, n: nat, v: nat)
    requires Near(e, r) && Distance(e.smoothed.value, r) <= v && e.variance <= v
    ensures Near(Steady(e, r, n), r) && Steady(e, r, n).variance <= v
    decreases n
  {
    if n > 0 {
      NearStays(e, r);
      NearForever(e.Updated(r), r, n - 1, v);
    }
  }

  /** Near `r`, the variance falls to 7 ns within as many samples as it was nanoseconds large. */
  lemma {:induction false} VarianceFalls(e: Estimate, r: nat, n: nat)
    requires Near(e, r) && e.variance <= n
    ensures Settled(Steady(e, r, n), r)
    decreases n
  {
    if n > 0 {
      NearStays(e, r);
      if e.variance <= 7 {
        SettledStays(e, r, n);
      } else {
        VarianceFalls(e.Updated(r), r, n - 1);
      }
    }
  }

  lemma {:induction false} SteadyAdds(e: Estimate, r: nat, m: nat, n: nat)
    ensures Steady(e, r, m + n) == Steady(Steady(e, r, m), r, n)
    decreases m
  {
    if m > 0 {
      SteadyAdds(e.Updated(r), r, m - 1, n);
    }
  }

  /** An explicit number of samples after which the estimate has settled. */
  function SettleTime(e: Estimate, r: nat): nat {
    match e.smoothed
    case Some(s) => Distance(s, r) + Max(Distance(s, r), e.variance)
    case None => 1 + r
  }

  /**
   * Convergence. Under a constant round trip `r`, from any estimate whatever, the retransmission
   * timeout enters [r + 1 ms - 7 ns, r + 1 ms] within `SettleTime` samples and never leaves it.
   */
  lemma Converges(e: Estimate, r: nat, n: nat)
    requires n >= SettleTime(e, r)
    ensures r + TIMER_GRANULARITY - 7 <= Steady(e, r, n).Rto() <= r + TIMER_GRANULARITY
  {
    match e.smoothed {
      case Some(s) =>
        SettlesWithin(e, r, n);
      case None =>
        var e' := e.Updated(r);
        assert Distance(r, r) == 0;
        SettlesWithin(e', r, n - 1);
    }
    SettledRto(Steady(e, r, n), r);
  }

  lemma SettlesWithin(e: Estimate, r: nat, n: nat)
    requires e.smoothed.Some? && n >= Distance(e.smoothed.value, r) + Max(Distance(e.smoothed.value, r), e.variance)
    ensures Settled(Steady(e, r, n), r)
  {
    var d := Distance(e.smoothed.value, r);
    var v := Max(d, e.variance);
    NearWithin(e, r, d, v);
    var mid := Steady(e, r, d);
    VarianceFalls(mid, r, n - d);
    SteadyAdds(e, r, d, n - d);
  }

  /** Floor division does keep it away: 7 ns below the sample is a fixed point. */
  lemma SevenBelowIsStable(e: Estimate, r: nat)
    requires r >= 7 && e.smoothed == Some(r - 7)
    ensures e.Updated(r).smoothed == Some(r - 7)
  {
  }

  class RttEstimator {
    var latest: nat
    var smoothed: Option<nat>
    var variance: nat

    function State(): Estimate
      reads this
    {
      Estimate(latest, smoothed, variance)
    }

    constructor ()
      ensures State() == NEW
    {
      latest, smoothed, variance := INITIAL_RTT, None, 0;
    }

    method Clear()
      modifies this`smoothed
      ensures State() == old(State()).Cleared()
    {
      smoothed := None;
    }

    method Update(rtt: nat)
      modifies this
      ensures State() == old(State()).Updated(rtt)
    {
      latest := rtt;
      if smoothed.Some? {
        var s := smoothed.value;
        var sample := if s > rtt then s - rtt else rtt - s;
        variance := (3 * variance + sample) / 4;
        smoothed := Some((7 * s + rtt) / 8);
      } else {
        smoothed := Some(rtt);
        variance := rtt / 2;
      }
    }
  }
}
