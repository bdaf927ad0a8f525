/**
 * How a channel waits between failed attempts to connect or to open its
 * port: the delay starts at a minimum, doubles after every failure up to a
 * maximum, and returns to the minimum once a connection succeeds. Delays are
 * whole nanoseconds.
 */
module Retry {

  function Min(a: nat, b: nat): nat {
    if a <= b then a else b
  }

  function Pow2(k: nat): (r: nat)
    ensures r >= 1
  {
    if k == 0 then 1 else 2 * Pow2(k - 1)
  }

  /** The delay the k-th failure in a row waits: the minimum doubled k times, capped at the maximum. */
  function DelayAfter(min: nat, max: nat, k: nat): (r: nat)
    ensures r <= max || (k == 0 && r == min)
  {
    if k == 0 then min else Min(2 * DelayAfter(min, max, k - 1), max)
  }

  /** Once the cap applies, the delay is the minimum doubled until it reaches the maximum. */
  lemma {:induction false} DelayAfterClosedForm(min: nat, max: nat, k: nat)
    requires min <= max
    ensures DelayAfter(min, max, k) == Min(min * Pow2(k), max)
  {
    if k > 0 {
      DelayAfterClosedForm(min, max, k - 1);
      var p := Pow2(k - 1);
      assert min * Pow2(k) == 2 * (min * p);
    }
  }

  /** The delays never shrink while failures go on, and stay within [min, max]. */
  lemma {:induction false} DelayAfterMonotone(min: nat, max: nat, k: nat)
    requires min <= max
    ensures min <= DelayAfter(min, max, k) <= DelayAfter(min, max, k + 1) <= max
  {
    if k > 0 {
      DelayAfterMonotone(min, max, k - 1);
    }
  }

  /** With the default one second and one minute, the seventh failure in a row is the first to wait the full minute. */
  lemma DefaultDelays()
    ensures DelayAfter(DefaultMin, DefaultMax, 5) == 32_000_000_000
    ensures DelayAfter(DefaultMin, DefaultMax, 6) == DefaultMax
  {
    DelayAfterClosedForm(DefaultMin, DefaultMax, 5);
    DelayAfterClosedForm(DefaultMin, DefaultMax, 6);
  }

  /** `default_retry_strategy`: one second to one minute. */
  const DefaultMin: nat := 1_000_000_000
  const DefaultMax: nat := 60_000_000_000

  /** `Doubling`, the retry strategy behind both `doubling_retry_strategy` and the default one. */
  class Doubling {
    const min: nat
    const max: nat
    var current: nat
    /** How many failures in a row since the last reset; ghost, to relate `current` to `DelayAfter`. */
    ghost var failures: nat

    ghost predicate Valid()
      reads this
    {
      current == DelayAfter(min, max, failures)
    }

    /** `create`: the first delay is the minimum. */
    constructor Create(min: nat, max: nat)
      ensures Valid() && this.min == min && this.max == max && current == min && failures == 0
    {
      this.min := min;
      this.max := max;
      current := min;
      failures := 0;
    }

    /** `reset`, after a successful connection: back to the minimum. */
    method Reset()
      modifies this
      ensures Valid() && current == min && failures == 0
    {
      current := min;
      failures := 0;
    }

    /** `after_failed_connect`: waits the current delay, and doubles it, capped at the maximum, for the next failure. */
    method AfterFailedConnect() returns (delay: nat)
      requires Valid()
      modifies this
      ensures Valid() && failures == old(failures) + 1
      ensures delay == old(current) == DelayAfter(min, max, old(failures))
      ensures current == Min(2 * delay, max)
    {
      delay := current;
      current := Min(2 * current, max);
      failures := failures + 1;
    }

    /** `after_disconnect`: always the minimum, and the doubling state is left as it is. */
    method AfterDisconnect() returns (delay: nat)
      ensures delay == min
    {
      delay := min;
    }
  }

  /**
   * Driving the strategy: after `n` failures since its creation, the delays
   * it handed out are DelayAfter(min, max, 0), ..., DelayAfter(min, max, n - 1).
   */
  method FailRepeatedly(min: nat, max: nat, n: nat) returns (delays: seq<nat>)
    ensures |delays| == n
    ensures forall k :: 0 <= k < n ==> delays[k] == DelayAfter(min, max, k)
  {
    var strategy := new Doubling.Create(min, max);
    delays := [];
    while |delays| < n
      invariant strategy.Valid() && strategy.min == min && strategy.max == max
      invariant strategy.failures == |delays| <= n
      invariant forall k :: 0 <= k < |delays| ==> delays[k] == DelayAfter(min, max, k)
      decreases n - |delays|
    {
      ghost var before := delays;
      var d := strategy.AfterFailedConnect();
      assert d == DelayAfter(min, max, |before|);
      delays := delays + [d];
      assert forall k :: 0 <= k < |before| ==> delays[k] == before[k];
    }
  }
}
