/**
 Time in the clock driver: ticks of the time stamp register, microseconds, and
 the countdown the alarm timer is loaded with.
 */
module ClockTime {
  const EPOCH: nat := 0x1_0000_0000

  function TicksToMicroseconds(ticks: nat): nat { ticks * 50 / 3333 }
  function MicrosecondsToTicks(us: nat): nat { us * 3333 / 50 }

  /** Microseconds the overflow interrupt adds. */
  const OVERFLOW: nat := TicksToMicroseconds(EPOCH - 1)

  /** current_timestamp_high after `k` overflows. */
  function High(k: nat): nat { k * OVERFLOW }

  lemma HighNext(k: nat)
    ensures High(k + 1) == High(k) + TicksToMicroseconds(0xFFFF_FFFF)
  {
  }

  lemma Epochs(t: nat, t': nat)
    requires t <= t'
    ensures t / EPOCH <= t' / EPOCH
  {
  }

  /** get_time_stamp at tick `t`, every overflow so far having been handled. */
  function Stamp(t: nat): nat {
    High(t / EPOCH) + TicksToMicroseconds(t % EPOCH)
  }

  lemma Split(t: nat)
    ensures t == t / EPOCH * EPOCH + t % EPOCH && 0 <= t % EPOCH < EPOCH
  {
  }

  /** What is lost so far: a constant at every overflow and the fraction of the current microsecond. */
  lemma Loss(t: nat)
    ensures t * 50 - Stamp(t) * 3333 == t / EPOCH * 1784 + t % EPOCH * 50 % 3333
  {
    var k, low := t / EPOCH, t % EPOCH;
    Split(t);
    assert OVERFLOW * 3333 == EPOCH * 50 - 1784;
    assert Stamp(t) * 3333 == k * (OVERFLOW * 3333) + low * 50 / 3333 * 3333;
    assert low * 50 == low * 50 / 3333 * 3333 + low * 50 % 3333;
    assert t * 50 == k * (EPOCH * 50) + low * 50;
  }

  /** The time stamp never runs ahead of the ticks, of which 3333 take 50 microseconds. */
  lemma NeverAhead(t: nat)
    ensures Stamp(t) <= TicksToMicroseconds(t) && Stamp(t) * 3333 <= t * 50
  {
    Loss(t);
  }

  /** After `k` overflows the time stamp lags by at most k * 1784 / 3333 + 1 microseconds. */
  lemma BoundedLag(t: nat)
    ensures TicksToMicroseconds(t) - Stamp(t) <= t / EPOCH * 1784 / 3333 + 1
  {
    var k := t / EPOCH;
    Loss(t);
    var lag := TicksToMicroseconds(t) - Stamp(t);
    assert lag * 3333 <= k * 1784 + 3332;
  }

  /** Advancing by a number of ticks that fit `d` microseconds advances the time stamp by at most `d`. */
  lemma StampAdvance(t: nat, c: nat, d: nat)
    requires c < EPOCH && c * 50 <= d * 3333
    ensures Stamp(t) <= Stamp(t + c) <= Stamp(t) + d
  {
    var k, low := t / EPOCH, t % EPOCH;
    Split(t);
    if low + c < EPOCH {
      Quotient(t + c, k, low + c);
    } else {
      var low' := low + c - EPOCH;
      Quotient(t + c, k + 1, low');
      assert OVERFLOW * 3333 <= (EPOCH - 1) * 50;
      assert (k + 1) * OVERFLOW == k * OVERFLOW + OVERFLOW;
      Across(low, low', c, d);
    }
  }

  lemma Quotient(t: nat, k: nat, low: nat)
    requires t == k * EPOCH + low && low < EPOCH
    ensures t / EPOCH == k && t % EPOCH == low
  {
  }

  /** Across an overflow nothing is gained: the last tick of an epoch and the first of the next show the same time. */
  lemma Across(low: nat, low': nat, c: nat, d: nat)
    requires low < EPOCH && low + c == EPOCH + low' && c < EPOCH && c * 50 <= d * 3333
    ensures TicksToMicroseconds(low) <= OVERFLOW + TicksToMicroseconds(low') <= TicksToMicroseconds(low) + d
  {
    assert OVERFLOW * 3333 <= (EPOCH - 1) * 50;
    assert TicksToMicroseconds(low') * 3333 <= low' * 50;
  }

  /** The time stamp never decreases. */
  lemma {:induction false} Monotone(t: nat, t': nat)
    requires t <= t'
    ensures Stamp(t) <= Stamp(t')
    decreases t' - t
  {
    if t < t' {
      StampAdvance(t, 1, 1);
      Monotone(t + 1, t');
    }
  }
}
