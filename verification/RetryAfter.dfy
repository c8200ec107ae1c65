/** The Retry-After header of an in-flight rejection. */
module RetryAfter {
  import opened Basics

  const SECOND: int := 1_000_000_000
  const MAX_DURATION: int := TWO_63 - 1

  /** Two's-complement wrap-around of a 64-bit sum. */
  function Wrap64(i: int): (r: int)
    ensures -TWO_63 <= r < TWO_63
  {
    (i + TWO_63) % TWO_64 - TWO_63
  }

  /** Go's integer division, which truncates toward zero. */
  function TruncDiv(a: int, b: int): int
    requires b > 0
  {
    if a >= 0 then a / b else -((-a) / b)
  }

  /** `retryAfterSeconds`, on a duration in nanoseconds. */
  function Seconds(d: int): (secs: int)
    requires -TWO_63 <= d <= MAX_DURATION
    ensures 1 <= secs
  {
    Max(TruncDiv(Wrap64(d + SECOND - 1), SECOND), 1)
  }

  /** The ceiling the header promises: at least one second and no less than the remaining lease. */
  predicate Covers(secs: int, d: int) {
    secs >= 1 && secs * SECOND >= d
  }

  /** The header is the least number of seconds that covers the remaining lease exactly as long as
      rounding up does not overflow; past that point it does not cover it at all. */
  lemma SecondsIsCeiling(d: int)
    requires -TWO_63 <= d <= MAX_DURATION
    ensures Covers(Seconds(d), d) <==> d <= TWO_63 - SECOND
    ensures d <= TWO_63 - SECOND ==> forall s :: Covers(s, d) ==> Seconds(d) <= s
  {
    var sum := d + SECOND - 1;
    if d <= TWO_63 - SECOND {
      if -TWO_63 <= sum {
        assert Wrap64(sum) == sum;
      }
      if d > 0 {
        assert TruncDiv(sum, SECOND) == sum / SECOND;
      }
      forall s | Covers(s, d) ensures Seconds(d) <= s {
        if d > 0 {
          assert sum / SECOND <= s;
        }
      }
    } else {
      assert Wrap64(sum) == sum - TWO_64;
      assert TruncDiv(sum - TWO_64, SECOND) <= 0;
      assert Seconds(d) == 1;
    }
  }

  /** A client rejected at `now` because of a lease running until `until` that waits as long as the
      header says comes back when that lease is over. */
  lemma WaitingOutlivesTheLease(now: Time, until: Time, back: Time)
    requires now < until && until - now <= TWO_63 - SECOND
    requires back >= now + Seconds(until - now) * SECOND
    ensures back >= until
  {
    SecondsIsCeiling(until - now);
  }

  /** In nanoseconds: at most one second is one second, one nanosecond more is two, and so on. */
  lemma SecondsInNumbers(whole: int)
    requires 1 <= whole < 9_000_000_000
    ensures Seconds(0) == 1 && Seconds(-1) == 1
    ensures Seconds(whole * 1_000_000_000) == whole
    ensures Seconds(whole * 1_000_000_000 + 1) == whole + 1
    ensures Seconds(whole * 1_000_000_000 + 999_999_999) == whole + 1
  {
    SecondsAre(whole * 1_000_000_000, whole);
    SecondsAre(whole * 1_000_000_000 + 1, whole + 1);
    SecondsAre(whole * 1_000_000_000 + 999_999_999, whole + 1);
  }

  lemma SecondsAre(d: int, s: int)
    requires 0 < d <= 9_100_000_000_000_000_000
    requires s * 1_000_000_000 >= d > (s - 1) * 1_000_000_000
    ensures Seconds(d) == s
  {
    SecondsIsCeiling(d);
    assert Covers(s, d);
  }
}
