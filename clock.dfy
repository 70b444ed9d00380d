/** Millisecond clock arithmetic shared by the three timer components.
    Instants are integer milliseconds (JavaScript `Date.getTime()`); Dafny's `/` and `%`
    by a positive constant round towards minus infinity, as `Math.floor` does. */
module Clock {

  const MsPerSecond := 1000
  const MsPerMinute := 60000

  /** `x / d` is the floor of x over d: the only q with q*d <= x < q*d + d. */
  lemma DivIsFloor(x: int, d: int, q: int)
    requires d > 0
    requires q * d <= x < q * d + d
    ensures x / d == q
  {
    var q' := x / d;
    assert q' * d <= x < q' * d + d;
    if q' < q {
      assert (q - 1) * d == q * d - d;
      MulMonotone(q', q - 1, d);
    } else if q' > q {
      assert (q + 1) * d == q * d + d;
      MulMonotone(q + 1, q', d);
    }
  }

  lemma MulMonotone(a: int, b: int, d: int)
    requires a <= b && d > 0
    ensures a * d <= b * d
  {
    assert b * d - a * d == (b - a) * d;
  }

  /** k periods of length d are k - 1 periods and one more. */
  lemma OneMorePeriod(k: int, d: int)
    ensures (k - 1) * d + d == k * d
  {
  }

  /** Whole seconds from `now` until `deadline`, rounded down
      (`Math.floor((deadline - now) / 1000)`); negative once the deadline has passed. */
  function SecondsUntil(deadline: int, now: int): (r: int)
    ensures r * MsPerSecond <= deadline - now < r * MsPerSecond + MsPerSecond
    ensures r >= 0 <==> deadline >= now
  {
    (deadline - now) / MsPerSecond
  }

  /** Seconds-of-minute field of an instant. */
  function SecondsField(t: int): int
  {
    (t / MsPerSecond) % 60
  }

  /** `Date.setSeconds(0)` at the resolution of the model: the seconds field becomes 0,
      the milliseconds field and the minute are kept. */
  function DropSeconds(t: int): (r: int)
    ensures SecondsField(r) == 0
    ensures r % MsPerSecond == t % MsPerSecond
    ensures r / MsPerMinute == t / MsPerMinute
    ensures r <= t < r + MsPerMinute
    ensures t - r <= 59 * MsPerSecond && (t - r) % MsPerSecond == 0
  {
    var q, ms := t / 1000, t % 1000;
    var m, s := q / 60, q % 60;
    assert t == 60000 * m + 1000 * s + ms;
    var r := t - s * 1000;
    assert r == 60000 * m + ms;
    DivIsFloor(r, 1000, 60 * m);
    DivIsFloor(r, 60000, m);
    DivIsFloor(t, 60000, m);
    r
  }

  /** An instant whose seconds field is already 0 is left alone. */
  lemma DropSecondsKeepsWholeMinute(t: int)
    requires SecondsField(t) == 0
    ensures DropSeconds(t) == t
  {
  }

  /** Whole minutes do not change the seconds field, so dropping the seconds commutes with
      adding them. */
  lemma DropSecondsShift(t: int, k: int)
    ensures SecondsField(t + k * MsPerMinute) == SecondsField(t)
    ensures DropSeconds(t + k * MsPerMinute) == DropSeconds(t) + k * MsPerMinute
  {
    var q := t / 1000;
    DivIsFloor(t + k * 60000, 1000, q + 60 * k);
    var m := q / 60;
    assert q == 60 * m + q % 60;
    DivIsFloor(q + 60 * k, 60, m + k);
    assert (q + 60 * k) % 60 == q + 60 * k - 60 * (m + k);
  }
}
