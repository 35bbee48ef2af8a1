/**
 * `TimeSerial`: hours, minutes and seconds folded into a time of day. The
 * total is computed in Java `long` arithmetic; a negative total is moved up
 * a day at a time until it is not negative, and a total beyond one day is
 * reduced modulo a day (a total of exactly one day is kept as it is).
 */
module TimeSerials {
  import opened JavaInt

  const SECONDS_PER_DAY: int := 24 * 60 * 60
  const SECONDS_PER_HOUR: int := 60 * 60
  const SECONDS_PER_MINUTE: int := 60

  /** Java's `long` range. */
  predicate IsInt64(x: int) {
    -0x8000_0000_0000_0000 <= x < 0x8000_0000_0000_0000
  }

  /** The number of seconds the three arguments add up to. */
  function TotalSeconds(hours: int, minutes: int, seconds: int): int {
    hours * SECONDS_PER_HOUR + minutes * SECONDS_PER_MINUTE + seconds
  }

  /** Three `int` arguments never overflow the `long` sum, so the exact total is the one computed. */
  lemma TotalFitsInLong(hours: int, minutes: int, seconds: int)
    requires IsInt32(hours) && IsInt32(minutes) && IsInt32(seconds)
    ensures IsInt64(TotalSeconds(hours, minutes, seconds))
    ensures IsInt64(hours * SECONDS_PER_HOUR) && IsInt64(minutes * SECONDS_PER_MINUTE)
  {
    assert -TWO_TO_31 * SECONDS_PER_HOUR <= hours * SECONDS_PER_HOUR <= TWO_TO_31 * SECONDS_PER_HOUR;
    assert -TWO_TO_31 * SECONDS_PER_MINUTE <= minutes * SECONDS_PER_MINUTE <= TWO_TO_31 * SECONDS_PER_MINUTE;
  }

  /**
   * The time of day, in seconds, for a total: the one value in
   * `0..SECONDS_PER_DAY` congruent to the total modulo a day, where a total of
   * exactly one day stays at `SECONDS_PER_DAY` and every other value lies
   * below it.
   */
  predicate IsTimeOfDay(total: int, t: int) {
    && 0 <= t <= SECONDS_PER_DAY
    && (t - total) % SECONDS_PER_DAY == 0
    && (t == SECONDS_PER_DAY <==> total == SECONDS_PER_DAY)
  }

  /** There is only one time of day for a total. */
  lemma TimeOfDayUnique(total: int, t: int, u: int)
    requires IsTimeOfDay(total, t) && IsTimeOfDay(total, u)
    ensures t == u
  {
    var d := t - u;
    assert d == (t - total) - (u - total);
    assert (t - total) == ((t - total) / SECONDS_PER_DAY) * SECONDS_PER_DAY;
    assert (u - total) == ((u - total) / SECONDS_PER_DAY) * SECONDS_PER_DAY;
    assert d == ((t - total) / SECONDS_PER_DAY - (u - total) / SECONDS_PER_DAY) * SECONDS_PER_DAY;
  }

  /** `TimeSerial`'s normalisation of the total number of seconds. */
  method TimeSerialSeconds(hours: int, minutes: int, seconds: int) returns (totalSeconds: int)
    ensures IsTimeOfDay(TotalSeconds(hours, minutes, seconds), totalSeconds)
    ensures 0 <= TotalSeconds(hours, minutes, seconds) <= SECONDS_PER_DAY ==> totalSeconds == TotalSeconds(hours, minutes, seconds)
  {
    ghost var total := TotalSeconds(hours, minutes, seconds);
    totalSeconds := hours * SECONDS_PER_HOUR + minutes * SECONDS_PER_MINUTE + seconds;
    if totalSeconds < 0 {
      totalSeconds := totalSeconds + SECONDS_PER_DAY;
      while totalSeconds < 0
        invariant totalSeconds < SECONDS_PER_DAY
        invariant (totalSeconds - total) % SECONDS_PER_DAY == 0
        decreases -totalSeconds
      {
        totalSeconds := totalSeconds + SECONDS_PER_DAY;
      }
    } else if totalSeconds > SECONDS_PER_DAY {
      totalSeconds := totalSeconds % SECONDS_PER_DAY;
      assert totalSeconds - total == -(total / SECONDS_PER_DAY) * SECONDS_PER_DAY;
    }
  }

  /** The time of day in closed form: the Euclidean remainder modulo a day, except for a total of exactly one day. */
  lemma TimeOfDayClosedForm(total: int, t: int)
    requires IsTimeOfDay(total, t)
    ensures t == if total == SECONDS_PER_DAY then SECONDS_PER_DAY else total % SECONDS_PER_DAY
  {
    if total != SECONDS_PER_DAY {
      var u := total % SECONDS_PER_DAY;
      assert u - total == -(total / SECONDS_PER_DAY) * SECONDS_PER_DAY;
      TimeOfDayUnique(total, t, u);
    }
  }
}
