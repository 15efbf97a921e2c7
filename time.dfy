/** System.DateTime as a count of 100-nanosecond ticks since 0001-01-01. */
module Time {

  const TicksPerDay: nat := 864_000_000_000

  /** DateTime.MaxValue.Ticks (the last tick of 9999-12-31). */
  const MaxTicks: nat := 3_155_378_975_999_999_999

  type DateTime = t: int | 0 <= t <= MaxTicks

  /** DateTime.Date: midnight at the start of the day t falls on. */
  function DatePart(t: DateTime): (d: DateTime)
    ensures d <= t < d + TicksPerDay
    ensures d % TicksPerDay == 0
  {
    t - t % TicksPerDay
  }

  /** The start of t's day is the latest midnight not after t. */
  lemma MidnightBeforeIsAtMostDatePart(m: int, t: DateTime)
    requires m % TicksPerDay == 0 && m <= t
    ensures m <= DatePart(t)
  {
    var d := DatePart(t);
    var p, q := m / TicksPerDay, d / TicksPerDay;
    assert m == p * TicksPerDay;
    assert d == q * TicksPerDay;
    assert p * TicksPerDay < q * TicksPerDay + TicksPerDay;
    assert p <= q;
  }

  /** Comparing dates is comparing an instant with the start of a day:
      DatePart(t) >= DatePart(now) exactly when t is at or after today's midnight. */
  lemma {:induction false} DatePartOrder(t: DateTime, now: DateTime)
    ensures DatePart(t) >= DatePart(now) <==> t >= DatePart(now)
  {
    if t >= DatePart(now) {
      MidnightBeforeIsAtMostDatePart(DatePart(now), t);
    }
  }
}
