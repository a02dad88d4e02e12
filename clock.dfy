/** Wall-clock instants as Python's `datetime` holds them, their order, and
    the two "start of the current month" instants the dashboards compute. */
module Clock {

  /** A naive local `datetime`, down to the microsecond. */
  datatype DateTime = DateTime(year: int, month: int, day: int,
                               hour: int, minute: int, second: int, micro: int)

  predicate IsLeapYear(y: int)
  {
    (y % 4 == 0 && y % 100 != 0) || y % 400 == 0
  }

  function DaysInMonth(y: int, m: int): int
  {
    if m == 2 then (if IsLeapYear(y) then 29 else 28)
    else if m == 4 || m == 6 || m == 9 || m == 11 then 30
    else 31
  }

  /** The ranges Python's `datetime` enforces (years 1 to 9999). */
  predicate Valid(t: DateTime)
  {
    1 <= t.year <= 9999 && 1 <= t.month <= 12 &&
    1 <= t.day <= DaysInMonth(t.year, t.month) &&
    0 <= t.hour < 24 && 0 <= t.minute < 60 && 0 <= t.second < 60 &&
    0 <= t.micro < 1000000
  }

  /** `a` comes strictly before `b`: field by field, most significant first. */
  predicate Before(a: DateTime, b: DateTime)
  {
    a.year < b.year || (a.year == b.year &&
    (a.month < b.month || (a.month == b.month &&
    (a.day < b.day || (a.day == b.day &&
    (a.hour < b.hour || (a.hour == b.hour &&
    (a.minute < b.minute || (a.minute == b.minute &&
    (a.second < b.second || (a.second == b.second &&
    a.micro < b.micro)))))))))))
  }

  /** The comparison `t >= start` the month filters perform. */
  predicate AtOrAfter(t: DateTime, start: DateTime)
  {
    !Before(t, start)
  }

  /** `Before` is a strict total order on instants, so `AtOrAfter` is a total preorder. */
  lemma BeforeIsStrictTotalOrder(a: DateTime, b: DateTime, c: DateTime)
    ensures !Before(a, a)
    ensures Before(a, b) ==> !Before(b, a)
    ensures Before(a, b) && Before(b, c) ==> Before(a, c)
    ensures Before(a, b) || Before(b, a) || a == b
  {
  }

  /** The reference meaning of "this month so far": `t` lies in the calendar
      month of `now` or in a later one. */
  predicate InMonthOrLater(t: DateTime, now: DateTime)
  {
    t.year > now.year || (t.year == now.year && t.month >= now.month)
  }

  /** `now.replace(day=1, hour=0, minute=0, second=0)` exactly as written in
      app.py: the microsecond of `now` survives. */
  function AppMonthStart(now: DateTime): (s: DateTime)
    ensures s.year == now.year && s.month == now.month && s.day == 1
    ensures s.hour == 0 && s.minute == 0 && s.second == 0 && s.micro == now.micro
  {
    now.(day := 1, hour := 0, minute := 0, second := 0)
  }

  /** The first instant of the calendar month of `now`. */
  function MonthStart(now: DateTime): (s: DateTime)
    requires Valid(now)
    ensures Valid(s)
    ensures forall t :: Valid(t) ==> (AtOrAfter(t, s) <==> InMonthOrLater(t, now))
  {
    DateTime(now.year, now.month, 1, 0, 0, 0, 0)
  }

  /** The month start as written misses every arrival in the first
      `now.micro` microseconds of the month: such an arrival is in the month,
      yet does not compare `>=` the computed start. */
  lemma AppMonthStartSkipsFirstInstant(now: DateTime)
    requires Valid(now) && now.micro > 0
    ensures Valid(MonthStart(now)) && InMonthOrLater(MonthStart(now), now)
    ensures !AtOrAfter(MonthStart(now), AppMonthStart(now))
  {
  }

  /** `t` falls in the first `now.micro` microseconds of `now`'s month. */
  predicate InFirstMicros(t: DateTime, now: DateTime)
  {
    t.year == now.year && t.month == now.month && t.day == 1 &&
    t.hour == 0 && t.minute == 0 && t.second == 0 && t.micro < now.micro
  }

  /** Exactly where the written month start and the intended one disagree: on
      the arrivals during the first `now.micro` microseconds of the month. */
  lemma AppMonthStartDiffers(now: DateTime, t: DateTime)
    requires Valid(now) && Valid(t)
    ensures AtOrAfter(t, AppMonthStart(now)) <==> InMonthOrLater(t, now) && !InFirstMicros(t, now)
  {
  }
}
