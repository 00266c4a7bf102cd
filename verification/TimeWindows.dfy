/** Time windows: `getIntervalOpenTime` and `intervalToDuration` of
    internal/services/aggregator/interval_aggregator.go, `TruncateToInterval` of
    internal/models/candle.go, and the calendar they rest on. */
module TimeWindows {
  import opened Candles

  const MINUTE: int := 60
  const HOUR: int := 3600
  const DAY: int := 86400

  // ---------------------------------------------------------------- calendar

  predicate IsLeap(y: int) {
    y % 4 == 0 && (y % 100 != 0 || y % 400 == 0)
  }

  function DaysInYear(y: int): int {
    if IsLeap(y) then 366 else 365
  }

  function DaysInMonth(y: int, m: int): int {
    if m == 2 then (if IsLeap(y) then 29 else 28)
    else if m == 4 || m == 6 || m == 9 || m == 11 then 30
    else 31
  }

  /** Days from 0001-01-01 to January 1 of year y, in closed form. */
  function DaysBeforeYear(y: int): int
    requires y >= 1
  {
    365 * (y - 1) + (y - 1) / 4 - (y - 1) / 100 + (y - 1) / 400
  }

  /** Days from January 1 to the first of month m. */
  function DaysBeforeMonth(y: int, m: int): int
    requires 1 <= m <= 13
  {
    if m == 1 then 0 else DaysBeforeMonth(y, m - 1) + DaysInMonth(y, m - 1)
  }

  /** Days between the zero time of Go's clock and 1970-01-01. */
  const EPOCH_DAYS: int := 719162

  /** The day number (from 1970-01-01) of year y, month m, day d. As in
      `time.Date`, a day outside the month overflows into its neighbours. */
  function DayNumber(y: int, m: int, d: int): int
    requires y >= 1970 && 1 <= m <= 12
  {
    DaysBeforeYear(y) - EPOCH_DAYS + DaysBeforeMonth(y, m) + d - 1
  }

  datatype Civil = Civil(year: int, month: int, day: int)

  /** The year that day number n belongs to, searched upwards from y. */
  function YearFrom(n: int, y: int): (r: int)
    requires y >= 1970 && DaysBeforeYear(y) - EPOCH_DAYS <= n
    ensures r >= y
    ensures DaysBeforeYear(r) <= n + EPOCH_DAYS < DaysBeforeYear(r + 1)
    decreases n + EPOCH_DAYS - DaysBeforeYear(y)
  {
    if n + EPOCH_DAYS < DaysBeforeYear(y + 1) then y else YearFrom(n, y + 1)
  }

  /** The month of year y that the k-th day of the year belongs to, searched upwards from m. */
  function MonthFrom(y: int, k: int, m: int): (r: int)
    requires 1 <= m <= 12 && DaysBeforeMonth(y, m) <= k < DaysBeforeMonth(y, 13)
    ensures m <= r <= 12
    ensures DaysBeforeMonth(y, r) <= k < DaysBeforeMonth(y, r + 1)
    decreases 12 - m
  {
    if m == 12 || k < DaysBeforeMonth(y, m + 1) then m else MonthFrom(y, k, m + 1)
  }

  lemma YearLength(y: int)
    requires y >= 1
    ensures DaysBeforeYear(y + 1) == DaysBeforeYear(y) + DaysInYear(y)
  {
    NextQuotient(y, 4);
    NextQuotient(y, 100);
    NextQuotient(y, 400);
    CenturyYears(y);
  }

  lemma CenturyYears(y: int)
    ensures y % 100 == 0 ==> y % 4 == 0
    ensures y % 400 == 0 ==> y % 100 == 0
  {
    if y % 100 == 0 {
      MultipleOfFour(y, y / 100 * 25);
    }
    if y % 400 == 0 {
      MultipleOfHundred(y, y / 400 * 4);
    }
  }

  lemma MultipleOfFour(y: int, k: int)
    ensures y == 4 * k ==> y % 4 == 0
  {
  }

  lemma MultipleOfHundred(y: int, k: int)
    ensures y == 100 * k ==> y % 100 == 0
  {
  }

  lemma NextQuotient(y: int, k: int)
    requires k == 4 || k == 100 || k == 400
    ensures y / k == (y - 1) / k + (if y % k == 0 then 1 else 0)
  {
  }

  lemma MonthsFillYear(y: int)
    ensures DaysBeforeMonth(y, 13) == DaysInYear(y)
  {
    assert DaysBeforeMonth(y, 2) == 31;
    assert DaysBeforeMonth(y, 3) == DaysInYear(y) - 306;
    assert DaysBeforeMonth(y, 5) == DaysInYear(y) - 245;
    assert DaysBeforeMonth(y, 7) == DaysInYear(y) - 184;
    assert DaysBeforeMonth(y, 9) == DaysInYear(y) - 122;
    assert DaysBeforeMonth(y, 11) == DaysInYear(y) - 61;
  }

  /** Months start where the Gregorian calendar puts them, in closed form. */
  lemma MonthsInClosedForm(y: int, m: int)
    requires 1 <= m <= 12
    ensures DaysBeforeMonth(y, m) == (367 * m - 362) / 12 - (if m <= 2 then 0 else if IsLeap(y) then 1 else 2)
  {
    assert DaysBeforeMonth(y, 2) == 31;
    assert DaysBeforeMonth(y, 3) == DaysInYear(y) - 306;
    assert DaysBeforeMonth(y, 5) == DaysInYear(y) - 245;
    assert DaysBeforeMonth(y, 7) == DaysInYear(y) - 184;
    assert DaysBeforeMonth(y, 9) == DaysInYear(y) - 122;
    assert DaysBeforeMonth(y, 11) == DaysInYear(y) - 61;
  }

  /** The calendar date of day number n. */
  function CivilOf(n: nat): (c: Civil)
    ensures c.year >= 1970 && 1 <= c.month <= 12 && 1 <= c.day <= DaysInMonth(c.year, c.month)
    ensures DayNumber(c.year, c.month, c.day) == n
  {
    var y := YearFrom(n, 1970);
    var k := n + EPOCH_DAYS - DaysBeforeYear(y);
    YearLength(y);
    MonthsFillYear(y);
    var m := MonthFrom(y, k, 1);
    Civil(y, m, k - DaysBeforeMonth(y, m) + 1)
  }

  /** Year starts are strictly ordered. */
  lemma {:induction false} YearsOrdered(y: int, z: int)
    requires 1 <= y < z
    ensures DaysBeforeYear(y) + DaysInYear(y) <= DaysBeforeYear(z)
    decreases z - y
  {
    YearLength(y);
    if y + 1 < z {
      YearsOrdered(y + 1, z);
    }
  }

  lemma {:induction false} MonthsOrdered(y: int, m: int, k: int)
    requires 1 <= m < k <= 13
    ensures DaysBeforeMonth(y, m) + DaysInMonth(y, m) <= DaysBeforeMonth(y, k)
    decreases k - m
  {
    if m + 1 < k {
      MonthsOrdered(y, m, k - 1);
    }
  }

  predicate ValidDate(c: Civil) {
    c.year >= 1970 && 1 <= c.month <= 12 && 1 <= c.day <= DaysInMonth(c.year, c.month)
  }

  predicate Earlier(c: Civil, d: Civil) {
    c.year < d.year || (c.year == d.year && (c.month < d.month || (c.month == d.month && c.day < d.day)))
  }

  lemma DayOfYearBounds(c: Civil)
    requires ValidDate(c)
    ensures 0 <= DaysBeforeMonth(c.year, c.month) + c.day - 1 < DaysInYear(c.year)
  {
    MonthsFillYear(c.year);
    MonthsOrdered(c.year, c.month, 13);
    if c.month > 1 {
      MonthsOrdered(c.year, 1, c.month);
    }
  }

  /** Day numbers follow the calendar order. */
  lemma DayNumbersOrdered(c: Civil, d: Civil)
    requires ValidDate(c) && ValidDate(d) && Earlier(c, d)
    ensures DayNumber(c.year, c.month, c.day) < DayNumber(d.year, d.month, d.day)
  {
    if c.year < d.year {
      DayOfYearBounds(c);
      DayOfYearBounds(d);
      YearsOrdered(c.year, d.year);
    } else if c.month < d.month {
      MonthsOrdered(c.year, c.month, d.month);
    }
  }

  lemma DayNumberNonNegative(c: Civil)
    requires ValidDate(c)
    ensures DayNumber(c.year, c.month, c.day) >= 0
  {
    DayOfYearBounds(c);
    assert DaysBeforeYear(1970) == EPOCH_DAYS;
    if c.year > 1970 {
      YearsOrdered(1970, c.year);
    }
  }

  /** A calendar date is recovered from its day number. */
  lemma CivilRoundTrip(c: Civil)
    requires ValidDate(c)
    ensures DayNumber(c.year, c.month, c.day) >= 0
    ensures CivilOf(DayNumber(c.year, c.month, c.day)) == c
  {
    DayNumberNonNegative(c);
    var d := CivilOf(DayNumber(c.year, c.month, c.day));
    if Earlier(c, d) {
      DayNumbersOrdered(c, d);
    } else if Earlier(d, c) {
      DayNumbersOrdered(d, c);
    }
  }

  // --------------------------------------------------------------- clock fields

  function DayOf(t: int): int { t / DAY }

  function HourOf(t: int): int { t % DAY / HOUR }

  function MinuteOf(t: int): int { t % HOUR / MINUTE }

  /** Sunday is 0; 1970-01-01 was a Thursday. */
  function WeekdayOf(t: int): int { (DayOf(t) + 4) % 7 }

  function DayOfMonth(t: nat): int
  {
    CivilOf(DayOf(t)).day
  }

  /** `time.Date` in UTC with seconds and nanoseconds zero. */
  function Date(y: int, m: int, d: int, hour: int, minute: int): int
    requires y >= 1970 && 1 <= m <= 12
  {
    DayNumber(y, m, d) * DAY + hour * HOUR + minute * MINUTE
  }

  // --------------------------------------------------------------- interval windows

  /** `getIntervalOpenTime` */
  function OpenTime(t: nat, iv: Interval): int
  {
    var c := CivilOf(DayOf(t));
    match iv
    case M3 => Date(c.year, c.month, c.day, HourOf(t), MinuteOf(t) / 3 * 3)
    case M5 => Date(c.year, c.month, c.day, HourOf(t), MinuteOf(t) / 5 * 5)
    case M15 => Date(c.year, c.month, c.day, HourOf(t), MinuteOf(t) / 15 * 15)
    case M30 => Date(c.year, c.month, c.day, HourOf(t), MinuteOf(t) / 30 * 30)
    case H1 => Date(c.year, c.month, c.day, HourOf(t), 0)
    case H2 => Date(c.year, c.month, c.day, HourOf(t) / 2 * 2, 0)
    case H4 => Date(c.year, c.month, c.day, HourOf(t) / 4 * 4, 0)
    case H6 => Date(c.year, c.month, c.day, HourOf(t) / 6 * 6, 0)
    case H8 => Date(c.year, c.month, c.day, HourOf(t) / 8 * 8, 0)
    case H12 => Date(c.year, c.month, c.day, HourOf(t) / 12 * 12, 0)
    case D1 => Date(c.year, c.month, c.day, 0, 0)
    case D3 => t / DAY / 3 * 3 * DAY
    case W1 =>
      var weekday := if WeekdayOf(t) == 0 then 7 else WeekdayOf(t);
      Date(c.year, c.month, c.day - (weekday - 1), 0, 0)
    case Mo1 => Date(c.year, c.month, 1, 0, 0)
    case _ => t
  }

  /** `intervalToDuration`, in seconds. */
  function Duration(iv: Interval): (d: int)
    ensures d >= MINUTE
  {
    match iv
    case M3 => 3 * MINUTE
    case M5 => 5 * MINUTE
    case M15 => 15 * MINUTE
    case M30 => 30 * MINUTE
    case H1 => HOUR
    case H2 => 2 * HOUR
    case H4 => 4 * HOUR
    case H6 => 6 * HOUR
    case H8 => 8 * HOUR
    case H12 => 12 * HOUR
    case D1 => DAY
    case D3 => 3 * DAY
    case W1 => 7 * DAY
    case Mo1 => 30 * DAY
    case _ => MINUTE
  }

  /** The intervals built from 1m candles, in the order the aggregator visits them. */
  const INTERVALS: seq<Interval> := [M3, M5, M15, M30, H1, H2, H4, H6, H8, H12, D1, D3, W1, Mo1]

  /** The intervals listed in INTERVALS. */
  predicate Derived(iv: Interval) {
    !iv.S1? && !iv.M1? && !iv.Other?
  }

  /** The derived intervals whose windows all have the same length. */
  predicate FixedLength(iv: Interval) {
    Derived(iv) && !iv.Mo1?
  }

  /** Where a derived interval stands in INTERVALS. */
  function Position(iv: Interval): int {
    match iv
    case M3 => 0 case M5 => 1 case M15 => 2 case M30 => 3 case H1 => 4 case H2 => 5 case H4 => 6
    case H6 => 7 case H8 => 8 case H12 => 9 case D1 => 10 case D3 => 11 case W1 => 12 case _ => 13
  }

  lemma Positions(i: int)
    requires 0 <= i < |INTERVALS|
    ensures Position(INTERVALS[i]) == i && Derived(INTERVALS[i])
  {
  }

  lemma PositionOf(iv: Interval)
    requires Derived(iv)
    ensures 0 <= Position(iv) < |INTERVALS| && INTERVALS[Position(iv)] == iv
  {
  }

  lemma AllButThree()
    ensures forall iv :: Derived(iv) <==> iv != S1 && iv != M1 && !iv.Other?
  {
  }

  lemma IntervalList()
    ensures forall iv :: iv in INTERVALS <==> Derived(iv)
    ensures forall i, j :: 0 <= i < j < |INTERVALS| ==> INTERVALS[i] != INTERVALS[j]
    ensures |INTERVALS| == 14 && forall iv :: Derived(iv) <==> iv != S1 && iv != M1 && !iv.Other?
  {
    AllButThree();
    hide Position, Derived;
    forall iv: Interval ensures iv in INTERVALS <==> Derived(iv) {
      if Derived(iv) {
        PositionOf(iv);
      }
      if iv in INTERVALS {
        var i :| 0 <= i < |INTERVALS| && INTERVALS[i] == iv;
        Positions(i);
      }
    }
    forall i, j | 0 <= i < j < |INTERVALS| ensures INTERVALS[i] != INTERVALS[j] {
      Positions(i);
      Positions(j);
    }
  }

  /** Each interval is visited once. */
  lemma NextInterval(i: int)
    requires 0 <= i < |INTERVALS|
    ensures Derived(INTERVALS[i]) && INTERVALS[i] !in INTERVALS[..i]
    ensures INTERVALS[..i + 1] == INTERVALS[..i] + [INTERVALS[i]]
  {
    IntervalList();
    var x := INTERVALS[i];
    assert x in INTERVALS;
  }

  /** Where the windows of a fixed-length interval start counting: 1970-01-01,
      except that weeks count from Monday 1970-01-05. */
  function Phase(iv: Interval): int {
    if iv == W1 then 4 * DAY else 0
  }

  /** Floor to a multiple of d counted from `phase`. */
  function FloorTo(t: int, d: int, phase: int): int
    requires d > 0
  {
    t - (t - phase) % d
  }

  lemma FloorQuotient(t: int, d: int, phase: int)
    requires d > 0
    ensures FloorTo(t, d, phase) == phase + (t - phase) / d * d
    ensures FloorTo(t, d, phase) <= t < FloorTo(t, d, phase) + d
  {
    assert t - phase == (t - phase) / d * d + (t - phase) % d;
  }

  /** The floor of t is the q-th window start when t lies in the q-th window. */
  lemma FloorAt(t: int, d: int, phase: int, q: int)
    requires d > 0 && phase + q * d <= t < phase + q * d + d
    ensures FloorTo(t, d, phase) == phase + q * d
  {
    FloorQuotient(t, d, phase);
    GridOrder((t - phase) / d, q, d);
    GridOrder(q, (t - phase) / d, d);
  }

  lemma ClockFields(t: nat)
    ensures 0 <= HourOf(t) < 24 && 0 <= MinuteOf(t) < 60
    ensures 0 <= t - (DayOf(t) * DAY + HourOf(t) * HOUR + MinuteOf(t) * MINUTE) < MINUTE
  {
    var s := t % DAY;
    assert t == DayOf(t) * DAY + s;
    assert s == s / HOUR * HOUR + s % HOUR;
    assert t % HOUR == s % HOUR by {
      assert t == (DayOf(t) * 24 + s / HOUR) * HOUR + s % HOUR;
    }
  }

  /** A time made of q groups of k units, e more units and a rest starts its k-unit window at group q. */
  lemma UnitSpan(t: int, unit: int, k: int, q: int, e: int, rest: int)
    requires unit > 0 && 0 <= e < k && 0 <= rest < unit
    requires t == (q * k + e) * unit + rest
    ensures FloorTo(t, k * unit, 0) == q * k * unit
  {
    assert (q * k + e) * unit == q * k * unit + e * unit;
    assert q * (k * unit) == q * k * unit;
    GridOrder(e, k, unit);
    FloorAt(t, k * unit, 0, q);
  }

  /** Rounding a clock field down to a multiple of k, when k divides its range n. */
  lemma FieldSpan(t: int, unit: int, n: int, base: int, field: int, rest: int, k: int, per: int)
    requires unit > 0 && k > 0 && per * k == n && 0 <= rest < unit
    requires t == (base * n + field) * unit + rest
    ensures FloorTo(t, k * unit, 0) == (base * n + field / k * k) * unit
  {
    var q := base * per + field / k;
    assert q * k == base * n + field / k * k by {
      assert base * per * k == base * (per * k);
    }
    UnitSpan(t, unit, k, q, field % k, rest);
  }

  lemma MinuteSpan(t: nat, k: int, perHour: int)
    requires k > 0 && perHour * k == 60
    ensures FloorTo(t, k * MINUTE, 0) == DayOf(t) * DAY + HourOf(t) * HOUR + MinuteOf(t) / k * k * MINUTE
  {
    ClockFields(t);
    var hours := DayOf(t) * 24 + HourOf(t);
    FieldSpan(t, MINUTE, 60, hours, MinuteOf(t), t - (hours * 60 + MinuteOf(t)) * MINUTE, k, perHour);
  }

  lemma HourSpan(t: nat, k: int, perDay: int)
    requires k > 0 && perDay * k == 24
    ensures FloorTo(t, k * HOUR, 0) == DayOf(t) * DAY + HourOf(t) / k * k * HOUR
  {
    ClockFields(t);
    FieldSpan(t, HOUR, 24, DayOf(t), HourOf(t), t - (DayOf(t) * 24 + HourOf(t)) * HOUR, k, perDay);
  }

  lemma ClockWindows(t: nat, iv: Interval)
    requires FixedLength(iv) && Duration(iv) < DAY
    ensures OpenTime(t, iv) == FloorTo(t, Duration(iv), 0)
  {
    match iv
    case M3 => MinuteSpan(t, 3, 20);
    case M5 => MinuteSpan(t, 5, 12);
    case M15 => MinuteSpan(t, 15, 4);
    case M30 => MinuteSpan(t, 30, 2);
    case H1 => HourSpan(t, 1, 24);
    case H2 => HourSpan(t, 2, 12);
    case H4 => HourSpan(t, 4, 6);
    case H6 => HourSpan(t, 6, 4);
    case H8 => HourSpan(t, 8, 3);
    case H12 => HourSpan(t, 12, 2);
  }

  lemma DaySpan(t: int, n: int, phase: int, q: int)
    requires n > 0 && phase + q * n <= DayOf(t) < phase + q * n + n
    ensures FloorTo(t, n * DAY, phase * DAY) == (phase + q * n) * DAY
  {
    var day := DayOf(t);
    assert day * DAY <= t < day * DAY + DAY;
    assert (phase + q * n) * DAY == phase * DAY + q * (n * DAY);
    FloorAt(t, n * DAY, phase * DAY, q);
  }

  /** Going back to Monday by weekday number lands on a multiple of 7 days from 1970-01-05. */
  lemma MondayOf(day: int)
    ensures var w := (day + 4) % 7;
            day - ((if w == 0 then 7 else w) - 1) == 4 + (day - 4) / 7 * 7
  {
  }

  lemma DayWindows(t: nat, iv: Interval)
    requires FixedLength(iv) && Duration(iv) >= DAY
    ensures OpenTime(t, iv) == FloorTo(t, Duration(iv), Phase(iv))
  {
    var day := DayOf(t);
    match iv
    case D1 => DaySpan(t, 1, 0, day);
    case D3 => DaySpan(t, 3, 0, day / 3);
    case W1 =>
      MondayOf(day);
      DaySpan(t, 7, 4, (day - 4) / 7);
  }

  /** Truncation by calendar fields is truncation by arithmetic. */
  lemma OpenTimeIsFloor(t: nat, iv: Interval)
    requires FixedLength(iv)
    ensures OpenTime(t, iv) == FloorTo(t, Duration(iv), Phase(iv))
  {
    if Duration(iv) < DAY {
      ClockWindows(t, iv);
    } else {
      DayWindows(t, iv);
    }
  }

  /** The q-th window counted from 1970 contains the times from its start to its end. */
  lemma WindowAt(t: nat, iv: Interval, q: int)
    requires FixedLength(iv) && Phase(iv) == 0 && q * Duration(iv) <= t < q * Duration(iv) + Duration(iv)
    ensures OpenTime(t, iv) == q * Duration(iv)
  {
    hide OpenTime, Duration;
    OpenTimeIsFloor(t, iv);
    FloorAt(t, Duration(iv), 0, q);
  }

  /** A window of a fixed-length interval contains exactly the times it is the
      window of, so the windows partition time. */
  lemma WindowsPartitionTime(t: nat, u: nat, iv: Interval)
    requires FixedLength(iv)
    ensures OpenTime(t, iv) <= t < OpenTime(t, iv) + Duration(iv)
    ensures OpenTime(t, iv) <= u < OpenTime(t, iv) + Duration(iv) <==> OpenTime(u, iv) == OpenTime(t, iv)
    ensures t <= u ==> OpenTime(t, iv) <= OpenTime(u, iv)
  {
    OpenTimeIsFloor(t, iv);
    OpenTimeIsFloor(u, iv);
    FloorsAreOrdered(t, u, Duration(iv), Phase(iv));
  }

  lemma FloorsAreOrdered(t: int, u: int, d: int, phase: int)
    requires d > 0
    ensures FloorTo(t, d, phase) <= u < FloorTo(t, d, phase) + d <==> FloorTo(u, d, phase) == FloorTo(t, d, phase)
    ensures t <= u ==> FloorTo(t, d, phase) <= FloorTo(u, d, phase)
  {
    FloorQuotient(t, d, phase);
    FloorQuotient(u, d, phase);
    var q, p := (t - phase) / d, (u - phase) / d;
    GridOrder(q, p, d);
    GridOrder(p, q, d);
  }

  /** Different windows of a fixed-length interval start at least one length apart. */
  lemma StartsApart(t: nat, u: nat, iv: Interval)
    requires FixedLength(iv) && OpenTime(t, iv) < OpenTime(u, iv)
    ensures OpenTime(t, iv) + Duration(iv) <= OpenTime(u, iv)
  {
    OpenTimeIsFloor(t, iv);
    OpenTimeIsFloor(u, iv);
    FloorsApart(t, u, Duration(iv), Phase(iv));
  }

  lemma FloorsApart(t: int, u: int, d: int, phase: int)
    requires d > 0
    ensures FloorTo(t, d, phase) < FloorTo(u, d, phase) ==> FloorTo(t, d, phase) + d <= FloorTo(u, d, phase)
  {
    FloorQuotient(t, d, phase);
    FloorQuotient(u, d, phase);
    GridOrder((t - phase) / d, (u - phase) / d, d);
    GridOrder((u - phase) / d, (t - phase) / d, d);
  }

  /** A window start is its own window start. (A week that contains
      1970-01-01 starts before 1970, outside the modelled times.) */
  lemma OpenTimeIdempotent(t: nat, iv: Interval)
    requires Derived(iv) && OpenTime(t, iv) >= 0
    ensures OpenTime(OpenTime(t, iv), iv) == OpenTime(t, iv)
  {
    if iv == Mo1 {
      MonthWindow(t);
      var c := CivilOf(DayOf(t));
      CivilRoundTrip(Civil(c.year, c.month, 1));
      assert DayOf(OpenTime(t, iv)) == DayNumber(c.year, c.month, 1);
    } else {
      WindowsPartitionTime(t, OpenTime(t, iv), iv);
    }
  }

  /** A calendar month starts on its first day; its fixed 30-day window misses exactly day 31. */
  lemma MonthWindow(t: nat)
    ensures OpenTime(t, Mo1) == FirstDay(DayOf(t)) * DAY
    ensures 0 <= OpenTime(t, Mo1) <= t
    ensures t < OpenTime(t, Mo1) + Duration(Mo1) <==> DayOfMonth(t) <= 30
  {
    var c := CivilOf(DayOf(t));
    CivilRoundTrip(Civil(c.year, c.month, 1));
  }

  /** Month starts never decrease. */
  lemma MonthStartsOrdered(t: nat, u: nat)
    requires t <= u
    ensures OpenTime(t, Mo1) <= OpenTime(u, Mo1)
  {
    MonthWindow(t);
    MonthWindow(u);
    FirstDaysOrdered(DayOf(t), DayOf(u));
  }

  function FirstDay(n: nat): int {
    n - (CivilOf(n).day - 1)
  }

  lemma FirstDayInMonth(n: nat)
    ensures 0 <= FirstDay(n) <= n
  {
    var c := CivilOf(n);
    DayNumberNonNegative(Civil(c.year, c.month, 1));
  }

  lemma FirstDaysOrdered(n: nat, k: nat)
    requires n <= k
    ensures FirstDay(n) <= FirstDay(k)
  {
    FirstDayInMonth(n);
    var f := FirstDay(n);
    SameMonth(f, n);
    if FirstDay(k) < f {
      SameMonth(f, k);
    }
  }

  /** Days of one month have the same first day. */
  lemma SameMonth(n: nat, k: nat)
    requires FirstDay(k) <= n <= k
    ensures FirstDay(n) == FirstDay(k)
  {
    var c := CivilOf(k);
    CivilRoundTrip(Civil(c.year, c.month, c.day - (k - n)));
  }

  /** Whether t falls inside the window that `getIntervalOpenTime` and
      `intervalToDuration` give it. */
  predicate InOwnWindow(t: nat, iv: Interval)
  {
    OpenTime(t, iv) <= t < OpenTime(t, iv) + Duration(iv)
  }

  /** No window starts after the times it is the window of; for an interval that
      is not derived every time is its own window start. */
  lemma OpenTimeNotAfter(t: nat, iv: Interval)
    ensures OpenTime(t, iv) <= t
    ensures !Derived(iv) ==> OpenTime(t, iv) == t
  {
    if iv == Mo1 {
      MonthWindow(t);
    } else if FixedLength(iv) {
      WindowsPartitionTime(t, t, iv);
    }
  }

  /** Exactly when a time lies in its own window, for every aggregated interval. */
  lemma InOwnWindowExactly(t: nat, iv: Interval)
    requires Derived(iv)
    ensures InOwnWindow(t, iv) <==> (iv == Mo1 ==> DayOfMonth(t) <= 30)
  {
    if iv == Mo1 {
      MonthWindow(t);
    } else {
      WindowsPartitionTime(t, t, iv);
    }
  }

  // --------------------------------------------------------------- nesting

  /** The windows of `fine` subdivide those of `coarse`. */
  predicate Nests(fine: Interval, coarse: Interval) {
    && FixedLength(fine) && FixedLength(coarse)
    && Duration(coarse) % Duration(fine) == 0
    && (Phase(coarse) - Phase(fine)) % Duration(fine) == 0
  }

  /** The pairs that nest among the aggregated intervals include these. */
  lemma NestingPairs()
    ensures Nests(M5, M15) && Nests(M15, H1) && Nests(H1, H4) && Nests(H4, D1)
    ensures Nests(D1, W1) && Nests(D1, D3) && Nests(M3, M15) && Nests(H6, H12)
    ensures !Nests(M3, M5) && !Nests(D3, W1)
  {
  }

  lemma NestedWindow(t: nat, fine: Interval, coarse: Interval)
    requires Nests(fine, coarse)
    ensures OpenTime(t, coarse) <= OpenTime(t, fine)
    ensures OpenTime(t, fine) + Duration(fine) <= OpenTime(t, coarse) + Duration(coarse)
  {
    OpenTimeIsFloor(t, fine);
    OpenTimeIsFloor(t, coarse);
    NestedFloors(t, Duration(fine), Duration(coarse), Phase(fine), Phase(coarse));
  }

  lemma NestedFloors(t: int, df: int, dc: int, pf: int, pc: int)
    requires df > 0 && dc > 0 && dc % df == 0 && (pc - pf) % df == 0
    ensures FloorTo(t, dc, pc) <= FloorTo(t, df, pf)
    ensures FloorTo(t, df, pf) + df <= FloorTo(t, dc, pc) + dc
  {
    FloorQuotient(t, dc, pc);
    var shift, ratio, q := (pc - pf) / df, dc / df, (t - pc) / dc;
    var k := shift + q * ratio;
    assert pf + k * df == pc + q * dc by {
      assert k * df == shift * df + q * (ratio * df);
    }
    assert (k + ratio) * df == k * df + dc;
    GridPoint(t, df, pf, k);
    GridPoint(t, df, pf, k + ratio);
  }

  /** A window start at or before t is at or before the start of t's window, and one after t is at or after its end. */
  lemma GridPoint(t: int, d: int, phase: int, k: int)
    requires d > 0
    ensures phase + k * d <= t ==> phase + k * d <= FloorTo(t, d, phase)
    ensures t < phase + k * d ==> FloorTo(t, d, phase) + d <= phase + k * d
  {
    FloorQuotient(t, d, phase);
    var q := (t - phase) / d;
    GridOrder(q, k, d);
    GridOrder(k, q, d);
  }

  /** Times that share a fine window share the coarse one. */
  lemma NestedTogether(t: nat, u: nat, fine: Interval, coarse: Interval)
    requires Nests(fine, coarse)
    requires OpenTime(t, fine) == OpenTime(u, fine)
    ensures OpenTime(t, coarse) == OpenTime(u, coarse)
  {
    NestedWindow(t, fine, coarse);
    WindowsPartitionTime(t, u, fine);
    WindowsPartitionTime(t, u, coarse);
  }

  // --------------------------------------------------------------- the other truncation

  /** `models.IntervalToDuration`, in seconds: unlike `intervalToDuration` it knows 1s. */
  function ModelDuration(iv: Interval): (d: int)
    ensures d >= 1
  {
    if iv == S1 then 1 else Duration(iv)
  }

  /** `models.TruncateToInterval`: `time.Truncate` rounds down to a multiple
      counted from the zero time, January 1 of year 1. */
  function TruncateToInterval(t: int, iv: Interval): int {
    FloorTo(t, ModelDuration(iv), -EPOCH_DAYS * DAY)
  }

  /** Truncation goes back to the last multiple of the length, counted from year 1. */
  lemma TruncatesToMultiple(t: int, iv: Interval)
    ensures TruncateToInterval(t, iv) <= t < TruncateToInterval(t, iv) + ModelDuration(iv)
    ensures (TruncateToInterval(t, iv) + 719162 * 86400) % ModelDuration(iv) == 0
  {
    var d, phase := ModelDuration(iv), -EPOCH_DAYS * DAY;
    FloorQuotient(t, d, phase);
    MultipleOf((t - phase) / d, d);
  }

  lemma MultipleOf(q: int, d: int)
    requires d > 0
    ensures q * d % d == 0
  {
    FloorAt(q * d, d, 0, q);
  }

  /** The two truncations agree on every fixed-length interval but 3d, where
      they never agree: year 1 and 1970 are 719162 days apart, which is 2 modulo
      3 and 3 modulo 7. */
  lemma TruncationsCompared(t: nat, iv: Interval)
    requires FixedLength(iv)
    ensures DaysBeforeYear(1970) == EPOCH_DAYS
    ensures TruncateToInterval(t, iv) == OpenTime(t, iv) <==> iv != D3
  {
    OpenTimeIsFloor(t, iv);
    if iv == W1 {
      DaysShift(t, 7, 4);
    } else if iv == D3 {
      DaysShift(t, 3, 0);
    } else {
      WholeDaysShift(t, iv);
    }
  }

  lemma DaysShift(t: int, n: int, phase: int)
    requires (n == 7 && phase == 4) || (n == 3 && phase == 0)
    ensures FloorTo(t, n * DAY, -EPOCH_DAYS * DAY) == FloorTo(t, n * DAY, phase * DAY) <==> n == 7
  {
    var day := DayOf(t);
    EpochShift(day);
    DaySpan(t, n, -EPOCH_DAYS, (day + EPOCH_DAYS) / n);
    DaySpan(t, n, phase, (day - phase) / n);
  }

  lemma EpochShift(day: int)
    ensures -EPOCH_DAYS + (day + EPOCH_DAYS) / 7 * 7 == 4 + (day - 4) / 7 * 7
    ensures -EPOCH_DAYS + (day + EPOCH_DAYS) / 3 * 3 != day / 3 * 3
  {
  }

  lemma WholeDaysShift(t: nat, iv: Interval)
    requires FixedLength(iv) && iv != W1 && iv != D3
    ensures FloorTo(t, Duration(iv), -EPOCH_DAYS * DAY) == FloorTo(t, Duration(iv), 0)
  {
    var d := Duration(iv);
    var perDay := match iv
      case M3 => 480 case M5 => 288 case M15 => 96 case M30 => 48
      case H1 => 24 case H2 => 12 case H4 => 6 case H6 => 4 case H8 => 3 case H12 => 2
      case _ => 1;
    assert perDay * d == DAY;
    ShiftByMultiple(t, d, EPOCH_DAYS * perDay);
    assert EPOCH_DAYS * perDay * d == EPOCH_DAYS * DAY;
  }

  lemma ShiftByMultiple(t: int, d: int, k: int)
    requires d > 0
    ensures FloorTo(t, d, -(k * d)) == FloorTo(t, d, 0)
  {
    FloorQuotient(t, d, 0);
    assert t / d * d == -(k * d) + (t / d + k) * d;
    FloorAt(t, d, -(k * d), t / d + k);
  }
}
