/**
 * Naive local calendar values, as Python's `datetime` holds them: a proleptic
 * Gregorian date and a time of day with microsecond resolution.
 */
module Calendar {
  import opened Wrappers

  datatype Date = Date(year: int, month: int, day: int)

  datatype DateTime = DateTime(date: Date, hour: int, minute: int, second: int, micro: int)

  predicate IsLeapYear(year: int) {
    year % 4 == 0 && (year % 100 != 0 || year % 400 == 0)
  }

  /** Number of days of a month; February has 29 days exactly in leap years. */
  function DaysInMonth(year: int, month: int): (n: int)
    requires 1 <= month <= 12
    ensures 28 <= n <= 31
    ensures month == 2 ==> (n == 29 <==> IsLeapYear(year))
  {
    if month == 2 then (if IsLeapYear(year) then 29 else 28)
    else if month == 4 || month == 6 || month == 9 || month == 11 then 30
    else 31
  }

  predicate ValidDate(d: Date) {
    1 <= d.year && 1 <= d.month <= 12 && 1 <= d.day <= DaysInMonth(d.year, d.month)
  }

  predicate ValidDateTime(t: DateTime) {
    && ValidDate(t.date)
    && 0 <= t.hour < 24 && 0 <= t.minute < 60
    && 0 <= t.second < 60 && 0 <= t.micro < 1000000
  }

  /** Calendar order on dates. */
  predicate DateBefore(a: Date, b: Date) {
    a.year < b.year
    || (a.year == b.year && (a.month < b.month || (a.month == b.month && a.day < b.day)))
  }

  /** Microseconds since midnight. */
  function TimeOfDay(t: DateTime): int {
    ((t.hour * 60 + t.minute) * 60 + t.second) * 1000000 + t.micro
  }

  /** `a < b` on timestamps: first by date, then by time of day. */
  predicate Before(a: DateTime, b: DateTime) {
    DateBefore(a.date, b.date) || (a.date == b.date && TimeOfDay(a) < TimeOfDay(b))
  }

  /**
   * The calendar day after `d`: the reference against which the model's
   * "tomorrow" is judged. It is valid, later than `d`, and no valid date lies
   * strictly between the two.
   */
  function NextDay(d: Date): (r: Date)
    requires ValidDate(d)
    ensures ValidDate(r) && DateBefore(d, r)
    ensures forall e :: ValidDate(e) && DateBefore(d, e) ==> !DateBefore(e, r)
  {
    if d.day < DaysInMonth(d.year, d.month) then Date(d.year, d.month, d.day + 1)
    else if d.month < 12 then Date(d.year, d.month + 1, 1)
    else Date(d.year + 1, 1, 1)
  }

  /**
   * `t.replace(day=day)`: the same timestamp on another day of its month, or
   * None where Python raises ValueError because that day does not exist.
   */
  function ReplaceDay(t: DateTime, day: int): (r: Option<DateTime>)
    requires ValidDateTime(t)
    ensures r.Some? <==> 1 <= day <= DaysInMonth(t.date.year, t.date.month)
    ensures r.Some? ==> ValidDateTime(r.value) && r.value.date.day == day
                        && r.value == t.(date := t.date.(day := day))
  {
    if 1 <= day <= DaysInMonth(t.date.year, t.date.month)
    then Some(t.(date := t.date.(day := day)))
    else None
  }

  /**
   * Moving a timestamp to `day + 1` lands on the next calendar day, except on
   * the last day of a month, where it fails.
   */
  lemma ReplaceNextDay(t: DateTime)
    requires ValidDateTime(t)
    ensures ReplaceDay(t, t.date.day + 1)
            == if t.date.day < DaysInMonth(t.date.year, t.date.month)
               then Some(t.(date := NextDay(t.date))) else None
  {
  }

  /** Before is a strict order on valid timestamps: irreflexive, transitive and total. */
  lemma BeforeIsStrictTotalOrder(a: DateTime, b: DateTime, c: DateTime)
    ensures !Before(a, a)
    ensures Before(a, b) && Before(b, c) ==> Before(a, c)
    ensures a != b && ValidDateTime(a) && ValidDateTime(b) ==> Before(a, b) || Before(b, a)
  {
    if ValidDateTime(a) && ValidDateTime(b) && a.date == b.date && TimeOfDay(a) == TimeOfDay(b) {
      TimeOfDayInjective(a, b);
    }
  }

  /** Two valid timestamps of one day with the same time of day are equal. */
  lemma TimeOfDayInjective(a: DateTime, b: DateTime)
    requires ValidDateTime(a) && ValidDateTime(b) && a.date == b.date
    requires TimeOfDay(a) == TimeOfDay(b)
    ensures a == b
  {
    var sa := (a.hour * 60 + a.minute) * 60 + a.second;
    var sb := (b.hour * 60 + b.minute) * 60 + b.second;
    assert a.micro == b.micro && sa == sb;
    assert a.second == b.second;
    assert a.hour * 60 + a.minute == b.hour * 60 + b.minute;
    assert a.minute == b.minute;
  }
}
