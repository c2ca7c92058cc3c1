/** Calendar dates and instants, and the parts of JavaScript's `Date` the
    routes use: the month-index normalisation of `new Date(y, m, d)` (day 0
    is the last day of the previous month) and `setMonth`, which keeps the
    day of the month and lets it overflow into the following month. Time
    zones are not modelled: every instant is local time. */
module Calendar {

  datatype Date = Date(year: int, month: int, day: int)

  /** Milliseconds in a day: the time-of-day resolution of a JavaScript Date. */
  const MsPerDay: int := 86_400_000

  /** A DATETIME column value: a calendar date and the milliseconds since
      local midnight. */
  datatype Instant = Instant(date: Date, ms: int)

  /** The Gregorian leap-year rule. */
  predicate IsLeapYear(y: int) {
    (y % 4 == 0 && y % 100 != 0) || y % 400 == 0
  }

  function DaysInMonth(y: int, m: int): (n: int)
    requires 1 <= m <= 12
    ensures 28 <= n <= 31
    ensures n == 29 <==> m == 2 && IsLeapYear(y)
    ensures n == 28 <==> m == 2 && !IsLeapYear(y)
    ensures n == 30 <==> m == 4 || m == 6 || m == 9 || m == 11
  {
    if m == 2 then (if IsLeapYear(y) then 29 else 28)
    else if m == 4 || m == 6 || m == 9 || m == 11 then 30
    else 31
  }

  predicate ValidDate(d: Date) {
    1 <= d.month <= 12 && 1 <= d.day <= DaysInMonth(d.year, d.month)
  }

  predicate ValidInstant(t: Instant) {
    ValidDate(t.date) && 0 <= t.ms < MsPerDay
  }

  /** Strict chronological order of dates. */
  predicate DateBefore(a: Date, b: Date) {
    a.year < b.year || (a.year == b.year && (a.month < b.month || (a.month == b.month && a.day < b.day)))
  }

  /** Chronological order of instants. */
  predicate InstantLe(a: Instant, b: Instant) {
    DateBefore(a.date, b.date) || (a.date == b.date && a.ms <= b.ms)
  }

  lemma InstantLeReflexive(a: Instant)
    ensures InstantLe(a, a)
  {
  }

  lemma InstantLeTotal(a: Instant, b: Instant)
    ensures InstantLe(a, b) || InstantLe(b, a)
  {
  }

  lemma InstantLeTransitive(a: Instant, b: Instant, c: Instant)
    requires InstantLe(a, b) && InstantLe(b, c)
    ensures InstantLe(a, c)
  {
  }

  /** `Op.between: [lo, hi]`: SQL BETWEEN, both ends inclusive. */
  predicate Between(t: Instant, lo: Instant, hi: Instant) {
    InstantLe(lo, t) && InstantLe(t, hi)
  }

  /** Local midnight at the start of a date, as `new Date(y, m, d)` gives it. */
  function Midnight(d: Date): Instant {
    Instant(d, 0)
  }

  /** The months counted from year 0, so that consecutive months differ by one. */
  function MonthNumber(year: int, month: int): int {
    year * 12 + (month - 1)
  }

  /** `new Date(y, monthIndex, 1)`: the month index overflows into the year
      (12 is January of the next year, -1 is December of the previous). */
  function FirstOfMonthIndex(y: int, monthIndex: int): (d: Date)
    ensures ValidDate(d) && d.day == 1
    ensures MonthNumber(d.year, d.month) == y * 12 + monthIndex
  {
    Date(y + monthIndex / 12, monthIndex % 12 + 1, 1)
  }

  /** The calendar day after a valid date. */
  function NextDay(d: Date): (r: Date)
    requires ValidDate(d)
    ensures ValidDate(r) && DateBefore(d, r)
  {
    if d.day < DaysInMonth(d.year, d.month) then Date(d.year, d.month, d.day + 1)
    else if d.month < 12 then Date(d.year, d.month + 1, 1)
    else Date(d.year + 1, 1, 1)
  }

  /** The calendar day before a valid date. */
  function DayBefore(d: Date): (r: Date)
    requires ValidDate(d)
    ensures ValidDate(r) && DateBefore(r, d)
    ensures NextDay(r) == d
  {
    if d.day > 1 then Date(d.year, d.month, d.day - 1)
    else if d.month > 1 then Date(d.year, d.month - 1, DaysInMonth(d.year, d.month - 1))
    else Date(d.year - 1, 12, 31)
  }

  /** `new Date(y, monthIndex, 0)`: day 0 of a month is the day before its first. */
  function DayZero(y: int, monthIndex: int): Date {
    DayBefore(FirstOfMonthIndex(y, monthIndex))
  }

  /** `new Date(y, m - 1, 1)` with a 1-based month m: the first day of that month. */
  function StartOfMonth(y: int, m: int): (d: Date)
    requires 1 <= m <= 12
    ensures d == Date(y, m, 1) && ValidDate(d)
  {
    FirstOfMonthIndex(y, m - 1)
  }

  /** `new Date(y, m, 0)` with a 1-based month m: this is the LAST day of
      month m, whatever its length (28 to 31 days by the leap-year rule). */
  function EndOfMonth(y: int, m: int): (d: Date)
    requires 1 <= m <= 12
    ensures d == Date(y, m, DaysInMonth(y, m)) && ValidDate(d)
    ensures NextDay(d) == FirstOfMonthIndex(y, m)
  {
    DayZero(y, m)
  }

  /** `date.setMonth(monthIndex)`: keep the day of the month; when the target
      month is shorter than that day, the excess days spill into the month
      after it (31 March minus one month is 2 March in a leap year). */
  function SetMonth(d: Date, monthIndex: int): (r: Date)
    requires ValidDate(d)
    ensures ValidDate(r)
  {
    var f := FirstOfMonthIndex(d.year, monthIndex);
    var n := DaysInMonth(f.year, f.month);
    if d.day <= n then Date(f.year, f.month, d.day)
    else
      var g := FirstOfMonthIndex(f.year, f.month);
      Date(g.year, g.month, d.day - n)
  }

  /** On days 1 to 28 `setMonth` lands in the requested month, and otherwise
      it lands in that month or the next one. */
  lemma SetMonthTarget(d: Date, monthIndex: int)
    requires ValidDate(d)
    ensures var r := SetMonth(d, monthIndex);
            var target := d.year * 12 + monthIndex;
            (d.day <= 28 ==> MonthNumber(r.year, r.month) == target && r.day == d.day)
            && (MonthNumber(r.year, r.month) == target || MonthNumber(r.year, r.month) == target + 1)
  {
  }

  /** The month before (y, m). */
  function PrevMonth(y: int, m: int): (r: (int, int))
    requires 1 <= m <= 12
    ensures 1 <= r.1 <= 12 && MonthNumber(r.0, r.1) == MonthNumber(y, m) - 1
  {
    if m == 1 then (y - 1, 12) else (y, m - 1)
  }

  /** The month after (y, m). */
  function NextMonth(y: int, m: int): (r: (int, int))
    requires 1 <= m <= 12
    ensures 1 <= r.1 <= 12 && MonthNumber(r.0, r.1) == MonthNumber(y, m) + 1
  {
    if m == 12 then (y + 1, 1) else (y, m + 1)
  }

  /** The (year, month) reached by stepping i months back from (y, m), one
      month at a time: month arithmetic with the borrow from the year, and
      no day involved. */
  function MonthsBack(y: int, m: int, i: int): (r: (int, int))
    requires 1 <= m <= 12
    ensures 1 <= r.1 <= 12
    ensures MonthNumber(r.0, r.1) == MonthNumber(y, m) - i
    decreases if i >= 0 then i else -i
  {
    if i == 0 then (y, m)
    else if i > 0 then
      var p := MonthsBack(y, m, i - 1);
      PrevMonth(p.0, p.1)
    else
      var p := MonthsBack(y, m, i + 1);
      NextMonth(p.0, p.1)
  }
}
