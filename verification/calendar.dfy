/** Calendar days of the proleptic Gregorian calendar, with a day ordinal
    (0001-01-01 is day 1), day arithmetic, weekdays and month boundaries.
    Time of day and time zones are not part of a `Day`. */
module Calendar {

  datatype Date = Date(year: int, month: int, day: int)

  predicate IsLeapYear(y: int) {
    y % 4 == 0 && (y % 100 != 0 || y % 400 == 0)
  }

  function DaysInMonth(y: int, m: int): (n: int)
    requires 1 <= m <= 12
    ensures 28 <= n <= 31
    ensures n == 29 <==> m == 2 && IsLeapYear(y)
  {
    if m == 2 then (if IsLeapYear(y) then 29 else 28)
    else if m == 4 || m == 6 || m == 9 || m == 11 then 30
    else 31
  }

  function DaysInYear(y: int): int {
    if IsLeapYear(y) then 366 else 365
  }

  predicate ValidDate(d: Date) {
    1 <= d.month <= 12 && 1 <= d.day <= DaysInMonth(d.year, d.month)
  }

  /** A real calendar day. */
  type Day = d: Date | ValidDate(d) witness Date(1970, 1, 1)

  /** Days of the years before `y`, counted from 0001-01-01. */
  function DaysBeforeYear(y: int): int {
    var p := y - 1;
    365 * p + p / 4 - p / 100 + p / 400
  }

  /** Days of the months of year `y` before month `m`. */
  function DaysBeforeMonth(y: int, m: int): int
    requires 1 <= m <= 13
    decreases m
  {
    if m == 1 then 0 else DaysBeforeMonth(y, m - 1) + DaysInMonth(y, m - 1)
  }

  /** The day number: consecutive days have consecutive ordinals. */
  function Ordinal(d: Day): int {
    DaysBeforeYear(d.year) + DaysBeforeMonth(d.year, d.month) + d.day
  }

  lemma DivStep(x: int)
    ensures (x + 1) / 4 - x / 4 == (if (x + 1) % 4 == 0 then 1 else 0)
    ensures (x + 1) / 100 - x / 100 == (if (x + 1) % 100 == 0 then 1 else 0)
    ensures (x + 1) / 400 - x / 400 == (if (x + 1) % 400 == 0 then 1 else 0)
  {
  }

  /** 400 divides into 100, and 100 into 4. */
  lemma Divides(y: int)
    ensures y % 400 == 0 ==> y % 100 == 0
    ensures y % 100 == 0 ==> y % 4 == 0
  {
    CenturyOfFourCenturies(y);
    FourYearsOfCentury(y);
  }

  lemma CenturyOfFourCenturies(y: int)
    ensures y % 400 == 0 ==> y % 100 == 0
  {
    if y % 400 == 0 {
      var q := y / 400;
      assert y == 100 * (4 * q);
    }
  }

  lemma FourYearsOfCentury(y: int)
    ensures y % 100 == 0 ==> y % 4 == 0
  {
    if y % 100 == 0 {
      var q := y / 100;
      assert y == 4 * (25 * q);
    }
  }

  lemma YearLength(y: int)
    ensures DaysBeforeYear(y + 1) == DaysBeforeYear(y) + DaysInYear(y)
    ensures DaysBeforeMonth(y, 13) == DaysInYear(y)
  {
    YearStep(y);
    MonthsOfYear(y);
  }

  /** The years before `y + 1` are those before `y` and `y` itself. */
  lemma YearStep(y: int)
    ensures DaysBeforeYear(y + 1) == DaysBeforeYear(y) + DaysInYear(y)
  {
    DivStep(y - 1);
    Divides(y);
  }

  /** The twelve months add up to the year. */
  lemma MonthsOfYear(y: int)
    ensures DaysBeforeMonth(y, 13) == DaysInYear(y)
  {
    var feb := DaysInMonth(y, 2);
    assert DaysBeforeMonth(y, 2) == 31;
    assert DaysBeforeMonth(y, 3) == 31 + feb;
    assert DaysBeforeMonth(y, 4) == 62 + feb;
    assert DaysBeforeMonth(y, 5) == 92 + feb;
    assert DaysBeforeMonth(y, 6) == 123 + feb;
    assert DaysBeforeMonth(y, 7) == 153 + feb;
    assert DaysBeforeMonth(y, 8) == 184 + feb;
    assert DaysBeforeMonth(y, 9) == 215 + feb;
    assert DaysBeforeMonth(y, 10) == 245 + feb;
    assert DaysBeforeMonth(y, 11) == 276 + feb;
    assert DaysBeforeMonth(y, 12) == 306 + feb;
    assert DaysBeforeMonth(y, 13) == 337 + feb;
  }

  /** The day after `d`. */
  function NextDay(d: Day): (r: Day)
    ensures Ordinal(r) == Ordinal(d) + 1
  {
    if d.day < DaysInMonth(d.year, d.month) then Date(d.year, d.month, d.day + 1)
    else if d.month < 12 then Date(d.year, d.month + 1, 1)
    else
      YearLength(d.year);
      Date(d.year + 1, 1, 1)
  }

  /** The day before `d`. */
  function PrevDay(d: Day): (r: Day)
    ensures Ordinal(r) == Ordinal(d) - 1
  {
    if d.day > 1 then Date(d.year, d.month, d.day - 1)
    else if d.month > 1 then Date(d.year, d.month - 1, DaysInMonth(d.year, d.month - 1))
    else
      YearLength(d.year - 1);
      Date(d.year - 1, 12, 31)
  }

  /** `d` moved by `n` days (dayjs `add(n, "day")`). */
  function AddDays(d: Day, n: int): (r: Day)
    ensures Ordinal(r) == Ordinal(d) + n
    decreases if n >= 0 then n else -n
  {
    if n == 0 then d
    else if n > 0 then AddDays(NextDay(d), n - 1)
    else AddDays(PrevDay(d), n + 1)
  }

  /** 0 = Sunday ... 6 = Saturday, as `Date.prototype.getDay`; day 1
      (0001-01-01) was a Monday. */
  function Weekday(d: Day): (w: nat)
    ensures w < 7
  {
    Ordinal(d) % 7
  }

  lemma WeekdayShift(d: Day, n: int)
    ensures Weekday(AddDays(d, n)) == (Weekday(d) + n) % 7
  {
    ModShift(Ordinal(d), n);
  }

  /** A number less its remainder is a multiple of 7. */
  lemma ModDown(a: int)
    ensures (a - a % 7) % 7 == 0
  {
    var q := a / 7;
    assert a - a % 7 == 7 * q;
  }

  lemma ModShift(a: int, n: int)
    ensures (a + n) % 7 == (a % 7 + n) % 7
  {
    var q := a / 7;
    assert a + n == (a % 7 + n) + 7 * q;
  }

  // ----------------------------------------------------------- ordering

  lemma {:induction false} DaysBeforeMonthGrows(y: int, m1: int, m2: int)
    requires 1 <= m1 <= m2 <= 13
    ensures DaysBeforeMonth(y, m1) + 28 * (m2 - m1) <= DaysBeforeMonth(y, m2)
    decreases m2 - m1
  {
    if m1 < m2 {
      DaysBeforeMonthGrows(y, m1, m2 - 1);
    }
  }

  lemma {:induction false} DaysBeforeYearGrows(y1: int, y2: int)
    requires y1 <= y2
    ensures DaysBeforeYear(y1) + 365 * (y2 - y1) <= DaysBeforeYear(y2)
    decreases y2 - y1
  {
    if y1 < y2 {
      DaysBeforeYearGrows(y1, y2 - 1);
      YearLength(y2 - 1);
    }
  }

  /** A day's ordinal lies inside its year's block of ordinals. */
  lemma OrdinalInYear(d: Day)
    ensures DaysBeforeYear(d.year) < Ordinal(d) <= DaysBeforeYear(d.year + 1)
  {
    YearLength(d.year);
    DaysBeforeMonthGrows(d.year, d.month + 1, 13);
  }

  /** Chronological order of (year, month, day) is ordinal order. */
  lemma OrdinalOrder(a: Day, b: Day)
    ensures Before(a, b) ==> Ordinal(a) < Ordinal(b)
  {
    if a.year < b.year {
      EarlierYearFirst(a, b);
    } else if a.year == b.year && a.month < b.month {
      EarlierMonthFirst(a, b);
    }
  }

  lemma EarlierYearFirst(a: Day, b: Day)
    requires a.year < b.year
    ensures Ordinal(a) < Ordinal(b)
  {
    OrdinalInYear(a);
    OrdinalInYear(b);
    DaysBeforeYearGrows(a.year + 1, b.year);
  }

  lemma EarlierMonthFirst(a: Day, b: Day)
    requires a.year == b.year && a.month < b.month
    ensures Ordinal(a) < Ordinal(b)
  {
    DaysBeforeMonthGrows(a.year, a.month + 1, b.month);
  }

  /** (year, month, day) of `a` comes strictly before that of `b`. */
  predicate Before(a: Date, b: Date) {
    || a.year < b.year
    || (a.year == b.year && a.month < b.month)
    || (a.year == b.year && a.month == b.month && a.day < b.day)
  }

  /** Distinct days have distinct ordinals, so the ordinal identifies a day. */
  lemma OrdinalInjective(a: Day, b: Day)
    requires Ordinal(a) == Ordinal(b)
    ensures a == b
  {
    OrdinalOrder(a, b);
    OrdinalOrder(b, a);
  }

  /** Day order compares ordinals (dayjs `isSame`/`isBefore` with unit "day"). */
  predicate DayLe(a: Day, b: Day) {
    Ordinal(a) <= Ordinal(b)
  }

  lemma DayLeIsChronological(a: Day, b: Day)
    ensures DayLe(a, b) <==> a == b || Before(a, b)
  {
    OrdinalOrder(a, b);
    OrdinalOrder(b, a);
  }

  lemma AddDaysCompose(d: Day, m: int, n: int)
    ensures AddDays(AddDays(d, m), n) == AddDays(d, m + n)
  {
    OrdinalInjective(AddDays(AddDays(d, m), n), AddDays(d, m + n));
  }

  // ---------------------------------------------------- weeks and months

  /** dayjs `startOf("week")` with the ko locale: weeks start on Sunday. */
  function StartOfWeek(d: Day): (r: Day)
    ensures Weekday(r) == 0
    ensures Ordinal(r) == Ordinal(d) - Weekday(d)
  {
    var w: int := Weekday(d);
    var r := AddDays(d, -w);
    assert Weekday(r) == 0 by {
      ModDown(Ordinal(d));
    }
    r
  }

  /** `d.startOf("week").add(1, "day")`: the Monday after the Sunday that
      starts `d`'s week, so a Sunday maps to the next day. */
  function ToMonday(d: Day): (r: Day)
    ensures Weekday(r) == 1
    ensures Ordinal(r) == Ordinal(d) - Weekday(d) + 1
    ensures Weekday(d) == 0 ==> r == NextDay(d)
    ensures Weekday(d) != 0 ==> Ordinal(d) - 5 <= Ordinal(r) <= Ordinal(d)
  {
    var s := StartOfWeek(d);
    var r := AddDays(s, 1);
    DayAfterSunday(d, s, r);
    r
  }

  /** The day after the Sunday that starts `d`'s week. */
  lemma DayAfterSunday(d: Day, s: Day, r: Day)
    requires Weekday(s) == 0 && Ordinal(s) == Ordinal(d) - Weekday(d) && Ordinal(r) == Ordinal(s) + 1
    ensures Weekday(r) == 1
    ensures Weekday(d) == 0 ==> r == NextDay(d)
  {
    AfterSundayIsMonday(s, r);
    if Weekday(d) == 0 {
      OrdinalInjective(r, NextDay(d));
    }
  }

  lemma AfterSundayIsMonday(s: Day, r: Day)
    requires Weekday(s) == 0 && Ordinal(r) == Ordinal(s) + 1
    ensures Weekday(r) == 1
  {
    ModShift(Ordinal(s), 1);
  }

  function FirstOfMonth(d: Day): (r: Day)
    ensures r.year == d.year && r.month == d.month && r.day == 1
  {
    Date(d.year, d.month, 1)
  }

  /** dayjs `endOf("month")`, as a day. */
  function LastOfMonth(d: Day): (r: Day)
    ensures r.year == d.year && r.month == d.month
    ensures Ordinal(FirstOfMonth(d)) <= Ordinal(d) <= Ordinal(r)
    ensures NextDay(r).day == 1
  {
    Date(d.year, d.month, DaysInMonth(d.year, d.month))
  }

  /** `d.add(1, "month").startOf("month")`. */
  function FirstOfNextMonth(d: Day): (r: Day)
    ensures r.day == 1
    ensures r == NextDay(LastOfMonth(d))
  {
    if d.month == 12 then Date(d.year + 1, 1, 1) else Date(d.year, d.month + 1, 1)
  }
}
