/** The proleptic Gregorian calendar in UTC, on seconds counted from midnight of 1 January of year 1, a Monday. */
module Calendar {

  const SECONDS_PER_DAY := 86400

  datatype Date = Date(year: int, month: int, day: int)

  predicate Leap(y: int) {
    y % 4 == 0 && (y % 100 != 0 || y % 400 == 0)
  }

  function DaysIn(leap: bool, m: int): (d: int)
    ensures 28 <= d <= 31
  {
    if m == 2 then (if leap then 29 else 28)
    else if m == 4 || m == 6 || m == 9 || m == 11 then 30
    else 31
  }

  /** The days of a common year before its month `m`; for 13, all of them. */
  function CommonDaysBefore(m: int): (d: nat)
    ensures d <= 365
  {
    if m <= 1 then 0
    else if m == 2 then 31
    else if m == 3 then 59
    else if m == 4 then 90
    else if m == 5 then 120
    else if m == 6 then 151
    else if m == 7 then 181
    else if m == 8 then 212
    else if m == 9 then 243
    else if m == 10 then 273
    else if m == 11 then 304
    else if m == 12 then 334
    else 365
  }

  /** In a leap year the months from March on begin one day later. */
  function DaysBeforeMonth(leap: bool, m: int): nat {
    CommonDaysBefore(m) + (if leap && m > 2 then 1 else 0)
  }

  /** The days before the year `y`. */
  function DaysBeforeYear(y: int): int {
    365 * (y - 1) + (y - 1) / 4 - (y - 1) / 100 + (y - 1) / 400
  }

  predicate ValidDate(d: Date) {
    1 <= d.month <= 12 && 1 <= d.day <= DaysIn(Leap(d.year), d.month)
  }

  function DayNumber(d: Date): int {
    DaysBeforeYear(d.year) + DaysBeforeMonth(Leap(d.year), d.month) + d.day - 1
  }

  function YearLength(leap: bool): int {
    if leap then 366 else 365
  }

  function AtMost3(x: int): int {
    if x > 3 then 3 else x
  }

  /** By whole cycles of 400, 100, 4 years and 1 year. */
  function YearOf(n: int): int {
    var r := n % 146097;
    var c100 := AtMost3(r / 36524);
    var r100 := r - 36524 * c100;
    var r4 := r100 % 1461;
    400 * (n / 146097) + 100 * c100 + 4 * (r100 / 1461) + AtMost3(r4 / 365) + 1
  }

  /** The month that day `yday` of a year, counted from 0, falls into, looked for from `m` on. */
  function MonthFrom(leap: bool, yday: int, m: int): (r: int)
    requires m <= 12
    ensures m <= r <= 12
    decreases 12 - m
  {
    if m == 12 || yday < DaysBeforeMonth(leap, m + 1) then m else MonthFrom(leap, yday, m + 1)
  }

  function DateOf(n: int): Date {
    var y := YearOf(n);
    var yday := n - DaysBeforeYear(y);
    var m := MonthFrom(Leap(y), yday, 1);
    Date(y, m, yday - DaysBeforeMonth(Leap(y), m) + 1)
  }

  /** Sunday is 0. */
  function WeekdayOf(n: int): int {
    (n + 1) % 7
  }

  // ---------- Years ----------

  lemma CycleDays(c: int, a: int, b: int, e: int)
    requires 0 <= a <= 3 && 0 <= b <= 24 && 0 <= e <= 3
    ensures DaysBeforeYear(400 * c + 100 * a + 4 * b + e + 1) == 146097 * c + 36524 * a + 1461 * b + 365 * e
  {
    var z := 400 * c + 100 * a + 4 * b + e;
    assert z / 4 == 100 * c + 25 * a + b;
    assert z / 100 == 4 * c + a;
    assert z / 400 == c;
  }

  lemma Multiples(y: int)
    ensures y / 4 == (y - 1) / 4 + (if y % 4 == 0 then 1 else 0)
    ensures y / 100 == (y - 1) / 100 + (if y % 100 == 0 then 1 else 0)
    ensures y / 400 == (y - 1) / 400 + (if y % 400 == 0 then 1 else 0)
  {
  }

  lemma Centuries(y: int)
    ensures y % 400 == 0 ==> y % 100 == 0
    ensures y % 100 == 0 ==> y % 4 == 0
  {
  }

  lemma NextYear(y: int)
    ensures DaysBeforeYear(y + 1) == DaysBeforeYear(y) + YearLength(Leap(y))
  {
    Multiples(y);
    Centuries(y);
  }

  lemma {:induction false} YearsGrow(y: int, z: int)
    requires y < z
    ensures DaysBeforeYear(y + 1) <= DaysBeforeYear(z)
    decreases z - y
  {
    if y + 1 < z {
      YearsGrow(y, z - 1);
      NextYear(z - 1);
    }
  }

  lemma YearOfMeaning(n: int)
    ensures DaysBeforeYear(YearOf(n)) <= n < DaysBeforeYear(YearOf(n) + 1)
  {
    var c, r := n / 146097, n % 146097;
    var a := AtMost3(r / 36524);
    var r100 := r - 36524 * a;
    var b, r4 := r100 / 1461, r100 % 1461;
    var e := AtMost3(r4 / 365);
    assert 0 <= r100 <= 36524 && b <= 24;
    CycleDays(c, a, b, e);
    var y := YearOf(n);
    assert y == 400 * c + 100 * a + 4 * b + e + 1;
    NextYear(y);
    if e == 3 {
      LeapAtCycleEnd(c, a, b);
    }
  }

  /** The last year of a cycle of four is a leap year, except at the end of three centuries out of four. */
  lemma LeapAtCycleEnd(c: int, a: int, b: int)
    requires 0 <= a <= 3 && 0 <= b <= 24
    ensures Leap(400 * c + 100 * a + 4 * b + 4) <==> b < 24 || a == 3
  {
    var y, k := 400 * c + 100 * a + 4 * b + 4, 4 * c + a;
    assert y == 4 * (25 * k + b + 1) && y % 4 == 0;
    if b < 24 {
      assert y == 100 * k + (4 * b + 4) && y % 100 == 4 * b + 4;
    } else {
      assert y == 100 * (k + 1) && y % 100 == 0;
      if a < 3 {
        assert y == 400 * c + 100 * (a + 1) && y % 400 == 100 * (a + 1);
      } else {
        assert y == 400 * (c + 1) && y % 400 == 0;
      }
    }
  }

  lemma YearUnique(n: int, y: int)
    requires DaysBeforeYear(y) <= n < DaysBeforeYear(y + 1)
    ensures YearOf(n) == y
  {
    YearOfMeaning(n);
    if YearOf(n) < y {
      YearsGrow(YearOf(n), y);
    } else if y < YearOf(n) {
      YearsGrow(y, YearOf(n));
    }
  }

  // ---------- Months ----------

  lemma NextMonth(leap: bool, m: int)
    requires 1 <= m <= 12
    ensures DaysBeforeMonth(leap, m + 1) == DaysBeforeMonth(leap, m) + DaysIn(leap, m)
  {
  }

  lemma {:induction false} MonthFromMeaning(leap: bool, yday: int, m: int)
    requires 1 <= m <= 12 && DaysBeforeMonth(leap, m) <= yday < YearLength(leap)
    ensures var r := MonthFrom(leap, yday, m); DaysBeforeMonth(leap, r) <= yday < DaysBeforeMonth(leap, r + 1)
    decreases 12 - m
  {
    if m < 12 && yday >= DaysBeforeMonth(leap, m + 1) {
      MonthFromMeaning(leap, yday, m + 1);
    }
  }

  lemma MonthsGrow(leap: bool, m: int, k: int)
    requires 1 <= m < k <= 13
    ensures DaysBeforeMonth(leap, m + 1) <= DaysBeforeMonth(leap, k)
  {
  }

  lemma MonthUnique(leap: bool, yday: int, m: int)
    requires 1 <= m <= 12 && DaysBeforeMonth(leap, m) <= yday < DaysBeforeMonth(leap, m + 1)
    ensures yday < YearLength(leap) && MonthFrom(leap, yday, 1) == m
  {
    MonthsGrow(leap, m, 13);
    MonthFromMeaning(leap, yday, 1);
    var r := MonthFrom(leap, yday, 1);
    if r < m {
      MonthsGrow(leap, r, m);
    } else if m < r {
      MonthsGrow(leap, m, r);
    }
  }

  // ---------- Dates and day numbers correspond ----------

  /** Every day number is that of its date, and the date exists. */
  lemma DayToDate(n: int)
    ensures ValidDate(DateOf(n)) && DayNumber(DateOf(n)) == n
  {
    YearOfMeaning(n);
    var y := YearOf(n);
    NextYear(y);
    var yday := n - DaysBeforeYear(y);
    MonthFromMeaning(Leap(y), yday, 1);
    NextMonth(Leap(y), MonthFrom(Leap(y), yday, 1));
  }

  /** Every existing date is that of its day number. */
  lemma DateToDay(d: Date)
    requires ValidDate(d)
    ensures DateOf(DayNumber(d)) == d
  {
    var leap, yday := Leap(d.year), DaysBeforeMonth(Leap(d.year), d.month) + d.day - 1;
    NextMonth(leap, d.month);
    MonthUnique(leap, yday, d.month);
    NextYear(d.year);
    YearUnique(DayNumber(d), d.year);
  }

  /** A date that exists in two successive years comes back after 365 or 366 days. */
  lemma SameDateNextYear(y: int, m: int, d: int)
    requires ValidDate(Date(y, m, d)) && ValidDate(Date(y + 1, m, d))
    ensures 365 <= DayNumber(Date(y + 1, m, d)) - DayNumber(Date(y, m, d)) <= 366
  {
    NextYear(y);
    NextYear(y + 1);
    assert !(Leap(y) && Leap(y + 1));
  }

  /** The next of the month, the first of the next month, or New Year's Day. */
  function DayAfter(d: Date): Date {
    if d.day < DaysIn(Leap(d.year), d.month) then Date(d.year, d.month, d.day + 1)
    else if d.month < 12 then Date(d.year, d.month + 1, 1)
    else Date(d.year + 1, 1, 1)
  }

  lemma NextDayNumber(d: Date)
    requires ValidDate(d)
    ensures ValidDate(DayAfter(d)) && DayNumber(DayAfter(d)) == DayNumber(d) + 1
  {
    hide DaysBeforeYear, Leap;
    NextMonth(Leap(d.year), d.month);
    NextYear(d.year);
  }

  /** Successive days have successive dates. */
  lemma NextDay(n: int)
    ensures DateOf(n + 1) == DayAfter(DateOf(n))
  {
    hide DateOf, DayNumber, ValidDate, DayAfter;
    DayToDate(n);
    NextDayNumber(DateOf(n));
    DateToDay(DayAfter(DateOf(n)));
  }

  /** Weekdays follow one another, and 1 January 2001 was a Monday. */
  lemma NextWeekday(n: int)
    ensures 0 <= WeekdayOf(n) <= 6 && WeekdayOf(n + 1) == (if WeekdayOf(n) == 6 then 0 else WeekdayOf(n) + 1)
    ensures WeekdayOf(DayNumber(Date(2001, 1, 1))) == 1
  {
  }

  // ---------- Civil times and seconds correspond ----------

  /** A date and a time of day, to the second. */
  datatype Civil = Civil(date: Date, hour: int, minute: int, second: int)

  predicate ValidCivil(c: Civil) {
    ValidDate(c.date) && 0 <= c.hour < 24 && 0 <= c.minute < 60 && 0 <= c.second < 60
  }

  function TimeOf(day: int, h: int, m: int, s: int): int {
    day * SECONDS_PER_DAY + h * 3600 + m * 60 + s
  }

  lemma TimeParts(day: int, h: int, m: int, s: int)
    requires 0 <= h < 24 && 0 <= m < 60 && 0 <= s < 60
    ensures var t := TimeOf(day, h, m, s);
            t % 60 == s && t / 60 % 60 == m && t / 3600 % 24 == h && t / SECONDS_PER_DAY == day
  {
    var t := TimeOf(day, h, m, s);
    assert t == 60 * (1440 * day + 60 * h + m) + s;
    assert t / 60 == 60 * (24 * day + h) + m;
    assert t / 3600 == 24 * day + h;
  }

  function SecondOf(c: Civil): int {
    TimeOf(DayNumber(c.date), c.hour, c.minute, c.second)
  }

  function CivilOf(t: int): Civil {
    Civil(DateOf(t / SECONDS_PER_DAY), t / 3600 % 24, t / 60 % 60, t % 60)
  }

  /** Every second has a civil time, which exists. */
  lemma SecondToCivil(t: int)
    ensures ValidCivil(CivilOf(t)) && SecondOf(CivilOf(t)) == t
  {
    hide DayNumber, DateOf, ValidDate;
    DayToDate(t / SECONDS_PER_DAY);
    Digits(t);
  }

  lemma Digits(t: int)
    ensures TimeOf(t / SECONDS_PER_DAY, t / 3600 % 24, t / 60 % 60, t % 60) == t
  {
    assert t / 3600 / 24 == t / SECONDS_PER_DAY;
    assert t / 60 / 60 == t / 3600;
  }

  /** Every civil time that exists is that of its second. */
  lemma CivilToSecond(c: Civil)
    requires ValidCivil(c)
    ensures CivilOf(SecondOf(c)) == c
  {
    hide DayNumber, DateOf, ValidDate;
    TimeParts(DayNumber(c.date), c.hour, c.minute, c.second);
    DateToDay(c.date);
  }
}
