/** When the 366 days that Next tries are enough. */
module CronReach {
  import opened Common
  import opened Calendar
  import opened CronField
  import opened Cron

  // ---------- From seconds to days ----------

  /** Day `n` is listed: its day of the month, its month and its weekday are. */
  ghost predicate DayListed(e: CronExpr, n: int) {
    DateOf(n).day in e.day && DateOf(n).month in e.month && WeekdayOf(n) in e.weekday
  }

  /** One of the 366 days from `n` on is listed. */
  ghost predicate Soon(e: CronExpr, n: int) {
    exists k :: n <= k <= n + 365 && DayListed(e, k)
  }

  /** Next finds a time whatever the instant. */
  ghost predicate AlwaysFinds(e: CronExpr) {
    forall from :: !NoneWithin(e, FirstSecond(from))
  }

  ghost predicate AlwaysSoon(e: CronExpr) {
    forall n :: Soon(e, n)
  }

  /** A listed time of day. */
  ghost function TimeOfDay(e: CronExpr): (t: int)
    requires Clocked(e)
    ensures 0 <= t < SECONDS_PER_DAY
  {
    assert e.hour[0] in e.hour && e.minute[0] in e.minute && e.second[0] in e.second;
    TimeOf(0, e.hour[0], e.minute[0], e.second[0])
  }

  /** On a listed day that time matches; on other days none does. */
  lemma MatchesOnDay(e: CronExpr, n: int)
    requires Clocked(e)
    ensures DayListed(e, n) ==> Matches(e, n * SECONDS_PER_DAY + TimeOfDay(e))
  {
    assert e.hour[0] in e.hour && e.minute[0] in e.minute && e.second[0] in e.second;
    TimeParts(n, e.hour[0], e.minute[0], e.second[0]);
  }

  /** The 366 days tried from an instant on hold all of some listed day, if any 366 days hold one. */
  lemma SoonIsFound(e: CronExpr, start: int)
    requires Clocked(e) && AlwaysSoon(e)
    ensures !NoneWithin(e, start)
  {
    hide DateOf, WeekdayOf, TimeOfDay;
    var n, t := start / SECONDS_PER_DAY, TimeOfDay(e);
    var first := if start <= n * SECONDS_PER_DAY + t then n else n + 1;
    assert Soon(e, first);
    var k :| first <= k <= first + 365 && DayListed(e, k);
    MatchesOnDay(e, k);
    var u := k * SECONDS_PER_DAY + t;
    assert start <= u < start + WINDOW && Matches(e, u);
  }

  lemma NotSoonIsMissed(e: CronExpr, n: int)
    requires !Soon(e, n)
    ensures NoneWithin(e, n * SECONDS_PER_DAY)
  {
    forall u | n * SECONDS_PER_DAY <= u < n * SECONDS_PER_DAY + WINDOW ensures !Matches(e, u) {
      var k := u / SECONDS_PER_DAY;
      assert n <= k <= n + 365 && !DayListed(e, k);
    }
  }

  /** Times of day do not matter: it is the days that have to come soon enough. */
  lemma FindsBySoon(e: CronExpr)
    requires Clocked(e)
    ensures AlwaysFinds(e) <==> AlwaysSoon(e)
  {
    if AlwaysSoon(e) {
      forall from ensures !NoneWithin(e, FirstSecond(from)) {
        SoonIsFound(e, FirstSecond(from));
      }
    } else {
      var n :| !Soon(e, n);
      NotSoonIsMissed(e, n);
      assert FirstSecond((n * SECONDS_PER_DAY - 1) * NANOS) == n * SECONDS_PER_DAY;
    }
  }

  // ---------- From all years to twenty-eight ----------

  /** What a year looks like together with the next one: whether they are leap years, and how it begins. */
  ghost predicate Alike(y: int, z: int) {
    Leap(y) == Leap(z) && Leap(y + 1) == Leap(z + 1) && DaysBeforeYear(y) % 7 == DaysBeforeYear(z) % 7
  }

  /** The year among 2001 to 2028 that is like `y`. */
  ghost function Twin(y: int): (z: int)
    ensures 2001 <= z <= 2028
  {
    var base := if Leap(y) then 2004 else if Leap(y + 1) then 2003 else 2001;
    base + 4 * (3 * (DaysBeforeYear(y) - DaysBeforeYear(base)) % 7)
  }

  lemma TwinAlike(y: int)
    ensures Alike(y, Twin(y))
  {
    hide DaysBeforeYear, Leap;
    var base := if Leap(y) then 2004 else if Leap(y + 1) then 2003 else 2001;
    var k := 3 * (DaysBeforeYear(y) - DaysBeforeYear(base)) % 7;
    FourYears(base, k);
    NeverTwoLeapYears(y);
    FiveTimesThree(DaysBeforeYear(y), DaysBeforeYear(base));
  }

  lemma NeverTwoLeapYears(y: int)
    ensures !(Leap(y) && Leap(y + 1))
  {
  }

  /** Four years later a year begins five weekdays later, and three times five is one modulo seven. */
  lemma FiveTimesThree(a: int, b: int)
    ensures (b + 1461 * (3 * (a - b) % 7)) % 7 == a % 7
  {
    var k := 3 * (a - b) % 7;
    assert 3 * (a - b) == 7 * (3 * (a - b) / 7) + k;
    assert b + 1461 * k == a + 7 * (626 * (a - b) - 1461 * (3 * (a - b) / 7));
  }

  lemma FourYears(base: int, k: int)
    requires (base == 2001 || base == 2003 || base == 2004) && 0 <= k <= 6
    ensures DaysBeforeYear(base + 4 * k) == DaysBeforeYear(base) + 1461 * k
    ensures Leap(base + 4 * k) == (base == 2004) && Leap(base + 4 * k + 1) == (base == 2003)
  {
  }

  /** Days at the same place of alike years have the same month, day and weekday. */
  lemma SamePlace(n: int, n': int, y: int, z: int)
    requires DaysBeforeYear(y) <= n < DaysBeforeYear(y + 1) && n - DaysBeforeYear(y) == n' - DaysBeforeYear(z)
    requires Leap(y) == Leap(z) && DaysBeforeYear(y) % 7 == DaysBeforeYear(z) % 7
    ensures DateOf(n).month == DateOf(n').month && DateOf(n).day == DateOf(n').day && WeekdayOf(n) == WeekdayOf(n')
  {
    hide DaysBeforeYear, YearOf, Leap;
    NextYear(y);
    NextYear(z);
    YearUnique(n, y);
    YearUnique(n', z);
  }

  /** What is listed within 366 days of a day of one year is so for the same day of an alike year. */
  lemma SoonAlike(e: CronExpr, n: int, y: int, z: int)
    requires DaysBeforeYear(y) <= n < DaysBeforeYear(y + 1) && Alike(y, z)
    requires Soon(e, n)
    ensures Soon(e, n - DaysBeforeYear(y) + DaysBeforeYear(z))
  {
    hide DaysBeforeYear, DateOf, WeekdayOf, Leap;
    var k :| n <= k <= n + 365 && DayListed(e, k);
    var shift := DaysBeforeYear(z) - DaysBeforeYear(y);
    NextYear(y);
    NextYear(z);
    NextYear(y + 1);
    if k < DaysBeforeYear(y + 1) {
      SamePlace(k, k + shift, y, z);
    } else {
      SamePlace(k, k + shift, y + 1, z + 1);
    }
    assert DayListed(e, k + shift);
  }

  /** Each of the days of the years 2001 to 2028 has a listed one among the 366 from it on. */
  ghost predicate SoonFor28Years(e: CronExpr) {
    forall n :: DaysBeforeYear(2001) <= n < DaysBeforeYear(2029) ==> Soon(e, n)
  }

  lemma TwinDay(e: CronExpr, n: int)
    requires SoonFor28Years(e)
    ensures Soon(e, n)
  {
    hide DaysBeforeYear, YearOf, Leap, DateOf, WeekdayOf;
    var y := YearOf(n);
    var z := Twin(y);
    YearOfMeaning(n);
    TwinAlike(y);
    NextYear(y);
    NextYear(z);
    if z > 2001 {
      YearsGrow(2001, z);
      NextYear(2001);
    }
    if z < 2028 {
      YearsGrow(z, 2029);
    }
    var n' := n - DaysBeforeYear(y) + DaysBeforeYear(z);
    assert Soon(e, n');
    SoonAlike(e, n', z, y);
  }

  /** Next finds a time from every instant on if and only if each of the 10,227 days of the years 2001 to 2028
      has a listed day among the 366 from it on. */
  lemma NextAlwaysFinds(expr: string)
    requires ParsedCron(expr).Ok?
    ensures var e := ParsedCron(expr).value; AlwaysFinds(e) <==> SoonFor28Years(e)
  {
    var e := ParsedCron(expr).value;
    ParsedFields(expr);
    FindsBySoon(e);
    if SoonFor28Years(e) {
      forall n ensures Soon(e, n) {
        TwinDay(e, n);
      }
    }
  }

  // ---------- Expressions that list every weekday ----------

  /** Some listed month and day exist in every year. */
  ghost predicate EveryYear(e: CronExpr) {
    exists m, d :: YearlyDay(e, m, d)
  }

  ghost predicate YearlyDay(e: CronExpr, m: int, d: int) {
    m in e.month && d in e.day && 1 <= m <= 12 && 1 <= d <= DaysIn(false, m)
  }

  ghost predicate AnyWeekday(e: CronExpr) {
    forall w :: 0 <= w < 7 ==> w in e.weekday
  }

  lemma YearlyIsValid(y: int, m: int, d: int)
    requires 1 <= m <= 12 && 1 <= d <= DaysIn(false, m)
    ensures ValidDate(Date(y, m, d)) && DateOf(DayNumber(Date(y, m, d))) == Date(y, m, d)
  {
    DateToDay(Date(y, m, d));
  }

  /** A date of the year that day `n` falls into is at most 365 days ahead, the same date of the next year ahead
      and at most 366 days after the first. */
  lemma YearlyDates(n: int, m: int, d: int)
    requires 1 <= m <= 12 && 1 <= d <= DaysIn(false, m)
    ensures var y := YearOf(n);
            && DayNumber(Date(y, m, d)) - n <= 365
            && n < DayNumber(Date(y + 1, m, d))
            && 365 <= DayNumber(Date(y + 1, m, d)) - DayNumber(Date(y, m, d)) <= 366
  {
    var y := YearOf(n);
    YearOfMeaning(n);
    NextYear(y);
    NextMonth(Leap(y), m);
    if m < 12 {
      MonthsGrow(Leap(y), m, 13);
    }
    SameDateNextYear(y, m, d);
  }

  lemma YearlyIsSoon(e: CronExpr, n: int)
    requires EveryYear(e) && AnyWeekday(e)
    ensures Soon(e, n)
  {
    hide DateOf, DayNumber, YearOf;
    var m, d :| YearlyDay(e, m, d);
    var y := YearOf(n);
    YearlyDates(n, m, d);
    YearlyIsValid(y, m, d);
    YearlyIsValid(y + 1, m, d);
    var k := if DayNumber(Date(y, m, d)) >= n then DayNumber(Date(y, m, d)) else DayNumber(Date(y + 1, m, d));
    assert n <= k <= n + 365 && DayListed(e, k);
  }

  /** The dates within 366 days from 1 January 2001 on are those of 2001, and 1 January 2002. */
  lemma DatesFrom2001(n: int)
    requires 0 <= n - DaysBeforeYear(2001) <= 365
    ensures !Leap(DateOf(n).year) && ValidDate(DateOf(n)) && DayNumber(DateOf(n)) == n
    ensures DateOf(n).year == if n < DaysBeforeYear(2002) then 2001 else 2002
  {
    assert DaysBeforeYear(2001) == 730485 && DaysBeforeYear(2002) == 730850 && DaysBeforeYear(2003) == 731215;
    YearUnique(n, if n < DaysBeforeYear(2002) then 2001 else 2002);
    DayToDate(n);
  }

  /** Whatever the weekdays, without a day that every year has nothing is listed in the common year 2001. */
  lemma NothingIn2001(e: CronExpr)
    requires !EveryYear(e)
    ensures !Soon(e, DaysBeforeYear(2001)) && NoneWithin(e, DaysBeforeYear(2001) * SECONDS_PER_DAY)
  {
    forall n | DaysBeforeYear(2001) <= n <= DaysBeforeYear(2001) + 365 ensures !DayListed(e, n) {
      DatesFrom2001(n);
      assert !YearlyDay(e, DateOf(n).month, DateOf(n).day);
    }
    NotSoonIsMissed(e, DaysBeforeYear(2001));
  }

  /** An expression whose weekday field lists every weekday finds a time from every instant on if and only if
      some listed month and day exist in every year. */
  lemma AnyWeekdayFinds(expr: string)
    requires ParsedCron(expr).Ok? && AnyWeekday(ParsedCron(expr).value)
    ensures var e := ParsedCron(expr).value; AlwaysFinds(e) <==> EveryYear(e)
  {
    var e := ParsedCron(expr).value;
    ParsedFields(expr);
    FindsBySoon(e);
    if EveryYear(e) {
      forall n ensures Soon(e, n) {
        YearlyIsSoon(e, n);
      }
    } else {
      NothingIn2001(e);
    }
  }

  // ---------- Expressions that list some weekdays only ----------

  /** The first of January is a Monday in 2001 and a Tuesday in 2002. */
  lemma FirstsOfJanuary(n: int)
    requires 0 <= n - DaysBeforeYear(2001) <= 365 && DateOf(n).month == DateOf(n).day == 1
    ensures WeekdayOf(n) == 1 || WeekdayOf(n) == 2
  {
    hide DateOf;
    assert DaysBeforeYear(2001) == 730485 && DaysBeforeYear(2002) == 730850;
    DatesFrom2001(n);
  }

  /** A yearly day is then not enough: nothing matches on a Sunday the first of January for 366 days
      from the beginning of 2001 on. */
  lemma YearlyDayOnSundays(e: CronExpr)
    requires e.day == [1] && e.month == [1] && e.weekday == [0]
    ensures EveryYear(e) && NoneWithin(e, DaysBeforeYear(2001) * SECONDS_PER_DAY)
  {
    hide DateOf, DaysBeforeYear, WeekdayOf;
    assert YearlyDay(e, 1, 1);
    forall n | DaysBeforeYear(2001) <= n <= DaysBeforeYear(2001) + 365 ensures !DayListed(e, n) {
      if DayListed(e, n) {
        FirstsOfJanuary(n);
      }
    }
    NotSoonIsMissed(e, DaysBeforeYear(2001));
  }

  /** The same from its text: midnight, the first of January, on Sundays. */
  lemma SundayNewYear()
    ensures ParsedCron("0 0 0 1 1 0") == Ok(CronExpr([0], [0], [0], [1], [1], [0], "0 0 0 1 1 0"))
    ensures !AlwaysFinds(ParsedCron("0 0 0 1 1 0").value)
  {
    var forms := [Single(0), Single(0), Single(0), Single(1), Single(1), Single(0)];
    ShownIsParsed(forms);
    ShownSingles();
    var e := CronExpr([0], [0], [0], [1], [1], [0], "0 0 0 1 1 0");
    YearlyDayOnSundays(e);
    assert FirstSecond((DaysBeforeYear(2001) * SECONDS_PER_DAY - 1) * NANOS) == DaysBeforeYear(2001) * SECONDS_PER_DAY;
  }

  /** For every civil time there is an expression that lists it and nothing else on that day. */
  lemma EveryTimeIsListed(c: Civil) returns (expr: string)
    requires ValidCivil(c)
    ensures ParsedCron(expr) == Ok(CronExpr([c.second], [c.minute], [c.hour], [c.date.day], [c.date.month],
                                            [WeekdayOf(DayNumber(c.date))], expr))
    ensures Matches(ParsedCron(expr).value, SecondOf(c))
  {
    NextWeekday(DayNumber(c.date));
    var forms := [Single(c.second), Single(c.minute), Single(c.hour), Single(c.date.day), Single(c.date.month),
                  Single(WeekdayOf(DayNumber(c.date)))];
    expr := ShowCron(forms);
    ShownIsParsed(forms);
    MatchesListed(ParsedCron(expr).value, c);
  }

  lemma ShownSingles()
    ensures ShowCron([Single(0), Single(0), Single(0), Single(1), Single(1), Single(0)]) == "0 0 0 1 1 0"
  {
    hide Join, Map;
    ShownParts();
    JoinedParts();
  }

  lemma ShownParts()
    ensures Map(Show, [Single(0), Single(0), Single(0), Single(1), Single(1), Single(0)])
            == ["0", "0", "0", "1", "1", "0"]
  {
    hide Map;
    var forms := [Single(0), Single(0), Single(0), Single(1), Single(1), Single(0)];
    forall i | 0 <= i < 6 ensures Map(Show, forms)[i] == Show(forms[i]) {
      MapAt(Show, forms, i);
    }
    assert Decimal(0) == "0" && Decimal(1) == "1";
  }

  lemma JoinedParts()
    ensures Join(["0", "0", "0", "1", "1", "0"], ' ') == "0 0 0 1 1 0"
  {
    hide Join;
    JoinOne("0");
    JoinTwo(["0"], "0");
    assert ["0"] + ["0"] == ["0", "0"];
    JoinTwo(["0", "0"], "0");
    assert ["0", "0"] + ["0"] == ["0", "0", "0"];
    JoinTwo(["0", "0", "0"], "1");
    assert ["0", "0", "0"] + ["1"] == ["0", "0", "0", "1"];
    JoinTwo(["0", "0", "0", "1"], "1");
    assert ["0", "0", "0", "1"] + ["1"] == ["0", "0", "0", "1", "1"];
    JoinTwo(["0", "0", "0", "1", "1"], "0");
    assert ["0", "0", "0", "1", "1"] + ["0"] == ["0", "0", "0", "1", "1", "0"];
  }

  lemma JoinOne(p: string)
    ensures Join([p], ' ') == p
  {
  }

  lemma JoinTwo(parts: seq<string>, p: string)
    requires parts != []
    ensures Join(parts + [p], ' ') == Join(parts, ' ') + [' '] + p
  {
    assert (parts + [p])[..|parts|] == parts;
  }

  /** In some listed month `length` days in a row are listed, all of which exist in every year. */
  ghost predicate Run(e: CronExpr, m: int, d: int, length: nat) {
    && m in e.month && 1 <= m <= 12 && 1 <= d && d + length - 1 <= 28
    && forall k :: d <= k < d + length ==> k in e.day
  }

  /** The days of a run. */
  lemma RunDay(e: CronExpr, m: int, d: int, length: nat, y: int, i: nat)
    requires Run(e, m, d, length) && i < length
    ensures var n := DayNumber(Date(y, m, d + i));
            && n == DayNumber(Date(y, m, d)) + i
            && DateOf(n).month in e.month && DateOf(n).day in e.day
  {
    hide DateOf, DaysBeforeYear, DaysBeforeMonth;
    YearlyIsValid(y, m, d + i);
  }

  /** Nine days in a row are enough whatever the weekdays: of the last seven of them, one falls on a listed
      weekday, and so does a day 52 weeks later, which is again one of the nine. */
  lemma NineDaysSoon(e: CronExpr, m: int, d: int, w: int, n: int)
    requires Run(e, m, d, 9) && w in e.weekday && 0 <= w < 7
    ensures Soon(e, n)
  {
    hide DateOf, DayNumber, YearOf;
    var y := YearOf(n);
    var first, next := DayNumber(Date(y, m, d)), DayNumber(Date(y + 1, m, d));
    YearlyDates(n, m, d);
    YearlyDates(n, m, d + 8);
    var x := 2 + (w - (first + 2 + 1)) % 7;
    assert WeekdayOf(first + x) == w;
    RunDay(e, m, d, 9, y, x);
    RunDay(e, m, d, 9, y, 8);
    if first + x >= n {
      assert DayListed(e, first + x);
    } else {
      var i := first + x + 364 - next;
      RunDay(e, m, d, 9, y + 1, i);
      assert WeekdayOf(first + x + 364) == w;
      assert DayListed(e, next + i);
    }
  }

  /** Any parsed expression that lists nine days in a row of some month, all within the first 28, never fails. */
  lemma NineDaysFind(expr: string, m: int, d: int)
    requires ParsedCron(expr).Ok? && Run(ParsedCron(expr).value, m, d, 9)
    ensures AlwaysFinds(ParsedCron(expr).value)
  {
    var e := ParsedCron(expr).value;
    ParsedFields(expr);
    FindsBySoon(e);
    var w := e.weekday[0];
    assert w in e.weekday;
    forall n ensures Soon(e, n) {
      NineDaysSoon(e, m, d, w, n);
    }
  }

  /** One month, days in a row and one weekday are all that the expression lists. */
  ghost predicate OneRun(e: CronExpr, m: int, d: int, length: nat, w: int) {
    && Run(e, m, d, length) && 0 <= w < 7 && w in e.weekday
    && (forall k :: k in e.month ==> k == m)
    && (forall k :: k in e.day ==> d <= k < d + length)
    && (forall k :: k in e.weekday ==> k == w)
  }

  /** With a 29 February in between, a date comes back after 366 days. */
  lemma LeapBetween(y: int, m: int, d: int)
    requires 1 <= m <= 12 && (if m <= 2 then Leap(y) else Leap(y + 1))
    ensures DayNumber(Date(y + 1, m, d)) == DayNumber(Date(y, m, d)) + 366
  {
    hide DaysBeforeYear;
    NextYear(y);
    NeverTwoLeapYears(y);
  }

  /** A year in which a date falls on a given weekday and the next 29 February comes before it does again. */
  lemma YearFor(m: int, d: int, weekday: int) returns (y: int)
    requires 1 <= m <= 12 && 0 <= weekday < 7
    ensures WeekdayOf(DayNumber(Date(y, m, d))) == weekday
    ensures if m <= 2 then Leap(y) else Leap(y + 1)
  {
    hide DaysBeforeYear, Leap;
    var base := if m <= 2 then 2004 else 2003;
    var first := DayNumber(Date(base, m, d));
    var k := 3 * (weekday - 1 - first) % 7;
    y := base + 4 * k;
    FourYears(base, k);
    FourYears(base, 0);
    FiveTimesThree(weekday - 1, first);
    assert DayNumber(Date(y, m, d)) == first + 1461 * k;
  }

  /** Fewer than nine such days are missed once: from the third of them on in a year in which the second falls
      on the weekday and a 29 February follows. */
  lemma ShortRunMissed(e: CronExpr, m: int, d: int, length: nat, w: int) returns (n: int)
    requires OneRun(e, m, d, length, w) && length <= 8
    ensures !Soon(e, n)
  {
    hide DateOf, WeekdayOf, DayNumber, Leap;
    var y := YearFor(m, d, (w + 6) % 7);
    var first := DayNumber(Date(y, m, d));
    LeapBetween(y, m, d);
    n := first + 2;
    forall k | n <= k <= n + 365 ensures !DayListed(e, k) {
      if DayListed(e, k) {
        ListedInRun(e, m, d, length, w, k, y);
        WeekdayShift(first, k);
      }
    }
  }

  lemma WeekdayShift(a: int, b: int)
    ensures WeekdayOf(b) == (WeekdayOf(a) + (b - a)) % 7
  {
  }

  /** A listed day within a year of the third day of the run belongs to the run of this or of the next year. */
  lemma ListedInRun(e: CronExpr, m: int, d: int, length: nat, w: int, k: int, y: int)
    requires OneRun(e, m, d, length, w) && DayListed(e, k)
    requires 2 <= k - DayNumber(Date(y, m, d)) <= 367
    requires DayNumber(Date(y + 1, m, d)) == DayNumber(Date(y, m, d)) + 366
    ensures WeekdayOf(k) == w
    ensures k - DayNumber(Date(y, m, d)) < length || k - DayNumber(Date(y, m, d)) >= 366
  {
    hide DaysBeforeYear, DateOf, WeekdayOf, Leap;
    DayToDate(k);
    var date := DateOf(k);
    DateRange(date);
    DateRange(Date(y, m, d));
    NextYear(y);
    NextYear(y + 1);
    if date.year < y {
      YearsGrow(date.year, y);
    } else if date.year > y + 1 {
      YearsGrow(y + 1, date.year);
    }
    assert date.month == m && d <= date.day < d + length;
  }

  /** A date lies in its year. */
  lemma DateRange(d: Date)
    requires ValidDate(d)
    ensures DaysBeforeYear(d.year) <= DayNumber(d) < DaysBeforeYear(d.year + 1)
  {
    hide DaysBeforeYear, Leap;
    NextYear(d.year);
    NextMonth(Leap(d.year), d.month);
    if d.month < 12 {
      MonthsGrow(Leap(d.year), d.month, 13);
    }
  }

  /** A parsed expression that lists one weekday, and days in a row of one month within its first 28, finds a time
      from every instant on if and only if it lists nine days or more. */
  lemma OneRunFinds(expr: string, m: int, d: int, length: nat, w: int)
    requires ParsedCron(expr).Ok? && OneRun(ParsedCron(expr).value, m, d, length, w)
    ensures AlwaysFinds(ParsedCron(expr).value) <==> length >= 9
  {
    var e := ParsedCron(expr).value;
    ParsedFields(expr);
    FindsBySoon(e);
    if length >= 9 {
      NineDaysFind(expr, m, d);
    } else {
      var n := ShortRunMissed(e, m, d, length, w);
    }
  }
}
