/** Cron expressions, and the search for the next time that matches one. Times are counted from midnight UTC
    of 1 January of year 1: whole seconds where they are matched, nanoseconds where they come in. */
module Cron {
  import opened Common
  import opened Calendar
  import opened CronField

  const NANOS := 1_000_000_000
  /** As many seconds as Next tries: 366 days. */
  const WINDOW := 366 * 24 * 60 * 60

  /** `raw` is the text that the expression was parsed from. */
  datatype CronExpr = CronExpr(second: seq<int>, minute: seq<int>, hour: seq<int>,
                               day: seq<int>, month: seq<int>, weekday: seq<int>, raw: string)

  // ---------- Splitting at white space ----------

  /** The characters that Go's unicode.IsSpace accepts. */
  predicate IsSpace(c: char) {
    || c == ' ' || '\t' <= c <= '\r' || c == '\U{0085}' || c == '\U{00A0}' || c == '\U{1680}'
    || '\U{2000}' <= c <= '\U{200A}' || c == '\U{2028}' || c == '\U{2029}' || c == '\U{202F}'
    || c == '\U{205F}' || c == '\U{3000}'
  }

  predicate EndsOpen(s: string) {
    s == "" || IsSpace(s[|s| - 1])
  }

  /** strings.Fields: the longest runs of characters other than white space. */
  function Fields(s: string): (fields: seq<string>)
    ensures !EndsOpen(s) ==> fields != []
  {
    if s == "" then []
    else
      var init, c := s[..|s| - 1], s[|s| - 1];
      var fields := Fields(init);
      if IsSpace(c) then fields
      else if EndsOpen(init) then fields + [[c]]
      else fields[|fields| - 1 := fields[|fields| - 1] + [c]]
  }

  predicate Plain(s: string) {
    s != "" && forall i :: 0 <= i < |s| ==> !IsSpace(s[i])
  }

  /** A run of other characters after white space is a field of its own. */
  lemma {:induction false} FieldsAppend(s: string, t: string)
    requires EndsOpen(s) && Plain(t)
    ensures Fields(s + t) == Fields(s) + [t]
  {
    var init, c := t[..|t| - 1], t[|t| - 1];
    assert (s + t)[..|s + t| - 1] == s + init;
    if init == "" {
      assert s + init == s && t == [c];
    } else {
      FieldsAppend(s, init);
      assert !IsSpace(init[|init| - 1]) && (s + init)[|s + init| - 1] == init[|init| - 1];
      var fields := Fields(s) + [init];
      assert init + [c] == t;
      assert fields[|fields| - 1 := t] == Fields(s) + [t];
    }
  }

  lemma OneField(t: string)
    requires Plain(t)
    ensures Fields(t) == [t]
  {
    FieldsAppend("", t);
    assert "" + t == t;
  }

  lemma Separates(sep: char)
    requires sep == ' ' || sep == '\t' || sep == '\n' || sep == '\r'
    ensures IsSpace(sep)
  {
  }

  /** Fields joined by blanks, tabs or line ends are found again. */
  lemma {:induction false} FieldsJoin(parts: seq<string>, sep: char)
    requires parts != [] && forall i :: 0 <= i < |parts| ==> Plain(parts[i])
    requires sep == ' ' || sep == '\t' || sep == '\n' || sep == '\r'
    ensures Fields(Join(parts, sep)) == parts
  {
    hide Fields, Plain, IsSpace, EndsOpen;
    var init, last := parts[..|parts| - 1], parts[|parts| - 1];
    if init == [] {
      OneField(last);
      assert [last] == parts;
    } else {
      Separates(sep);
      FieldsJoin(init, sep);
      FieldsBlank(Join(init, sep), sep);
      FieldsAppend(Join(init, sep) + [sep], last);
      assert init + [last] == parts;
    }
  }

  lemma FieldsBlank(s: string, c: char)
    requires IsSpace(c)
    ensures Fields(s + [c]) == Fields(s) && EndsOpen(s + [c])
  {
    assert (s + [c])[..|s|] == s;
  }

  // ---------- Parsing ----------

  /** What the parser makes of one field, the overflowing step included. */
  function Parsed(field: string, min: int, max: int): Result<seq<int>, CronError> {
    if Overflows(field, min) then Ok([1, -MAX_INT - 1, -1])
    else
      match Denotes(field, min, max)
      case None => Err(InvalidField)
      case Some(values) => Ok(values)
  }

  /** The six fields in their order, each within its bounds. */
  function ParsedCron(expr: string): Result<CronExpr, CronError> {
    var fields := Fields(expr);
    if |fields| != 6 then Err(InvalidExpr)
    else
      var (second, minute, hour) := (Parsed(fields[0], 0, 59), Parsed(fields[1], 0, 59), Parsed(fields[2], 0, 23));
      var (day, month, weekday) := (Parsed(fields[3], 1, 31), Parsed(fields[4], 1, 12), Parsed(fields[5], 0, 6));
      if second.Ok? && minute.Ok? && hour.Ok? && day.Ok? && month.Ok? && weekday.Ok? then
        Ok(CronExpr(second.value, minute.value, hour.value, day.value, month.value, weekday.value, expr))
      else Err(InvalidField)
  }

  /** The i-th of the six fields is accepted. */
  ghost predicate Accepted(field: string, i: int) {
    Overflows(field, Min(i)) || Denotes(field, Min(i), Max(i)).Some?
  }

  /** An expression is refused if and only if it has not six fields, or one that is malformed or out of its bounds. */
  lemma RefusedExactly(expr: string)
    ensures ParsedCron(expr) == Err(InvalidExpr) <==> |Fields(expr)| != 6
    ensures ParsedCron(expr).Ok? <==> |Fields(expr)| == 6 && forall i :: 0 <= i < 6 ==> Accepted(Fields(expr)[i], i)
  {
    hide Denotes, Overflows, Fields;
    var fields := Fields(expr);
    if |fields| == 6 && forall i :: 0 <= i < 6 ==> Accepted(fields[i], i) {
      assert Accepted(fields[0], 0) && Accepted(fields[1], 1) && Accepted(fields[2], 2);
      assert Accepted(fields[3], 3) && Accepted(fields[4], 4) && Accepted(fields[5], 5);
    }
  }

  method ParseCron(expr: string) returns (r: Result<CronExpr, CronError>)
    ensures r == ParsedCron(expr)
  {
    var fields := Fields(expr);
    if |fields| != 6 {
      return Err(InvalidExpr);
    }
    var second := ParseField(fields[0], 0, 59);
    if second.Err? { return Err(second.error); }
    var minute := ParseField(fields[1], 0, 59);
    if minute.Err? { return Err(minute.error); }
    var hour := ParseField(fields[2], 0, 23);
    if hour.Err? { return Err(hour.error); }
    var day := ParseField(fields[3], 1, 31);
    if day.Err? { return Err(day.error); }
    var month := ParseField(fields[4], 1, 12);
    if month.Err? { return Err(month.error); }
    var weekday := ParseField(fields[5], 0, 6);
    if weekday.Err? { return Err(weekday.error); }
    return Ok(CronExpr(second.value, minute.value, hour.value, day.value, month.value, weekday.value, expr));
  }

  ghost predicate Within(values: seq<int>, min: int, max: int) {
    values != [] && forall v :: v in values ==> min <= v <= max
  }

  /** A second, a minute, an hour and a weekday are listed, and only such as there are. */
  ghost predicate Clocked(e: CronExpr) {
    && Within(e.second, 0, 59) && Within(e.minute, 0, 59) && Within(e.hour, 0, 23) && Within(e.weekday, 0, 6)
  }

  /** Seconds, minutes, hours and weekdays are never empty or out of range, days and months only where a step
      of the largest int overflows, and even then they stand for the first day or month just as they should. */
  lemma ParsedFields(expr: string)
    requires ParsedCron(expr).Ok?
    ensures |Fields(expr)| == 6 && ParsedCron(expr).value.raw == expr
    ensures var (e, fields) := (ParsedCron(expr).value, Fields(expr));
            && Clocked(e)
            && (Within(e.day, 1, 31) <==> !Overflows(fields[3], 1))
            && (Within(e.month, 1, 12) <==> !Overflows(fields[4], 1))
            && (forall v :: v >= 0 ==> (v in e.day <==> Stands(fields[3], 1, 31, v)))
            && (forall v :: v >= 0 ==> (v in e.month <==> Stands(fields[4], 1, 12, v)))
  {
    var fields := Fields(expr);
    ParsedWithin(fields[0], 0, 59);
    ParsedWithin(fields[1], 0, 59);
    ParsedWithin(fields[2], 0, 23);
    ParsedWithin(fields[3], 1, 31);
    ParsedWithin(fields[4], 1, 12);
    ParsedWithin(fields[5], 0, 6);
  }

  /** The field is well formed and `v` is one of the values that it denotes. */
  ghost predicate Stands(field: string, min: int, max: int, v: int) {
    Denotes(field, min, max).Some? && v in Denotes(field, min, max).value
  }

  lemma ParsedWithin(field: string, min: int, max: int)
    requires Bounds(min, max) && Parsed(field, min, max).Ok?
    ensures var values := Parsed(field, min, max).value;
            && (Within(values, min, max) <==> !Overflows(field, min))
            && (Overflows(field, min) ==> min == 1)
            && forall v :: v >= 0 ==> (v in values <==> Stands(field, min, max, v))
  {
    OverflowIsExact(field, min, max);
    if Overflows(field, min) {
      assert -1 in Parsed(field, min, max).value;
    } else {
      FieldInRange(field, min, max);
    }
  }

  // ---------- Writing an expression down and parsing it again ----------

  lemma DecimalPlain(n: nat)
    ensures Plain(Decimal(n))
  {
    var s := Decimal(n);
    assert forall i :: 0 <= i < |s| ==> IsDigit(s[i]);
  }

  lemma {:induction false} ValuesPlain(vs: seq<nat>)
    requires vs != []
    ensures Plain(Join(Decimals(vs), ','))
  {
    var init, last := vs[..|vs| - 1], vs[|vs| - 1];
    DecimalPlain(last);
    assert Decimals(vs)[..|vs| - 1] == Decimals(init);
    if init != [] {
      ValuesPlain(init);
    }
  }

  /** A field in a documented form holds no white space. */
  lemma ShowPlain(f: Form)
    requires f.Values? ==> f.vs != []
    ensures Plain(Show(f))
  {
    match f
    case Any =>
    case Step(n) => DecimalPlain(n);
    case Values(vs) => ValuesPlain(vs);
    case Span(from, to) =>
      DecimalPlain(from);
      DecimalPlain(to);
    case Single(v) => DecimalPlain(v);
  }

  /** Well formed, and no step that overflows. */
  predicate Safe(f: Form, min: int, max: int) {
    WellFormed(f, min, max) && (min == 1 ==> f != Step(MAX_INT))
  }

  lemma ParsedShow(f: Form, min: int, max: int)
    requires Bounds(min, max) && Safe(f, min, max)
    ensures Parsed(Show(f), min, max) == Ok(Meaning(f, min, max)) && Plain(Show(f))
  {
    ShownIsDenoted(f, min, max);
    ShowPlain(f);
    OverflowIsExact(Show(f), min, max);
    if Overflows(Show(f), min) {
      ShownOverflow(f, min, max);
    }
  }

  lemma ShownOverflow(f: Form, min: int, max: int)
    requires Bounds(min, max) && WellFormed(f, min, max) && "*/" <= Show(f) && Atoi(Show(f)[2..]) == Some(MAX_INT)
    ensures f == Step(MAX_INT)
  {
    ShownStar(f, min, max);
    assert Show(f)[0] == '*';
    if f.Step? {
      AtoiDecimal(f.n);
      assert Show(f)[2..] == Decimal(f.n);
    }
  }

  /** Only "*" and steps begin with a star. */
  lemma ShownStar(f: Form, min: int, max: int)
    requires WellFormed(f, min, max)
    ensures Show(f) != "" && (Show(f)[0] == '*' <==> f.Any? || f.Step?)
  {
    match f
    case Any =>
    case Step(_) =>
    case Values(vs) => JoinShape(vs);
    case Span(from, to) => SpanShape(from, to);
    case Single(v) => assert IsDigit(Decimal(v)[0]);
  }

  /** The least value of the i-th field. */
  function Min(i: int): int {
    if i == 3 || i == 4 then 1 else 0
  }

  function Max(i: int): int {
    if i <= 1 then 59 else if i == 2 then 23 else if i == 3 then 31 else if i == 4 then 12 else 6
  }

  /** Six fields in documented forms. */
  ghost predicate SafeForms(forms: seq<Form>) {
    |forms| == 6 && forall i :: 0 <= i < 6 ==> Safe(forms[i], Min(i), Max(i))
  }

  function ShowCron(forms: seq<Form>): string {
    Join(Map(Show, forms), ' ')
  }

  lemma FormsAreParsed(forms: seq<Form>, i: nat)
    requires SafeForms(forms) && i < 6
    ensures Parsed(Map(Show, forms)[i], Min(i), Max(i)) == Ok(Meaning(forms[i], Min(i), Max(i)))
    ensures Plain(Map(Show, forms)[i])
  {
    MapAt(Show, forms, i);
    ParsedShow(forms[i], Min(i), Max(i));
  }

  lemma ParsedSix(expr: string, fields: seq<string>, values: seq<seq<int>>)
    requires Fields(expr) == fields && |fields| == |values| == 6
    requires forall i :: 0 <= i < 6 ==> Parsed(fields[i], Min(i), Max(i)) == Ok(values[i])
    ensures ParsedCron(expr) == Ok(CronExpr(values[0], values[1], values[2], values[3], values[4], values[5], expr))
  {
  }

  ghost function Meanings(forms: seq<Form>): seq<seq<int>>
    requires SafeForms(forms)
  {
    seq(6, i requires 0 <= i < 6 => Meaning(forms[i], Min(i), Max(i)))
  }

  /** An expression of six such fields, joined by blanks, is parsed as what they mean. */
  lemma ShownIsParsed(forms: seq<Form>)
    requires SafeForms(forms)
    ensures var m := Meanings(forms);
            ParsedCron(ShowCron(forms)) == Ok(CronExpr(m[0], m[1], m[2], m[3], m[4], m[5], ShowCron(forms)))
  {
    var fields := Map(Show, forms);
    forall i | 0 <= i < 6
      ensures Parsed(fields[i], Min(i), Max(i)) == Ok(Meanings(forms)[i]) && Plain(fields[i])
    {
      FormsAreParsed(forms, i);
    }
    FieldsJoin(fields, ' ');
    ParsedSix(ShowCron(forms), fields, Meanings(forms));
  }

  // ---------- Matching ----------

  ghost predicate Matches(e: CronExpr, t: int) {
    var date := DateOf(t / SECONDS_PER_DAY);
    && t % 60 in e.second
    && t / 60 % 60 in e.minute
    && t / 3600 % 24 in e.hour
    && date.day in e.day
    && date.month in e.month
    && WeekdayOf(t / SECONDS_PER_DAY) in e.weekday
  }

  /** All six parts of a civil time are listed. */
  ghost predicate Listed(e: CronExpr, c: Civil) {
    && c.second in e.second && c.minute in e.minute && c.hour in e.hour
    && c.date.day in e.day && c.date.month in e.month && WeekdayOf(DayNumber(c.date)) in e.weekday
  }

  /** A second matches if and only if the civil time that it stands for is listed. */
  lemma MatchesListed(e: CronExpr, c: Civil)
    requires ValidCivil(c)
    ensures Matches(e, SecondOf(c)) <==> Listed(e, c)
  {
    hide DayNumber, DateOf, WeekdayOf;
    CivilToSecond(c);
    TimeParts(DayNumber(c.date), c.hour, c.minute, c.second);
  }

  lemma MatchesCivil(e: CronExpr, t: int)
    ensures Matches(e, t) <==> Listed(e, CivilOf(t))
  {
    hide DayNumber, DateOf, ValidCivil, Matches, Listed;
    SecondToCivil(t);
    MatchesListed(e, CivilOf(t));
  }

  method Contains(slice: seq<int>, val: int) returns (found: bool)
    ensures found == (val in slice)
  {
    for i := 0 to |slice|
      invariant val !in slice[..i]
    {
      if slice[i] == val {
        return true;
      }
    }
    return false;
  }

  method MatchesTime(e: CronExpr, t: int) returns (b: bool)
    ensures b == Matches(e, t)
    ensures b == Listed(e, CivilOf(t))
  {
    MatchesCivil(e, t);
    b := Contains(e.second, t % 60);
    if !b { return; }
    b := Contains(e.minute, t / 60 % 60);
    if !b { return; }
    b := Contains(e.hour, t / 3600 % 24);
    if !b { return; }
    b := Contains(e.day, DateOf(t / SECONDS_PER_DAY).day);
    if !b { return; }
    b := Contains(e.month, DateOf(t / SECONDS_PER_DAY).month);
    if !b { return; }
    b := Contains(e.weekday, WeekdayOf(t / SECONDS_PER_DAY));
  }

  /** The first whole second after an instant. */
  function FirstSecond(from: int): int {
    (from + NANOS) / NANOS
  }

  lemma FirstSecondMeaning(from: int, u: int)
    ensures u * NANOS > from <==> u >= FirstSecond(from)
  {
  }

  /** No time matches within the 366 days from `start` on. */
  ghost predicate NoneWithin(e: CronExpr, start: int) {
    forall u :: start <= u < start + WINDOW ==> !Matches(e, u)
  }

  /** The least matching whole second after `from`. */
  ghost predicate IsNext(e: CronExpr, from: int, t: int) {
    t * NANOS > from && Matches(e, t) && forall u :: u * NANOS > from && u < t ==> !Matches(e, u)
  }

  /** The civil time comes after an instant, which is counted in nanoseconds. */
  ghost predicate Follows(c: Civil, from: int) {
    ValidCivil(c) && SecondOf(c) * NANOS > from
  }

  /** That is the earliest listed civil time after `from`. */
  lemma NextIsEarliest(e: CronExpr, from: int, t: int)
    ensures IsNext(e, from, t) <==>
            && Follows(CivilOf(t), from) && Listed(e, CivilOf(t))
            && forall c :: Follows(c, from) && Listed(e, c) ==> t <= SecondOf(c)
  {
    hide CivilOf, SecondOf, ValidCivil, Matches, Listed;
    SecondToCivil(t);
    MatchesCivil(e, t);
    if IsNext(e, from, t) {
      forall c | Follows(c, from) && Listed(e, c) ensures t <= SecondOf(c) {
        MatchesListed(e, c);
      }
    } else if forall c :: Follows(c, from) && Listed(e, c) ==> t <= SecondOf(c) {
      forall u | u * NANOS > from && u < t ensures !Matches(e, u) {
        SecondToCivil(u);
        MatchesCivil(e, u);
      }
    }
  }

  /** No listed civil time comes in the 366 days after `from`. */
  lemma NoneWithinMeaning(e: CronExpr, from: int)
    ensures NoneWithin(e, FirstSecond(from)) <==>
            forall c :: Follows(c, from) && Listed(e, c) ==> SecondOf(c) >= FirstSecond(from) + WINDOW
  {
    hide CivilOf, SecondOf, ValidCivil, Matches, Listed, FirstSecond;
    if NoneWithin(e, FirstSecond(from)) {
      forall c | Follows(c, from) && Listed(e, c) ensures SecondOf(c) >= FirstSecond(from) + WINDOW {
        MatchesListed(e, c);
        FirstSecondMeaning(from, SecondOf(c));
      }
    } else {
      var u :| FirstSecond(from) <= u < FirstSecond(from) + WINDOW && Matches(e, u);
      SecondToCivil(u);
      MatchesCivil(e, u);
      FirstSecondMeaning(from, u);
      assert Follows(CivilOf(u), from) && Listed(e, CivilOf(u));
    }
  }

  method Next(e: CronExpr, from: int) returns (next: Option<int>)
    ensures next.Some? ==> IsNext(e, from, next.value) && next.value < FirstSecond(from) + WINDOW
    ensures next.None? <==> NoneWithin(e, FirstSecond(from))
    ensures next.Some? ==> Follows(CivilOf(next.value), from) && Listed(e, CivilOf(next.value))
    ensures next.Some? ==> forall c :: Follows(c, from) && Listed(e, c) ==> next.value <= SecondOf(c)
  {
    hide CivilOf, SecondOf, ValidCivil, Matches, Listed, FirstSecond;
    var t := FirstSecond(from);
    for i := 0 to WINDOW
      invariant t == FirstSecond(from) + i
      invariant forall u :: FirstSecond(from) <= u < t ==> !Matches(e, u)
    {
      var found := MatchesTime(e, t);
      if found {
        forall u | u * NANOS > from && u < t ensures !Matches(e, u) {
          FirstSecondMeaning(from, u);
        }
        FirstSecondMeaning(from, t);
        NextIsEarliest(e, from, t);
        return Some(t);
      }
      t := t + 1;
    }
    return None;
  }
}
