/** One field of a cron expression: numbers, lists, ranges and steps. Integers are 64 bits wide. */
module CronField {
  import opened Common

  datatype CronError = InvalidExpr | InvalidField

  // ---------- strconv.Atoi ----------

  predicate IsDigit(c: char) {
    '0' <= c <= '9'
  }

  predicate AllDigits(s: string) {
    s != "" && forall i :: 0 <= i < |s| ==> IsDigit(s[i])
  }

  function DigitValue(c: char): nat
    requires IsDigit(c)
  {
    c as int - '0' as int
  }

  function DigitsValue(s: string): nat
    requires forall i :: 0 <= i < |s| ==> IsDigit(s[i])
  {
    if s == "" then 0 else 10 * DigitsValue(s[..|s| - 1]) + DigitValue(s[|s| - 1])
  }

  /** An optional sign and at least one digit, within 64 bits. */
  function Atoi(s: string): Option<int> {
    var signed := s != "" && (s[0] == '-' || s[0] == '+');
    var digits := if signed then s[1..] else s;
    if !AllDigits(digits) then None
    else
      var n: int := DigitsValue(digits);
      var v := if signed && s[0] == '-' then -n else n;
      if -MAX_INT - 1 <= v <= MAX_INT then Some(v) else None
  }

  // ---------- strings.Split and Contains ----------

  /** The pieces of `s` between the separators. */
  function Split(s: string, sep: char): (parts: seq<string>)
    ensures |parts| >= 1
  {
    if s == "" then [""]
    else
      var parts := Split(s[..|s| - 1], sep);
      var c := s[|s| - 1];
      if c == sep then parts + [""] else parts[|parts| - 1 := parts[|parts| - 1] + [c]]
  }

  // ---------- What a field denotes ----------

  function RangeOf(min: int, max: int): (r: seq<int>)
    ensures max >= min - 1 ==> |r| == max - min + 1
    decreases max - min
  {
    if min > max then [] else RangeOf(min, max - 1) + [max]
  }

  lemma {:induction false} RangeMeaning(min: int, max: int)
    ensures forall v :: v in RangeOf(min, max) <==> min <= v <= max
    ensures forall i :: 0 <= i < |RangeOf(min, max)| ==> RangeOf(min, max)[i] == min + i
    decreases max - min
  {
    if min <= max {
      RangeMeaning(min, max - 1);
    }
  }

  /** Every `step`-th number from `i` to `max`. */
  function Every(i: int, max: int, step: int): seq<int>
    requires step > 0
    decreases max - i
  {
    if i > max then [] else [i] + Every(i + step, max, step)
  }

  lemma {:induction false} EveryMeaning(i: int, max: int, step: int, v: int)
    requires step > 0
    ensures v in Every(i, max, step) <==> i <= v <= max && (v - i) % step == 0
    decreases max - i
  {
    if i <= max {
      EveryMeaning(i + step, max, step, v);
      StepShift(v - i, step);
    }
  }

  lemma StepShift(d: int, step: int)
    requires step > 0
    ensures d >= step ==> (d % step == 0 <==> (d - step) % step == 0)
    ensures 0 <= d < step ==> (d % step == 0 <==> d == 0)
  {
    if d >= step {
      var q, r := (d - step) / step, (d - step) % step;
      assert d - step == step * q + r;
      assert d == step * (q + 1) + r;
      RemainderUnique(d, step, q + 1, r);
    }
  }

  /** i += step in two's complement. */
  function Advance(i: int, step: int): int {
    if i + step > MAX_INT then i + step - 2 * (MAX_INT + 1) else i + step
  }

  /** The numbers of a list, unless one is malformed or out of range. */
  function ListOf(parts: seq<string>, min: int, max: int): Option<seq<int>> {
    if parts == [] then Some([])
    else
      var init := ListOf(parts[..|parts| - 1], min, max);
      var v := Atoi(parts[|parts| - 1]);
      if init.None? || v.None? || v.value < min || v.value > max then None else Some(init.value + [v.value])
  }

  /** What the documentation says a field stands for; None for a malformed one. */
  function Denotes(field: string, min: int, max: int): Option<seq<int>> {
    if field == "*" then Some(RangeOf(min, max))
    else if "*/" <= field then
      var step := Atoi(field[2..]);
      if step.None? || step.value <= 0 then None else Some(Every(min, max, step.value))
    else if ',' in field then ListOf(Split(field, ','), min, max)
    else if '-' in field then
      var parts := Split(field, '-');
      if |parts| != 2 then None
      else
        var (start, end) := (Atoi(parts[0]), Atoi(parts[1]));
        if start.None? || start.value < min || end.None? || end.value > max || end.value < start.value then None
        else Some(RangeOf(start.value, end.value))
    else
      var v := Atoi(field);
      if v.None? || v.value < min || v.value > max then None else Some([v.value])
  }

  /** The bounds of the six fields of a cron expression. */
  predicate Bounds(min: int, max: int) {
    0 <= min <= 1 && 5 < max < 60
  }

  /** A step so wide that the first addition wraps around; it takes min = 1 and the largest int. */
  predicate Overflows(field: string, min: int) {
    "*/" <= field && field != "*" && Atoi(field[2..]).Some? && min + Atoi(field[2..]).value > MAX_INT
  }

  method RangeSlice(min: int, max: int) returns (values: seq<int>)
    requires max >= min - 1
    ensures values == RangeOf(min, max)
  {
    values := seq(max - min + 1, _ => 0);
    for i := 0 to |values|
      invariant |values| == max - min + 1
      invariant forall k :: 0 <= k < i ==> values[k] == min + k
    {
      values := values[i := min + i];
    }
    RangeMeaning(min, max);
    assert values == RangeOf(min, max);
  }

  /** Half way through a step field: `values` are there, `i` comes next. */
  ghost predicate Stepping(min: int, max: int, step: int, i: int, values: seq<int>)
    requires step > 0
  {
    if min + step <= MAX_INT then
      (i == min || i >= min + step) && values + Every(i, max, step) == Every(min, max, step)
    else
      || (i == 1 && values == [])
      || (i == -MAX_INT - 1 && values == [1])
      || (i == -1 && values == [1, -MAX_INT - 1])
      || (i > max && values == [1, -MAX_INT - 1, -1])
  }

  lemma StepOn(min: int, max: int, step: int, i: int, values: seq<int>)
    requires Bounds(min, max) && 0 < step <= MAX_INT && i <= max && Stepping(min, max, step, i, values)
    ensures Stepping(min, max, step, Advance(i, step), values + [i])
    ensures min + step <= MAX_INT ==> Advance(i, step) == i + step
  {
    if min + step <= MAX_INT {
      EveryFirst(i, max, step, values);
    } else {
      WrapOn(max, step, i, values);
    }
  }

  lemma EveryFirst(i: int, max: int, step: int, values: seq<int>)
    requires step > 0 && i <= max
    ensures values + Every(i, max, step) == values + [i] + Every(i + step, max, step)
  {
    var rest := Every(i + step, max, step);
    assert Every(i, max, step) == [i] + rest;
    assert values + ([i] + rest) == values + [i] + rest;
  }

  /** With the largest step, from 1 to the smallest int, to -1 and out of range. */
  lemma WrapOn(max: int, step: int, i: int, values: seq<int>)
    requires step == MAX_INT && max < 60 && i <= max && Stepping(1, max, step, i, values)
    ensures Stepping(1, max, step, Advance(i, step), values + [i])
  {
    if i == 1 && values == [] {
      assert values + [i] == [1];
    } else if values == [1] {
      assert values + [i] == [1, -MAX_INT - 1];
    } else {
      assert values + [i] == [1, -MAX_INT - 1, -1];
    }
  }

  /** The loop of a step field. */
  method StepSlice(min: int, max: int, step: int) returns (values: seq<int>)
    requires Bounds(min, max) && 0 < step <= MAX_INT
    ensures min + step <= MAX_INT ==> values == Every(min, max, step)
    ensures min + step > MAX_INT ==> values == [1, -MAX_INT - 1, -1]
  {
    values := [];
    var i := min;
    while i <= max
      invariant Stepping(min, max, step, i, values)
      decreases if min + step <= MAX_INT then max - i else 3 - |values|
    {
      StepOn(min, max, step, i, values);
      values := values + [i];
      i := Advance(i, step);
    }
  }

  /** Parses a field into what it denotes; with a step that overflows it goes wrong. */
  method ParseField(field: string, min: int, max: int) returns (r: Result<seq<int>, CronError>)
    requires Bounds(min, max)
    ensures !Overflows(field, min) ==>
              r == match Denotes(field, min, max) case None => Err(InvalidField) case Some(values) => Ok(values)
    ensures Overflows(field, min) ==> r == Ok([1, -MAX_INT - 1, -1])
  {
    if field == "*" {
      var values := RangeSlice(min, max);
      return Ok(values);
    }
    if "*/" <= field {
      var step := Atoi(field[2..]);
      if step.None? || step.value <= 0 {
        return Err(InvalidField);
      }
      var values := StepSlice(min, max, step.value);
      return Ok(values);
    }
    if ',' in field {
      r := ParseList(Split(field, ','), min, max);
      return;
    }
    if '-' in field {
      var parts := Split(field, '-');
      if |parts| != 2 {
        return Err(InvalidField);
      }
      var start := Atoi(parts[0]);
      if start.None? || start.value < min {
        return Err(InvalidField);
      }
      var end := Atoi(parts[1]);
      if end.None? || end.value > max || end.value < start.value {
        return Err(InvalidField);
      }
      var values := RangeSlice(start.value, end.value);
      return Ok(values);
    }
    var v := Atoi(field);
    if v.None? || v.value < min || v.value > max {
      return Err(InvalidField);
    }
    return Ok([v.value]);
  }

  /** The loop of a list field. */
  method ParseList(parts: seq<string>, min: int, max: int) returns (r: Result<seq<int>, CronError>)
    ensures r == match ListOf(parts, min, max) case None => Err(InvalidField) case Some(values) => Ok(values)
  {
    var values: seq<int> := [];
    for i := 0 to |parts|
      invariant ListOf(parts[..i], min, max) == Some(values)
    {
      assert parts[..i + 1][..i] == parts[..i];
      var v := Atoi(parts[i]);
      if v.None? || v.value < min || v.value > max {
        ListFails(parts, min, max, i + 1);
        return Err(InvalidField);
      }
      values := values + [v.value];
    }
    assert parts[..|parts|] == parts;
    return Ok(values);
  }

  lemma {:induction false} ListFails(parts: seq<string>, min: int, max: int, k: nat)
    requires k <= |parts| && ListOf(parts[..k], min, max).None?
    ensures ListOf(parts, min, max).None?
  {
    if k == |parts| {
      assert parts[..k] == parts;
    } else {
      assert parts[..|parts| - 1][..k] == parts[..k];
      ListFails(parts[..|parts| - 1], min, max, k);
    }
  }

  // ---------- Fields are sound ----------

  /** A list field stands for its numbers, one by one. */
  lemma {:induction false} ListMeaning(parts: seq<string>, min: int, max: int)
    requires ListOf(parts, min, max).Some?
    ensures var values := ListOf(parts, min, max).value;
            && |values| == |parts|
            && forall i :: 0 <= i < |parts| ==> Atoi(parts[i]) == Some(values[i]) && min <= values[i] <= max
  {
    if parts != [] {
      ListMeaning(parts[..|parts| - 1], min, max);
    }
  }

  /** A well-formed field denotes at least one value, and only values in range. */
  lemma FieldInRange(field: string, min: int, max: int)
    requires Bounds(min, max) && Denotes(field, min, max).Some?
    ensures var values := Denotes(field, min, max).value;
            values != [] && forall v :: v in values ==> min <= v <= max
  {
    var values := Denotes(field, min, max).value;
    if field == "*" {
      RangeMeaning(min, max);
    } else if "*/" <= field {
      var step := Atoi(field[2..]).value;
      forall v | v in values ensures min <= v <= max {
        EveryMeaning(min, max, step, v);
      }
    } else if ',' in field {
      ListMeaning(Split(field, ','), min, max);
    } else if '-' in field {
      var parts := Split(field, '-');
      RangeMeaning(Atoi(parts[0]).value, Atoi(parts[1]).value);
    }
  }

  /** Only an overflowing step makes the parser return a value out of range, and it always does. */
  lemma OverflowIsExact(field: string, min: int, max: int)
    requires Bounds(min, max)
    ensures Overflows(field, min) <==> min == 1 && "*/" <= field && Atoi(field[2..]) == Some(MAX_INT)
    ensures Overflows(field, min) ==> Denotes(field, min, max) == Some([1])
  {
    if Overflows(field, min) {
      assert Every(1 + MAX_INT, max, MAX_INT) == [];
      assert Every(1, max, MAX_INT) == [1] + Every(1 + MAX_INT, max, MAX_INT);
      assert Every(1, max, MAX_INT) == [1];
      assert Atoi(field[2..]).value == MAX_INT;
    }
  }

  // ---------- Writing a field down and parsing it again ----------

  /** The documented forms of a field. */
  datatype Form = Any | Step(n: nat) | Values(vs: seq<nat>) | Span(from: nat, to: nat) | Single(v: nat)

  predicate WellFormed(f: Form, min: int, max: int) {
    match f
    case Any => true
    case Step(n) => 0 < n <= MAX_INT
    case Values(vs) => |vs| >= 2 && forall i :: 0 <= i < |vs| ==> min <= vs[i] <= max
    case Span(from, to) => min <= from <= to <= max
    case Single(v) => min <= v <= max
  }

  function Meaning(f: Form, min: int, max: int): seq<int>
    requires WellFormed(f, min, max)
  {
    match f
    case Any => RangeOf(min, max)
    case Step(n) => Every(min, max, n)
    case Values(vs) => vs
    case Span(from, to) => RangeOf(from, to)
    case Single(v) => [v]
  }

  function Digit(d: nat): (c: char)
    requires d < 10
    ensures IsDigit(c) && DigitValue(c) == d
  {
    (d + '0' as int) as char
  }

  function Decimal(n: nat): (s: string)
    ensures AllDigits(s)
  {
    if n < 10 then [Digit(n)] else Decimal(n / 10) + [Digit(n % 10)]
  }

  function Decimals(vs: seq<nat>): (parts: seq<string>)
    ensures |parts| == |vs|
  {
    if vs == [] then [] else Decimals(vs[..|vs| - 1]) + [Decimal(vs[|vs| - 1])]
  }

  function Join(parts: seq<string>, sep: char): string {
    if parts == [] then ""
    else if |parts| == 1 then parts[0]
    else Join(parts[..|parts| - 1], sep) + [sep] + parts[|parts| - 1]
  }

  function Show(f: Form): string {
    match f
    case Any => "*"
    case Step(n) => "*/" + Decimal(n)
    case Values(vs) => Join(Decimals(vs), ',')
    case Span(from, to) => Decimal(from) + ['-'] + Decimal(to)
    case Single(v) => Decimal(v)
  }

  lemma {:induction false} DecimalValue(n: nat)
    ensures DigitsValue(Decimal(n)) == n
  {
    if n >= 10 {
      DecimalValue(n / 10);
      var s := Decimal(n);
      assert s[..|s| - 1] == Decimal(n / 10) && s[|s| - 1] == Digit(n % 10);
    } else {
      assert Decimal(n)[..0] == "";
    }
  }

  lemma AtoiDecimal(n: nat)
    requires n <= MAX_INT
    ensures Atoi(Decimal(n)) == Some(n)
  {
    DecimalValue(n);
    assert IsDigit(Decimal(n)[0]);
  }

  lemma {:induction false} NoSeparator(s: string, c: char)
    requires AllDigits(s) && !IsDigit(c)
    ensures c !in s
  {
  }

  lemma {:induction false} SplitPlain(s: string, sep: char)
    requires sep !in s
    ensures Split(s, sep) == [s]
  {
    if s != "" {
      SplitPlain(s[..|s| - 1], sep);
      assert s[..|s| - 1] + [s[|s| - 1]] == s;
    }
  }

  /** A separator ends a piece, and the next one follows. */
  lemma {:induction false} SplitAppend(s: string, sep: char, t: string)
    requires sep !in t
    ensures Split(s + [sep] + t, sep) == Split(s, sep) + [t]
  {
    var all := s + [sep] + t;
    if t == "" {
      assert all[..|all| - 1] == s;
    } else {
      var init := t[..|t| - 1];
      SplitAppend(s, sep, init);
      assert all[..|all| - 1] == s + [sep] + init;
      assert init + [t[|t| - 1]] == t;
      var parts := Split(s, sep) + [init];
      assert parts[|parts| - 1 := t] == Split(s, sep) + [t];
    }
  }

  lemma {:induction false} SplitJoin(parts: seq<string>, sep: char)
    requires parts != [] && forall i :: 0 <= i < |parts| ==> sep !in parts[i]
    ensures Split(Join(parts, sep), sep) == parts
  {
    if |parts| == 1 {
      SplitPlain(parts[0], sep);
    } else {
      var init, last := parts[..|parts| - 1], parts[|parts| - 1];
      SplitJoin(init, sep);
      SplitAppend(Join(init, sep), sep, last);
      assert init + [last] == parts;
    }
  }

  lemma {:induction false} DecimalsPlain(vs: seq<nat>, c: char)
    requires !IsDigit(c)
    ensures forall i :: 0 <= i < |vs| ==> c !in Decimals(vs)[i]
  {
    if vs != [] {
      DecimalsPlain(vs[..|vs| - 1], c);
      NoSeparator(Decimal(vs[|vs| - 1]), c);
    }
  }

  lemma ListSnoc(parts: seq<string>, p: string, min: int, max: int)
    requires ListOf(parts, min, max).Some? && Atoi(p).Some? && min <= Atoi(p).value <= max
    ensures ListOf(parts + [p], min, max) == Some(ListOf(parts, min, max).value + [Atoi(p).value])
  {
    assert (parts + [p])[..|parts|] == parts;
  }

  lemma {:induction false} ListOfDecimals(vs: seq<nat>, min: int, max: int)
    requires max <= MAX_INT && forall i :: 0 <= i < |vs| ==> min <= vs[i] <= max
    ensures ListOf(Decimals(vs), min, max) == Some(vs)
  {
    if vs != [] {
      var init, last := vs[..|vs| - 1], vs[|vs| - 1];
      ListOfDecimals(init, min, max);
      AtoiDecimal(last);
      ListSnoc(Decimals(init), Decimal(last), min, max);
      assert init + [last] == vs;
    }
  }

  /** A list begins with a digit and holds a comma. */
  lemma {:induction false} JoinShape(vs: seq<nat>)
    requires |vs| >= 2
    ensures var s := Join(Decimals(vs), ','); s != "" && IsDigit(s[0]) && ',' in s
  {
    var parts := Decimals(vs);
    var init := vs[..|vs| - 1];
    var before := Join(parts[..|parts| - 1], ',');
    assert parts[..|parts| - 1] == Decimals(init);
    if |vs| == 2 {
      assert Decimals(init)[0] == Decimal(init[0]);
    } else {
      JoinShape(init);
    }
    var s := Join(parts, ',');
    assert s == before + [','] + parts[|parts| - 1];
    assert s[|before|] == ',';
  }

  /** Whatever is written down in a documented form is parsed as what it means. */
  lemma ShownIsDenoted(f: Form, min: int, max: int)
    requires Bounds(min, max) && WellFormed(f, min, max)
    ensures Denotes(Show(f), min, max) == Some(Meaning(f, min, max))
  {
    match f
    case Any =>
    case Step(n) => StepIsDenoted(n, min, max);
    case Values(vs) => ValuesAreDenoted(vs, min, max);
    case Span(from, to) => SpanIsDenoted(from, to, min, max);
    case Single(v) => SingleIsDenoted(v, min, max);
  }

  lemma StepIsDenoted(n: nat, min: int, max: int)
    requires 0 < n <= MAX_INT
    ensures Denotes(Show(Step(n)), min, max) == Some(Every(min, max, n))
  {
    AtoiDecimal(n);
    assert Show(Step(n))[2..] == Decimal(n);
  }

  lemma ValuesAreDenoted(vs: seq<nat>, min: int, max: int)
    requires Bounds(min, max) && |vs| >= 2 && forall i :: 0 <= i < |vs| ==> min <= vs[i] <= max
    ensures Denotes(Show(Values(vs)), min, max) == Some(vs)
  {
    JoinShape(vs);
    DecimalsPlain(vs, ',');
    SplitJoin(Decimals(vs), ',');
    ListOfDecimals(vs, min, max);
    DenotesList(Show(Values(vs)), Decimals(vs), min, max);
  }

  lemma DenotesList(s: string, parts: seq<string>, min: int, max: int)
    requires s != "" && IsDigit(s[0]) && ',' in s && Split(s, ',') == parts
    ensures Denotes(s, min, max) == ListOf(parts, min, max)
  {
  }

  lemma SingleIsDenoted(v: nat, min: int, max: int)
    requires Bounds(min, max) && min <= v <= max
    ensures Denotes(Show(Single(v)), min, max) == Some([v])
  {
    AtoiDecimal(v);
    NoSeparator(Decimal(v), ',');
    NoSeparator(Decimal(v), '-');
    assert IsDigit(Decimal(v)[0]);
  }

  lemma SpanIsDenoted(from: nat, to: nat, min: int, max: int)
    requires Bounds(min, max) && min <= from <= to <= max
    ensures Denotes(Show(Span(from, to)), min, max) == Some(RangeOf(from, to))
  {
    SpanShape(from, to);
    SpanSplits(from, to);
    AtoiDecimal(from);
    AtoiDecimal(to);
    DenotesSpan(Show(Span(from, to)), Decimal(from), Decimal(to), min, max);
  }

  lemma DenotesSpan(s: string, p: string, q: string, min: int, max: int)
    requires s != "" && IsDigit(s[0]) && '-' in s && ',' !in s && Split(s, '-') == [p, q]
    requires Atoi(p).Some? && Atoi(q).Some? && min <= Atoi(p).value <= Atoi(q).value <= max
    ensures Denotes(s, min, max) == Some(RangeOf(Atoi(p).value, Atoi(q).value))
  {
  }

  lemma SpanSplits(from: nat, to: nat)
    ensures Split(Show(Span(from, to)), '-') == [Decimal(from), Decimal(to)]
  {
    NoSeparator(Decimal(from), '-');
    NoSeparator(Decimal(to), '-');
    SplitPlain(Decimal(from), '-');
    SplitAppend(Decimal(from), '-', Decimal(to));
  }

  /** A range begins with a digit and holds a dash, but no comma. */
  lemma SpanShape(from: nat, to: nat)
    ensures var s := Show(Span(from, to)); s != "" && IsDigit(s[0]) && '-' in s && ',' !in s
  {
    var s := Show(Span(from, to));
    NoSeparator(Decimal(from), ',');
    NoSeparator(Decimal(to), ',');
    assert s[0] == Decimal(from)[0];
    assert s[|Decimal(from)|] == '-';
  }
}
