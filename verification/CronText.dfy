/** Which texts a field of a cron expression accepts: the documented forms and no others. */
module CronText {
  import opened Common
  import opened CronField

  // ---------- Numbers ----------

  function Zeros(k: nat): (s: string)
    ensures |s| == k && forall i :: 0 <= i < k ==> s[i] == '0'
  {
    if k == 0 then "" else Zeros(k - 1) + "0"
  }

  /** The decimal number `n`, after zeros. */
  function Padded(k: nat, n: nat): (s: string)
    ensures AllDigits(s)
  {
    Zeros(k) + Decimal(n)
  }

  lemma DecimalSnoc(n: nat, d: nat)
    requires n > 0 && d < 10
    ensures Decimal(10 * n + d) == Decimal(n) + [Digit(d)]
  {
  }

  lemma ZerosSnoc(k: nat)
    ensures Zeros(k) + Decimal(0) == Zeros(k + 1)
  {
    assert Digit(0) == '0';
  }

  /** A text of digits is the decimal number that it stands for, after zeros. */
  lemma {:induction false} DigitsArePadded(s: string) returns (k: nat)
    requires AllDigits(s)
    ensures s == Padded(k, DigitsValue(s))
  {
    var init, c := s[..|s| - 1], s[|s| - 1];
    var d := DigitValue(c);
    assert Digit(d) == c && s == init + [c];
    if init == "" {
      k := 0;
    } else {
      k := DigitsArePadded(init);
      var n := DigitsValue(init);
      if n == 0 {
        ZerosSnoc(k);
        k := k + 1;
      } else {
        DecimalSnoc(n, d);
        assert Zeros(k) + (Decimal(n) + [Digit(d)]) == (Zeros(k) + Decimal(n)) + [Digit(d)];
      }
    }
  }

  lemma {:induction false} PaddedValue(k: nat, s: string)
    requires AllDigits(s)
    ensures DigitsValue(Zeros(k) + s) == DigitsValue(s)
  {
    var init, c := s[..|s| - 1], s[|s| - 1];
    assert (Zeros(k) + s)[..|Zeros(k) + s| - 1] == Zeros(k) + init;
    if init == "" {
      ZerosValue(k);
      assert Zeros(k) + init == Zeros(k);
    } else {
      PaddedValue(k, init);
    }
  }

  lemma {:induction false} ZerosValue(k: nat)
    ensures DigitsValue(Zeros(k)) == 0
  {
    if k > 0 {
      ZerosValue(k - 1);
      assert Zeros(k)[..k - 1] == Zeros(k - 1);
    }
  }

  function Magnitude(n: int): nat {
    if n >= 0 then n else -n
  }

  /** The digits with a sign before them that goes with `n`, if any. */
  ghost predicate Signed(t: string, digits: string, n: int) {
    || (n >= 0 && (t == digits || t == "+" + digits))
    || (n <= 0 && t == "-" + digits)
  }

  /** The text is a sign, if any, zeros, if any, and the decimal number. */
  ghost predicate Numeral(t: string, n: int) {
    exists k: nat :: Signed(t, Padded(k, Magnitude(n)), n)
  }

  lemma PaddedIsValue(k: nat, n: nat)
    ensures DigitsValue(Padded(k, n)) == n
  {
    PaddedValue(k, Decimal(n));
    DecimalValue(n);
  }

  /** What Atoi makes of digits, with and without a sign. */
  lemma AtoiSigned(t: string, digits: string, n: int)
    requires AllDigits(digits) && Signed(t, digits, n) && Magnitude(n) == DigitsValue(digits)
    ensures Atoi(t) == if -MAX_INT - 1 <= n <= MAX_INT then Some(n) else None
  {
    hide AllDigits;
    DigitsUnsigned(digits);
    assert t != digits ==> t[1..] == digits;
  }

  lemma DigitsUnsigned(digits: string)
    requires AllDigits(digits)
    ensures digits != "" && digits[0] != '-' && digits[0] != '+'
  {
    assert IsDigit(digits[0]);
  }

  lemma AtoiReads(t: string) returns (digits: string)
    requires Atoi(t).Some?
    ensures AllDigits(digits) && Signed(t, digits, Atoi(t).value) && Magnitude(Atoi(t).value) == DigitsValue(digits)
  {
    var signed := t != "" && (t[0] == '-' || t[0] == '+');
    digits := if signed then t[1..] else t;
    assert signed ==> t == [t[0]] + digits;
  }

  /** Atoi reads exactly the numerals of the numbers that fit into 64 bits. */
  lemma AtoiExactly(t: string, n: int)
    ensures Atoi(t) == Some(n) <==> Numeral(t, n) && -MAX_INT - 1 <= n <= MAX_INT
  {
    hide Padded, DigitsValue, Signed;
    if Atoi(t) == Some(n) {
      AtoiWithin(t);
      var digits := AtoiReads(t);
      var k := DigitsArePadded(digits);
      assert Signed(t, Padded(k, Magnitude(n)), n);
    }
    hide Atoi;
    if Numeral(t, n) && -MAX_INT - 1 <= n <= MAX_INT {
      var k: nat :| Signed(t, Padded(k, Magnitude(n)), n);
      PaddedIsValue(k, Magnitude(n));
      AtoiSigned(t, Padded(k, Magnitude(n)), n);
    }
  }

  lemma AtoiWithin(t: string)
    requires Atoi(t).Some?
    ensures -MAX_INT - 1 <= Atoi(t).value <= MAX_INT
  {
  }

  // ---------- Splitting ----------

  lemma {:induction false} JoinSplit(s: string, sep: char)
    ensures Join(Split(s, sep), sep) == s
  {
    if s != "" {
      var init, c := s[..|s| - 1], s[|s| - 1];
      var parts := Split(init, sep);
      JoinSplit(init, sep);
      assert s == init + [c];
      if c == sep {
        assert (parts + [""])[..|parts|] == parts;
        assert s == init + [sep] + "";
      } else {
        JoinLonger(parts, sep, c);
      }
    }
  }

  lemma JoinLonger(parts: seq<string>, sep: char, c: char)
    requires parts != []
    ensures Join(parts[|parts| - 1 := parts[|parts| - 1] + [c]], sep) == Join(parts, sep) + [c]
  {
    var longer := parts[|parts| - 1 := parts[|parts| - 1] + [c]];
    assert longer[..|parts| - 1] == parts[..|parts| - 1];
    if |parts| > 1 {
      var before := Join(parts[..|parts| - 1], sep) + [sep];
      assert before + (parts[|parts| - 1] + [c]) == (before + parts[|parts| - 1]) + [c];
    }
  }

  lemma {:induction false} SplitLength(s: string, sep: char)
    requires sep in s
    ensures |Split(s, sep)| >= 2
  {
    var init := s[..|s| - 1];
    if s[|s| - 1] != sep {
      SplitLength(init, sep);
    }
  }

  // ---------- What is accepted ----------

  ghost predicate NumeralsOf(parts: seq<string>, vs: seq<nat>) {
    |parts| == |vs| && forall i :: 0 <= i < |vs| ==> Numeral(parts[i], vs[i])
  }

  /** The field is written in the form, with any numerals for its numbers. */
  ghost predicate Written(field: string, f: Form) {
    match f
    case Any => field == "*"
    case Step(n) => exists t :: field == "*/" + t && Numeral(t, n)
    case Values(vs) => exists parts :: field == Join(parts, ',') && NumeralsOf(parts, vs)
    case Span(from, to) => exists p, q :: field == p + "-" + q && Numeral(p, from) && Numeral(q, to)
    case Single(v) => Numeral(field, v)
  }

  lemma NoNumerals()
    ensures NumeralsOf([], [])
  {
  }

  lemma NumeralsSnoc(parts: seq<string>, p: string, vs: seq<nat>, v: nat)
    requires NumeralsOf(parts, vs) && Numeral(p, v)
    ensures NumeralsOf(parts + [p], vs + [v])
  {
  }

  lemma {:induction false} ListIsNumerals(parts: seq<string>, min: int, max: int) returns (vs: seq<nat>)
    requires 0 <= min && ListOf(parts, min, max).Some?
    ensures ListOf(parts, min, max) == Some(vs) && NumeralsOf(parts, vs)
    ensures forall i :: 0 <= i < |vs| ==> min <= vs[i] <= max
  {
    hide Atoi, Numeral, NumeralsOf;
    if parts == [] {
      vs := [];
      NoNumerals();
    } else {
      var init, last := parts[..|parts| - 1], parts[|parts| - 1];
      var before := ListIsNumerals(init, min, max);
      var v := Atoi(last).value;
      AtoiExactly(last, v);
      vs := before + [v];
      NumeralsSnoc(init, last, before, v);
      assert init + [last] == parts;
    }
  }

  /** Whatever is accepted is written in a documented form, and stands for what the form means. */
  lemma AcceptedIsWritten(field: string, min: int, max: int) returns (f: Form)
    requires Bounds(min, max) && Denotes(field, min, max).Some?
    ensures WellFormed(f, min, max) && Written(field, f)
    ensures Denotes(field, min, max) == Some(Meaning(f, min, max))
  {
    if field == "*" {
      f := Any;
    } else if "*/" <= field {
      f := AcceptedStep(field, min, max);
    } else if ',' in field {
      f := AcceptedList(field, min, max);
    } else if '-' in field {
      f := AcceptedSpan(field, min, max);
    } else {
      AtoiExactly(field, Atoi(field).value);
      f := Single(Atoi(field).value);
    }
  }

  lemma AcceptedStep(field: string, min: int, max: int) returns (f: Form)
    requires field != "*" && "*/" <= field && Denotes(field, min, max).Some?
    ensures f.Step? && WellFormed(f, min, max) && Written(field, f)
    ensures Denotes(field, min, max) == Some(Meaning(f, min, max))
  {
    var t := field[2..];
    AtoiExactly(t, Atoi(t).value);
    f := Step(Atoi(t).value);
    assert field == "*/" + t && Numeral(t, f.n);
  }

  lemma AcceptedList(field: string, min: int, max: int) returns (f: Form)
    requires Bounds(min, max) && field != "*" && !("*/" <= field) && ',' in field && Denotes(field, min, max).Some?
    ensures f.Values? && WellFormed(f, min, max) && Written(field, f)
    ensures Denotes(field, min, max) == Some(Meaning(f, min, max))
  {
    var parts := Split(field, ',');
    JoinSplit(field, ',');
    SplitLength(field, ',');
    var vs := ListIsNumerals(parts, min, max);
    f := Values(vs);
  }

  lemma AcceptedSpan(field: string, min: int, max: int) returns (f: Form)
    requires Bounds(min, max) && field != "*" && !("*/" <= field) && ',' !in field && '-' in field
    requires Denotes(field, min, max).Some?
    ensures f.Span? && WellFormed(f, min, max) && Written(field, f)
    ensures Denotes(field, min, max) == Some(Meaning(f, min, max))
  {
    var parts := Split(field, '-');
    JoinSplit(field, '-');
    var p, q := parts[0], parts[1];
    AtoiExactly(p, Atoi(p).value);
    AtoiExactly(q, Atoi(q).value);
    assert parts[..1] == [p];
    assert Join(parts, '-') == p + "-" + q;
    f := Span(Atoi(p).value, Atoi(q).value);
    assert field == p + "-" + q && Numeral(p, f.from) && Numeral(q, f.to);
  }
}
