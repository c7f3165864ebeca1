/** The two sliding-window limiters. Times and windows are in nanoseconds. */
module SlidingWindow {

  /** A call at time `now`: a request for `n` admissions, or a mere look at the limiter. */
  datatype Call = Allow(now: int, n: int) | Look(now: int)

  function Repeat(t: int, n: int): seq<int> {
    if n <= 0 then [] else Repeat(t, n - 1) + [t]
  }

  /** The admissions of `log` later than `t`. */
  function After(log: seq<int>, t: int): seq<int> {
    if log == [] then []
    else After(log[..|log| - 1], t) + (if log[|log| - 1] > t then [log[|log| - 1]] else [])
  }

  /** How many admissions fall into the half-open interval from `lo` to `hi`. */
  ghost function Within(log: seq<int>, lo: int, hi: int): nat {
    if log == [] then 0 else Within(log[..|log| - 1], lo, hi) + (if lo <= log[|log| - 1] < hi then 1 else 0)
  }

  ghost function Last(start: int, calls: seq<Call>): int {
    if calls == [] then start else calls[|calls| - 1].now
  }

  /** The clock never goes back. */
  ghost predicate Timed(start: int, calls: seq<Call>) {
    calls == [] || (Timed(start, calls[..|calls| - 1]) && Last(start, calls[..|calls| - 1]) <= Last(start, calls))
  }

  /** All admissions of a run, in order. */
  ghost function Admitted(calls: seq<Call>, answers: seq<bool>): seq<int>
    requires |answers| == |calls|
  {
    if calls == [] then []
    else
      var c := calls[|calls| - 1];
      Admitted(calls[..|calls| - 1], answers[..|calls| - 1])
      + (if c.Allow? && answers[|calls| - 1] then Repeat(c.now, c.n) else [])
  }

  ghost predicate NoLaterThan(log: seq<int>, t: int) {
    forall i :: 0 <= i < |log| ==> log[i] <= t
  }

  lemma {:induction false} AfterJoin(a: seq<int>, b: seq<int>, t: int)
    ensures After(a + b, t) == After(a, t) + After(b, t)
  {
    if b == [] {
      assert a + b == a;
    } else {
      AfterJoin(a, b[..|b| - 1], t);
      assert (a + b)[..|a + b| - 1] == a + b[..|b| - 1];
    }
  }

  lemma {:induction false} WithinJoin(a: seq<int>, b: seq<int>, lo: int, hi: int)
    ensures Within(a + b, lo, hi) == Within(a, lo, hi) + Within(b, lo, hi)
  {
    if b == [] {
      assert a + b == a;
    } else {
      WithinJoin(a, b[..|b| - 1], lo, hi);
      assert (a + b)[..|a + b| - 1] == a + b[..|b| - 1];
    }
  }

  lemma {:induction false} WithinRepeat(t: int, n: int, lo: int, hi: int)
    ensures Within(Repeat(t, n), lo, hi) == (if n > 0 && lo <= t < hi then n else 0)
  {
    if n > 0 {
      WithinRepeat(t, n - 1, lo, hi);
    }
  }

  /** Cleaning up early makes no difference to a later clean-up. */
  lemma {:induction false} AfterTwice(log: seq<int>, a: int, b: int)
    requires a <= b
    ensures After(After(log, a), b) == After(log, b)
  {
    if log != [] {
      var init, last := log[..|log| - 1], log[|log| - 1..];
      AfterTwice(init, a, b);
      if log[|log| - 1] > a {
        assert After(log, a)[..|After(log, a)| - 1] == After(init, a);
      } else {
        assert After(log, a) == After(init, a);
      }
    }
  }

  lemma {:induction false} WithinAfter(log: seq<int>, t: int, lo: int, hi: int)
    requires t < lo
    ensures Within(log, lo, hi) <= |After(log, t)|
  {
    if log != [] {
      WithinAfter(log[..|log| - 1], t, lo, hi);
    }
  }

  lemma {:induction false} WithinNone(log: seq<int>, lo: int, hi: int)
    requires NoLaterThan(log, lo - 1)
    ensures Within(log, lo, hi) == 0
  {
    if log != [] {
      WithinNone(log[..|log| - 1], lo, hi);
    }
  }

  lemma {:induction false} WithinParts(log: seq<int>, lo: int, mid: int, hi: int)
    requires lo <= mid
    ensures Within(log, lo, hi) <= Within(log, lo, mid) + Within(log, mid, hi)
    ensures mid <= hi ==> Within(log, lo, hi) == Within(log, lo, mid) + Within(log, mid, hi)
  {
    if log != [] {
      WithinParts(log[..|log| - 1], lo, mid, hi);
    }
  }

  lemma {:induction false} WithinSub(log: seq<int>, lo: int, hi: int, lo': int, hi': int)
    requires lo' <= lo && hi <= hi'
    ensures Within(log, lo, hi) <= Within(log, lo', hi')
  {
    if log != [] {
      WithinSub(log[..|log| - 1], lo, hi, lo', hi');
    }
  }

  // ---------- Sliding window log ----------

  /** One call: clean up, then admit if the window ending now has room. */
  function LogStep(limit: int, window: int, log: seq<int>, c: Call): (seq<int>, bool) {
    var recent := After(log, c.now - window);
    if c.Allow? && |recent| + c.n <= limit then (recent + Repeat(c.now, c.n), true) else (recent, false)
  }

  function LogRun(limit: int, window: int, calls: seq<Call>): (r: (seq<int>, seq<bool>))
    ensures |r.1| == |calls|
  {
    if calls == [] then ([], [])
    else
      var (log, answers) := LogRun(limit, window, calls[..|calls| - 1]);
      var (log', yes) := LogStep(limit, window, log, calls[|calls| - 1]);
      (log', answers + [yes])
  }

  lemma StaysAsGood(log: seq<int>, history: seq<int>, added: seq<int>, clean: int, t: int)
    requires clean <= t && After(log, t) == After(history, t)
    ensures After(After(log, clean) + added, t) == After(history + added, t)
  {
    AfterTwice(log, clean, t);
    AfterJoin(After(log, clean), added, t);
    AfterJoin(history, added, t);
  }

  lemma LogRunSnoc(limit: int, window: int, calls: seq<Call>, c: Call)
    ensures var (log, answers) := LogRun(limit, window, calls);
            var (log', yes) := LogStep(limit, window, log, c);
            LogRun(limit, window, calls + [c]) == (log', answers + [yes])
  {
    assert (calls + [c])[..|calls|] == calls;
  }

  /** The log is as good as the whole history of admissions for every later clean-up. */
  lemma {:induction false} LogIsHistory(limit: int, window: int, start: int, calls: seq<Call>, t: int)
    requires Timed(start, calls) && Last(start, calls) - window <= t
    ensures var (log, answers) := LogRun(limit, window, calls);
            After(log, t) == After(Admitted(calls, answers), t)
  {
    if calls != [] {
      hide LogRun, After, Admitted;
      var init, c := calls[..|calls| - 1], calls[|calls| - 1];
      var (log, answers) := LogRun(limit, window, init);
      var (log', yes) := LogStep(limit, window, log, c);
      assert init + [c] == calls;
      LogIsHistory(limit, window, start, init, t);
      var added := if c.Allow? && yes then Repeat(c.now, c.n) else [];
      StaysAsGood(log, Admitted(init, answers), added, c.now - window, t);
      assert log' == After(log, c.now - window) + added;
      AdmittedSnoc(init, answers, c, yes);
      LogRunSnoc(limit, window, init, c);
    }
  }

  lemma AdmittedSnoc(calls: seq<Call>, answers: seq<bool>, c: Call, yes: bool)
    requires |answers| == |calls|
    ensures Admitted(calls + [c], answers + [yes]) ==
            Admitted(calls, answers) + (if c.Allow? && yes then Repeat(c.now, c.n) else [])
  {
    assert (calls + [c])[..|calls|] == calls && (answers + [yes])[..|calls|] == answers;
  }

  /** A request is admitted exactly when the window ending now, over the whole history, has room for it. */
  lemma AdmitsWhenRoom(limit: int, window: int, start: int, calls: seq<Call>, c: Call)
    requires Timed(start, calls) && Last(start, calls) <= c.now && c.Allow?
    ensures var (log, answers) := LogRun(limit, window, calls);
            LogStep(limit, window, log, c).1 <==>
            |After(Admitted(calls, answers), c.now - window)| + c.n <= limit
  {
    LogIsHistory(limit, window, start, calls, c.now - window);
  }

  // ---------- What is counted ----------

  /** The places of a log at which an admission falls into the half-open interval from `lo` to `hi`. */
  ghost function Places(log: seq<int>, lo: int, hi: int): set<nat> {
    set i: nat | i < |log| && lo <= log[i] < hi
  }

  lemma {:induction false} WithinCounts(log: seq<int>, lo: int, hi: int)
    ensures Within(log, lo, hi) == |Places(log, lo, hi)|
  {
    if log != [] {
      var n := |log| - 1;
      WithinCounts(log[..n], lo, hi);
      var before := Places(log[..n], lo, hi);
      assert Places(log, lo, hi) == before + (if lo <= log[n] < hi then {n} else {});
    }
  }

  lemma {:induction false} AfterCounts(log: seq<int>, t: int, hi: int)
    requires NoLaterThan(log, hi - 1)
    ensures |After(log, t)| == |Places(log, t + 1, hi)|
  {
    AfterIsWithin(log, t, hi);
    WithinCounts(log, t + 1, hi);
  }

  lemma {:induction false} AfterIsWithin(log: seq<int>, t: int, hi: int)
    requires NoLaterThan(log, hi - 1)
    ensures |After(log, t)| == Within(log, t + 1, hi)
  {
    if log != [] {
      AfterIsWithin(log[..|log| - 1], t, hi);
    }
  }

  lemma {:induction false} AdmittedNoLater(start: int, calls: seq<Call>, answers: seq<bool>)
    requires |answers| == |calls| && Timed(start, calls)
    ensures NoLaterThan(Admitted(calls, answers), Last(start, calls))
  {
    if calls != [] {
      var c := calls[|calls| - 1];
      AdmittedNoLater(start, calls[..|calls| - 1], answers[..|calls| - 1]);
      RepeatIs(c.now, if c.Allow? then c.n else 0);
    }
  }

  lemma {:induction false} RepeatIs(t: int, n: int)
    ensures |Repeat(t, n)| == (if n > 0 then n else 0) && forall i :: 0 <= i < |Repeat(t, n)| ==> Repeat(t, n)[i] == t
  {
    if n > 0 {
      RepeatIs(t, n - 1);
    }
  }

  /** A request is admitted if and only if it and the admissions of the last `window` nanoseconds are at most `limit`. */
  lemma AdmitsExactly(limit: int, window: int, start: int, calls: seq<Call>, c: Call)
    requires Timed(start, calls) && Last(start, calls) <= c.now && c.Allow?
    ensures var (log, answers) := LogRun(limit, window, calls);
            LogStep(limit, window, log, c).1 <==>
            |Places(Admitted(calls, answers), c.now - window + 1, c.now + 1)| + c.n <= limit
  {
    AdmitsWhenRoom(limit, window, start, calls, c);
    var answers := LogRun(limit, window, calls).1;
    AdmittedNoLater(start, calls, answers);
    AfterCounts(Admitted(calls, answers), c.now - window, c.now + 1);
  }

  /** No window of the given length, wherever it ends, ever contains more than `limit` admissions. */
  lemma {:induction false} LogExact(limit: int, window: int, start: int, calls: seq<Call>, t: int)
    requires Timed(start, calls)
    ensures Within(Admitted(calls, LogRun(limit, window, calls).1), t - window + 1, t + 1)
            <= if limit < 0 then 0 else limit
  {
    if calls != [] {
      var init, c := calls[..|calls| - 1], calls[|calls| - 1];
      var (log, answers) := LogRun(limit, window, init);
      var yes := LogStep(limit, window, log, c).1;
      LogExact(limit, window, start, init, t);
      AdmittedSnoc(init, answers, c, yes);
      assert init + [c] == calls;
      if c.Allow? && yes {
        AdmitsWhenRoom(limit, window, start, init, c);
        AdmissionFits(limit, window, Admitted(init, answers), c.now, c.n, t);
      } else {
        assert Admitted(calls, answers + [yes]) == Admitted(init, answers);
      }
    }
  }

  lemma AdmissionFits(limit: int, window: int, history: seq<int>, now: int, n: int, t: int)
    requires |After(history, now - window)| + n <= limit
    requires Within(history, t - window + 1, t + 1) <= if limit < 0 then 0 else limit
    ensures Within(history + Repeat(now, n), t - window + 1, t + 1) <= if limit < 0 then 0 else limit
  {
    WithinJoin(history, Repeat(now, n), t - window + 1, t + 1);
    WithinRepeat(now, n, t - window + 1, t + 1);
    if t >= now {
      WithinAfter(history, now - window, t - window + 1, t + 1);
    }
  }

  ghost predicate Sorted(log: seq<int>) {
    log == [] || (Sorted(log[..|log| - 1]) && NoLaterThan(log[..|log| - 1], log[|log| - 1]))
  }

  lemma {:induction false} SortedFrom(log: seq<int>, i: nat)
    requires Sorted(log) && i < |log|
    ensures Sorted(log[i..]) && forall k :: i <= k < |log| ==> log[i] <= log[k]
  {
    var init := log[..|log| - 1];
    if i < |log| - 1 {
      SortedFrom(init, i);
      assert log[i..][..|log[i..]| - 1] == init[i..];
      assert forall k :: i <= k < |init| ==> init[k] == log[k];
    } else {
      assert log[i..][..0] == [];
    }
  }

  /** Cutting a sorted log at its first admission later than `t` keeps exactly the later ones. */
  lemma CutIsAfter(log: seq<int>, t: int, i: nat, now: int)
    requires Sorted(log) && NoLaterThan(log, now) && i <= |log|
    requires forall k :: 0 <= k < i ==> log[k] <= t
    requires i < |log| ==> log[i] > t
    ensures log[i..] == After(log, t) && Sorted(log[i..]) && NoLaterThan(log[i..], now)
  {
    if i < |log| {
      SortedFrom(log, i);
    }
    AfterSuffix(log, t, i);
  }

  lemma {:induction false} SortedRepeat(log: seq<int>, now: int, n: int)
    requires Sorted(log) && NoLaterThan(log, now)
    ensures Sorted(log + Repeat(now, n)) && NoLaterThan(log + Repeat(now, n), now)
  {
    hide Sorted;
    if n > 0 {
      SortedRepeat(log, now, n - 1);
      SortedSnoc(log + Repeat(now, n - 1), now);
      assert log + Repeat(now, n) == (log + Repeat(now, n - 1)) + [now];
    } else {
      assert log + Repeat(now, n) == log;
    }
  }

  lemma SortedSnoc(log: seq<int>, now: int)
    requires Sorted(log) && NoLaterThan(log, now)
    ensures Sorted(log + [now])
  {
    assert (log + [now])[..|log|] == log;
  }

  class SlidingWindowLog {
    var timestamps: seq<int>
    const limit: int
    const window: int

    constructor (limit: int, window: int)
      ensures this.limit == limit && this.window == window && timestamps == []
    {
      this.limit, this.window := limit, window;
      timestamps := [];
    }

    ghost predicate Valid(now: int)
      reads this
    {
      Sorted(timestamps) && NoLaterThan(timestamps, now)
    }

    method Cleanup(now: int)
      requires Valid(now)
      modifies this
      ensures Valid(now) && timestamps == After(old(timestamps), now - window)
    {
      var windowStart := now - window;
      var validIndex := FindFirstValid(windowStart);
      CutIsAfter(timestamps, windowStart, validIndex, now);
      if validIndex > 0 {
        timestamps := timestamps[validIndex..];
      }
    }

    /** The scan of the clean-up: the first admission inside the window, or the end of the log. */
    method FindFirstValid(windowStart: int) returns (validIndex: nat)
      ensures validIndex <= |timestamps|
      ensures forall k :: 0 <= k < validIndex ==> timestamps[k] <= windowStart
      ensures validIndex < |timestamps| ==> timestamps[validIndex] > windowStart
    {
      validIndex := 0;
      for i := 0 to |timestamps|
        invariant forall k :: 0 <= k < i ==> timestamps[k] <= windowStart
        invariant validIndex == if i == |timestamps| then i else 0
      {
        if timestamps[i] > windowStart {
          validIndex := i;
          break;
        }
        if i == |timestamps| - 1 {
          validIndex := |timestamps|;
        }
      }
    }

    method Allow(now: int) returns (allowed: bool)
      requires Valid(now)
      modifies this
      ensures Valid(now)
      ensures (timestamps, allowed) == LogStep(limit, window, old(timestamps), Call.Allow(now, 1))
    {
      Cleanup(now);
      if |timestamps| < limit {
        SortedRepeat(timestamps, now, 1);
        assert Repeat(now, 1) == [now];
        timestamps := timestamps + [now];
        return true;
      }
      return false;
    }

    method AllowN(now: int, n: int) returns (allowed: bool)
      requires Valid(now)
      modifies this
      ensures Valid(now)
      ensures (timestamps, allowed) == LogStep(limit, window, old(timestamps), Call.Allow(now, n))
    {
      Cleanup(now);
      if |timestamps| + n <= limit {
        SortedRepeat(timestamps, now, n);
        AppendN(now, n);
        return true;
      }
      return false;
    }

    method AppendN(now: int, n: int)
      modifies this
      ensures timestamps == old(timestamps) + Repeat(now, n)
    {
      var i := 0;
      while i < n
        invariant 0 <= i && (i <= n || i == 0)
        invariant timestamps == old(timestamps) + Repeat(now, i)
      {
        timestamps := timestamps + [now];
        i := i + 1;
      }
    }

    method Count(now: int) returns (n: nat)
      requires Valid(now)
      modifies this
      ensures Valid(now) && n == |timestamps|
      ensures timestamps == LogStep(limit, window, old(timestamps), Look(now)).0
    {
      Cleanup(now);
      return |timestamps|;
    }
  }

  /** In a sorted log, what is later than `t` is a suffix. */
  lemma {:induction false} AfterSuffix(log: seq<int>, t: int, i: nat)
    requires i <= |log|
    requires forall k :: 0 <= k < i ==> log[k] <= t
    requires forall k :: i <= k < |log| ==> log[k] > t
    ensures After(log, t) == log[i..]
  {
    if log != [] {
      var init := log[..|log| - 1];
      AfterSuffix(init, t, if i == |log| then i - 1 else i);
    }
  }

  // ---------- Sliding window counter ----------

  datatype Counter = Counter(currentCount: int, previousCount: int, windowStart: int)

  function Advance(window: int, s: Counter, now: int): Counter {
    var elapsed := now - s.windowStart;
    if elapsed >= window * 2 then Counter(0, 0, now)
    else if elapsed >= window then Counter(0, s.currentCount, s.windowStart + window)
    else s
  }

  function Weighted(window: int, s: Counter, now: int): real
    requires window != 0
  {
    s.previousCount as real * ((window - (now - s.windowStart)) as real / window as real) + s.currentCount as real
  }

  /** Whether the weighted count is below the limit. With a window of 0 the source's quotient of floats is infinite
      or not a number, and only the negative infinity is below. */
  predicate Admits(limit: int, window: int, s: Counter, now: int) {
    if window == 0 then s.previousCount * (s.windowStart - now) < 0
    else Weighted(window, s, now) < limit as real
  }

  function CounterStep(limit: int, window: int, s: Counter, now: int): (Counter, bool) {
    var a := Advance(window, s, now);
    if Admits(limit, window, a, now) then (a.(currentCount := a.currentCount + 1), true) else (a, false)
  }

  /** Replays single requests made at the given times. */
  function CounterRun(limit: int, window: int, start: int, times: seq<int>): (r: (Counter, seq<int>)) {
    if times == [] then (Counter(0, 0, start), [])
    else
      var (s, admitted) := CounterRun(limit, window, start, times[..|times| - 1]);
      var (s', yes) := CounterStep(limit, window, s, times[|times| - 1]);
      (s', if yes then admitted + [times[|times| - 1]] else admitted)
  }

  ghost predicate Rising(start: int, times: seq<int>) {
    times == [] || (Rising(start, times[..|times| - 1]) && Latest(start, times[..|times| - 1]) <= times[|times| - 1])
  }

  ghost function Latest(start: int, times: seq<int>): int {
    if times == [] then start else times[|times| - 1]
  }

  /** Both counts are exact: they count the admissions of the current and of the previous window. */
  ghost predicate Exact(limit: int, window: int, s: Counter, admitted: seq<int>) {
    && s.currentCount == Within(admitted, s.windowStart, s.windowStart + window)
    && s.previousCount == Within(admitted, s.windowStart - window, s.windowStart)
    && NoLaterThan(admitted, s.windowStart + window - 1)
    && (s.currentCount <= limit || s.currentCount == 0)
    && (s.previousCount <= limit || s.previousCount == 0)
  }

  lemma AdvanceExact(limit: int, window: int, s: Counter, now: int, admitted: seq<int>)
    requires window > 0 && Exact(limit, window, s, admitted) && s.windowStart <= now
    ensures var a := Advance(window, s, now);
            Exact(limit, window, a, admitted) && 0 <= now - a.windowStart < window
  {
    var a := Advance(window, s, now);
    if now - s.windowStart >= window * 2 {
      WithinNone(admitted, a.windowStart, a.windowStart + window);
      WithinNone(admitted, a.windowStart - window, a.windowStart);
    } else if now - s.windowStart >= window {
      WithinNone(admitted, a.windowStart, a.windowStart + window);
    }
  }

  lemma WeightedAtLeast(window: int, s: Counter, now: int)
    requires window > 0 && s.previousCount >= 0 && 0 <= now - s.windowStart < window
    ensures Weighted(window, s, now) >= s.currentCount as real
  {
    var weight := (window - (now - s.windowStart)) as real / window as real;
    assert weight >= 0.0;
    assert s.previousCount as real * weight >= 0.0;
  }

  lemma StepExact(limit: int, window: int, s: Counter, now: int, admitted: seq<int>)
    requires window > 0 && Exact(limit, window, s, admitted) && s.windowStart <= now
    ensures var (s', yes) := CounterStep(limit, window, s, now);
            Exact(limit, window, s', if yes then admitted + [now] else admitted)
    ensures CounterStep(limit, window, s, now).1 ==> Advance(window, s, now).currentCount < limit
  {
    hide Weighted, Advance;
    AdvanceExact(limit, window, s, now, admitted);
    var a := Advance(window, s, now);
    var (s', yes) := CounterStep(limit, window, s, now);
    if yes {
      WeightedAtLeast(window, a, now);
      assert (admitted + [now])[..|admitted|] == admitted;
    }
  }

  lemma {:induction false} RunExact(limit: int, window: int, start: int, times: seq<int>)
    requires window > 0 && Rising(start, times)
    ensures var (s, admitted) := CounterRun(limit, window, start, times);
            Exact(limit, window, s, admitted) && s.windowStart <= Latest(start, times)
  {
    if times != [] {
      var init, now := times[..|times| - 1], times[|times| - 1];
      RunExact(limit, window, start, init);
      var (s, admitted) := CounterRun(limit, window, start, init);
      StepExact(limit, window, s, now, admitted);
      AdvanceExact(limit, window, s, now, admitted);
    }
  }

  // ---------- Exactly which requests are refused ----------

  /** The start of the window that the last of the calls falls into: windows follow one another from `start` on, but
      after two of them without a call the next one starts with the call. */
  ghost function StartAt(window: int, start: int, times: seq<int>): int {
    if times == [] then start
    else
      var before, now := StartAt(window, start, times[..|times| - 1]), times[|times| - 1];
      if now < before + window then before
      else if now < before + 2 * window then before + window
      else now
  }

  lemma {:induction false} RunStartsAt(limit: int, window: int, start: int, times: seq<int>)
    requires window > 0
    ensures CounterRun(limit, window, start, times).0.windowStart == StartAt(window, start, times)
  {
    if times != [] {
      RunStartsAt(limit, window, start, times[..|times| - 1]);
    }
  }

  lemma Scaled(a: real, b: real, w: real)
    requires w > 0.0
    ensures a < b <==> a * w < b * w
  {
    if a < b {
      assert (b - a) * w > 0.0;
    } else {
      assert (a - b) * w >= 0.0;
    }
  }

  lemma Share(x: real, w: real)
    requires w != 0.0
    ensures x / w * w == x
  {
  }

  /** The comparison of weighted counts, multiplied by the window. */
  lemma WeightedInts(limit: int, window: int, s: Counter, now: int)
    requires window > 0
    ensures Weighted(window, s, now) < limit as real <==>
            s.previousCount * (window - (now - s.windowStart)) + s.currentCount * window < limit * window
  {
    var left := window - (now - s.windowStart);
    var (p, c, l, w, x) := (s.previousCount as real, s.currentCount as real, limit as real, window as real, left as real);
    var q := x / w;
    Share(x, w);
    Scaled(p * q + c, l, w);
    assert (p * q + c) * w == p * (q * w) + c * w;
    assert p * x == (s.previousCount * left) as real;
    assert c * w == (s.currentCount * window) as real && l * w == (limit * window) as real;
  }

  /** After any calls, a request is admitted if and only if the admissions of the window before, weighted by the share
      of that window that still counts, and those of the current one are together below the limit. */
  lemma AdmittedExactly(limit: int, window: int, start: int, times: seq<int>, now: int)
    requires window > 0 && Rising(start, times) && Latest(start, times) <= now
    ensures var (s, admitted) := CounterRun(limit, window, start, times);
            var from := StartAt(window, start, times + [now]);
            && from <= now < from + window
            && (CounterStep(limit, window, s, now).1 <==>
                Within(admitted, from - window, from) * (from + window - now) + Within(admitted, from, from + window) * window
                < limit * window)
  {
    hide Weighted, Exact, Advance;
    var (s, admitted) := CounterRun(limit, window, start, times);
    RunExact(limit, window, start, times);
    AdvanceExact(limit, window, s, now, admitted);
    var a := Advance(window, s, now);
    ExactCounts(limit, window, a, admitted);
    WeightedInts(limit, window, a, now);
    RunStartsAt(limit, window, start, times);
    StartsAt(window, start, times, s, now);
  }

  lemma ExactCounts(limit: int, window: int, s: Counter, admitted: seq<int>)
    requires Exact(limit, window, s, admitted)
    ensures s.currentCount == Within(admitted, s.windowStart, s.windowStart + window)
    ensures s.previousCount == Within(admitted, s.windowStart - window, s.windowStart)
  {
  }

  lemma StartsAt(window: int, start: int, times: seq<int>, s: Counter, now: int)
    requires window > 0 && s.windowStart == StartAt(window, start, times)
    ensures Advance(window, s, now).windowStart == StartAt(window, start, times + [now])
  {
    assert (times + [now])[..|times|] == times;
  }

  /** An admission in the current window shares an interval with at most the two windows' counts. */
  lemma CounterFits(limit: int, window: int, c: Counter, admitted: seq<int>, now: int, a: int)
    requires window > 0 && Exact(limit, window, c, admitted) && 0 <= now - c.windowStart < window
    requires c.currentCount < limit && a <= now < a + window
    ensures Within(admitted + [now], a, a + window) <= 2 * limit
  {
    WithinJoin(admitted, [now], a, a + window);
    assert Within([now], a, a + window) == 1;
    if a <= c.windowStart {
      WithinParts(admitted, a, c.windowStart, a + window);
      WithinSub(admitted, a, c.windowStart, c.windowStart - window, c.windowStart);
      WithinSub(admitted, c.windowStart, a + window, c.windowStart, c.windowStart + window);
    } else {
      WithinParts(admitted, a, c.windowStart + window, a + window);
      WithinSub(admitted, a, c.windowStart + window, c.windowStart, c.windowStart + window);
      WithinNone(admitted, c.windowStart + window, a + window);
    }
  }

  /** Every half-open interval as long as the window contains at most twice the limit. */
  lemma {:induction false} CounterBound(limit: int, window: int, start: int, times: seq<int>, a: int)
    requires window > 0 && Rising(start, times)
    ensures Within(CounterRun(limit, window, start, times).1, a, a + window) <= if limit < 0 then 0 else 2 * limit
  {
    if times != [] {
      var init, now := times[..|times| - 1], times[|times| - 1];
      CounterBound(limit, window, start, init, a);
      RunExact(limit, window, start, init);
      var (s, admitted) := CounterRun(limit, window, start, init);
      if CounterStep(limit, window, s, now).1 {
        StepExact(limit, window, s, now, admitted);
        AdvanceExact(limit, window, s, now, admitted);
        if a <= now < a + window {
          CounterFits(limit, window, Advance(window, s, now), admitted, now, a);
        } else {
          WithinJoin(admitted, [now], a, a + window);
        }
      }
    }
  }

  lemma CounterRunSnoc(limit: int, window: int, start: int, times: seq<int>, now: int)
    ensures var (s, admitted) := CounterRun(limit, window, start, times);
            var (s', yes) := CounterStep(limit, window, s, now);
            CounterRun(limit, window, start, times + [now]) == (s', if yes then admitted + [now] else admitted)
  {
    assert (times + [now])[..|times|] == times;
  }

  /** A run of single requests from time 0 on puts twice the limit into the window-long interval from `a` on. */
  ghost predicate Reaches(limit: int, window: int, times: seq<int>, a: int) {
    Rising(0, times) && Within(CounterRun(limit, window, 0, times).1, a, a + window) == 2 * limit
  }

  lemma {:induction false} RisingRepeat(start: int, times: seq<int>, t: int, n: int)
    requires Rising(start, times) && Latest(start, times) <= t
    ensures Rising(start, times + Repeat(t, n)) && Latest(start, times + Repeat(t, n)) <= t
  {
    hide Rising, Latest;
    if n > 0 {
      RisingRepeat(start, times, t, n - 1);
      RisingSnoc(start, times + Repeat(t, n - 1), t);
      assert times + Repeat(t, n) == (times + Repeat(t, n - 1)) + [t];
    } else {
      assert times + Repeat(t, n) == times;
    }
  }

  lemma RisingSnoc(start: int, times: seq<int>, t: int)
    requires Rising(start, times) && Latest(start, times) <= t
    ensures Rising(start, times + [t]) && Latest(start, times + [t]) == t
  {
    assert (times + [t])[..|times|] == times;
  }

  lemma FirstStep(limit: int, window: int, k: nat)
    requires window > 0 && k < limit
    ensures CounterStep(limit, window, Counter(k, 0, 0), window - 1) == (Counter(k + 1, 0, 0), true)
  {
    assert Weighted(window, Counter(k, 0, 0), window - 1) == k as real;
  }

  lemma CounterRunNothing(limit: int, window: int)
    ensures CounterRun(limit, window, 0, []) == (Counter(0, 0, 0), [])
  {
  }

  /** All requests at the end of the first window pass, up to the limit. */
  lemma {:induction false} FirstBurst(limit: int, window: int, k: nat)
    requires window > 0 && k <= limit
    ensures CounterRun(limit, window, 0, Repeat(window - 1, k)) == (Counter(k, 0, 0), Repeat(window - 1, k))
  {
    hide CounterRun, CounterStep;
    if k == 0 {
      CounterRunNothing(limit, window);
    } else {
      FirstBurst(limit, window, k - 1);
      FirstStep(limit, window, k - 1);
      CounterRunSnoc(limit, window, 0, Repeat(window - 1, k - 1), window - 1);
    }
  }

  /** Two nanoseconds before the end of the second window the first one weighs less than one request. */
  lemma LightWeight(limit: int, window: int, k: nat)
    requires 2 * limit < window && k < limit
    ensures Weighted(window, Counter(k, limit, window), 2 * window - 2) < limit as real
  {
    assert (window - (2 * window - 2 - window)) as real / window as real == 2 as real / window as real;
    assert limit as real * (2 as real / window as real) == (2 * limit) as real / window as real < 1.0;
  }

  lemma SecondStep(limit: int, window: int, s: Counter, k: nat)
    requires 2 * limit < window && k < limit
    requires s == if k == 0 then Counter(limit, 0, 0) else Counter(k, limit, window)
    ensures CounterStep(limit, window, s, 2 * window - 2) == (Counter(k + 1, limit, window), true)
  {
    hide Weighted;
    LightWeight(limit, window, k);
  }

  lemma {:induction false} SecondBurst(limit: int, window: int, k: nat)
    requires 2 * limit < window && 0 < k <= limit
    ensures var times := Repeat(window - 1, limit) + Repeat(2 * window - 2, k);
            CounterRun(limit, window, 0, times) == (Counter(k, limit, window), times)
  {
    hide CounterRun, CounterStep;
    var first, t := Repeat(window - 1, limit), 2 * window - 2;
    var before := first + Repeat(t, k - 1);
    if k > 1 {
      SecondBurst(limit, window, k - 1);
    } else {
      FirstBurst(limit, window, limit);
      assert before == first;
    }
    SecondStep(limit, window, CounterRun(limit, window, 0, before).0, k - 1);
    CounterRunSnoc(limit, window, 0, before, t);
    assert first + Repeat(t, k) == before + [t];
  }

  lemma BurstsRise(limit: nat, window: int)
    requires window > 0
    ensures Rising(0, Repeat(window - 1, limit) + Repeat(2 * window - 2, limit))
  {
    hide Rising, Latest, Repeat;
    var first := Repeat(window - 1, limit);
    NothingRises(0);
    RisingRepeat(0, [], window - 1, limit);
    assert [] + first == first;
    RisingRepeat(0, first, 2 * window - 2, limit);
  }

  lemma NothingRises(start: int)
    ensures Rising(start, []) && Latest(start, []) == start
  {
  }

  lemma BurstsWithin(limit: nat, window: int)
    requires window > 0
    ensures Within(Repeat(window - 1, limit) + Repeat(2 * window - 2, limit), window - 1, 2 * window - 1) == 2 * limit
  {
    hide Within, Repeat;
    WithinJoin(Repeat(window - 1, limit), Repeat(2 * window - 2, limit), window - 1, 2 * window - 1);
    WithinRepeat(window - 1, limit, window - 1, 2 * window - 1);
    WithinRepeat(2 * window - 2, limit, window - 1, 2 * window - 1);
  }

  lemma TwiceReached(limit: int, window: int) returns (times: seq<int>)
    requires limit >= 1 && window > 2 * limit
    ensures Reaches(limit, window, times, window - 1)
  {
    hide Rising, Latest, Repeat, Within, CounterRun;
    times := Repeat(window - 1, limit) + Repeat(2 * window - 2, limit);
    SecondBurst(limit, window, limit);
    BurstsRise(limit, window);
    BurstsWithin(limit, window);
  }

  /** A share `q` of a window that leaves `left` of it, so small that `limit` of it are less than one. */
  ghost predicate SmallShare(q: real, left: int, window: int, limit: int) {
    window > 0 && left as real == q * window as real && limit as real * q < 1.0
  }

  lemma Product(b: real, w: real)
    requires b < 1.0 && w > 0.0
    ensures b * w < w
  {
  }

  lemma Clear(a: real, q: real, x: real, w: real)
    requires w > 0.0 && x == q * w && a * q < 1.0
    ensures a * x < w
  {
    var b := a * q;
    Product(b, w);
    calc {
      a * x;
      a * (q * w);
      b * w;
    }
  }

  lemma SmallShareLeaves(q: real, left: int, window: int, limit: int)
    requires SmallShare(q, left, window, limit)
    ensures limit as real * left as real < window as real
  {
    Clear(limit as real, q, left as real, window as real);
  }

  lemma TwoAtLeast(a: int, x: int, w: int)
    requires a >= 1 && x >= 2 && a as real * x as real < w as real
    ensures w > 2 * a
  {
    assert a * x >= a * 2;
    assert a as real * x as real == (a * x) as real;
  }

  lemma WeightShare(limit: int, window: int, c: Counter, now: int) returns (q: real)
    requires window > 0 && Weighted(window, c, now) < limit as real
    requires c.previousCount == limit && c.currentCount == limit - 1
    ensures SmallShare(q, window - (now - c.windowStart), window, limit)
  {
    q := (window - (now - c.windowStart)) as real / window as real;
    assert (limit - 1) as real == limit as real - 1.0;
    assert Weighted(window, c, now) == limit as real * q + (limit - 1) as real;
  }

  /** When a full window still weighs on a request within an interval that it shares, the window is long. */
  lemma HeavyWeight(limit: int, window: int, c: Counter, now: int)
    requires window > 0 && Weighted(window, c, now) < limit as real
    requires c.previousCount == limit >= 1 && c.currentCount == limit - 1 && now - c.windowStart <= window - 2
    ensures window > 2 * limit
  {
    hide Weighted, SmallShare;
    var left := window - (now - c.windowStart);
    var q := WeightShare(limit, window, c, now);
    SmallShareLeaves(q, left, window, limit);
    TwoAtLeast(limit, left, window);
  }

  lemma CounterFitsShort(limit: int, window: int, c: Counter, admitted: seq<int>, now: int, a: int)
    requires 0 < window <= 2 * limit && Exact(limit, window, c, admitted) && 0 <= now - c.windowStart < window
    requires Weighted(window, c, now) < limit as real && c.currentCount < limit && a <= now < a + window
    ensures Within(admitted + [now], a, a + window) < 2 * limit
  {
    WithinJoin(admitted, [now], a, a + window);
    assert Within([now], a, a + window) == 1;
    if a < c.windowStart {
      WithinParts(admitted, a, c.windowStart, a + window);
      WithinSub(admitted, a, c.windowStart, c.windowStart - window, c.windowStart);
      WithinSub(admitted, c.windowStart, a + window, c.windowStart, c.windowStart + window);
      if Within(admitted, a, a + window) + 1 >= 2 * limit {
        HeavyWeight(limit, window, c, now);
        assert false;
      }
    } else {
      WithinParts(admitted, a, c.windowStart + window, a + window);
      WithinSub(admitted, a, c.windowStart + window, c.windowStart, c.windowStart + window);
      WithinNone(admitted, c.windowStart + window, a + window);
    }
  }

  /** In windows no longer than twice the limit, counted in nanoseconds, the bound is never reached. */
  lemma {:induction false} TwiceNotReached(limit: int, window: int, start: int, times: seq<int>, a: int)
    requires 0 < window <= 2 * limit && Rising(start, times)
    ensures Within(CounterRun(limit, window, start, times).1, a, a + window) < 2 * limit
  {
    if times != [] {
      var init, now := times[..|times| - 1], times[|times| - 1];
      TwiceNotReached(limit, window, start, init, a);
      RunExact(limit, window, start, init);
      var (s, admitted) := CounterRun(limit, window, start, init);
      if CounterStep(limit, window, s, now).1 {
        StepExact(limit, window, s, now, admitted);
        AdvanceExact(limit, window, s, now, admitted);
        if a <= now < a + window {
          CounterFitsShort(limit, window, Advance(window, s, now), admitted, now, a);
        } else {
          WithinJoin(admitted, [now], a, a + window);
        }
      }
    }
  }

  /** Some run puts twice the limit into an interval as long as the window if and only if the window is longer than
      twice the limit: requests at the end of one window and before the end of the next. */
  lemma CounterBoundIsTight(limit: int, window: int)
    requires limit >= 1 && window > 0
    ensures (exists times, a :: Reaches(limit, window, times, a)) <==> window > 2 * limit
  {
    if window > 2 * limit {
      var times := TwiceReached(limit, window);
    } else {
      forall times, a ensures !Reaches(limit, window, times, a) {
        if Rising(0, times) {
          TwiceNotReached(limit, window, 0, times, a);
        }
      }
    }
  }

  class SlidingWindowCounter {
    const limit: int
    const window: int
    var currentCount: int
    var previousCount: int
    var windowStart: int

    ghost function Model(): Counter
      reads this
    {
      Counter(currentCount, previousCount, windowStart)
    }

    constructor (limit: int, window: int, now: int)
      ensures this.limit == limit && this.window == window && Model() == Counter(0, 0, now)
    {
      this.limit, this.window := limit, window;
      currentCount, previousCount, windowStart := 0, 0, now;
    }

    method AdvanceWindow(now: int)
      modifies this
      ensures Model() == Advance(window, old(Model()), now)
    {
      var elapsed := now - windowStart;
      if elapsed >= window * 2 {
        previousCount := 0;
        currentCount := 0;
        windowStart := now;
      } else if elapsed >= window {
        previousCount := currentCount;
        currentCount := 0;
        windowStart := windowStart + window;
      }
    }

    method Allow(now: int) returns (allowed: bool)
      modifies this
      ensures (Model(), allowed) == CounterStep(limit, window, old(Model()), now)
    {
      AdvanceWindow(now);
      var elapsed := now - windowStart;
      var below: bool;
      if window == 0 {
        below := previousCount * -elapsed < 0;
      } else {
        var weight := (window - elapsed) as real / window as real;
        var count := previousCount as real * weight + currentCount as real;
        below := count < limit as real;
      }
      if below {
        currentCount := currentCount + 1;
        return true;
      }
      return false;
    }
  }
}
