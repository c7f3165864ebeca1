/** Exactly which requests the two buckets grant, in terms of capacity, rate, interval and times alone. */
module BucketRate {
  import opened Buckets

  // ---------- The flow in plain numbers ----------

  lemma Quotient(x: real, i: real)
    requires i != 0.0
    ensures x / i * i == x
  {
  }

  lemma Scaled(a: real, b: real, i: real)
    requires i > 0.0
    ensures a <= b <==> a * i <= b * i
  {
    if a <= b {
      assert (b - a) * i >= 0.0;
    } else {
      assert (a - b) * i > 0.0;
    }
  }

  lemma FlowTimesInterval(p: Params, from: int, to: int)
    requires p.interval != 0
    ensures Flow(p, from, to) * p.interval as real == p.rate * (to - from) as real
  {
    var i, d := p.interval as real, (to - from) as real;
    Quotient(d, i);
    var q := d / i;
    assert q * p.rate * i == p.rate * (q * i);
  }

  /** `units` are no more than the capacity and what flows in between two times. */
  ghost predicate Fits(p: Params, units: int, from: int, to: int) {
    units as real * p.interval as real <= p.capacity * p.interval as real + p.rate * (to - from) as real
  }

  lemma FitsIsFlow(p: Params, units: int, from: int, to: int)
    requires p.interval > 0
    ensures Fits(p, units, from, to) <==> units as real <= p.capacity + Flow(p, from, to)
  {
    var i := p.interval as real;
    FlowTimesInterval(p, from, to);
    Scaled(units as real, p.capacity + Flow(p, from, to), i);
    assert (p.capacity + Flow(p, from, to)) * i == p.capacity * i + Flow(p, from, to) * i;
  }

  // ---------- The level after any calls ----------

  lemma {:induction false} GrantedSnoc(calls: seq<Call>, answers: seq<bool>, c: Call, yes: bool)
    requires |answers| == |calls|
    ensures Granted(calls + [c], answers + [yes]) == Granted(calls, answers) + (if c.Request? && yes then c.n else 0)
  {
    if calls == [] {
      assert (calls + [c])[1..] == [] && (answers + [yes])[1..] == [];
    } else {
      assert (calls + [c])[1..] == calls[1..] + [c] && (answers + [yes])[1..] == answers[1..] + [yes];
      GrantedSnoc(calls[1..], answers[1..], c, yes);
    }
  }

  lemma RunNone(p: Params, b: Bucket)
    ensures RunTokens(p, b, []) == (b, [])
  {
  }

  lemma RunOne(p: Params, b: Bucket, c: Call)
    ensures RunTokens(p, b, [c]) == (Take(p, b, c).0, [Take(p, b, c).1])
  {
    var calls := [c];
    var (b1, yes) := Take(p, b, calls[0]);
    RunNone(p, b1);
    assert calls[1..] == [];
    assert RunTokens(p, b, calls) == (RunTokens(p, b1, calls[1..]).0, [yes] + RunTokens(p, b1, calls[1..]).1);
    assert [yes] + [] == [yes];
  }

  lemma RunSnoc(p: Params, b: Bucket, calls: seq<Call>, c: Call)
    ensures var (b1, answers) := RunTokens(p, b, calls);
            var (b2, yes) := Take(p, b1, c);
            RunTokens(p, b, calls + [c]) == (b2, answers + [yes])
  {
    RunSplits(p, b, calls + [c], |calls|);
    assert (calls + [c])[..|calls|] == calls && (calls + [c])[|calls|..] == [c];
    var b1 := RunTokens(p, b, calls).0;
    RunOne(p, b1, c);
  }

  /** What has been granted from the i-th call on leaves room for `x` more units at `now`. */
  ghost predicate Room(p: Params, calls: seq<Call>, answers: seq<bool>, i: nat, now: int, x: real)
    requires p.interval != 0 && |answers| == |calls| && i < |calls|
  {
    Granted(calls[i..], answers[i..]) as real + x <= p.capacity + Flow(p, calls[i].now, now)
  }

  ghost predicate AllRoom(p: Params, calls: seq<Call>, answers: seq<bool>, now: int, x: real)
    requires p.interval != 0 && |answers| == |calls|
  {
    forall i :: 0 <= i < |calls| ==> Room(p, calls, answers, i, now, x)
  }

  lemma RoomSnoc(p: Params, calls: seq<Call>, answers: seq<bool>, c: Call, yes: bool, now: int, x: real)
    requires p.interval != 0 && |answers| == |calls|
    ensures var spent := if c.Request? && yes then c.n else 0;
            AllRoom(p, calls + [c], answers + [yes], now, x) <==>
              && AllRoom(p, calls, answers, c.now, x + spent as real - Flow(p, c.now, now))
              && spent as real + x <= p.capacity + Flow(p, c.now, now)
  {
    var spent := if c.Request? && yes then c.n else 0;
    var calls', answers' := calls + [c], answers + [yes];
    assert calls'[|calls|..] == [] + [c] && answers'[|calls|..] == [] + [yes];
    GrantedSnoc([], [], c, yes);
    var y := x + spent as real - Flow(p, c.now, now);
    forall i | 0 <= i < |calls|
      ensures Room(p, calls', answers', i, now, x) <==> Room(p, calls, answers, i, c.now, y)
    {
      assert calls'[i..] == calls[i..] + [c] && answers'[i..] == answers[i..] + [yes];
      GrantedSnoc(calls[i..], answers[i..], c, yes);
      FlowAdds(p, calls[i].now, c.now, now);
    }
    assert Room(p, calls', answers', |calls|, now, x) <==> spent as real + x <= p.capacity + Flow(p, c.now, now);
    if AllRoom(p, calls', answers', now, x) {
      forall i | 0 <= i < |calls| ensures Room(p, calls, answers, i, c.now, y) {
        assert Room(p, calls', answers', i, now, x);
      }
    }
  }

  lemma {:induction false} TimedInit(start: int, calls: seq<Call>)
    requires Timed(start, calls) && calls != []
    ensures Timed(start, calls[..|calls| - 1])
    ensures End(start, calls[..|calls| - 1]) <= calls[|calls| - 1].now
    decreases calls
  {
    var init := calls[..|calls| - 1];
    if |calls| > 1 {
      TimedInit(calls[0].now, calls[1..]);
      assert init[1..] == calls[1..][..|calls| - 2];
    }
  }

  lemma {:induction false} RunFilled(p: Params, start: int, calls: seq<Call>)
    requires Sane(p) && Timed(start, calls) && NonNegative(calls)
    ensures Filled(p, RunTokens(p, Bucket(p.capacity, start), calls).0, End(start, calls))
  {
    GrantedFromLevel(p, Bucket(p.capacity, start), start, calls);
  }

  /** Refilled at `now`, a bucket holds what a bucket refilled on the way holds, and what flows in since. */
  lemma LevelLater(p: Params, b: Bucket, mid: int, spent: int, now: int)
    requires Sane(p) && Filled(p, b, mid) && mid <= now && 0 <= spent
    requires spent as real <= Refill(p, b, mid).level
    ensures var level := Refill(p, b, mid).level - spent as real + Flow(p, mid, now);
            Refill(p, Refill(p, b, mid).(level := Refill(p, b, mid).level - spent as real), now).level
            == if level > p.capacity then p.capacity else level
  {
    var r := Refill(p, b, mid);
    RefillTwice(p, b, mid, mid);
    FlowGrows(p, b.last, mid);
    FlowGrows(p, mid, now);
    FlowGrows(p, r.last, mid);
    FlowAdds(p, r.last, mid, now);
    NothingLeftToFlow(p, b, mid);
  }

  lemma NothingLeftToFlow(p: Params, b: Bucket, mid: int)
    requires Sane(p) && Filled(p, b, mid)
    ensures Flow(p, Refill(p, b, mid).last, mid) == 0.0
  {
    FlowGrows(p, b.last, mid);
  }

  /** After any calls a bucket that started full holds `x` units at `now` if and only if they fit into the capacity
      and, whichever call one starts from, into what is left of the capacity and the inflow since. */
  lemma {:induction false} LevelExactly(p: Params, start: int, calls: seq<Call>, now: int, x: real)
    requires Sane(p) && Timed(start, calls) && NonNegative(calls) && End(start, calls) <= now
    ensures var (b, answers) := RunTokens(p, Bucket(p.capacity, start), calls);
            Refill(p, b, now).level >= x <==> x <= p.capacity && AllRoom(p, calls, answers, now, x)
  {
    var full := Bucket(p.capacity, start);
    if calls == [] {
      FlowGrows(p, start, now);
    } else {
      var init, c := calls[..|calls| - 1], calls[|calls| - 1];
      assert calls == init + [c];
      TimedInit(start, calls);
      assert forall y :: y in init ==> y in calls;
      var (b, answers) := RunTokens(p, full, init);
      RunFilled(p, start, init);
      RunSnoc(p, full, init, c);
      var (b2, yes) := Take(p, b, c);
      var spent := if c.Request? && yes then c.n else 0;
      assert spent > 0 ==> c in calls;
      var y := x + spent as real - Flow(p, c.now, now);
      LevelExactly(p, start, init, c.now, y);
      RoomSnoc(p, init, answers, c, yes, now, x);
      StepLevel(p, b, c, End(start, init), now);
    }
  }

  lemma StepLevel(p: Params, b: Bucket, c: Call, from: int, now: int)
    requires Sane(p) && Filled(p, b, from) && from <= c.now <= now && (c.Request? ==> c.n >= 0)
    ensures var (b2, yes) := Take(p, b, c);
            var spent := if c.Request? && yes then c.n else 0;
            var level := Refill(p, b, c.now).level - spent as real + Flow(p, c.now, now);
            Refill(p, b2, now).level == if level > p.capacity then p.capacity else level
  {
    var (b2, yes) := Take(p, b, c);
    var spent := if c.Request? && yes then c.n else 0;
    RefillTwice(p, b, from, c.now);
    FilledLater(p, b, from, c.now);
    LevelLater(p, b, c.now, spent, now);
    assert b2 == Refill(p, b, c.now).(level := Refill(p, b, c.now).level - spent as real);
  }

  lemma FilledLater(p: Params, b: Bucket, from: int, now: int)
    requires Filled(p, b, from) && from <= now
    ensures Filled(p, b, now)
  {
  }

  // ---------- What is granted ----------

  /** What the first j calls have been granted from the i-th on. */
  ghost function Spent(calls: seq<Call>, answers: seq<bool>, i: nat, j: nat): int
    requires |answers| == |calls| && i <= j <= |calls|
  {
    Granted(calls[i..j], answers[i..j])
  }

  lemma FitsAll(p: Params, calls: seq<Call>, answers: seq<bool>, now: int, n: int)
    requires p.interval > 0 && |answers| == |calls|
    ensures AllRoom(p, calls, answers, now, n as real) <==>
            forall i :: 0 <= i < |calls| ==> Fits(p, Granted(calls[i..], answers[i..]) + n, calls[i].now, now)
  {
    forall i | 0 <= i < |calls|
      ensures Room(p, calls, answers, i, now, n as real)
              <==> Fits(p, Granted(calls[i..], answers[i..]) + n, calls[i].now, now)
    {
      FitsIsFlow(p, Granted(calls[i..], answers[i..]) + n, calls[i].now, now);
    }
  }

  /** Whichever call before the j-th, a request, one starts from, what has been granted since and the request fit into
      the capacity and the inflow since. */
  ghost predicate LeavesRoom(p: Params, calls: seq<Call>, answers: seq<bool>, j: nat)
    requires |answers| == |calls| && j < |calls| && calls[j].Request?
  {
    forall i :: 0 <= i < j ==> Fits(p, Spent(calls, answers, i, j) + calls[j].n, calls[i].now, calls[j].now)
  }

  lemma PrefixLeavesRoom(p: Params, calls: seq<Call>, answers: seq<bool>, j: nat)
    requires p.interval > 0 && |answers| == |calls| && j < |calls| && calls[j].Request?
    ensures LeavesRoom(p, calls, answers, j) <==> AllRoom(p, calls[..j], answers[..j], calls[j].now, calls[j].n as real)
  {
    hide Fits, Granted, Room;
    FitsAll(p, calls[..j], answers[..j], calls[j].now, calls[j].n);
    forall i | 0 <= i < j ensures calls[..j][i..] == calls[i..j] && answers[..j][i..] == answers[i..j] {
    }
  }

  /** A request is granted if and only if it fits into the capacity and, whichever earlier call one starts from,
      what has been granted since and the request fit into the capacity and the inflow since. */
  lemma GrantedExactly(p: Params, start: int, calls: seq<Call>, j: nat)
    requires Sane(p) && Timed(start, calls) && NonNegative(calls) && j < |calls| && calls[j].Request?
    ensures var answers := RunTokens(p, Bucket(p.capacity, start), calls).1;
            answers[j] <==>
              calls[j].n as real <= p.capacity && LeavesRoom(p, calls, answers, j)
  {
    hide LeavesRoom, AllRoom, Refill;
    var full, c, before := Bucket(p.capacity, start), calls[j], calls[..j];
    var answers := RunTokens(p, full, calls).1;
    var (b, first) := RunTokens(p, full, before);
    RunSplits(p, full, calls, j);
    assert calls[j..][0] == c;
    assert answers[j] == Take(p, b, c).1 && answers[..j] == first;
    TimedPrefix(start, calls, j + 1);
    TimedInit(start, calls[..j + 1]);
    assert calls[..j + 1][..j] == before;
    LevelExactly(p, start, before, c.now, c.n as real);
    PrefixLeavesRoom(p, calls, answers, j);
  }

  /** The leaky bucket grants exactly the same. */
  lemma LeakyGrantedExactly(p: Params, start: int, calls: seq<Call>, j: nat)
    requires Sane(p) && Timed(start, calls) && NonNegative(calls) && j < |calls| && calls[j].Request?
    ensures var answers := RunLeaks(p, Bucket(0.0, start), calls).1;
            answers[j] <==>
              calls[j].n as real <= p.capacity && LeavesRoom(p, calls, answers, j)
  {
    hide Sane, LeavesRoom, RunTokens, RunLeaks, Timed, NonNegative;
    SameAnswers(p, Bucket(p.capacity, start), Bucket(0.0, start), calls);
    GrantedExactly(p, start, calls, j);
  }

  /** Between any two calls, the i-th and the j-th, either bucket grants at most its capacity and what flows in
      between them at its rate. */
  lemma RateBound(p: Params, start: int, calls: seq<Call>, i: nat, j: nat)
    requires Sane(p) && Timed(start, calls) && NonNegative(calls) && i <= j < |calls|
    ensures Fits(p, Spent(calls, RunTokens(p, Bucket(p.capacity, start), calls).1, i, j + 1), calls[i].now, calls[j].now)
    ensures Fits(p, Spent(calls, RunLeaks(p, Bucket(0.0, start), calls).1, i, j + 1), calls[i].now, calls[j].now)
  {
    GrantBound(p, start, calls, i, j);
    SameAnswers(p, Bucket(p.capacity, start), Bucket(0.0, start), calls);
    FitsIsFlow(p, Spent(calls, RunTokens(p, Bucket(p.capacity, start), calls).1, i, j + 1), calls[i].now, calls[j].now);
  }

  /** Emptied at `at`, a token bucket grants n units as soon as n units have flowed in, and not before. */
  lemma EmptiedGrants(p: Params, at: int, now: int, n: int)
    requires Sane(p) && at <= now && 0 < n && n as real <= p.capacity
    ensures Take(p, Bucket(0.0, at), Request(now, n)).1 <==> n as real * p.interval as real <= p.rate * (now - at) as real
  {
    FlowGrows(p, at, now);
    FlowTimesInterval(p, at, now);
    Scaled(n as real, Flow(p, at, now), p.interval as real);
  }

  /** Filled at `at`, a leaky bucket admits n units as soon as n units have leaked, and not before. */
  lemma FilledAdmits(p: Params, at: int, now: int, n: int)
    requires Sane(p) && at <= now && 0 < n && n as real <= p.capacity
    ensures Pour(p, Bucket(p.capacity, at), Request(now, n)).1 <==>
            n as real * p.interval as real <= p.rate * (now - at) as real
  {
    SameAnswers(p, Bucket(0.0, at), Bucket(p.capacity, at), [Request(now, n)]);
    EmptiedGrants(p, at, now, n);
  }

  /** With an interval of 0 and a positive rate any time at all fills a token bucket and empties a leaky one. */
  lemma NoInterval(p: Params, tokens: Bucket, leaks: Bucket, now: int, n: int)
    requires p.interval == 0 && p.rate > 0.0 && tokens.last == leaks.last <= now
    ensures Take(p, tokens, Request(now, n)).1 <==> n as real <= if now > tokens.last then p.capacity else tokens.level
    ensures Pour(p, leaks, Request(now, n)).1 <==> n as real <= p.capacity - if now > leaks.last then 0.0 else leaks.level
  {
  }
}
