/** The token bucket and the leaky bucket, with real-valued contents and nanosecond clocks. */
module Buckets {

  /** What both buckets are built from: `rate` units per `interval`. */
  datatype Params = Params(capacity: real, rate: real, interval: int)

  /** A call at time `now`: a request for `n` units, or a mere look at the bucket. */
  datatype Call = Request(now: int, n: int) | Query(now: int)

  datatype Bucket = Bucket(level: real, last: int)

  function Flow(p: Params, from: int, to: int): real
    requires p.interval != 0
  {
    ((to - from) as real / p.interval as real) * p.rate
  }

  /** With an interval of 0 the source's quotient of floats is infinite or not a number; this says when it is
      the positive infinity, which fills or empties the bucket. Anything else leaves the bucket alone. */
  predicate Gushes(p: Params, from: int, to: int) {
    (to > from && p.rate > 0.0) || (to < from && p.rate < 0.0)
  }

  // ---------- Token bucket: the level is what may still be taken ----------

  function Refill(p: Params, b: Bucket, now: int): Bucket {
    if p.interval == 0 then (if Gushes(p, b.last, now) then Bucket(p.capacity, now) else b)
    else
      var tokens := Flow(p, b.last, now);
      if tokens > 0.0 then
        Bucket(if b.level + tokens > p.capacity then p.capacity else b.level + tokens, now)
      else b
  }

  function Take(p: Params, b: Bucket, c: Call): (Bucket, bool)
  {
    var r := Refill(p, b, c.now);
    if c.Request? && r.level >= c.n as real then (r.(level := r.level - c.n as real), true) else (r, false)
  }

  function RunTokens(p: Params, b: Bucket, calls: seq<Call>): (r: (Bucket, seq<bool>))
    ensures |r.1| == |calls|
    decreases calls
  {
    if calls == [] then (b, [])
    else
      var (b1, yes) := Take(p, b, calls[0]);
      var (b2, answers) := RunTokens(p, b1, calls[1..]);
      (b2, [yes] + answers)
  }

  // ---------- Leaky bucket: the level is what has been poured in and not leaked yet ----------

  function Leak(p: Params, b: Bucket, now: int): Bucket {
    if p.interval == 0 then (if Gushes(p, b.last, now) then Bucket(0.0, now) else b)
    else
      var leaks := Flow(p, b.last, now);
      if leaks > 0.0 then
        Bucket(if b.level - leaks < 0.0 then 0.0 else b.level - leaks, now)
      else b
  }

  function Pour(p: Params, b: Bucket, c: Call): (Bucket, bool)
  {
    var r := Leak(p, b, c.now);
    if c.Request? && r.level + c.n as real <= p.capacity then (r.(level := r.level + c.n as real), true) else (r, false)
  }

  function RunLeaks(p: Params, b: Bucket, calls: seq<Call>): (r: (Bucket, seq<bool>))
    ensures |r.1| == |calls|
    decreases calls
  {
    if calls == [] then (b, [])
    else
      var (b1, yes) := Pour(p, b, calls[0]);
      var (b2, answers) := RunLeaks(p, b1, calls[1..]);
      (b2, [yes] + answers)
  }

  // ---------- The two are mirror images ----------

  ghost predicate Mirror(p: Params, tokens: Bucket, leaks: Bucket) {
    tokens.level + leaks.level == p.capacity && tokens.last == leaks.last
  }

  /** Built with equal parameters and driven by the same calls, whatever their times and sizes,
      the two buckets answer alike forever. */
  lemma {:induction false} SameAnswers(p: Params, tokens: Bucket, leaks: Bucket, calls: seq<Call>)
    requires Mirror(p, tokens, leaks)
    ensures RunTokens(p, tokens, calls).1 == RunLeaks(p, leaks, calls).1
    ensures Mirror(p, RunTokens(p, tokens, calls).0, RunLeaks(p, leaks, calls).0)
    decreases calls
  {
    if calls != [] {
      SameAnswers(p, Take(p, tokens, calls[0]).0, Pour(p, leaks, calls[0]).0, calls[1..]);
    }
  }

  /** What Remaining answers after any calls is the capacity used: it adds up to the capacity with what a token
      bucket of equal parameters holds, and so is the capacity left only if it is half the capacity. */
  lemma RemainingIsUsed(p: Params, start: int, calls: seq<Call>, now: int)
    ensures var answer := Pour(p, RunLeaks(p, Bucket(0.0, start), calls).0, Query(now)).0.level;
            && answer + Take(p, RunTokens(p, Bucket(p.capacity, start), calls).0, Query(now)).0.level == p.capacity
            && (answer == p.capacity - answer <==> answer == p.capacity / 2.0)
  {
    SameAnswers(p, Bucket(p.capacity, start), Bucket(0.0, start), calls);
    SameAnswers(p, RunTokens(p, Bucket(p.capacity, start), calls).0, RunLeaks(p, Bucket(0.0, start), calls).0, [Query(now)]);
    assert [Query(now)][1..] == [];
  }

  /** A new bucket of capacity 10 is empty, and Remaining answers 0 where 10 are left. */
  lemma RemainingOfNewBucket()
    ensures Pour(Params(10.0, 1.0, 1), Bucket(0.0, 0), Query(0)).0.level == 0.0 != 10.0 - 0.0
  {
  }

  // ---------- How much can pass ----------

  ghost predicate Sane(p: Params) {
    p.interval > 0 && p.rate >= 0.0 && p.capacity >= 0.0
  }

  /** The clock never goes back. */
  ghost predicate Timed(start: int, calls: seq<Call>)
    decreases calls
  {
    calls == [] || (start <= calls[0].now && Timed(calls[0].now, calls[1..]))
  }

  ghost predicate NonNegative(calls: seq<Call>) {
    forall c :: c in calls && c.Request? ==> c.n >= 0
  }

  /** The units granted by the requests that were answered yes. */
  ghost function Granted(calls: seq<Call>, answers: seq<bool>): int
    requires |answers| == |calls|
  {
    if calls == [] then 0
    else (if calls[0].Request? && answers[0] then calls[0].n else 0) + Granted(calls[1..], answers[1..])
  }

  ghost function End(start: int, calls: seq<Call>): int {
    if calls == [] then start else calls[|calls| - 1].now
  }

  lemma FlowAdds(p: Params, a: int, b: int, c: int)
    requires p.interval != 0
    ensures Flow(p, a, b) + Flow(p, b, c) == Flow(p, a, c)
  {
    var i := p.interval as real;
    assert ((b - a) as real / i) + ((c - b) as real / i) == (c - a) as real / i;
  }

  lemma FlowGrows(p: Params, a: int, b: int)
    requires Sane(p) && a <= b
    ensures Flow(p, a, b) >= 0.0
  {
    assert (b - a) as real / p.interval as real >= 0.0;
  }

  ghost predicate Filled(p: Params, b: Bucket, now: int) {
    0.0 <= b.level <= p.capacity && b.last <= now
  }

  /** Whatever has been granted since was in the bucket or has flowed in since it was last refilled. */
  lemma {:induction false} GrantedFromLevel(p: Params, b: Bucket, start: int, calls: seq<Call>)
    requires Sane(p) && Filled(p, b, start) && Timed(start, calls) && NonNegative(calls)
    ensures Granted(calls, RunTokens(p, b, calls).1) as real <= b.level + Flow(p, b.last, End(start, calls))
    ensures Filled(p, RunTokens(p, b, calls).0, End(start, calls))
    decreases calls
  {
    if calls == [] {
      FlowGrows(p, b.last, start);
    } else {
      var c := calls[0];
      var (b1, yes) := Take(p, b, c);
      assert forall x :: x in calls[1..] ==> x in calls;
      GrantedFromLevel(p, b1, c.now, calls[1..]);
      FlowGrows(p, b.last, c.now);
      FlowAdds(p, b.last, c.now, End(start, calls));
      assert RunTokens(p, b, calls).1 == [yes] + RunTokens(p, b1, calls[1..]).1;
    }
  }

  lemma {:induction false} RunSplits(p: Params, b: Bucket, calls: seq<Call>, i: nat)
    requires i <= |calls|
    ensures var mid := RunTokens(p, b, calls[..i]).0;
            && RunTokens(p, b, calls).1 == RunTokens(p, b, calls[..i]).1 + RunTokens(p, mid, calls[i..]).1
            && RunTokens(p, b, calls).0 == RunTokens(p, mid, calls[i..]).0
    decreases calls
  {
    if i == 0 {
      assert calls[..0] == [] && calls[0..] == calls;
    } else {
      var b1 := Take(p, b, calls[0]).0;
      RunSplits(p, b1, calls[1..], i - 1);
      assert calls[..i][1..] == calls[1..][..i - 1] && calls[1..][i - 1..] == calls[i..];
    }
  }

  lemma TimedCons(start: int, c: Call, rest: seq<Call>)
    requires start <= c.now && Timed(c.now, rest)
    ensures Timed(start, [c] + rest)
  {
    assert ([c] + rest)[1..] == rest;
  }

  lemma {:induction false} TimedPrefix(start: int, calls: seq<Call>, i: nat)
    requires Timed(start, calls) && i <= |calls|
    ensures Timed(start, calls[..i])
    decreases calls
  {
    if i > 0 {
      var c, rest := calls[0], calls[1..];
      TimedPrefix(c.now, rest, i - 1);
      TimedCons(start, c, rest[..i - 1]);
      assert calls[..i] == [c] + rest[..i - 1];
    }
  }

  /** From any call on, a bucket that holds at most its capacity grants at most that and what flows in since. */
  lemma GrantedFromCall(p: Params, b: Bucket, start: int, calls: seq<Call>)
    requires Sane(p) && Filled(p, b, start) && Timed(start, calls) && NonNegative(calls) && calls != []
    ensures Granted(calls, RunTokens(p, b, calls).1) as real
            <= p.capacity + Flow(p, calls[0].now, End(start, calls))
  {
    // What is in the bucket when the first call has refilled it is at most its capacity.
    var now := calls[0].now;
    var r := Refill(p, b, now);
    FlowGrows(p, b.last, now);
    RefillTwice(p, b, now, now);
    SameAfterRefill(p, b, r, calls);
    TimedHead(start, calls);
    GrantedFromLevel(p, r, now, calls);
    FlowGrows(p, r.last, now);
    FlowAdds(p, r.last, now, End(start, calls));
    if r.last < now {
      assert r == b && Flow(p, b.last, now) == 0.0;
    }
  }

  lemma TakeFilled(p: Params, b: Bucket, start: int, c: Call)
    requires Sane(p) && Filled(p, b, start) && start <= c.now && (c.Request? ==> c.n >= 0)
    ensures Filled(p, Take(p, b, c).0, c.now)
  {
    FlowGrows(p, b.last, c.now);
  }

  lemma RunRest(p: Params, b: Bucket, calls: seq<Call>, i: nat)
    requires 0 < i <= |calls|
    ensures RunTokens(p, b, calls).1[i..] == RunTokens(p, Take(p, b, calls[0]).0, calls[1..]).1[i - 1..]
  {
  }

  /** The same for the whole rest of a run. */
  lemma {:induction false} GrantedSince(p: Params, b: Bucket, start: int, calls: seq<Call>, i: nat)
    requires Sane(p) && Filled(p, b, start) && Timed(start, calls) && NonNegative(calls) && i < |calls|
    ensures Granted(calls[i..], RunTokens(p, b, calls).1[i..]) as real
            <= p.capacity + Flow(p, calls[i].now, calls[|calls| - 1].now)
    decreases calls
  {
    if i == 0 {
      GrantedFromCall(p, b, start, calls);
      assert calls[0..] == calls && RunTokens(p, b, calls).1[0..] == RunTokens(p, b, calls).1;
    } else {
      var c, rest := calls[0], calls[1..];
      assert forall x :: x in rest ==> x in calls;
      TakeFilled(p, b, start, c);
      GrantedSince(p, Take(p, b, c).0, c.now, rest, i - 1);
      RunRest(p, b, calls, i);
      assert rest[i - 1..] == calls[i..] && rest[i - 1] == calls[i] && rest[|rest| - 1] == calls[|calls| - 1];
    }
  }

  /** Between any two calls, the i-th and the j-th, a bucket grants at most its capacity
      and what flows in between them. */
  lemma GrantBound(p: Params, start: int, calls: seq<Call>, i: nat, j: nat)
    requires Sane(p) && Timed(start, calls) && NonNegative(calls) && i <= j < |calls|
    ensures Granted(calls[i..j + 1], RunTokens(p, Bucket(p.capacity, start), calls).1[i..j + 1]) as real
            <= p.capacity + Flow(p, calls[i].now, calls[j].now)
  {
    var b := Bucket(p.capacity, start);
    var upto := calls[..j + 1];
    RunSplits(p, b, calls, j + 1);
    TimedPrefix(start, calls, j + 1);
    assert upto[i..] == calls[i..j + 1];
    GrantedSince(p, b, start, upto, i);
    assert RunTokens(p, b, calls).1[i..j + 1] == RunTokens(p, b, upto).1[i..];
  }

  /** A leaky bucket, which starts empty, admits no more than that either. */
  lemma LeakyGrantBound(p: Params, start: int, calls: seq<Call>, i: nat, j: nat)
    requires Sane(p) && Timed(start, calls) && NonNegative(calls) && i <= j < |calls|
    ensures Granted(calls[i..j + 1], RunLeaks(p, Bucket(0.0, start), calls).1[i..j + 1]) as real
            <= p.capacity + Flow(p, calls[i].now, calls[j].now)
  {
    SameAnswers(p, Bucket(p.capacity, start), Bucket(0.0, start), calls);
    GrantBound(p, start, calls, i, j);
  }

  lemma TimedHead(start: int, calls: seq<Call>)
    requires Timed(start, calls) && calls != []
    ensures Timed(calls[0].now, calls)
  {
  }

  // ---------- Looking does not change later answers ----------

  /** Refilling on the way makes no difference to a later refill. */
  lemma RefillTwice(p: Params, b: Bucket, mid: int, now: int)
    requires Sane(p) && Filled(p, b, mid) && mid <= now
    ensures Refill(p, Refill(p, b, mid), now) == Refill(p, b, now)
    ensures Filled(p, Refill(p, b, mid), mid)
  {
    FlowGrows(p, b.last, mid);
    FlowGrows(p, mid, now);
    FlowAdds(p, b.last, mid, now);
    if Flow(p, b.last, mid) > 0.0 {
      assert p.rate > 0.0;
      if mid < now {
        assert (now - mid) as real / p.interval as real > 0.0;
        assert Flow(p, mid, now) > 0.0;
      }
    }
  }

  lemma SameAfterRefill(p: Params, a: Bucket, b: Bucket, calls: seq<Call>)
    requires calls != [] && Refill(p, a, calls[0].now) == Refill(p, b, calls[0].now)
    ensures RunTokens(p, a, calls) == RunTokens(p, b, calls)
  {
  }

  ghost function Requests(calls: seq<Call>): seq<Call> {
    if calls == [] then []
    else (if calls[0].Request? then [calls[0]] else []) + Requests(calls[1..])
  }

  ghost function RequestAnswers(calls: seq<Call>, answers: seq<bool>): seq<bool>
    requires |answers| == |calls|
  {
    if calls == [] then []
    else (if calls[0].Request? then [answers[0]] else []) + RequestAnswers(calls[1..], answers[1..])
  }

  lemma {:induction false} QueriesErased(p: Params, looked: Bucket, b: Bucket, start: int, calls: seq<Call>)
    requires Sane(p) && Filled(p, looked, start) && Filled(p, b, start) && Timed(start, calls) && NonNegative(calls)
    requires Refill(p, looked, start) == Refill(p, b, start)
    ensures RequestAnswers(calls, RunTokens(p, looked, calls).1) == RunTokens(p, b, Requests(calls)).1
    decreases calls
  {
    if calls != [] {
      var c := calls[0];
      assert forall x :: x in calls[1..] ==> x in calls;
      RefillTwice(p, looked, start, c.now);
      RefillTwice(p, b, start, c.now);
      RefillTwice(p, looked, c.now, c.now);
      var (looked', yes) := Take(p, looked, c);
      if c.Request? {
        QueriesErased(p, looked', Take(p, b, c).0, c.now, calls[1..]);
        assert Requests(calls)[1..] == Requests(calls[1..]);
      } else {
        QueriesErased(p, looked', b, c.now, calls[1..]);
        assert Requests(calls) == Requests(calls[1..]);
      }
      assert RunTokens(p, looked, calls).1 == [yes] + RunTokens(p, looked', calls[1..]).1;
      assert RunTokens(p, looked, calls).1[1..] == RunTokens(p, looked', calls[1..]).1;
    }
  }

  /** Calls of Tokens, wherever they come, change no answer of Allow and AllowN. */
  lemma QueriesInvisible(p: Params, start: int, calls: seq<Call>)
    requires Sane(p) && Timed(start, calls) && NonNegative(calls)
    ensures var b := Bucket(p.capacity, start);
            RequestAnswers(calls, RunTokens(p, b, calls).1) == RunTokens(p, b, Requests(calls)).1
  {
    var b := Bucket(p.capacity, start);
    QueriesErased(p, b, b, start, calls);
  }

  /** Nor do calls of Remaining, for the other bucket. */
  lemma LeakyQueriesInvisible(p: Params, start: int, calls: seq<Call>)
    requires Sane(p) && Timed(start, calls) && NonNegative(calls)
    ensures var b := Bucket(0.0, start);
            RequestAnswers(calls, RunLeaks(p, b, calls).1) == RunLeaks(p, b, Requests(calls)).1
  {
    SameAnswers(p, Bucket(p.capacity, start), Bucket(0.0, start), calls);
    SameAnswers(p, Bucket(p.capacity, start), Bucket(0.0, start), Requests(calls));
    QueriesInvisible(p, start, calls);
  }

  // ---------- The two limiters ----------

  class TokenBucket {
    const p: Params
    var tokens: real
    var lastRefill: int

    ghost function Model(): Bucket
      reads this
    {
      Bucket(tokens, lastRefill)
    }

    constructor (maxTokens: real, refillRate: real, refillInterval: int, now: int)
      ensures p == Params(maxTokens, refillRate, refillInterval)
      ensures Model() == Bucket(maxTokens, now)
    {
      p := Params(maxTokens, refillRate, refillInterval);
      tokens, lastRefill := maxTokens, now;
    }

    method RefillNow(now: int)
      modifies this
      ensures Model() == Refill(p, old(Model()), now)
    {
      var elapsed := now - lastRefill;
      if p.interval == 0 {
        if Gushes(p, lastRefill, now) {
          tokens := p.capacity;
          lastRefill := now;
        }
        return;
      }
      var tokensToAdd := (elapsed as real / p.interval as real) * p.rate;
      if tokensToAdd > 0.0 {
        tokens := tokens + tokensToAdd;
        if tokens > p.capacity {
          tokens := p.capacity;
        }
        lastRefill := now;
      }
    }

    method Allow(now: int) returns (allowed: bool)
      modifies this
      ensures (Model(), allowed) == Take(p, old(Model()), Request(now, 1))
    {
      RefillNow(now);
      if tokens >= 1.0 {
        tokens := tokens - 1.0;
        return true;
      }
      return false;
    }

    method AllowN(now: int, n: int) returns (allowed: bool)
      modifies this
      ensures (Model(), allowed) == Take(p, old(Model()), Request(now, n))
    {
      RefillNow(now);
      if tokens >= n as real {
        tokens := tokens - n as real;
        return true;
      }
      return false;
    }

    method Tokens(now: int) returns (available: real)
      modifies this
      ensures Model() == Take(p, old(Model()), Query(now)).0 && available == Model().level
    {
      RefillNow(now);
      return tokens;
    }
  }

  class LeakyBucket {
    const p: Params
    var remaining: real
    var lastLeakTime: int

    ghost function Model(): Bucket
      reads this
    {
      Bucket(remaining, lastLeakTime)
    }

    constructor (capacity: real, leakRate: real, leakInterval: int, now: int)
      ensures p == Params(capacity, leakRate, leakInterval)
      ensures Model() == Bucket(0.0, now)
    {
      p := Params(capacity, leakRate, leakInterval);
      remaining, lastLeakTime := 0.0, now;
    }

    method LeakNow(now: int)
      modifies this
      ensures Model() == Leak(p, old(Model()), now)
    {
      var elapsed := now - lastLeakTime;
      if p.interval == 0 {
        if Gushes(p, lastLeakTime, now) {
          remaining := 0.0;
          lastLeakTime := now;
        }
        return;
      }
      var leaks := (elapsed as real / p.interval as real) * p.rate;
      if leaks > 0.0 {
        remaining := remaining - leaks;
        if remaining < 0.0 {
          remaining := 0.0;
        }
        lastLeakTime := now;
      }
    }

    method Allow(now: int) returns (allowed: bool)
      modifies this
      ensures (Model(), allowed) == Pour(p, old(Model()), Request(now, 1))
    {
      LeakNow(now);
      if remaining + 1.0 <= p.capacity {
        remaining := remaining + 1.0;
        return true;
      }
      return false;
    }

    method AllowN(now: int, n: int) returns (allowed: bool)
      modifies this
      ensures (Model(), allowed) == Pour(p, old(Model()), Request(now, n))
    {
      LeakNow(now);
      if remaining + n as real <= p.capacity {
        remaining := remaining + n as real;
        return true;
      }
      return false;
    }

    method Remaining(now: int) returns (level: real)
      modifies this
      ensures Model() == Pour(p, old(Model()), Query(now)).0 && level == Model().level
    {
      LeakNow(now);
      return remaining;
    }
  }
}
