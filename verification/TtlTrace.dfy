/** What a Get of the expiring map answers after any trace, in terms of the last call that concerned its key. */
module TtlTrace {
  import opened Common
  import opened TtlMap

  /** The map after a trace. */
  function After<K(==), V>(m: map<K, Item<V>>, ops: seq<Op<K, V>>): map<K, Item<V>>
    decreases ops
  {
    if ops == [] then m else After(Apply(m, ops[0]).0, ops[1..])
  }

  lemma {:induction false} RunLast<K, V>(m: map<K, Item<V>>, ops: seq<Op<K, V>>, op: Op<K, V>)
    ensures Run(m, ops + [op])[|ops|] == Apply(After(m, ops), op).1
    decreases ops
  {
    if ops == [] {
      assert Run(m, [op])[0] == Apply(m, op).1;
    } else {
      var m' := Apply(m, ops[0]).0;
      RunLast(m', ops[1..], op);
      assert (ops + [op])[1..] == ops[1..] + [op];
      assert Run(m, ops + [op])[1..] == Run(m', ops[1..] + [op]);
    }
  }

  /** What the last of the calls answers. */
  function Last<K(==), V>(m: map<K, Item<V>>, ops: seq<Op<K, V>>, op: Op<K, V>): (a: Answer<K, V>)
    ensures (op.Get? ==> a.Found?) && (op.Range? ==> a.Pairs?)
  {
    RunLast(m, ops, op);
    Run(m, ops + [op])[|ops|]
  }

  /** The call may change what `key` is mapped to. Get and Cleanup remove expired entries only. */
  ghost predicate Changes<K, V>(op: Op<K, V>, key: K) {
    match op
    case Set(k, _, _, _) => k == key
    case Delete(k, _) => k == key
    case Touch(k, _, _) => k == key
    case GetOrSet(k, _, _, _) => k == key
    case _ => false
  }

  ghost predicate LeaveAlone<K, V>(ops: seq<Op<K, V>>, key: K) {
    forall i :: 0 <= i < |ops| ==> !Changes(ops[i], key)
  }

  lemma OneLeavesAlone<K, V>(m: map<K, Item<V>>, op: Op<K, V>, key: K, now: int)
    requires !Changes(op, key) && op.now <= now
    ensures var m' := Apply(m, op).0;
            && (key in m' ==> key in m && m'[key] == m[key])
            && (key in m && key !in m' ==> now > m[key].expiresAt)
  {
  }

  lemma {:induction false} AllLeaveAlone<K, V>(m: map<K, Item<V>>, start: int, ops: seq<Op<K, V>>, key: K, now: int)
    requires LeaveAlone(ops, key) && Timed(start, ops) && forall i :: 0 <= i < |ops| ==> ops[i].now <= now
    ensures var m' := After(m, ops);
            && (key in m' ==> key in m && m'[key] == m[key])
            && (key in m && key !in m' ==> now > m[key].expiresAt)
    decreases ops
  {
    if ops != [] {
      OneLeavesAlone(m, ops[0], key, now);
      assert forall i :: 0 <= i < |ops[1..]| ==> ops[1..][i] == ops[i + 1];
      AllLeaveAlone(Apply(m, ops[0]).0, ops[0].now, ops[1..], key, now);
    }
  }

  lemma {:induction false} TimedBefore<K, V>(start: int, ops: seq<Op<K, V>>, op: Op<K, V>)
    requires Timed(start, ops + [op])
    ensures Timed(start, ops) && start <= op.now && forall i :: 0 <= i < |ops| ==> ops[i].now <= op.now
    decreases ops
  {
    if ops == [] {
      assert (ops + [op])[0] == op;
    } else {
      assert (ops + [op])[0] == ops[0] && (ops + [op])[1..] == ops[1..] + [op];
      TimedBefore(ops[0].now, ops[1..], op);
      assert forall i :: 0 < i < |ops| ==> ops[i] == ops[1..][i - 1];
    }
  }

  /** Calls that concern other keys, lookups and cleanups make no difference to what a key is found to be. */
  lemma OthersKeepAnswers<K, V>(m: map<K, Item<V>>, start: int, ops: seq<Op<K, V>>, key: K, now: int)
    requires LeaveAlone(ops, key) && Timed(start, ops + [Get(key, now)])
    ensures Last(m, ops, Get(key, now)) == Last(m, [], Get(key, now))
  {
    TimedBefore(start, ops, Get(key, now));
    AllLeaveAlone(m, start, ops, key, now);
    RunLast(m, ops, Get(key, now));
    RunLast(m, [], Get(key, now));
  }

  lemma AfterFirst<K, V>(m: map<K, Item<V>>, first: Op<K, V>, ops: seq<Op<K, V>>, op: Op<K, V>)
    ensures Last(m, [first] + ops, op) == Last(Apply(m, first).0, ops, op)
  {
    RunLast(m, [first] + ops, op);
    RunLast(Apply(m, first).0, ops, op);
    assert ([first] + ops)[1..] == ops;
  }

  /** A first call and then calls that do not concern its key. */
  lemma AnswerAfter<K, V>(m: map<K, Item<V>>, first: Op<K, V>, ops: seq<Op<K, V>>, key: K, now: int)
    requires LeaveAlone(ops, key) && Timed(first.now, ops + [Get(key, now)])
    ensures Last(m, [first] + ops, Get(key, now)) == Apply(Apply(m, first).0, Get(key, now)).1
  {
    AfterFirst(m, first, ops, Get(key, now));
    OthersKeepAnswers(Apply(m, first).0, first.now, ops, key, now);
    RunLast(Apply(m, first).0, [], Get(key, now));
  }

  /** What has been set is found up to its deadline, and not after it. */
  lemma SetThenGet<K, V>(m: map<K, Item<V>>, key: K, value: V, ttl: int, at: int, ops: seq<Op<K, V>>, now: int)
    requires LeaveAlone(ops, key) && Timed(at, ops + [Get(key, now)])
    ensures Last(m, [Set(key, value, ttl, at)] + ops, Get(key, now)) == Found(if now <= at + ttl then Some(value) else None)
  {
    AnswerAfter(m, Set(key, value, ttl, at), ops, key, now);
  }

  lemma DeleteThenGet<K, V>(m: map<K, Item<V>>, key: K, at: int, ops: seq<Op<K, V>>, now: int)
    requires LeaveAlone(ops, key) && Timed(at, ops + [Get(key, now)])
    ensures Last(m, [Delete(key, at)] + ops, Get(key, now)) == Found(None)
  {
    AnswerAfter(m, Delete(key, at), ops, key, now);
  }

  lemma NewThenGet<K, V>(start: int, key: K, ops: seq<Op<K, V>>, now: int)
    requires LeaveAlone(ops, key) && Timed(start, ops + [Get(key, now)])
    ensures Last<K, V>(map[], ops, Get(key, now)) == Found(None)
  {
    OthersKeepAnswers<K, V>(map[], start, ops, key, now);
    RunLast<K, V>(map[], [], Get(key, now));
  }

  /** Touch succeeds exactly if a Get would find the key. It then keeps the value and moves the deadline; else it
      changes nothing. */
  lemma TouchThenGet<K, V>(m: map<K, Item<V>>, key: K, ttl: int, at: int, ops: seq<Op<K, V>>, now: int)
    requires LeaveAlone(ops, key) && Timed(at, ops + [Get(key, now)])
    ensures var was := Last(m, [], Get(key, at)).found;
            && Last(m, [], Touch(key, ttl, at)) == Touched(was.Some?)
            && Last(m, [Touch(key, ttl, at)] + ops, Get(key, now))
               == Found(if was.Some? && now <= at + ttl then was else None)
  {
    TimedBefore(at, ops, Get(key, now));
    AnswerAfter(m, Touch(key, ttl, at), ops, key, now);
    RunLast(m, [], Get(key, at));
    RunLast(m, [], Touch(key, ttl, at));
  }

  /** GetOrSet loads exactly what a Get would find, and then leaves the entry as it is; else it sets the key. */
  lemma GetOrSetThenGet<K, V>(m: map<K, Item<V>>, key: K, value: V, ttl: int, at: int, ops: seq<Op<K, V>>, now: int)
    requires LeaveAlone(ops, key) && Timed(at, ops + [Get(key, now)])
    ensures var was := Last(m, [], Get(key, at)).found;
            && Last(m, [], GetOrSet(key, value, ttl, at)) ==
               (if was.Some? then Loaded(was.value, true) else Loaded(value, false))
            && Last(m, [GetOrSet(key, value, ttl, at)] + ops, Get(key, now)) ==
               if was.Some? then Last(m, [], Get(key, now)) else Found(if now <= at + ttl then Some(value) else None)
  {
    AnswerAfter(m, GetOrSet(key, value, ttl, at), ops, key, now);
    RunLast(m, [], Get(key, at));
    RunLast(m, [], Get(key, now));
    RunLast(m, [], GetOrSet(key, value, ttl, at));
  }

  // ---------- Range, ActiveLen and Len ----------

  /** Range visits what has been set strictly before its deadline: at the very deadline Get still finds it. */
  lemma SetThenRange<K, V>(m: map<K, Item<V>>, key: K, value: V, ttl: int, at: int, ops: seq<Op<K, V>>, now: int)
    requires LeaveAlone(ops, key) && Timed(at, ops + [Range(now)])
    ensures var pairs := Last(m, [Set(key, value, ttl, at)] + ops, Range(now)).pairs;
            (key in pairs <==> now < at + ttl) && (key in pairs ==> pairs[key] == value)
  {
    var m1 := Apply(m, Op.Set(key, value, ttl, at)).0;
    TimedBefore(at, ops, Range(now));
    AllLeaveAlone(m1, at, ops, key, now);
    AfterFirst(m, Op.Set(key, value, ttl, at), ops, Range(now));
    RunLast(m1, ops, Range(now));
  }

  /** After any trace, Range visits no pair that a Get would not find. */
  lemma RangeIsFound<K, V>(m: map<K, Item<V>>, ops: seq<Op<K, V>>, key: K, now: int)
    ensures var pairs := Last(m, ops, Range(now)).pairs;
            key in pairs ==> Last(m, ops, Get(key, now)) == Found(Some(pairs[key]))
  {
    RunLast(m, ops, Range(now));
    RunLast(m, ops, Get(key, now));
  }

  lemma ActiveLenIsRange<K, V>(m: map<K, Item<V>>, ops: seq<Op<K, V>>, now: int)
    ensures Last(m, ops, ActiveLen(now)) == Count(|Last(m, ops, Range(now)).pairs|)
  {
    RunLast(m, ops, Range(now));
    RunLast(m, ops, ActiveLen(now));
    var active := Select(After(m, ops), Active(now));
    assert Values(active).Keys == active.Keys;
    assert |Values(active)| == |active|;
  }

  lemma FoundIsLive<K, V>(m: map<K, Item<V>>, ops: seq<Op<K, V>>, key: K, now: int)
    ensures Last(m, ops, Get(key, now)).found.Some? <==> key in Select(After(m, ops), Live(now))
  {
    RunLast(m, ops, Get(key, now));
  }

  lemma LenAfterCleanup<K, V>(m: map<K, Item<V>>, ops: seq<Op<K, V>>, now: int)
    ensures Last(m, ops + [Cleanup(now)], Len(now)) == Count(|Select(After(m, ops), Live(now)).Keys|)
  {
    RunLast(m, ops + [Cleanup(now)], Len(now));
    AfterLast(m, ops, Cleanup(now));
  }

  lemma SameMembers<K>(a: set<K>, b: set<K>)
    requires forall key :: key in a <==> key in b
    ensures a == b
  {
  }

  /** A cleanup leaves exactly the keys that a Get would find, and Len counts them. */
  lemma CleanupThenLen<K, V>(m: map<K, Item<V>>, ops: seq<Op<K, V>>, found: set<K>, now: int)
    requires forall key :: key in found <==> Last(m, ops, Get(key, now)).found.Some?
    ensures Last(m, ops + [Cleanup(now)], Len(now)) == Count(|found|)
  {
    hide Last, After, Select;
    var live := Select(After(m, ops), Live(now)).Keys;
    forall key ensures key in found <==> key in live {
      FoundIsLive(m, ops, key, now);
    }
    SameMembers(found, live);
    LenAfterCleanup(m, ops, now);
  }

  lemma {:induction false} AfterLast<K, V>(m: map<K, Item<V>>, ops: seq<Op<K, V>>, op: Op<K, V>)
    ensures After(m, ops + [op]) == Apply(After(m, ops), op).0
    decreases ops
  {
    if ops == [] {
      assert ([op])[1..] == [];
    } else {
      assert (ops + [op])[1..] == ops[1..] + [op];
      AfterLast(Apply(m, ops[0]).0, ops[1..], op);
    }
  }
}
