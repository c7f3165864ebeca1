/** What the cache answers and counts over whole traces, in terms of the stores, times and limits of the trace alone. */
module LruTrace {
  import opened Common
  import opened LruSpec

  /** A store: the value, its time to live, of which 0 and less mean for ever, and when it was made. */
  datatype Store<V> = Store(value: V, ttl: int, at: int)

  ghost predicate InTime<V>(s: Store<V>, now: int) {
    s.ttl <= 0 || now <= s.at + s.ttl
  }

  /** The last store under `key`, unless a Delete of it or a Clear came later. */
  ghost function LastStore<K, V>(ops: seq<Op<K, V>>, key: K): Option<Store<V>> {
    if ops == [] then None
    else
      match ops[|ops| - 1]
      case SetWithTTL(k, v, ttl, now) => if k == key then Some(Store(v, ttl, now)) else LastStore(ops[..|ops| - 1], key)
      case Delete(k) => if k == key then None else LastStore(ops[..|ops| - 1], key)
      case Clear => None
      case Get(_, _) => LastStore(ops[..|ops| - 1], key)
  }

  lemma {:induction false} StoredEntry<K, V>(ops: seq<Op<K, V>>, key: K, now: int)
    ensures LastStored(ops, key).Some? <==> LastStore(ops, key).Some?
    ensures LastStored(ops, key).Some? ==>
              && LastStored(ops, key).value.value == LastStore(ops, key).value.value
              && (Expired(LastStored(ops, key).value, now) <==> !InTime(LastStore(ops, key).value, now))
  {
    if ops != [] {
      StoredEntry(ops[..|ops| - 1], key, now);
    }
  }

  /** What the last call of a trace answers, in a new cache. */
  function Last<K(==), V>(capacity: int, ops: seq<Op<K, V>>, op: Op<K, V>): (a: Answer<V>)
    ensures op.Get? ==> a.Found?
    ensures op.Delete? ==> a.Deleted?
  {
    RunSnoc(New(capacity), ops, op);
    Run(New(capacity), ops + [op]).1[|ops|]
  }

  lemma LastIs<K, V>(capacity: int, ops: seq<Op<K, V>>, op: Op<K, V>)
    ensures Last(capacity, ops, op) == Apply(Run(New(capacity), ops).0, op).1
  {
    RunSnoc(New(capacity), ops, op);
  }

  lemma RunSnoc<K, V>(c: Lru<K, V>, ops: seq<Op<K, V>>, op: Op<K, V>)
    ensures Run(c, ops + [op]) == (Apply(Run(c, ops).0, op).0, Run(c, ops).1 + [Apply(Run(c, ops).0, op).1])
  {
    assert (ops + [op])[..|ops|] == ops;
  }

  lemma {:induction false} RunJoin<K, V>(c: Lru<K, V>, first: seq<Op<K, V>>, second: seq<Op<K, V>>)
    ensures Run(c, first + second).0 == Run(Run(c, first).0, second).0
  {
    if second == [] {
      assert first + second == first;
    } else {
      var init := second[..|second| - 1];
      RunJoin(c, first, init);
      assert first + second == (first + init) + [second[|second| - 1]];
      RunSnoc(c, first + init, second[|second| - 1]);
    }
  }

  /** A hit returns the value of the last store under its key, and only as long as that is in time. */
  lemma HitsAreInTime<K, V>(capacity: int, ops: seq<Op<K, V>>, key: K, now: int)
    ensures var (found, last) := (Last(capacity, ops, Get(key, now)).value, LastStore(ops, key));
            found.Some? ==> last.Some? && found.value == last.value.value && InTime(last.value, now)
  {
    HitsAreCoherent(capacity, ops, key, now);
    RunSnoc(New<K, V>(capacity), ops, Get(key, now));
    StoredEntry(ops, key, now);
  }

  /** A call that neither stores nor takes out `key`, nor looks it up when the store is out of time. */
  ghost predicate Keeps<K, V>(op: Op<K, V>, key: K, s: Store<V>) {
    match op
    case Get(k, now) => k != key || InTime(s, now)
    case SetWithTTL(k, _, _, _) => k != key
    case Delete(k) => k != key
    case Clear => false
  }

  lemma RetainOne<K, V>(c: Lru<K, V>, key: K, s: Store<V>, after: seq<Op<K, V>>) returns (e: Entry<K, V>)
    requires Valid(c) && |Others(after, key)| < c.capacity
    requires forall i :: 0 <= i < |after| ==> Keeps(after[i], key, s)
    ensures e.key == key && e.value == s.value && e.expiration == if s.ttl > 0 then Some(s.at + s.ttl) else None
    ensures Lookup(Run(Apply(c, SetWithTTL(key, s.value, s.ttl, s.at)).0, after).0.order, key) == Some(e)
  {
    e := Entry(key, s.value, Deadline(s.ttl, s.at));
    var stored := Apply(c, SetWithTTL(key, s.value, s.ttl, s.at)).0;
    ApplyValid(c, SetWithTTL(key, s.value, s.ttl, s.at));
    forall i | 0 <= i < |after| ensures Spares(after[i], e) {
      assert Keeps(after[i], key, s);
    }
    var j := Retain(stored, e, after, Others(after, key));
    RunValid(stored, after);
    DropAt(Run(stored, after).0.order, j);
  }

  lemma StillStored<K, V>(capacity: int, before: seq<Op<K, V>>, key: K, s: Store<V>, after: seq<Op<K, V>>)
    returns (e: Entry<K, V>)
    requires forall i :: 0 <= i < |after| ==> Keeps(after[i], key, s)
    requires |Others(after, key)| < (if capacity <= 0 then 100 else capacity)
    ensures e.key == key && e.value == s.value && e.expiration == if s.ttl > 0 then Some(s.at + s.ttl) else None
    ensures var all := before + [SetWithTTL(key, s.value, s.ttl, s.at)] + after;
            Lookup(Run(New<K, V>(capacity), all).0.order, key) == Some(e)
  {
    hide Run, Apply, Lookup;
    var c := New<K, V>(capacity);
    RunValid(c, before);
    e := RetainOne(Run(c, before).0, key, s, after);
    RunSnoc(c, before, SetWithTTL(key, s.value, s.ttl, s.at));
    RunJoin(c, before + [SetWithTTL(key, s.value, s.ttl, s.at)], after);
  }

  /** After a store and any trace that touches fewer other keys than the cache can hold, a Get hits if and only if
      the store is in time. */
  lemma StoredIsFound<K, V>(capacity: int, before: seq<Op<K, V>>, key: K, value: V, ttl: int, at: int,
                            after: seq<Op<K, V>>, now: int)
    requires forall i :: 0 <= i < |after| ==> Keeps(after[i], key, Store(value, ttl, at))
    requires |Others(after, key)| < (if capacity <= 0 then 100 else capacity)
    ensures Last(capacity, before + [SetWithTTL(key, value, ttl, at)] + after, Get(key, now))
            == Found(if ttl <= 0 || now <= at + ttl then Some(value) else None)
  {
    hide Run, Lookup, Last;
    var e := StillStored(capacity, before, key, Store(value, ttl, at), after);
    LastIs(capacity, before + [SetWithTTL(key, value, ttl, at)] + after, Get(key, now));
  }

  /** A Delete finds what has been stored, in time or not, under the same conditions. */
  lemma StoredIsDeleted<K, V>(capacity: int, before: seq<Op<K, V>>, key: K, value: V, ttl: int, at: int,
                              after: seq<Op<K, V>>)
    requires forall i :: 0 <= i < |after| ==> Keeps(after[i], key, Store(value, ttl, at))
    requires |Others(after, key)| < (if capacity <= 0 then 100 else capacity)
    ensures Last(capacity, before + [SetWithTTL(key, value, ttl, at)] + after, Op<K, V>.Delete(key)) == Deleted(true)
  {
    hide Run, Lookup, Last;
    var e := StillStored(capacity, before, key, Store(value, ttl, at), after);
    LastIs(capacity, before + [SetWithTTL(key, value, ttl, at)] + after, Op<K, V>.Delete(key));
  }

  /** A Delete finds nothing that has not been stored since the last Delete or Clear. */
  lemma DeletedWasStored<K, V>(capacity: int, ops: seq<Op<K, V>>, key: K)
    ensures Last(capacity, ops, Op<K, V>.Delete(key)) == Deleted(true) ==> LastStore(ops, key).Some?
  {
    var c := Run(New<K, V>(capacity), ops).0;
    RunSnoc(New<K, V>(capacity), ops, Op<K, V>.Delete(key));
    LookupMeaning(c.order, key);
    if Lookup(c.order, key).Some? {
      EntriesAreLastStored(capacity, ops, Lookup(c.order, key).value);
      StoredEntry(ops, key, 0);
    }
  }

  // ---------- The counters ----------

  ghost function Hits<V>(answers: seq<Answer<V>>): nat {
    if answers == [] then 0
    else
      var a := answers[|answers| - 1];
      Hits(answers[..|answers| - 1]) + (if a.Found? && a.value.Some? then 1 else 0)
  }

  ghost function Misses<V>(answers: seq<Answer<V>>): nat {
    if answers == [] then 0
    else
      var a := answers[|answers| - 1];
      Misses(answers[..|answers| - 1]) + (if a.Found? && a.value.None? then 1 else 0)
  }

  /** The counters count the answers of Get that are hits, and those that are misses. */
  lemma {:induction false} CountersCount<K, V>(capacity: int, ops: seq<Op<K, V>>)
    ensures var (c, answers) := Run(New<K, V>(capacity), ops); c.hits == Hits(answers) && c.misses == Misses(answers)
  {
    if ops != [] {
      var init := ops[..|ops| - 1];
      CountersCount(capacity, init);
      var (c, answers) := Run(New<K, V>(capacity), init);
      var a := Apply(c, ops[|ops| - 1]).1;
      assert (answers + [a])[..|answers|] == answers;
    }
  }

  /** An eviction is counted exactly when a store of a new key finds the cache full: it is then that an entry leaves
      other than by expiry, Delete or Clear. */
  lemma EvictsWhenFull<K, V>(c: Lru<K, V>, op: Op<K, V>)
    requires Valid(c)
    ensures Apply(c, op).0.evicts ==
            c.evicts + if op.SetWithTTL? && !HasKey(c.order, op.key) && |c.order| == c.capacity then 1 else 0
    ensures op.SetWithTTL? ==>
              |Apply(c, op).0.order| ==
              |c.order| + (if HasKey(c.order, op.key) then 0 else 1) - (Apply(c, op).0.evicts - c.evicts)
  {
    if op.SetWithTTL? {
      LookupMeaning(c.order, op.key);
      DropShape(c.order, op.key);
    }
  }
}
