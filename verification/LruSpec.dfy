/** An LRU cache as a plain recency list, most recently used first. */
module LruSpec {
  import opened Common

  /** `expiration == None` is the zero time: the entry never expires. */
  datatype Entry<K, V> = Entry(key: K, value: V, expiration: Option<int>)

  datatype Lru<K, V> = Lru(capacity: nat, order: seq<Entry<K, V>>, hits: nat, misses: nat, evicts: nat)

  datatype Op<K, V> =
    | Get(key: K, now: int)
    | SetWithTTL(key: K, value: V, ttl: int, now: int)
    | Delete(key: K)
    | Clear

  datatype Answer<V> = Found(value: Option<V>) | Stored | Deleted(existed: bool) | Cleared

  function New<K, V>(capacity: int): Lru<K, V> {
    Lru(if capacity <= 0 then 100 else capacity, [], 0, 0, 0)
  }

  predicate Expired<K, V>(e: Entry<K, V>, now: int) {
    e.expiration.Some? && now > e.expiration.value
  }

  function Deadline(ttl: int, now: int): Option<int> {
    if ttl > 0 then Some(now + ttl) else None
  }

  function Lookup<K(==), V>(order: seq<Entry<K, V>>, key: K): Option<Entry<K, V>> {
    if order == [] then None
    else if order[0].key == key then Some(order[0])
    else Lookup(order[1..], key)
  }

  /** The list without the entry for `key`, if there is one. */
  function Drop<K(==), V>(order: seq<Entry<K, V>>, key: K): seq<Entry<K, V>> {
    if order == [] then []
    else if order[0].key == key then order[1..]
    else [order[0]] + Drop(order[1..], key)
  }

  function Apply<K(==), V>(c: Lru<K, V>, op: Op<K, V>): (Lru<K, V>, Answer<V>) {
    match op
    case Get(key, now) =>
      (match Lookup(c.order, key)
       case None => (c.(misses := c.misses + 1), Found(None))
       case Some(e) =>
         if Expired(e, now) then
           (c.(order := Drop(c.order, key), misses := c.misses + 1), Found(None))
         else
           (c.(order := [e] + Drop(c.order, key), hits := c.hits + 1), Found(Some(e.value))))
    case SetWithTTL(key, value, ttl, now) =>
      var e := Entry(key, value, Deadline(ttl, now));
      if Lookup(c.order, key).Some? then
        (c.(order := [e] + Drop(c.order, key)), Stored)
      else if |c.order| >= c.capacity && c.order != [] then
        (c.(order := [e] + c.order[..|c.order| - 1], evicts := c.evicts + 1), Stored)
      else
        (c.(order := [e] + c.order), Stored)
    case Delete(key) =>
      (c.(order := Drop(c.order, key)), Deleted(Lookup(c.order, key).Some?))
    case Clear => (c.(order := []), Cleared)
  }

  /** Replays a whole trace. */
  function Run<K(==), V>(c: Lru<K, V>, ops: seq<Op<K, V>>): (r: (Lru<K, V>, seq<Answer<V>>))
    ensures |r.1| == |ops|
  {
    if ops == [] then (c, [])
    else
      var (c1, answers) := Run(c, ops[..|ops| - 1]);
      var (c2, a) := Apply(c1, ops[|ops| - 1]);
      (c2, answers + [a])
  }

  // ---------- The recency list stays well formed ----------

  ghost predicate HasKey<K, V>(order: seq<Entry<K, V>>, key: K) {
    exists i :: 0 <= i < |order| && order[i].key == key
  }

  ghost predicate DistinctKeys<K, V>(order: seq<Entry<K, V>>) {
    forall i, j :: 0 <= i < j < |order| ==> order[i].key != order[j].key
  }

  ghost predicate Valid<K, V>(c: Lru<K, V>) {
    1 <= c.capacity && |c.order| <= c.capacity && DistinctKeys(c.order)
  }

  lemma {:induction false} LookupMeaning<K, V>(order: seq<Entry<K, V>>, key: K)
    ensures Lookup(order, key).Some? <==> HasKey(order, key)
    ensures Lookup(order, key).Some? ==> Lookup(order, key).value in order && Lookup(order, key).value.key == key
  {
    if order != [] && order[0].key != key {
      LookupMeaning(order[1..], key);
      if HasKey(order, key) {
        var i :| 0 <= i < |order| && order[i].key == key;
        assert order[1..][i - 1].key == key;
      }
    }
  }

  /** Dropping a key takes out exactly its entry and keeps the others in order. */
  lemma {:induction false} DropAt<K, V>(order: seq<Entry<K, V>>, i: nat)
    requires i < |order| && DistinctKeys(order)
    ensures Drop(order, order[i].key) == order[..i] + order[i + 1..]
    ensures Lookup(order, order[i].key) == Some(order[i])
  {
    if i > 0 {
      assert order[0].key != order[i].key;
      assert forall a, b :: 0 <= a < b < |order[1..]| ==> order[1..][a].key != order[1..][b].key;
      DropAt(order[1..], i - 1);
      assert order[..i] + order[i + 1..] == [order[0]] + (order[1..][..i - 1] + order[1..][i..]);
    }
  }

  lemma {:induction false} DropAbsent<K, V>(order: seq<Entry<K, V>>, key: K)
    requires !HasKey(order, key)
    ensures Drop(order, key) == order && Lookup(order, key) == None
  {
    if order != [] {
      assert order[0].key != key;
      assert forall i :: 0 <= i < |order[1..]| ==> order[1..][i] == order[i + 1];
      DropAbsent(order[1..], key);
    }
  }

  /** What is left after dropping `key`: shorter by one when it was there, distinct, and without `key`. */
  lemma {:induction false} DropShape<K, V>(order: seq<Entry<K, V>>, key: K)
    requires DistinctKeys(order)
    ensures |Drop(order, key)| == |order| - (if Lookup(order, key).Some? then 1 else 0)
    ensures DistinctKeys(Drop(order, key)) && !HasKey(Drop(order, key), key)
    ensures forall e :: e in Drop(order, key) ==> e in order
  {
    LookupMeaning(order, key);
    if HasKey(order, key) {
      var i :| 0 <= i < |order| && order[i].key == key;
      DropAt(order, i);
      assert order[i] in order;
    } else {
      DropAbsent(order, key);
    }
  }

  lemma {:induction false} ApplyValid<K, V>(c: Lru<K, V>, op: Op<K, V>)
    requires Valid(c)
    ensures Valid(Apply(c, op).0) && Apply(c, op).0.capacity == c.capacity
  {
    if !op.Clear? {
      DropShape(c.order, op.key);
      LookupMeaning(c.order, op.key);
    }
  }

  lemma {:induction false} RunValid<K, V>(c: Lru<K, V>, ops: seq<Op<K, V>>)
    requires Valid(c)
    ensures Valid(Run(c, ops).0) && Run(c, ops).0.capacity == c.capacity
  {
    if ops != [] {
      RunValid(c, ops[..|ops| - 1]);
      ApplyValid(Run(c, ops[..|ops| - 1]).0, ops[|ops| - 1]);
    }
  }

  // ---------- Inclusion: a bigger cache never loses a hit ----------

  /** `s` can be obtained from `l` by leaving entries out. */
  ghost predicate Subsequence<T>(s: seq<T>, l: seq<T>) {
    s == [] || (l != [] && ((s[0] == l[0] && Subsequence(s[1..], l[1..])) || Subsequence(s, l[1..])))
  }

  lemma {:induction false} SubsequenceMember<T>(s: seq<T>, l: seq<T>, x: T)
    requires Subsequence(s, l) && x in s
    ensures x in l
  {
    if s[0] == l[0] && Subsequence(s[1..], l[1..]) {
      if x != s[0] {
        SubsequenceMember(s[1..], l[1..], x);
      }
    } else {
      SubsequenceMember(s, l[1..], x);
    }
  }

  lemma {:induction false} SubsequenceLength<T>(s: seq<T>, l: seq<T>)
    requires Subsequence(s, l)
    ensures |s| <= |l|
  {
    if s != [] {
      if s[0] == l[0] && Subsequence(s[1..], l[1..]) {
        SubsequenceLength(s[1..], l[1..]);
      } else {
        SubsequenceLength(s, l[1..]);
      }
    }
  }

  lemma SubsequenceCons<T>(s: seq<T>, l: seq<T>, x: T)
    requires Subsequence(s, l)
    ensures Subsequence([x] + s, [x] + l) && Subsequence(s, [x] + l)
  {
    assert ([x] + l)[1..] == l && ([x] + s)[1..] == s;
  }

  /** The last entry may be left out of the smaller list, and then out of the larger one as well. */
  lemma {:induction false} SubsequenceInit<T>(s: seq<T>, l: seq<T>)
    requires Subsequence(s, l) && s != []
    ensures l != []
    ensures Subsequence(s[..|s| - 1], l)
    ensures Subsequence(s[..|s| - 1], l[..|l| - 1])
  {
    if |s| > 1 {
      if s[0] == l[0] && Subsequence(s[1..], l[1..]) {
        SubsequenceInit(s[1..], l[1..]);
        assert s[..|s| - 1][1..] == s[1..][..|s| - 2];
        assert l[..|l| - 1][1..] == l[1..][..|l| - 2];
      } else {
        SubsequenceInit(s, l[1..]);
        assert l[..|l| - 1][1..] == l[1..][..|l| - 2];
      }
    }
  }

  lemma {:induction false} SubsequenceLookup<K, V>(s: seq<Entry<K, V>>, l: seq<Entry<K, V>>, key: K)
    requires Subsequence(s, l) && DistinctKeys(l) && Lookup(s, key).Some?
    ensures Lookup(l, key) == Lookup(s, key)
  {
    LookupMeaning(s, key);
    var e := Lookup(s, key).value;
    SubsequenceMember(s, l, e);
    var i :| 0 <= i < |l| && l[i] == e;
    DropAt(l, i);
  }

  lemma {:induction false} SubsequenceDrop<K, V>(s: seq<Entry<K, V>>, l: seq<Entry<K, V>>, key: K)
    requires Subsequence(s, l) && DistinctKeys(l) && DistinctKeys(s)
    ensures Subsequence(Drop(s, key), Drop(l, key))
  {
    if s != [] {
      assert DistinctKeys(l[1..]) && DistinctKeys(s[1..]);
      if s[0] == l[0] && Subsequence(s[1..], l[1..]) {
        if l[0].key != key {
          SubsequenceDrop(s[1..], l[1..], key);
          SubsequenceCons(Drop(s[1..], key), Drop(l[1..], key), l[0]);
        }
      } else if l[0].key == key {
        if HasKey(s, key) {
          var i :| 0 <= i < |s| && s[i].key == key;
          SubsequenceMember(s, l[1..], s[i]);
        }
        DropAbsent(s, key);
      } else {
        SubsequenceDrop(s, l[1..], key);
        SubsequenceCons(Drop(s, key), Drop(l[1..], key), l[0]);
      }
    }
  }

  /** The smaller cache's recency list is part of the larger's, with equal values and expiries. */
  ghost predicate Included<K, V>(s: Lru<K, V>, l: Lru<K, V>) {
    && Valid(s) && Valid(l) && s.capacity <= l.capacity
    && Subsequence(s.order, l.order)
    && |l.order| - |s.order| <= l.capacity - s.capacity
    && s.hits <= l.hits
  }

  lemma {:induction false} InclusionStep<K, V>(s: Lru<K, V>, l: Lru<K, V>, op: Op<K, V>)
    requires Included(s, l)
    ensures Included(Apply(s, op).0, Apply(l, op).0)
    ensures Apply(s, op).1.Found? && Apply(s, op).1.value.Some? ==> Apply(l, op).1 == Apply(s, op).1
  {
    ApplyValid(s, op);
    ApplyValid(l, op);
    SubsequenceLength(s.order, l.order);
    if !op.Clear? {
      DropShape(s.order, op.key);
      DropShape(l.order, op.key);
      SubsequenceDrop(s.order, l.order, op.key);
      LookupMeaning(s.order, op.key);
      if Lookup(s.order, op.key).Some? {
        SubsequenceLookup(s.order, l.order, op.key);
        SubsequenceCons(Drop(s.order, op.key), Drop(l.order, op.key), Lookup(l.order, op.key).value);
      } else {
        DropAbsent(s.order, op.key);
        if Lookup(l.order, op.key).Some? {
          SubsequenceCons(Drop(s.order, op.key), Drop(l.order, op.key), Lookup(l.order, op.key).value);
        }
      }
      if op.SetWithTTL? {
        InclusionStore(s, l, op);
      }
    }
  }

  lemma {:induction false} InclusionStore<K, V>(s: Lru<K, V>, l: Lru<K, V>, op: Op<K, V>)
    requires Included(s, l) && op.SetWithTTL?
    requires Subsequence(Drop(s.order, op.key), Drop(l.order, op.key))
    requires |s.order| <= |l.order|
    ensures Subsequence(Apply(s, op).0.order, Apply(l, op).0.order)
  {
    var e := Entry(op.key, op.value, Deadline(op.ttl, op.now));
    var sOrder, lOrder := Drop(s.order, op.key), Drop(l.order, op.key);
    LookupMeaning(s.order, op.key);
    LookupMeaning(l.order, op.key);
    if Lookup(s.order, op.key).Some? {
      SubsequenceLookup(s.order, l.order, op.key);
    } else {
      DropAbsent(s.order, op.key);
      if Lookup(l.order, op.key).None? {
        DropAbsent(l.order, op.key);
      }
      if |s.order| >= s.capacity {
        SubsequenceInit(s.order, lOrder);
        sOrder := s.order[..|s.order| - 1];
      }
      if Lookup(l.order, op.key).None? && |l.order| >= l.capacity {
        lOrder := l.order[..|l.order| - 1];
      }
    }
    SubsequenceCons(sOrder, lOrder, e);
  }

  /** Replaying one trace on a smaller and a larger cache keeps the smaller included in the larger,
      so every hit of the smaller is the same hit in the larger. */
  lemma {:induction false} Inclusion<K, V>(small: int, large: int, ops: seq<Op<K, V>>)
    requires New<K, V>(small).capacity <= New<K, V>(large).capacity
    ensures Included(Run(New<K, V>(small), ops).0, Run(New<K, V>(large), ops).0)
    ensures forall i :: 0 <= i < |ops| ==>
              var s, l := Run(New<K, V>(small), ops).1[i], Run(New<K, V>(large), ops).1[i];
              s.Found? && s.value.Some? ==> l == s
  {
    if ops != [] {
      var init := ops[..|ops| - 1];
      Inclusion(small, large, init);
      InclusionStep(Run(New<K, V>(small), init).0, Run(New<K, V>(large), init).0, ops[|ops| - 1]);
      var (s, sAnswers) := Run(New<K, V>(small), init);
      var (l, lAnswers) := Run(New<K, V>(large), init);
      assert Run(New<K, V>(small), ops).1 == sAnswers + [Apply(s, ops[|ops| - 1]).1];
      assert Run(New<K, V>(large), ops).1 == lAnswers + [Apply(l, ops[|ops| - 1]).1];
    }
  }

  // ---------- Coherence: a cached entry is the last one stored under its key ----------

  /** The entry that the last store under `key` created, unless a later Delete or Clear took it out. */
  ghost function LastStored<K, V>(ops: seq<Op<K, V>>, key: K): Option<Entry<K, V>> {
    if ops == [] then None
    else
      match ops[|ops| - 1]
      case SetWithTTL(k, v, ttl, now) =>
        if k == key then Some(Entry(k, v, Deadline(ttl, now))) else LastStored(ops[..|ops| - 1], key)
      case Delete(k) => if k == key then None else LastStored(ops[..|ops| - 1], key)
      case Clear => None
      case Get(_, _) => LastStored(ops[..|ops| - 1], key)
  }

  lemma {:induction false} EntriesAreLastStored<K, V>(capacity: int, ops: seq<Op<K, V>>, e: Entry<K, V>)
    requires e in Run(New<K, V>(capacity), ops).0.order
    ensures LastStored(ops, e.key) == Some(e)
  {
    var init, op := ops[..|ops| - 1], ops[|ops| - 1];
    var c := Run(New<K, V>(capacity), init).0;
    RunValid(New<K, V>(capacity), init);
    if !op.Clear? {
      DropShape(c.order, op.key);
      LookupMeaning(c.order, op.key);
      assert e in Drop(c.order, op.key) ==> HasKey(Drop(c.order, op.key), e.key);
      assert e in c.order ==> HasKey(c.order, e.key);
      if e in c.order {
        EntriesAreLastStored(capacity, init, e);
      }
    }
  }

  /** A hit returns the last value stored under that key, and returns it before its deadline only. */
  lemma HitsAreCoherent<K, V>(capacity: int, ops: seq<Op<K, V>>, key: K, now: int)
    ensures var c := Run(New<K, V>(capacity), ops).0;
            Apply(c, Get(key, now)).1.value.Some? ==>
              && LastStored(ops, key).Some?
              && !Expired(LastStored(ops, key).value, now)
              && Apply(c, Get(key, now)).1.value.value == LastStored(ops, key).value.value
  {
    var c := Run(New<K, V>(capacity), ops).0;
    LookupMeaning(c.order, key);
    if Lookup(c.order, key).Some? {
      EntriesAreLastStored(capacity, ops, Lookup(c.order, key).value);
    }
  }

  // ---------- Retention: only the least recently used entry is evicted ----------

  /** The keys other than `key` that a trace looks up or stores. */
  ghost function Others<K, V>(ops: seq<Op<K, V>>, key: K): set<K> {
    if ops == [] then {}
    else
      var op := ops[|ops| - 1];
      Others(ops[..|ops| - 1], key) + (if (op.Get? || op.SetWithTTL?) && op.key != key then {op.key} else {})
  }

  /** `op` neither replaces, nor deletes, nor expires the entry `e`. */
  ghost predicate Spares<K, V>(op: Op<K, V>, e: Entry<K, V>) {
    match op
    case Get(k, now) => k != e.key || !Expired(e, now)
    case SetWithTTL(k, _, _, _) => k != e.key
    case Delete(k) => k != e.key
    case Clear => false
  }

  ghost predicate KeysWithin<K, V>(order: seq<Entry<K, V>>, keys: set<K>) {
    forall i :: 0 <= i < |order| ==> order[i].key in keys
  }

  lemma {:induction false} DistinctWithin<K, V>(order: seq<Entry<K, V>>, keys: set<K>)
    requires DistinctKeys(order) && KeysWithin(order, keys)
    ensures |order| <= |keys|
  {
    if order != [] {
      assert forall i :: 0 <= i < |order[1..]| ==> order[1..][i] == order[i + 1];
      DistinctWithin(order[1..], keys - {order[0].key});
    }
  }

  /** Where an entry stands: everything in front of it was touched after it. */
  ghost predicate StandsBehind<K, V>(order: seq<Entry<K, V>>, e: Entry<K, V>, keys: set<K>, i: nat) {
    i < |order| && order[i] == e && KeysWithin(order[..i], keys)
  }

  lemma BehindCons<K, V>(order: seq<Entry<K, V>>, e: Entry<K, V>, keys: set<K>, i: nat, x: Entry<K, V>)
    requires StandsBehind(order, e, keys, i) && x.key in keys
    ensures StandsBehind([x] + order, e, keys, i + 1)
  {
    forall a | 0 <= a < i + 1 ensures ([x] + order)[a].key in keys {
      if a > 0 {
        assert ([x] + order)[a] == order[..i][a - 1];
      }
    }
  }

  lemma BehindDrop<K, V>(order: seq<Entry<K, V>>, e: Entry<K, V>, keys: set<K>, i: nat, p: nat) returns (j: nat)
    requires StandsBehind(order, e, keys, i) && DistinctKeys(order) && p < |order| && p != i
    ensures StandsBehind(Drop(order, order[p].key), e, keys, j)
  {
    DropAt(order, p);
    var rest := order[..p] + order[p + 1..];
    j := if p < i then i - 1 else i;
    forall a | 0 <= a < j ensures rest[a].key in keys {
      assert rest[a] == order[..i][if a < p then a else a + 1];
    }
  }

  /** A key that is touched moves to the front, past at most the entries in front of it. */
  lemma {:induction false} RetainPresent<K, V>(c: Lru<K, V>, op: Op<K, V>, e: Entry<K, V>, keys: set<K>, i: nat, p: nat)
    returns (j: nat)
    requires Valid(c) && StandsBehind(c.order, e, keys, i) && Spares(op, e)
    requires (op.Get? || op.SetWithTTL?) && op.key != e.key ==> op.key in keys
    requires !op.Clear? && p < |c.order| && c.order[p].key == op.key
    ensures StandsBehind(Apply(c, op).0.order, e, keys, j)
  {
    DropAt(c.order, p);
    if op.key == e.key {
      j := 0;
    } else {
      var k := BehindDrop(c.order, e, keys, i, p);
      j := k;
      var order, rest := Apply(c, op).0.order, Drop(c.order, op.key);
      if order != rest {
        BehindCons(rest, e, keys, k, order[0]);
        j := k + 1;
      }
    }
  }

  /** A new key pushes every entry back by one, and evicts only the last one. */
  lemma {:induction false} RetainStore<K, V>(c: Lru<K, V>, op: Op<K, V>, e: Entry<K, V>, keys: set<K>, i: nat)
    requires Valid(c) && StandsBehind(c.order, e, keys, i) && |keys| < c.capacity
    requires op.SetWithTTL? && op.key != e.key && op.key in keys && !HasKey(c.order, op.key)
    ensures StandsBehind(Apply(c, op).0.order, e, keys, i + 1)
  {
    DropAbsent(c.order, op.key);
    var order := Apply(c, op).0.order;
    var front := [order[0]] + c.order[..i];
    forall a, b | 0 <= a < b < |front| ensures front[a].key != front[b].key {
      assert front[b] == c.order[b - 1];
    }
    assert KeysWithin(front, keys) by {
      assert forall a :: 0 < a < |front| ==> front[a] == c.order[..i][a - 1];
    }
    DistinctWithin(front, keys);
    assert order[..i + 1] == front;
  }

  lemma {:induction false} RetainStep<K, V>(c: Lru<K, V>, op: Op<K, V>, e: Entry<K, V>, keys: set<K>, i: nat)
    returns (j: nat)
    requires Valid(c) && StandsBehind(c.order, e, keys, i) && Spares(op, e)
    requires (op.Get? || op.SetWithTTL?) && op.key != e.key ==> op.key in keys
    requires |keys| < c.capacity
    ensures StandsBehind(Apply(c, op).0.order, e, keys, j)
  {
    if HasKey(c.order, op.key) {
      var p :| 0 <= p < |c.order| && c.order[p].key == op.key;
      j := RetainPresent(c, op, e, keys, i, p);
    } else if op.SetWithTTL? {
      RetainStore(c, op, e, keys, i);
      j := i + 1;
    } else {
      DropAbsent(c.order, op.key);
      j := i;
    }
  }

  lemma {:induction false} Retain<K, V>(c: Lru<K, V>, e: Entry<K, V>, ops: seq<Op<K, V>>, keys: set<K>)
    returns (j: nat)
    requires Valid(c) && c.order != [] && c.order[0] == e
    requires forall i :: 0 <= i < |ops| ==> Spares(ops[i], e)
    requires Others(ops, e.key) <= keys && |keys| < c.capacity
    ensures StandsBehind(Run(c, ops).0.order, e, keys, j)
  {
    if ops == [] {
      j := 0;
    } else {
      var init, op := ops[..|ops| - 1], ops[|ops| - 1];
      var i := Retain(c, e, init, keys);
      RunValid(c, init);
      j := RetainStep(Run(c, init).0, op, e, keys, i);
    }
  }

  /** A stored value is still answered after any trace that spares it and touches
      fewer other keys than the cache can hold. */
  lemma Retention<K, V>(capacity: int, before: seq<Op<K, V>>, key: K, value: V, ttl: int, at: int,
                        after: seq<Op<K, V>>, now: int)
    requires var e := Entry(key, value, Deadline(ttl, at));
             !Expired(e, now) && forall i :: 0 <= i < |after| ==> Spares(after[i], e)
    requires |Others(after, key)| < New<K, V>(capacity).capacity
    ensures var c := Run(New<K, V>(capacity), before).0;
            var stored := Apply(c, SetWithTTL(key, value, ttl, at)).0;
            Apply(Run(stored, after).0, Get(key, now)).1 == Found(Some(value))
  {
    var c := Run(New<K, V>(capacity), before).0;
    var e := Entry(key, value, Deadline(ttl, at));
    RunValid(New<K, V>(capacity), before);
    ApplyValid(c, SetWithTTL(key, value, ttl, at));
    var stored := Apply(c, SetWithTTL(key, value, ttl, at)).0;
    var j := Retain(stored, e, after, Others(after, key));
    RunValid(stored, after);
    DropAt(Run(stored, after).0.order, j);
  }
}
