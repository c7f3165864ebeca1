/** A sharded map whose entries expire, seen from outside as one flat expiring map. */
module TtlMap {
  import opened Common
  import opened Bits
  import opened Shards

  datatype Item<V> = Item(value: V, expiresAt: int)

  function Expired<V>(now: int): Item<V> -> bool {
    (e: Item<V>) => now > e.expiresAt
  }

  function Live<V>(now: int): Item<V> -> bool {
    (e: Item<V>) => !(now > e.expiresAt)
  }

  /** Stricter than not being expired: an entry whose time is exactly up is neither. */
  function Active<V>(now: int): Item<V> -> bool {
    (e: Item<V>) => now < e.expiresAt
  }

  function Select<K(==), V>(m: map<K, Item<V>>, want: Item<V> -> bool): map<K, Item<V>> {
    map k | k in m && want(m[k]) :: m[k]
  }

  function Values<K(==), V>(m: map<K, Item<V>>): map<K, V> {
    map k | k in m :: m[k].value
  }

  datatype Op<K, V> =
    | Get(key: K, now: int)
    | Set(key: K, value: V, ttl: int, now: int)
    | Delete(key: K, now: int)
    | Touch(key: K, ttl: int, now: int)
    | GetOrSet(key: K, value: V, ttl: int, now: int)
    | Len(now: int)
    | ActiveLen(now: int)
    | Range(now: int)
    | Cleanup(now: int)

  datatype Answer<K, V> =
    | Found(found: Option<V>)
    | Done
    | Touched(ok: bool)
    | Loaded(got: V, loaded: bool)
    | Count(n: nat)
    | Pairs(pairs: map<K, V>)

  function Apply<K(==), V>(m: map<K, Item<V>>, op: Op<K, V>): (map<K, Item<V>>, Answer<K, V>) {
    match op
    case Get(key, now) =>
      if key !in m then (m, Found(None))
      else if now > m[key].expiresAt then (m - {key}, Found(None))
      else (m, Found(Some(m[key].value)))
    case Set(key, value, ttl, now) => (m[key := Item(value, now + ttl)], Done)
    case Delete(key, _) => (m - {key}, Done)
    case Touch(key, ttl, now) =>
      if key !in m || now > m[key].expiresAt then (m, Touched(false))
      else (m[key := m[key].(expiresAt := now + ttl)], Touched(true))
    case GetOrSet(key, value, ttl, now) =>
      if key in m && !(now > m[key].expiresAt) then (m, Loaded(m[key].value, true))
      else (m[key := Item(value, now + ttl)], Loaded(value, false))
    case Len(_) => (m, Count(|m|))
    case ActiveLen(now) => (m, Count(|Select(m, Active(now))|))
    case Range(now) => (m, Pairs(Values(Select(m, Active(now)))))
    case Cleanup(now) => (Select(m, Live(now)), Done)
  }

  /** Replays a trace. */
  function Run<K(==), V>(m: map<K, Item<V>>, ops: seq<Op<K, V>>): (r: seq<Answer<K, V>>)
    ensures |r| == |ops|
    decreases ops
  {
    if ops == [] then []
    else
      var (m', a) := Apply(m, ops[0]);
      [a] + Run(m', ops[1..])
  }

  // ---------- Cleaning up cannot be observed ----------

  /** The clock never goes back. */
  ghost predicate Timed<K, V>(start: int, ops: seq<Op<K, V>>)
    decreases ops
  {
    ops == [] || (start <= ops[0].now && Timed(ops[0].now, ops[1..]))
  }

  ghost function WithoutCleanups<K, V>(ops: seq<Op<K, V>>): seq<Op<K, V>> {
    if ops == [] then []
    else (if ops[0].Cleanup? then [] else [ops[0]]) + WithoutCleanups(ops[1..])
  }

  /** The answers of Get, Set, Delete, Touch, GetOrSet, ActiveLen and Range. Len counts expired entries as well. */
  ghost function Observed<K, V>(ops: seq<Op<K, V>>, answers: seq<Answer<K, V>>): seq<Answer<K, V>>
    requires |answers| == |ops|
  {
    if ops == [] then []
    else (if ops[0].Cleanup? || ops[0].Len? then [] else [answers[0]]) + Observed(ops[1..], answers[1..])
  }

  /** Two maps that differ in expired entries only. */
  ghost predicate Alike<K, V>(a: map<K, Item<V>>, b: map<K, Item<V>>, now: int) {
    Select(a, Live(now)) == Select(b, Live(now))
  }

  lemma AlikeLater<K, V>(a: map<K, Item<V>>, b: map<K, Item<V>>, now: int, later: int)
    requires Alike(a, b, now) && now <= later
    ensures Alike(a, b, later)
  {
    LiveLater(a, now, later);
    LiveLater(b, now, later);
  }

  lemma LiveLater<K, V>(m: map<K, Item<V>>, now: int, later: int)
    requires now <= later
    ensures Select(Select(m, Live(now)), Live(later)) == Select(m, Live(later))
  {
  }

  /** What is expired plays no part in what an operation answers, nor in what it leaves live. */
  lemma LiveDecides<K, V>(m: map<K, Item<V>>, op: Op<K, V>)
    ensures Alike(Apply(m, op).0, Apply(Select(m, Live(op.now)), op).0, op.now)
    ensures !op.Len? ==> Apply(m, op).1 == Apply(Select(m, Live(op.now)), op).1
  {
    var live := Select(m, Live(op.now));
    assert Select(live, Live(op.now)) == live;
    if !op.Len? && !op.ActiveLen? && !op.Range? && !op.Cleanup? {
      assert Select(Apply(m, op).0, Live(op.now)) == Select(Apply(live, op).0, Live(op.now));
    }
    assert Select(m, Active(op.now)) == Select(live, Active(op.now));
  }

  lemma StepAlike<K, V>(a: map<K, Item<V>>, b: map<K, Item<V>>, op: Op<K, V>)
    requires Alike(a, b, op.now)
    ensures Alike(Apply(a, op).0, Apply(b, op).0, op.now)
    ensures !op.Len? ==> Apply(a, op).1 == Apply(b, op).1
  {
    LiveDecides(a, op);
    LiveDecides(b, op);
  }

  lemma {:induction false} CleanupsErased<K, V>(a: map<K, Item<V>>, b: map<K, Item<V>>, start: int, ops: seq<Op<K, V>>)
    requires Alike(a, b, start) && Timed(start, ops)
    ensures Observed(ops, Run(a, ops)) == Observed(WithoutCleanups(ops), Run(b, WithoutCleanups(ops)))
    decreases ops
  {
    if ops != [] {
      var op := ops[0];
      AlikeLater(a, b, start, op.now);
      var a' := Apply(a, op).0;
      assert Run(a, ops)[1..] == Run(a', ops[1..]);
      if op.Cleanup? {
        LiveLater(a, op.now, op.now);
        CleanupsErased(a', b, op.now, ops[1..]);
        assert WithoutCleanups(ops) == WithoutCleanups(ops[1..]);
      } else {
        StepAlike(a, b, op);
        var b' := Apply(b, op).0;
        CleanupsErased(a', b', op.now, ops[1..]);
        var rest := WithoutCleanups(ops);
        assert rest[1..] == WithoutCleanups(ops[1..]);
        assert Run(b, rest)[1..] == Run(b', rest[1..]);
      }
    }
  }

  /** However cleanups are sprinkled over a trace, no other operation but Len answers differently. */
  lemma CleanupUnobservable<K, V>(m: map<K, Item<V>>, start: int, ops: seq<Op<K, V>>)
    requires Timed(start, ops)
    ensures Observed(ops, Run(m, ops)) == Observed(WithoutCleanups(ops), Run(m, WithoutCleanups(ops)))
  {
    CleanupsErased(m, m, start, ops);
  }

  // ---------- Selecting and splitting commute ----------

  lemma PartSelect<K, V>(hasher: K -> nat, mask: nat, m: map<K, Item<V>>, want: Item<V> -> bool, i: nat)
    ensures Part(hasher, mask, Select(m, want), i) == Select(Part(hasher, mask, m, i), want)
  {
  }

  lemma PartValues<K, V>(hasher: K -> nat, mask: nat, m: map<K, Item<V>>, i: nat)
    ensures Part(hasher, mask, Values(m), i) == Values(Part(hasher, mask, m, i))
  {
  }

  class TTLMap<K(==), V> {
    const shards: seq<Shard<K, Item<V>>>
    const shardMask: nat
    const hasher: K -> nat
    /** The one flat map that the shards stand for. */
    ghost var contents: map<K, Item<V>>

    ghost predicate Valid()
      reads this, shards
    {
      Spread(shards, hasher, shardMask, contents)
    }

    constructor (shardCount: int, hasher: K -> nat)
      requires shardCount <= Pow2(62)
      ensures Valid() && contents == map[] && fresh(shards) && this.hasher == hasher
      ensures shardCount <= Pow2(32) ==> IsRoundedUp(if shardCount < 1 then 1 else shardCount, |shards|)
    {
      Places();
      var rounded := NextPowerOf2(shardCount);
      var made := NewShards<K, Item<V>>(rounded);
      this.shards := made;
      this.shardMask := rounded - 1;
      this.hasher := hasher;
      contents := map[];
    }

    method GetShard(key: K) returns (s: Shard<K, Item<V>>)
      requires Valid()
      ensures s in shards && s.index == Spot(hasher, shardMask, key) && s == shards[s.index]
    {
      var hash := hasher(key);
      var idx := And(hash, shardMask);
      AndBound(hash, shardMask);
      s := shards[idx];
    }

    /** Stores an entry in the shard of its key. */
    method Put(s: Shard<K, Item<V>>, key: K, item: Item<V>)
      requires Valid() && s in shards && s.index == Spot(hasher, shardMask, key) && s == shards[s.index]
      modifies this`contents, s
      ensures Valid() && contents == old(contents)[key := item]
    {
      s.data := s.data[key := item];
      forall i: nat { PartSet(hasher, shardMask, contents, key, item, i); }
      contents := contents[key := item];
    }

    method Get(key: K, now: int) returns (value: Option<V>)
      requires Valid()
      modifies this`contents, shards
      ensures Valid() && (contents, Found(value)) == Apply(old(contents), Op.Get(key, now))
      ensures value.Some? <==> key in old(contents) && now <= old(contents)[key].expiresAt
      ensures value.Some? ==> value.value == old(contents)[key].value
    {
      var s := GetShard(key);
      if key !in s.data {
        return None;
      }
      var entry := s.data[key];
      if Expired(now)(entry) {
        Delete(key, now);
        return None;
      }
      return Some(entry.value);
    }

    method Set(key: K, value: V, ttl: int, now: int)
      requires Valid()
      modifies this`contents, shards
      ensures Valid() && contents == Apply(old(contents), Op.Set(key, value, ttl, now)).0
      ensures contents == old(contents)[key := Item(value, now + ttl)]
    {
      var s := GetShard(key);
      Put(s, key, Item(value, now + ttl));
    }

    method Delete(key: K, ghost now: int)
      requires Valid()
      modifies this`contents, shards
      ensures Valid() && contents == Apply(old(contents), Op.Delete(key, now)).0
      ensures contents == old(contents) - {key}
    {
      var s := GetShard(key);
      s.data := s.data - {key};
      forall i: nat { PartDelete(hasher, shardMask, contents, key, i); }
      contents := contents - {key};
    }

    method Touch(key: K, ttl: int, now: int) returns (ok: bool)
      requires Valid()
      modifies this`contents, shards
      ensures Valid() && (contents, Touched(ok)) == Apply(old(contents), Op.Touch(key, ttl, now))
      ensures ok <==> key in old(contents) && now <= old(contents)[key].expiresAt
      ensures contents == if ok then old(contents)[key := Item(old(contents)[key].value, now + ttl)] else old(contents)
    {
      var s := GetShard(key);
      if key !in s.data || Expired(now)(s.data[key]) {
        return false;
      }
      Put(s, key, s.data[key].(expiresAt := now + ttl));
      return true;
    }

    method GetOrSet(key: K, value: V, ttl: int, now: int) returns (r: V, loaded: bool)
      requires Valid()
      modifies this`contents, shards
      ensures Valid() && (contents, Loaded(r, loaded)) == Apply(old(contents), Op.GetOrSet(key, value, ttl, now))
      ensures loaded <==> key in old(contents) && now <= old(contents)[key].expiresAt
      ensures contents == if loaded then old(contents) else old(contents)[key := Item(value, now + ttl)]
      ensures r == if loaded then old(contents)[key].value else value
    {
      var s := GetShard(key);
      if key in s.data && !Expired(now)(s.data[key]) {
        return s.data[key].value, true;
      }
      Put(s, key, Item(value, now + ttl));
      return value, false;
    }

    method Len() returns (total: nat)
      requires Valid()
      ensures total == |contents|
    {
      total := 0;
      CountEnds(hasher, shardMask, contents);
      for i := 0 to |shards|
        invariant total == CountBelow(hasher, shardMask, contents, i)
      {
        CountNext(hasher, shardMask, contents, i);
        total := total + |shards[i].data|;
      }
    }

    /** The inner loop of ActiveLen and of Stats: how many entries of one shard are wanted. */
    method CountIn(data: map<K, Item<V>>, want: Item<V> -> bool) returns (n: nat)
      ensures n == |Select(data, want)|
    {
      n := 0;
      var rest := data.Keys;
      ghost var counted: set<K> := {};
      while rest != {}
        invariant rest <= data.Keys && n == |counted|
        invariant counted == set k | k in data && k !in rest && want(data[k])
      {
        var k :| k in rest;
        rest := rest - {k};
        if want(data[k]) {
          n := n + 1;
          counted := counted + {k};
        }
      }
      assert Select(data, want).Keys == counted;
      assert |Select(data, want)| == |Select(data, want).Keys|;
    }

    method CountWanted(want: Item<V> -> bool) returns (total: nat)
      requires Valid()
      ensures total == |Select(contents, want)|
    {
      total := 0;
      ghost var wanted := Select(contents, want);
      CountEnds(hasher, shardMask, wanted);
      for i := 0 to |shards|
        invariant total == CountBelow(hasher, shardMask, wanted, i)
      {
        CountNext(hasher, shardMask, wanted, i);
        PartSelect(hasher, shardMask, contents, want, i);
        var n := CountIn(shards[i].data, want);
        total := total + n;
      }
    }

    method ActiveLen(now: int) returns (total: nat)
      requires Valid()
      ensures Count(total) == Apply(contents, Op.ActiveLen(now)).1
    {
      total := CountWanted(Active(now));
    }

    /** Calls `fn` on the active pairs seen so far, each time with one more, until it says stop. */
    method Range(fn: seq<(K, V)> -> bool, now: int) returns (visited: seq<(K, V)>)
      requires Valid()
      ensures Walk(fn, Apply(contents, Op.Range(now)).1.pairs, visited)
      ensures visited == [] || fn(visited) ==> KeysOf(visited) == Apply(contents, Op.Range(now)).1.pairs.Keys
    {
      visited := [];
      ghost var active := Select(contents, Active(now));
      ghost var pairs := Values(active);
      BelowEnds(hasher, shardMask, pairs);
      for i := 0 to |shards|
        invariant Walk(fn, pairs, visited) && (visited == [] || fn(visited))
        invariant KeysOf(visited) == Below(hasher, shardMask, pairs, i)
      {
        BelowNext(hasher, shardMask, pairs, i);
        PartSelect(hasher, shardMask, contents, Active(now), i);
        PartValues(hasher, shardMask, active, i);
        var stopped;
        visited, stopped := VisitShard(shards[i].data, fn, now, visited, pairs);
        if stopped {
          return;
        }
      }
    }

    /** The inner loop of Range: one shard, in any order, leaving out what is not active. */
    method VisitShard(data: map<K, Item<V>>, fn: seq<(K, V)> -> bool, now: int, before: seq<(K, V)>,
                      ghost pairs: map<K, V>)
      returns (visited: seq<(K, V)>, stopped: bool)
      requires forall k :: k in Select(data, Active(now)) ==> k in pairs && pairs[k] == data[k].value
      requires Walk(fn, pairs, before) && (before == [] || fn(before))
      requires KeysOf(before) !! Select(data, Active(now)).Keys
      ensures Walk(fn, pairs, visited) && (visited == [] || fn(visited) == !stopped)
      ensures stopped ==> visited != []
      ensures !stopped ==> KeysOf(visited) == KeysOf(before) + Select(data, Active(now)).Keys
    {
      visited := before;
      ghost var wanted, keys := Select(data, Active(now)).Keys, KeysOf(before);
      var rest := data.Keys;
      while rest != {}
        invariant rest <= data.Keys && keys == KeysOf(before) + (wanted - rest) && KeysOf(visited) == keys
        invariant Walk(fn, pairs, visited) && (visited == [] || fn(visited))
      {
        var k :| k in rest;
        rest := rest - {k};
        if Active(now)(data[k]) {
          VisitOne(fn, pairs, visited, k);
          visited := visited + [(k, data[k].value)];
          keys := keys + {k};
          if !fn(visited) {
            return visited, true;
          }
        }
      }
      stopped := false;
    }

    /** One shard of a cleanup: deletes its expired entries one by one. */
    method CleanShard(s: Shard<K, Item<V>>, now: int)
      modifies s
      ensures s.data == Select(old(s.data), Live(now))
    {
      var rest := s.data.Keys;
      while rest != {}
        invariant rest <= old(s.data).Keys
        invariant s.data == map k | k in old(s.data) && (k in rest || Live(now)(old(s.data)[k])) :: old(s.data)[k]
      {
        var k :| k in rest;
        rest := rest - {k};
        if now > s.data[k].expiresAt {
          s.data := s.data - {k};
        }
      }
    }

    method Cleanup(now: int)
      requires Valid()
      modifies this`contents, shards
      ensures Valid() && contents == Apply(old(contents), Op.Cleanup(now)).0
    {
      for i := 0 to |shards|
        invariant forall j :: 0 <= j < i ==> shards[j].data == Select(Part(hasher, shardMask, contents, j), Live(now))
        invariant forall j :: i <= j < |shards| ==> shards[j].data == Part(hasher, shardMask, contents, j)
        invariant contents == old(contents)
      {
        CleanShard(shards[i], now);
      }
      forall i: nat { PartSelect(hasher, shardMask, contents, Live(now), i); }
      contents := Select(contents, Live(now));
    }

    method Stats(now: int) returns (total: nat, active: int, expired: nat)
      requires Valid()
      ensures total == |contents| && expired == |Select(contents, Expired(now))|
      ensures active == |Select(contents, Live(now))|
    {
      total := Len();
      expired := CountWanted(Expired(now));
      active := total - expired;
      LiveOrExpired(contents, now);
    }
  }

  lemma LiveOrExpired<K, V>(m: map<K, Item<V>>, now: int)
    ensures |m| == |Select(m, Live(now))| + |Select(m, Expired(now))|
  {
    var live, expired := Select(m, Live(now)), Select(m, Expired(now));
    assert m.Keys == live.Keys + expired.Keys && live.Keys !! expired.Keys;
    assert |m| == |m.Keys| && |live| == |live.Keys| && |expired| == |expired.Keys|;
  }

  /** Stats counts as active what ActiveLen counts and, besides, what expires at this very instant. */
  lemma StatsAgainstActiveLen<K, V>(m: map<K, Item<V>>, now: int)
    ensures |Select(m, Live(now))| == |Select(m, Active(now))| + |set k | k in m && m[k].expiresAt == now|
  {
    var live, active := Select(m, Live(now)), Select(m, Active(now));
    var due := set k | k in m && m[k].expiresAt == now;
    assert live.Keys == active.Keys + due && active.Keys !! due;
    assert |live| == |live.Keys| && |active| == |active.Keys|;
  }
}
