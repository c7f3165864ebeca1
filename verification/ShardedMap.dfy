/** A hash map split over shards, seen from outside as one flat map. */
module ShardedMap {
  import opened Common
  import opened Bits
  import opened Shards

  const DEFAULT_SHARD_COUNT := 32

  class ShardedMap<K(==), V> {
    const shards: seq<Shard<K, V>>
    const shardMask: nat
    const hasher: K -> nat
    /** The one flat map that the shards stand for. */
    ghost var contents: map<K, V>

    ghost predicate Valid()
      reads this, shards
    {
      Spread(shards, hasher, shardMask, contents)
    }

    constructor (count: int, hasher: K -> nat)
      requires count <= Pow2(62)
      ensures Valid() && contents == map[] && fresh(shards) && this.hasher == hasher
      ensures count <= Pow2(32) ==> IsRoundedUp(if count < 1 then 1 else count, |shards|)
    {
      Places();
      var rounded := NextPowerOf2(count);
      var made := NewShards<K, V>(rounded);
      this.shards := made;
      this.shardMask := rounded - 1;
      this.hasher := hasher;
      contents := map[];
    }

    method GetShard(key: K) returns (s: Shard<K, V>)
      requires Valid()
      ensures s in shards && s.index == Spot(hasher, shardMask, key) && s == shards[s.index]
    {
      var hash := hasher(key);
      var idx := And(hash, shardMask);
      AndBound(hash, shardMask);
      s := shards[idx];
    }

    method Get(key: K) returns (value: Option<V>)
      requires Valid()
      ensures value == if key in contents then Some(contents[key]) else None
    {
      var s := GetShard(key);
      value := if key in s.data then Some(s.data[key]) else None;
    }

    method Set(key: K, value: V)
      requires Valid()
      modifies this`contents, shards
      ensures Valid() && contents == old(contents)[key := value]
    {
      var s := GetShard(key);
      s.data := s.data[key := value];
      forall i: nat { PartSet(hasher, shardMask, contents, key, value, i); }
      contents := contents[key := value];
    }

    method Delete(key: K)
      requires Valid()
      modifies this`contents, shards
      ensures Valid() && contents == old(contents) - {key}
    {
      var s := GetShard(key);
      s.data := s.data - {key};
      forall i: nat { PartDelete(hasher, shardMask, contents, key, i); }
      contents := contents - {key};
    }

    method GetOrSet(key: K, value: V) returns (r: V, loaded: bool)
      requires Valid()
      modifies this`contents, shards
      ensures Valid() && loaded == (key in old(contents))
      ensures r == if loaded then old(contents)[key] else value
      ensures contents == old(contents)[key := r]
    {
      var s := GetShard(key);
      if key in s.data {
        return s.data[key], true;
      }
      s.data := s.data[key := value];
      forall i: nat { PartSet(hasher, shardMask, contents, key, value, i); }
      contents := contents[key := value];
      return value, false;
    }

    method Len() returns (total: nat)
      requires Valid()
      ensures total == |contents|
    {
      total := 0;
      CountEnds(hasher, shardMask, contents);
      for i := 0 to |shards|
        invariant total == CountBelow(hasher, shardMask, contents, i)
      {
        CountNext(hasher, shardMask, contents, i);
        total := total + |shards[i].data|;
      }
    }

    /** Calls `fn` on the pairs seen so far, each time with one more, until it says stop. */
    method Range(fn: seq<(K, V)> -> bool) returns (visited: seq<(K, V)>)
      requires Valid()
      ensures Walk(fn, contents, visited)
      ensures visited == [] || fn(visited) ==> KeysOf(visited) == contents.Keys
    {
      visited := [];
      BelowEnds(hasher, shardMask, contents);
      for i := 0 to |shards|
        invariant Walk(fn, contents, visited) && (visited == [] || fn(visited))
        invariant KeysOf(visited) == Below(hasher, shardMask, contents, i)
      {
        BelowNext(hasher, shardMask, contents, i);
        var stopped;
        visited, stopped := VisitShard(shards[i].data, fn, visited);
        if stopped {
          return;
        }
      }
    }

    /** The inner loop of Range: one shard, in any order. */
    method VisitShard(data: map<K, V>, fn: seq<(K, V)> -> bool, before: seq<(K, V)>)
      returns (visited: seq<(K, V)>, stopped: bool)
      requires forall k :: k in data ==> k in contents && contents[k] == data[k]
      requires Walk(fn, contents, before) && (before == [] || fn(before)) && KeysOf(before) !! data.Keys
      ensures Walk(fn, contents, visited) && (visited == [] || fn(visited) == !stopped)
      ensures stopped ==> visited != []
      ensures !stopped ==> KeysOf(visited) == KeysOf(before) + data.Keys
    {
      visited := before;
      ghost var keys := KeysOf(before);
      var rest := data.Keys;
      while rest != {}
        invariant rest <= data.Keys && keys == KeysOf(before) + (data.Keys - rest) && KeysOf(visited) == keys
        invariant Walk(fn, contents, visited) && (visited == [] || fn(visited))
      {
        var k :| k in rest;
        rest := rest - {k};
        VisitOne(fn, contents, visited, k);
        visited := visited + [(k, data[k])];
        keys := keys + {k};
        if !fn(visited) {
          return visited, true;
        }
      }
      stopped := false;
    }

    method ShardStats() returns (stats: array<int>)
      requires Valid()
      ensures fresh(stats) && stats.Length == |shards|
      ensures forall i :: 0 <= i < stats.Length ==> stats[i] == |shards[i].data|
    {
      stats := new int[|shards|];
      for i := 0 to |shards|
        invariant forall k :: 0 <= k < i ==> stats[k] == |shards[k].data|
      {
        stats[i] := |shards[i].data|;
      }
    }
  }
}
