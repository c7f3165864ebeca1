/** What the two sharded maps share: keys spread over shards by their masked hash. */
module Shards {
  import opened Bits

  class Shard<K(==), V> {
    ghost const index: nat
    var data: map<K, V>

    constructor (ghost index: nat)
      ensures this.index == index && data == map[]
    {
      this.index := index;
      data := map[];
    }
  }

  /** The place of a key: its hash masked with the shard count less one. */
  function Spot<K>(hasher: K -> nat, mask: nat, key: K): (i: nat)
    ensures i <= mask
  {
    AndBound(hasher(key), mask);
    And(hasher(key), mask)
  }

  /** With 2^k shards the place of a key is its hash modulo the number of shards. */
  lemma SpotIsModulo<K>(hasher: K -> nat, k: nat, key: K)
    ensures Spot(hasher, Pow2(k) - 1, key) == hasher(key) % Pow2(k) < Pow2(k)
  {
    AndMask(hasher(key), Pow2(k), k);
  }

  /** The part of `contents` whose place is shard `i`. */
  function Part<K(==), V>(hasher: K -> nat, mask: nat, contents: map<K, V>, i: nat): map<K, V> {
    map k | k in contents && Spot(hasher, mask, k) == i :: contents[k]
  }

  /** The shards hold `contents`, every key in the shard of its own place and nowhere else. */
  ghost predicate Spread<K, V>(shards: seq<Shard<K, V>>, hasher: K -> nat, mask: nat, contents: map<K, V>)
    reads shards
  {
    && |shards| == mask + 1
    && forall i :: 0 <= i < |shards| ==> shards[i].index == i && shards[i].data == Part(hasher, mask, contents, i)
  }

  lemma PartSet<K, V>(hasher: K -> nat, mask: nat, contents: map<K, V>, key: K, value: V, i: nat)
    ensures Part(hasher, mask, contents[key := value], i) ==
            if Spot(hasher, mask, key) == i then Part(hasher, mask, contents, i)[key := value]
            else Part(hasher, mask, contents, i)
  {
  }

  lemma PartDelete<K, V>(hasher: K -> nat, mask: nat, contents: map<K, V>, key: K, i: nat)
    ensures Part(hasher, mask, contents - {key}, i) ==
            if Spot(hasher, mask, key) == i then Part(hasher, mask, contents, i) - {key}
            else Part(hasher, mask, contents, i)
  {
  }

  /** The keys that live in the first `n` shards. */
  ghost function Below<K, V>(hasher: K -> nat, mask: nat, contents: map<K, V>, n: nat): set<K> {
    set k | k in contents && Spot(hasher, mask, k) < n
  }

  lemma BelowEnds<K, V>(hasher: K -> nat, mask: nat, contents: map<K, V>)
    ensures Below(hasher, mask, contents, 0) == {}
    ensures Below(hasher, mask, contents, mask + 1) == contents.Keys
  {
  }

  /** The shards are disjoint, so one more shard adds exactly its own keys. */
  lemma BelowNext<K, V>(hasher: K -> nat, mask: nat, contents: map<K, V>, i: nat)
    ensures Below(hasher, mask, contents, i + 1) ==
            Below(hasher, mask, contents, i) + Part(hasher, mask, contents, i).Keys
    ensures Below(hasher, mask, contents, i) !! Part(hasher, mask, contents, i).Keys
  {
  }

  ghost function CountBelow<K, V>(hasher: K -> nat, mask: nat, contents: map<K, V>, n: nat): nat {
    |Below(hasher, mask, contents, n)|
  }

  lemma CountEnds<K, V>(hasher: K -> nat, mask: nat, contents: map<K, V>)
    ensures CountBelow(hasher, mask, contents, 0) == 0
    ensures CountBelow(hasher, mask, contents, mask + 1) == |contents|
  {
    BelowEnds(hasher, mask, contents);
    assert |contents| == |contents.Keys|;
  }

  lemma CountNext<K, V>(hasher: K -> nat, mask: nat, contents: map<K, V>, i: nat)
    ensures CountBelow(hasher, mask, contents, i + 1) ==
            CountBelow(hasher, mask, contents, i) + |Part(hasher, mask, contents, i)|
  {
    BelowNext(hasher, mask, contents, i);
    var part := Part(hasher, mask, contents, i);
    assert |part| == |part.Keys|;
  }

  method NewShards<K(==), V>(count: int) returns (shards: seq<Shard<K, V>>)
    requires count >= 1
    ensures |shards| == count && fresh(shards)
    ensures forall i :: 0 <= i < |shards| ==> shards[i].index == i && shards[i].data == map[]
  {
    shards := [];
    while |shards| < count
      invariant |shards| <= count && fresh(shards)
      invariant forall i :: 0 <= i < |shards| ==> shards[i].index == i && shards[i].data == map[]
    {
      var s := new Shard(|shards|);
      shards := shards + [s];
    }
  }

  // ---------- What a Range call has visited ----------

  ghost function KeysOf<K, V>(visited: seq<(K, V)>): set<K> {
    if visited == [] then {} else KeysOf(visited[..|visited| - 1]) + {visited[|visited| - 1].0}
  }

  /** `visited` are pairs of `contents`, no key twice, and every callback but the last told to go on. */
  ghost predicate Walk<K, V>(fn: seq<(K, V)> -> bool, contents: map<K, V>, visited: seq<(K, V)>) {
    visited == [] ||
    var init, (k, v) := visited[..|visited| - 1], visited[|visited| - 1];
    && Walk(fn, contents, init) && (init == [] || fn(init))
    && k in contents && contents[k] == v && k !in KeysOf(init)
  }

  lemma VisitOne<K, V>(fn: seq<(K, V)> -> bool, contents: map<K, V>, visited: seq<(K, V)>, key: K)
    requires Walk(fn, contents, visited) && (visited == [] || fn(visited))
    requires key in contents && key !in KeysOf(visited)
    ensures Walk(fn, contents, visited + [(key, contents[key])])
    ensures KeysOf(visited + [(key, contents[key])]) == KeysOf(visited) + {key}
  {
    assert (visited + [(key, contents[key])])[..|visited|] == visited;
  }

  /** What a walk means: as many keys as pairs, exactly the pairs of `contents` under these keys,
      and a callback that went on after every pair but the last. */
  lemma {:induction false} WalkMeans<K, V>(fn: seq<(K, V)> -> bool, contents: map<K, V>, visited: seq<(K, V)>)
    requires Walk(fn, contents, visited)
    ensures |visited| == |KeysOf(visited)|
    ensures forall k :: k in KeysOf(visited) <==> k in contents && (k, contents[k]) in visited
    ensures forall p :: p in visited ==> p.0 in KeysOf(visited) && contents[p.0] == p.1
    ensures forall i :: 0 < i < |visited| ==> fn(visited[..i])
  {
    if visited != [] {
      var init, p := visited[..|visited| - 1], visited[|visited| - 1];
      WalkMeans(fn, contents, init);
      assert visited == init + [p];
      forall i | 0 < i < |visited| ensures fn(visited[..i]) {
        assert i < |init| ==> visited[..i] == init[..i];
      }
    }
  }
}
