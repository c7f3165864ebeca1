/** The LRU cache as it is built: a doubly linked list of nodes and a map from keys to nodes. */
module LruCache {
  import opened Common
  import opened LruSpec

  class Node<K, V> {
    const key: K
    var value: V
    var expiration: Option<int>
    var prev: Node?<K, V>
    var next: Node?<K, V>

    constructor (key: K, value: V, expiration: Option<int>)
      ensures this.key == key && this.value == value && this.expiration == expiration
    {
      this.key, this.value, this.expiration := key, value, expiration;
      prev, next := null, null;
    }

    ghost function Content(): Entry<K, V>
      reads this`value, this`expiration
    {
      Entry(key, value, expiration)
    }
  }

  ghost function Without<T>(s: seq<T>, i: nat): seq<T>
    requires i < |s|
  {
    s[..i] + s[i + 1..]
  }

  lemma WithoutAt<T>(s: seq<T>, i: nat, j: nat)
    requires i < |s| && j < |s| - 1
    ensures Without(s, i)[j] == s[if j < i then j else j + 1]
  {
  }

  lemma {:induction false} WithoutDistinct<T>(s: seq<T>, i: nat)
    requires Distinct(s) && i < |s|
    ensures Distinct(Without(s, i))
  {
    if i == 0 {
      assert Without(s, 0) == s[1..];
    } else {
      var rest := s[1..];
      WithoutDistinct(rest, i - 1);
      assert Without(s, i) == [s[0]] + Without(rest, i - 1);
      assert forall x :: x in Without(rest, i - 1) ==> x in rest;
    }
  }

  /** Distinct members of a set that are as many as the set has are all of them. */
  lemma {:induction false} Exhausts<T>(s: seq<T>, all: set<T>, x: T)
    requires Distinct(s) && |s| == |all| && x in all
    requires forall i :: 0 <= i < |s| ==> s[i] in all
    ensures x in s
  {
    if x != s[0] {
      assert forall i :: 0 <= i < |s[1..]| ==> s[1..][i] == s[i + 1] && s[1..][i] != s[0];
      Exhausts(s[1..], all - {s[0]}, x);
    }
  }

  class LRUCache<K(==), V> {
    const capacity: nat
    var data: map<K, Node<K, V>>
    var head: Node?<K, V>  // most recently used
    var tail: Node?<K, V>  // least recently used
    var hits: nat
    var misses: nat
    var evicts: nat
    ghost var spine: seq<Node<K, V>>   // the linked nodes, from head to tail
    ghost var nodes: set<Node<K, V>>   // the same nodes, as a set
    ghost var order: seq<Entry<K, V>>  // what they hold

    static ghost function Left(spine: seq<Node<K, V>>, i: int): Node?<K, V> {
      if 0 < i <= |spine| then spine[i - 1] else null
    }

    static ghost function Right(spine: seq<Node<K, V>>, i: int): Node?<K, V> {
      if -1 <= i < |spine| - 1 then spine[i + 1] else null
    }

    /** The next chain from head and the prev chain from tail are both the spine,
        and no node occurs in it twice. */
    ghost predicate Linked()
      reads this`head, this`tail, this`spine, this`nodes, nodes`prev, nodes`next
    {
      && Distinct(spine) && |nodes| == |spine|
      && (forall i :: 0 <= i < |spine| ==> spine[i] in nodes)
      && head == Right(spine, -1)
      && tail == Left(spine, |spine|)
      && (forall i {:trigger Left(spine, i)} {:trigger Right(spine, i)} :: 0 <= i < |spine| ==>
            spine[i].prev == Left(spine, i) && spine[i].next == Right(spine, i))
    }

    /** The map holds exactly the linked nodes, each under its own key. */
    ghost predicate Indexed()
      reads this`data, this`nodes
    {
      && (forall k :: k in data ==> data[k] in nodes && data[k].key == k)
      && (forall n :: n in nodes ==> n.key in data && data[n.key] == n)
      && |data| == |nodes|
    }

    ghost predicate Holds(entries: seq<Entry<K, V>>)
      reads this`spine, this`nodes, nodes`value, nodes`expiration
    {
      && |entries| == |spine|
      && forall i :: 0 <= i < |spine| ==> spine[i] in nodes && entries[i] == spine[i].Content()
    }

    ghost predicate Valid()
      reads this`data, this`head, this`tail, this`spine, this`nodes, this`order, nodes
    {
      Linked() && Indexed() && Holds(order) && 1 <= capacity && |spine| <= capacity
    }

    /** The recency list that this cache represents. */
    ghost function Model(): Lru<K, V>
      reads this
    {
      Lru(capacity, order, hits, misses, evicts)
    }

    constructor (capacity: int)
      ensures Valid() && Model() == New(capacity) && nodes == {}
    {
      this.capacity := if capacity <= 0 then 100 else capacity;
      data, head, tail, spine, nodes, order := map[], null, null, [], {}, [];
      hits, misses, evicts := 0, 0, 0;
    }

    ghost predicate At(node: Node<K, V>, i: nat)
      reads this`spine
    {
      i < |spine| && spine[i] == node
    }

    lemma Locate(node: Node<K, V>) returns (i: nat)
      requires Linked() && node in nodes
      ensures At(node, i)
    {
      Exhausts(spine, nodes, node);
      i :| 0 <= i < |spine| && spine[i] == node;
    }

    method AddToFront(node: Node<K, V>)
      requires Linked() && node !in nodes
      modifies this`head, this`tail, this`spine, this`nodes, node`prev, node`next, nodes`prev
      ensures Linked() && spine == [node] + old(spine) && nodes == old(nodes) + {node}
    {
      ghost var was := spine;
      if was != [] {
        DistinctFrom(was, 0);
      }
      node.prev := null;
      node.next := head;
      if head != null {
        head.prev := node;
      }
      head := node;
      if tail == null {
        tail := node;
      }
      spine := [node] + spine;
      nodes := nodes + {node};
      forall i | 0 <= i < |spine|
        ensures spine[i].prev == Left(spine, i) && spine[i].next == Right(spine, i)
      {
        if i > 0 {
          assert old(was[i - 1].prev == Left(was, i - 1) && was[i - 1].next == Right(was, i - 1));
        }
      }
    }

    /** The chain of `s` with the node at `i` bridged over. */
    ghost predicate Bridged(s: seq<Node<K, V>>, i: nat)
      requires i < |s|
      reads this`head, this`tail, s
    {
      && head == (if i == 0 then Right(s, 0) else Right(s, -1))
      && tail == (if i == |s| - 1 then Left(s, i) else Left(s, |s|))
      && (forall j {:trigger Left(s, j)} {:trigger Right(s, j)} :: 0 <= j < |s| && j != i ==>
            && s[j].next == (if j == i - 1 then Right(s, i) else Right(s, j))
            && s[j].prev == (if j == i + 1 then Left(s, i) else Left(s, j)))
    }

    lemma BridgeAt(s: seq<Node<K, V>>, i: nat, j: nat)
      requires i < |s| && Bridged(s, i) && spine == Without(s, i) && j < |spine|
      ensures spine[j] == s[if j < i then j else j + 1]
      ensures spine[j].prev == Left(spine, j) && spine[j].next == Right(spine, j)
    {
      WithoutAt(s, i, j);
      var p := if j < i then j else j + 1;
      if p < i {
        assert s[p].prev == Left(s, p);
      } else {
        assert s[p].next == Right(s, p);
      }
    }

    lemma BridgeEnds(s: seq<Node<K, V>>, i: nat)
      requires i < |s| && Bridged(s, i) && spine == Without(s, i)
      ensures head == Right(spine, -1) && tail == Left(spine, |spine|)
    {
      if spine != [] {
        WithoutAt(s, i, 0);
        WithoutAt(s, i, |spine| - 1);
      }
    }

    lemma BridgeOver(s: seq<Node<K, V>>, i: nat)
      requires i < |s| && Distinct(s) && Bridged(s, i)
      requires spine == Without(s, i) && |nodes| == |spine|
      requires forall j :: 0 <= j < |s| && j != i ==> s[j] in nodes
      ensures Linked()
    {
      hide Distinct;
      WithoutDistinct(s, i);
      BridgeEnds(s, i);
      hide Bridged;
      forall j | 0 <= j < |spine|
        ensures spine[j] in nodes
        ensures spine[j].prev == Left(spine, j) && spine[j].next == Right(spine, j)
      {
        BridgeAt(s, i, j);
      }
    }

    method RemoveNode(node: Node<K, V>, ghost i: nat)
      requires Linked() && At(node, i)
      modifies this`head, this`tail, this`spine, this`nodes, nodes`prev, nodes`next
      ensures Linked() && spine == Without(old(spine), i) && nodes == old(nodes) - {node}
    {
      assert node.prev == Left(spine, i) && node.next == Right(spine, i);
      DistinctFrom(spine, i);
      if i > 0 {
        DistinctFrom(spine, i - 1);
      }
      if i < |spine| - 1 {
        DistinctFrom(spine, i + 1);
      }
      if node.prev != null {
        node.prev.next := node.next;
      } else {
        head := node.next;
      }
      if node.next != null {
        node.next.prev := node.prev;
      } else {
        tail := node.prev;
      }
      assert Bridged(spine, i);
      spine := Without(spine, i);
      nodes := nodes - {node};
      BridgeOver(old(spine), i);
    }

    method MoveToFront(node: Node<K, V>, ghost i: nat)
      requires Linked() && At(node, i)
      modifies this`head, this`tail, this`spine, this`nodes, nodes`prev, nodes`next
      ensures Linked() && spine == [node] + Without(old(spine), i) && nodes == old(nodes)
    {
      if node == head {
        return;
      }
      RemoveNode(node, i);
      AddToFront(node);
    }

    // ---------- What each operation has to do to the recency list ----------

    lemma DistinctOrder()
      requires Valid()
      ensures DistinctKeys(order)
    {
      forall a, b | 0 <= a < b < |order| ensures order[a].key != order[b].key {
        DistinctFrom(spine, a);
      }
    }

    lemma Sizes()
      requires Valid()
      ensures |data| == |spine| == |order|
    {
    }

    lemma Absent(key: K)
      requires Valid() && key !in data
      ensures Lookup(order, key) == None && Drop(order, key) == order
    {
      DropAbsent(order, key);
    }

    lemma EntryAt(key: K, i: nat)
      requires Valid() && i < |spine| && spine[i].key == key
      ensures Lookup(order, key) == Some(spine[i].Content()) && Drop(order, key) == Without(order, i)
    {
      DistinctOrder();
      DropAt(order, i);
    }

    // ---------- List and map together ----------

    /** Takes a node out of the list and out of the map. */
    method Forget(node: Node<K, V>, ghost i: nat)
      requires Valid() && At(node, i)
      modifies this`data, this`head, this`tail, this`spine, this`nodes, this`order, nodes`prev, nodes`next
      ensures Valid() && order == Without(old(order), i) && |spine| == |old(spine)| - 1
      ensures nodes == old(nodes) - {node} && data == old(data) - {node.key}
    {
      RemoveNode(node, i);
      data := data - {node.key};
      assert data.Keys == old(data.Keys) - {node.key};
      order := Without(order, i);
      forall j | 0 <= j < |spine| ensures order[j] == spine[j].Content() {
        WithoutAt(old(spine), i, j);
        WithoutAt(old(order), i, j);
      }
    }

    /** Moves a linked node to the front of the recency list. */
    method Touch(node: Node<K, V>, ghost i: nat)
      requires Valid() && At(node, i)
      modifies this`head, this`tail, this`spine, this`nodes, this`order, nodes`prev, nodes`next
      ensures Valid() && At(node, 0) && nodes == old(nodes) && |spine| == |old(spine)|
      ensures order == [old(order)[i]] + Without(old(order), i)
    {
      MoveToFront(node, i);
      order := [order[i]] + Without(order, i);
      forall j | 0 <= j < |spine| ensures order[j] == spine[j].Content() {
        if j > 0 {
          WithoutAt(old(spine), i, j - 1);
          WithoutAt(old(order), i, j - 1);
        }
      }
    }

    method EvictLRU()
      requires Valid()
      modifies this`data, this`head, this`tail, this`spine, this`nodes, this`order, this`evicts, nodes`prev, nodes`next
      ensures Valid() && nodes <= old(nodes)
      ensures forall k :: k in data ==> k in old(data)
      ensures if old(order) == [] then order == [] && evicts == old(evicts)
              else order == old(order[..|order| - 1]) && evicts == old(evicts) + 1
    {
      if tail == null {
        return;
      }
      Forget(tail, |spine| - 1);
      evicts := evicts + 1;
    }

    /** Overwrites the node that has just been moved to the front. */
    method Restore(node: Node<K, V>, value: V, expiration: Option<int>)
      requires Valid() && At(node, 0)
      modifies this`order, node`value, node`expiration
      ensures Valid() && order == [Entry(node.key, value, expiration)] + old(order[1..])
    {
      node.value := value;
      node.expiration := expiration;
      order := [node.Content()] + order[1..];
      forall j | 0 <= j < |spine| ensures order[j] == spine[j].Content() {
        assert j > 0 ==> order[j] == old(order)[j];
      }
    }

    lemma HoldsFront(node: Node<K, V>, rest: seq<Node<K, V>>, entries: seq<Entry<K, V>>)
      requires node in nodes && spine == [node] + rest && |entries| == |rest|
      requires forall i :: 0 <= i < |rest| ==> rest[i] in nodes && entries[i] == rest[i].Content()
      ensures Holds([node.Content()] + entries)
    {
    }

    /** Puts a new node under a new key in front. */
    method Insert(node: Node<K, V>)
      requires Valid() && |spine| < capacity && node !in nodes && node.key !in data
      modifies this`data, this`head, this`tail, this`spine, this`nodes, this`order, node`prev, node`next, nodes`prev
      ensures Valid() && nodes == old(nodes) + {node}
      ensures order == [node.Content()] + old(order)
    {
      hide Linked, Distinct;
      data := data[node.key := node];
      AddToFront(node);
      HoldsFront(node, old(spine), order);
      order := [node.Content()] + order;
    }

    // ---------- The operations ----------

    method Get(key: K, now: int) returns (value: Option<V>)
      requires Valid()
      modifies this, nodes`prev, nodes`next
      ensures Valid() && nodes <= old(nodes)
      ensures (Model(), Found(value)) == Apply(old(Model()), LruSpec.Get(key, now))
    {
      if key !in data {
        Absent(key);
        misses := misses + 1;
        return None;
      }
      value := GetNode(data[key], now);
    }

    /** The rest of Get for a known key: drop its node if it has expired, else move it to the front. */
    method GetNode(node: Node<K, V>, now: int) returns (value: Option<V>)
      requires Valid() && node in nodes
      modifies this, nodes`prev, nodes`next
      ensures Valid() && nodes <= old(nodes) && evicts == old(evicts)
      ensures Lookup(old(order), node.key) == Some(node.Content())
      ensures if Expired(node.Content(), now)
              then order == Drop(old(order), node.key) && misses == old(misses) + 1 && hits == old(hits) && value == None
              else order == [node.Content()] + Drop(old(order), node.key)
                   && misses == old(misses) && hits == old(hits) + 1 && value == Some(node.value)
    {
      hide Valid, Drop, Lookup, At;
      if node.expiration.Some? && now > node.expiration.value {
        Discard(node);
        misses := misses + 1;
        return None;
      }
      Promote(node);
      hits := hits + 1;
      return Some(node.value);
    }

    /** Takes a cached node out. */
    method Discard(node: Node<K, V>)
      requires Valid() && node in nodes
      modifies this`data, this`head, this`tail, this`spine, this`nodes, this`order, nodes`prev, nodes`next
      ensures Valid() && nodes <= old(nodes) && order == Drop(old(order), node.key)
      ensures Lookup(old(order), node.key) == Some(old(node.Content()))
    {
      ghost var i := Locate(node);
      EntryAt(node.key, i);
      Forget(node, i);
    }

    /** Moves a cached node to the front. */
    method Promote(node: Node<K, V>)
      requires Valid() && node in nodes
      modifies this`head, this`tail, this`spine, this`nodes, this`order, nodes`prev, nodes`next
      ensures Valid() && At(node, 0) && nodes == old(nodes)
      ensures order == [node.Content()] + Drop(old(order), node.key)
      ensures Lookup(old(order), node.key) == Some(old(node.Content()))
    {
      ghost var i := Locate(node);
      EntryAt(node.key, i);
      Touch(node, i);
    }

    method SetWithTTL(key: K, value: V, ttl: int, now: int)
      requires Valid()
      modifies this, nodes
      ensures Valid() && fresh(nodes - old(nodes))
      ensures Model() == Apply(old(Model()), LruSpec.SetWithTTL(key, value, ttl, now)).0
      ensures order != [] && order[0] == Entry(key, value, if ttl > 0 then Some(now + ttl) else None)
    {
      hide Linked, Holds, Lookup, Drop;
      var expiration := if ttl > 0 then Some(now + ttl) else None;
      if key in data {
        Update(data[key], value, expiration);
        return;
      }
      Absent(key);
      Store(key, value, expiration);
    }

    /** The rest of SetWithTTL for a known key: overwrite its node and move it to the front. */
    method Update(node: Node<K, V>, value: V, expiration: Option<int>)
      requires Valid() && node in nodes
      modifies this`head, this`tail, this`spine, this`nodes, this`order, nodes
      ensures Valid() && nodes == old(nodes) && Lookup(old(order), node.key).Some?
      ensures order == [Entry(node.key, value, expiration)] + Drop(old(order), node.key)
    {
      Promote(node);
      Restore(node, value, expiration);
    }

    /** Evicts if at capacity. */
    method MakeRoom()
      requires Valid()
      modifies this`data, this`head, this`tail, this`spine, this`nodes, this`order, this`evicts, nodes`prev, nodes`next
      ensures Valid() && nodes <= old(nodes) && |spine| < capacity
      ensures forall k :: k in data ==> k in old(data)
      ensures if |old(order)| >= capacity then order == old(order[..|order| - 1]) && evicts == old(evicts) + 1
              else order == old(order) && evicts == old(evicts)
    {
      Sizes();
      hide Linked, Indexed, Holds;
      if |data| >= capacity {
        EvictLRU();
        Sizes();
      }
    }

    /** The rest of SetWithTTL for a new key: evict if at capacity, then put a new node in front. */
    method Store(key: K, value: V, expiration: Option<int>)
      requires Valid() && key !in data
      modifies this`data, this`head, this`tail, this`spine, this`nodes, this`order, this`evicts, nodes`prev, nodes`next
      ensures Valid() && fresh(nodes - old(nodes))
      ensures if |old(order)| >= capacity
              then order == [Entry(key, value, expiration)] + old(order[..|order| - 1]) && evicts == old(evicts) + 1
              else order == [Entry(key, value, expiration)] + old(order) && evicts == old(evicts)
    {
      hide Valid;
      MakeRoom();
      var node := new Node(key, value, expiration);
      Insert(node);
    }

    method Delete(key: K) returns (existed: bool)
      requires Valid()
      modifies this, nodes`prev, nodes`next
      ensures Valid() && nodes <= old(nodes)
      ensures (Model(), Deleted(existed)) == Apply(old(Model()), LruSpec.Delete(key))
    {
      if key !in data {
        Absent(key);
        return false;
      }
      Discard(data[key]);
      return true;
    }

    method Clear()
      requires Valid()
      modifies this
      ensures Valid() && nodes == {}
      ensures Model() == Apply(old(Model()), LruSpec.Clear).0
    {
      data, head, tail, spine, nodes, order := map[], null, null, [], {}, [];
    }

    /** The map and the list agree on the size. */
    method Len() returns (n: nat)
      requires Valid()
      ensures n == |Model().order|
    {
      n := |data|;
    }

    /** Walks the list from most to least recently used. */
    method Keys() returns (keys: seq<K>)
      requires Valid()
      ensures |keys| == |Model().order|
      ensures forall i :: 0 <= i < |keys| ==> keys[i] == Model().order[i].key
    {
      keys := [];
      var node := head;
      while node != null
        invariant |keys| <= |spine| && node == Right(spine, |keys| - 1)
        invariant forall i :: 0 <= i < |keys| ==> keys[i] == spine[i].key
        decreases |spine| - |keys|
      {
        keys := keys + [node.key];
        assert node.next == Right(spine, |keys| - 1);
        node := node.next;
      }
    }
  }
}
