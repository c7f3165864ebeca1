/** When the tasks that are ready come out of the heap array in order. */
module ReadyOrder {
  import opened Common
  import opened PriorityQueue

  /** No task stands before one that has to run before it. */
  ghost predicate InRunOrder(s: seq<Task>)
    reads s
  {
    forall i, j :: 0 <= i < j < |s| ==> !Before(s[j], s[i])
  }

  /** Neither of two tasks has to run before the other. */
  ghost predicate EqualRank(a: Task, b: Task)
    reads a, b
  {
    !Before(a, b) && !Before(b, a)
  }

  ghost predicate AllReady(s: seq<Task>, now: int)
    reads s
  {
    forall i :: 0 <= i < |s| ==> s[i].nextRunAt <= now && s[i].state == Pending
  }

  /** At most two tasks, or one that nothing has to run before and otherwise tasks of equal rank. */
  ghost predicate Flat(bag: multiset<Task>)
    reads bag
  {
    |bag| <= 2 || exists m :: m in bag && Tops(m, bag)
  }

  ghost predicate Tops(m: Task, bag: multiset<Task>)
    requires m in bag
    reads bag
  {
    && (forall t :: t in bag ==> !Before(t, m))
    && forall a, b :: a in bag - multiset{m} && b in bag - multiset{m} ==> EqualRank(a, b)
  }

  lemma {:induction false} ReadyAll(s: seq<Task>, now: int)
    requires AllReady(s, now)
    ensures ReadyIn(s, now) == s
  {
    if s != [] {
      ReadyAll(s[..|s| - 1], now);
    }
  }

  // ---------- Flat queues list their tasks in order ----------

  lemma InBag(s: seq<Task>, i: nat)
    requires 0 < i < |s|
    ensures s[i] in multiset(s) - multiset{s[0]} && s[0] in multiset(s)
  {
    assert s == [s[0]] + s[1..];
    assert multiset(s) == multiset{s[0]} + multiset(s[1..]);
    assert s[i] == s[1..][i - 1];
  }

  lemma Locate(s: seq<Task>, t: Task) returns (k: nat)
    requires t in multiset(s)
    ensures k < |s| && s[k] == t
  {
    k :| 0 <= k < |s| && s[k] == t;
  }

  lemma FlatIsOrdered(s: seq<Task>)
    requires IsHeap(s) && Flat(multiset(s))
    ensures InRunOrder(s)
  {
    forall i, j | 0 <= i < j < |s| ensures !Before(s[j], s[i]) {
      RootFirst(s, j);
      if i > 0 {
        FlatPair(s, i, j);
      }
    }
  }

  lemma FlatPair(s: seq<Task>, i: nat, j: nat)
    requires IsHeap(s) && Flat(multiset(s)) && 0 < i < j < |s|
    ensures !Before(s[j], s[i])
  {
    hide IsHeap;
    var bag := multiset(s);
    assert |bag| == |s| > 2;
    var m :| m in bag && Tops(m, bag);
    InBag(s, i);
    InBag(s, j);
    RootFirst(s, i);
    RootFirst(s, j);
    if m != s[0] {
      // Then the first task is one of equal rank with all others, and the top one ranks no higher.
      var k := Locate(s, m);
      RootFirst(s, k);
      Remains(bag, s[0], m);
      TopAmongEqual(s, bag, m, i);
      TopAmongEqual(s, bag, m, j);
    }
  }

  lemma Remains(bag: multiset<Task>, t: Task, m: Task)
    requires t in bag && t != m
    ensures t in bag - multiset{m}
  {
  }

  /** If the first task is not the top one itself, it ranks with all others. */
  lemma TopAmongEqual(s: seq<Task>, bag: multiset<Task>, m: Task, i: nat)
    requires i < |s| && s[i] in bag && m in bag && Tops(m, bag)
    requires s[0] in bag - multiset{m} && !Before(m, s[0])
    ensures EqualRank(s[i], s[0])
  {
    if s[i] != m {
      Remains(bag, s[i], m);
    }
  }

  // ---------- All others can be arranged out of order ----------

  /** An ordered list may be extended by a task that has to run before none of it. */
  lemma Extend(s: seq<Task>, t: Task)
    requires InRunOrder(s) && forall x :: x in s ==> !Before(t, x)
    ensures InRunOrder(s + [t])
  {
  }

  lemma {:induction false} Insert(s: seq<Task>, t: Task) returns (r: seq<Task>)
    requires InRunOrder(s)
    ensures InRunOrder(r) && multiset(r) == multiset(s) + multiset{t}
  {
    if s == [] || !Before(t, s[|s| - 1]) {
      Extend(s, t);
      r := s + [t];
    } else {
      var init, last := s[..|s| - 1], s[|s| - 1];
      assert s == init + [last];
      var q := Insert(init, t);
      forall x | x in q ensures !Before(last, x) {
        NewOrOld(init, t, q, last, x);
      }
      Extend(q, last);
      r := q + [last];
    }
  }

  lemma NewOrOld(init: seq<Task>, t: Task, q: seq<Task>, last: Task, x: Task)
    requires InRunOrder(init + [last]) && Before(t, last)
    requires multiset(q) == multiset(init) + multiset{t} && x in q
    ensures !Before(last, x)
  {
    assert x in multiset(q);
    if x != t {
      var k := Locate(init, x);
      assert (init + [last])[k] == x && (init + [last])[|init|] == last;
    }
  }

  /** Every bag of tasks can be put in order. */
  lemma {:induction false} Arrange(bag: multiset<Task>) returns (s: seq<Task>)
    ensures InRunOrder(s) && multiset(s) == bag
    decreases |bag|
  {
    if bag == multiset{} {
      s := [];
    } else {
      var t :| t in bag;
      var q := Arrange(bag - multiset{t});
      s := Insert(q, t);
    }
  }

  /** Between two tasks of different rank, two neighbours differ in rank. */
  lemma {:induction false} Drop(s: seq<Task>, i: nat, j: nat) returns (k: nat)
    requires i < j < |s| && Before(s[i], s[j])
    ensures i <= k < j && Before(s[k], s[k + 1])
  {
    if Before(s[j - 1], s[j]) {
      k := j - 1;
    } else {
      k := Drop(s, i, j - 1);
    }
  }

  /** Two neighbours below the root may change places in an ordered heap. */
  lemma SwapNeighbours(s: seq<Task>, k: nat)
    requires InRunOrder(s) && 0 < k < |s| - 1
    ensures IsHeap(Swapped(s, k, k + 1))
  {
    var t := Swapped(s, k, k + 1);
    forall i | 0 <= i < |t| ensures InOrder(t, i) {
      if i > 0 {
        assert Parent(i) < i && (i == k + 1 ==> Parent(i) < k);
      }
    }
  }

  lemma SwappedBag(s: seq<Task>, k: nat)
    requires k + 1 < |s|
    ensures multiset(Swapped(s, k, k + 1)) == multiset(s)
  {
  }

  /** Any other queue has a heap that lists its tasks out of order. */
  lemma OutOfOrder(bag: multiset<Task>) returns (s: seq<Task>)
    requires !Flat(bag)
    ensures multiset(s) == bag && IsHeap(s) && !InRunOrder(s)
  {
    var q := Arrange(bag);
    assert |q| == |bag| > 2;
    var i, j := Uneven(q);
    var k := Drop(q, i, j);
    s := Swapped(q, k, k + 1);
    SwapNeighbours(q, k);
    SwappedBag(q, k);
    assert Before(s[k + 1], s[k]);
  }

  lemma FirstApart(q: seq<Task>)
    requires q != []
    ensures multiset(q) - multiset{q[0]} == multiset(q[1..]) && q[0] in multiset(q)
  {
    assert q == [q[0]] + q[1..];
  }

  lemma FirstOnTop(q: seq<Task>)
    requires InRunOrder(q) && q != []
    ensures forall t :: t in multiset(q) ==> !Before(t, q[0])
  {
    forall t | t in multiset(q) ensures !Before(t, q[0]) {
      var k := Locate(q, t);
    }
  }

  /** Below the root of an ordered heap that is not flat, two tasks differ in rank. */
  lemma Uneven(q: seq<Task>) returns (i: nat, j: nat)
    requires InRunOrder(q) && |q| > 2 && !Flat(multiset(q))
    ensures 0 < i < j < |q| && Before(q[i], q[j])
  {
    FirstOnTop(q);
    FirstApart(q);
    assert !Tops(q[0], multiset(q));
    var a, b := UnevenPair(multiset(q[1..]));
    i, j := Locate2(q, a, b);
  }

  lemma UnevenPair(bag: multiset<Task>) returns (a: Task, b: Task)
    requires !(forall a, b :: a in bag && b in bag ==> EqualRank(a, b))
    ensures a in bag && b in bag && Before(a, b)
  {
    a, b :| a in bag && b in bag && !EqualRank(a, b);
    if !Before(a, b) {
      a, b := b, a;
    }
  }

  lemma Locate2(q: seq<Task>, a: Task, b: Task) returns (i: nat, j: nat)
    requires InRunOrder(q) && q != [] && a in multiset(q[1..]) && b in multiset(q[1..]) && Before(a, b)
    ensures 0 < i < j < |q| && q[i] == a && q[j] == b
  {
    var k := Locate(q[1..], a);
    var l := Locate(q[1..], b);
    i, j := k + 1, l + 1;
    assert q[i] == a && q[j] == b;
  }

  // ---------- When GetReadyTasks is sorted ----------

  lemma AllOfBagReady(s: seq<Task>, bag: multiset<Task>, now: int)
    requires multiset(s) == bag && forall t :: t in bag ==> t.nextRunAt <= now && t.state == Pending
    ensures ReadyIn(s, now) == s
  {
    forall i | 0 <= i < |s| ensures s[i].nextRunAt <= now && s[i].state == Pending {
      assert s[i] in multiset(s);
    }
    ReadyAll(s, now);
  }

  /** If all queued tasks are ready, every heap that the queue may have become lists them in order if and only if
      they are at most two, or all but one that nothing has to run before are of equal rank. */
  lemma ReadySortedIffFlat(bag: multiset<Task>, now: int)
    requires forall t :: t in bag ==> t.nextRunAt <= now && t.state == Pending
    ensures (forall s: seq<Task> :: multiset(s) == bag && IsHeap(s) ==> InRunOrder(ReadyIn(s, now))) <==> Flat(bag)
  {
    forall s: seq<Task> | multiset(s) == bag && IsHeap(s) ensures ReadyIn(s, now) == s {
      AllOfBagReady(s, bag, now);
    }
    if Flat(bag) {
      forall s: seq<Task> | multiset(s) == bag && IsHeap(s) ensures InRunOrder(ReadyIn(s, now)) {
        FlatIsOrdered(s);
      }
    } else {
      var s := OutOfOrder(bag);
      assert ReadyIn(s, now) == s;
    }
  }

  lemma ReadyMember(s: seq<Task>, now: int, t: Task)
    requires t in ReadyIn(s, now)
    ensures t in s
  {
    ReadyMeaning(s, now);
  }

  lemma {:induction false} ReadyKeepsOrder(s: seq<Task>, now: int)
    requires InRunOrder(s)
    ensures InRunOrder(ReadyIn(s, now))
  {
    if s != [] {
      var init, last := s[..|s| - 1], s[|s| - 1];
      ReadyKeepsOrder(init, now);
      var r := ReadyIn(init, now);
      forall i | 0 <= i < |r| ensures !Before(last, r[i]) {
        ReadyMember(init, now, r[i]);
        var k := Locate(init, r[i]);
      }
    }
  }

  /** In a queue that is flat the ready tasks are sorted, whichever they are. */
  lemma FlatIsSorted(s: seq<Task>, now: int)
    requires IsHeap(s) && Flat(multiset(s))
    ensures InRunOrder(ReadyIn(s, now))
  {
    FlatIsOrdered(s);
    ReadyKeepsOrder(s, now);
  }

  // ---------- The same for priorities alone ----------

  ghost predicate ByPriority(s: seq<Task>)
    reads s
  {
    forall i, j :: 0 <= i < j < |s| ==> s[i].priority >= s[j].priority
  }

  /** At most two tasks, or one of the highest priority and otherwise tasks of one priority. */
  ghost predicate Level(bag: multiset<Task>)
    reads bag
  {
    |bag| <= 2 || exists m :: m in bag && Heads(m, bag)
  }

  ghost predicate Heads(m: Task, bag: multiset<Task>)
    requires m in bag
    reads bag
  {
    && (forall t :: t in bag ==> t.priority <= m.priority)
    && forall a, b :: a in bag - multiset{m} && b in bag - multiset{m} ==> a.priority == b.priority
  }

  lemma LevelPair(s: seq<Task>, i: nat, j: nat)
    requires IsHeap(s) && Level(multiset(s)) && 0 < i < j < |s|
    ensures s[i].priority >= s[j].priority
  {
    hide IsHeap;
    var bag := multiset(s);
    assert |bag| == |s| > 2;
    var m :| m in bag && Heads(m, bag);
    InBag(s, i);
    InBag(s, j);
    RootFirst(s, j);
    if m != s[0] {
      Remains(bag, s[0], m);
      if s[i] != m {
        Remains(bag, s[i], m);
      }
    }
  }

  lemma LevelIsOrdered(s: seq<Task>)
    requires IsHeap(s) && Level(multiset(s))
    ensures ByPriority(s)
  {
    hide IsHeap, Level;
    forall i, j | 0 <= i < j < |s| ensures s[i].priority >= s[j].priority {
      RootFirst(s, j);
      if i > 0 {
        LevelPair(s, i, j);
      }
    }
  }

  lemma {:induction false} PriorityDrop(s: seq<Task>, i: nat, j: nat) returns (k: nat)
    requires i < j < |s| && s[i].priority > s[j].priority
    ensures i <= k < j && s[k].priority > s[k + 1].priority
  {
    if s[j - 1].priority > s[j].priority {
      k := j - 1;
    } else {
      k := PriorityDrop(s, i, j - 1);
    }
  }

  lemma UnevenPriorityPair(bag: multiset<Task>) returns (a: Task, b: Task)
    requires !(forall a, b :: a in bag && b in bag ==> a.priority == b.priority)
    ensures a in bag && b in bag && a.priority > b.priority
  {
    a, b :| a in bag && b in bag && a.priority != b.priority;
    if a.priority < b.priority {
      a, b := b, a;
    }
  }

  /** Below the root of an ordered heap that is not level, two tasks differ in priority. */
  lemma UnevenPriority(q: seq<Task>) returns (i: nat, j: nat)
    requires InRunOrder(q) && |q| > 2 && !Level(multiset(q))
    ensures 0 < i < j < |q| && q[i].priority > q[j].priority
  {
    FirstOnTop(q);
    FirstApart(q);
    assert !Heads(q[0], multiset(q));
    var a, b := UnevenPriorityPair(multiset(q[1..]));
    i, j := Locate2(q, a, b);
  }

  /** Any other queue has a heap that lists a task before one of a higher priority. */
  lemma OutOfPriority(bag: multiset<Task>) returns (s: seq<Task>)
    requires !Level(bag)
    ensures multiset(s) == bag && IsHeap(s) && !ByPriority(s)
  {
    var q := Arrange(bag);
    assert |q| == |bag| > 2;
    var i, j := UnevenPriority(q);
    var k := PriorityDrop(q, i, j);
    s := Swapped(q, k, k + 1);
    SwapNeighbours(q, k);
    SwappedBag(q, k);
    assert s[k + 1].priority > s[k].priority;
  }

  /** If all queued tasks are ready, every heap that the queue may have become lists them by priority if and only if
      they are at most two, or all but one of the highest priority are of one priority. */
  lemma ReadyByPriorityIffLevel(bag: multiset<Task>, now: int)
    requires forall t :: t in bag ==> t.nextRunAt <= now && t.state == Pending
    ensures (forall s: seq<Task> :: multiset(s) == bag && IsHeap(s) ==> ByPriority(ReadyIn(s, now))) <==> Level(bag)
  {
    forall s: seq<Task> | multiset(s) == bag && IsHeap(s) ensures ReadyIn(s, now) == s {
      AllOfBagReady(s, bag, now);
    }
    if Level(bag) {
      forall s: seq<Task> | multiset(s) == bag && IsHeap(s) ensures ByPriority(ReadyIn(s, now)) {
        LevelIsOrdered(s);
      }
    } else {
      var s := OutOfPriority(bag);
      assert ReadyIn(s, now) == s;
    }
  }
}
