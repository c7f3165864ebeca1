/** The scheduler's priority queue: Go's container/heap loops over the queue's own Less and Swap. */
module PriorityQueue {

  datatype TaskState = Pending | Running | Completed | Cancelled | Failed

  class Task {
    const id: string
    var priority: int
    var nextRunAt: int
    var state: TaskState

    constructor (id: string, priority: int, nextRunAt: int)
      ensures this.id == id && this.priority == priority && this.nextRunAt == nextRunAt && state == Pending
    {
      this.id, this.priority, this.nextRunAt, state := id, priority, nextRunAt, Pending;
    }
  }

  /** `a` has to run before `b`: higher priority first, then earlier time. */
  predicate Before(a: Task, b: Task)
    reads a, b
  {
    if a.priority != b.priority then a.priority > b.priority else a.nextRunAt < b.nextRunAt
  }

  function Parent(i: int): int {
    (i - 1) / 2
  }

  ghost predicate InOrder(s: seq<Task>, i: nat)
    requires i < |s|
    reads s
  {
    i > 0 ==> !Before(s[i], s[Parent(i)])
  }

  /** Heap order among the first `n` tasks, except between the task at `hole` and its parent. */
  ghost predicate OrderedBut(s: seq<Task>, n: nat, hole: int)
    requires n <= |s|
    reads s
  {
    forall i :: 0 <= i < n && i != hole ==> InOrder(s, i)
  }

  /** Heap order among the first `n` tasks, except around the place `hole`. */
  ghost predicate SunkBut(s: seq<Task>, n: nat, hole: int)
    requires n <= |s|
    reads s
  {
    forall i :: 0 <= i < n && i != hole && Parent(i) != hole ==> InOrder(s, i)
  }

  /** The children of the task at `i` may also stand under its parent. */
  ghost predicate Bypass(s: seq<Task>, n: nat, i: int)
    requires n <= |s|
    reads s
  {
    forall c :: 0 < i < c < n && Parent(c) == i ==> !Before(s[c], s[Parent(i)])
  }

  ghost predicate IsHeap(s: seq<Task>)
    reads s
  {
    OrderedBut(s, |s|, -1)
  }

  /** The first task of a heap is one that has to run first. */
  lemma {:induction false} RootFirst(s: seq<Task>, i: nat)
    requires IsHeap(s) && i < |s|
    ensures !Before(s[i], s[0])
  {
    if i > 0 {
      assert InOrder(s, i);
      RootFirst(s, Parent(i));
    }
  }

  function Swapped(s: seq<Task>, i: nat, j: nat): seq<Task>
    requires i < |s| && j < |s|
  {
    s[i := s[j]][j := s[i]]
  }

  /** One step of up keeps everything in order except the place that the task has risen to. */
  lemma RiseStep(s: seq<Task>, n: nat, j: nat)
    requires n <= |s| && 0 < j < n && OrderedBut(s, n, j) && Bypass(s, n, j)
    requires Before(s[j], s[Parent(j)])
    ensures OrderedBut(Swapped(s, Parent(j), j), n, Parent(j))
    ensures Bypass(Swapped(s, Parent(j), j), n, Parent(j))
  {
    var i := Parent(j);
    var t := Swapped(s, i, j);
    forall k | 0 <= k < n && k != i ensures InOrder(t, k) {
      assert k != j ==> InOrder(s, k);
    }
    forall c | 0 < i < c < n && Parent(c) == i ensures !Before(t[c], t[Parent(i)]) {
      assert InOrder(s, i) && (c != j ==> InOrder(s, c));
    }
  }

  /** One step of down, to the child `c` that has to run before its sibling. */
  lemma SinkStep(s: seq<Task>, n: nat, i: nat, c: nat)
    requires n <= |s| && i < c < n && Parent(c) == i && SunkBut(s, n, i) && Bypass(s, n, i)
    requires Before(s[c], s[i])
    requires forall d :: i < d < n && Parent(d) == i ==> !Before(s[d], s[c])
    ensures SunkBut(Swapped(s, i, c), n, c) && Bypass(Swapped(s, i, c), n, c)
    ensures InOrder(Swapped(s, i, c), c)
  {
    var t := Swapped(s, i, c);
    forall k | 0 <= k < n && Parent(k) != c && k != i ensures InOrder(t, k) {
      assert Parent(k) != i ==> InOrder(s, k);
    }
    forall d | 0 < c < d < n && Parent(d) == c ensures !Before(t[d], t[Parent(c)]) {
      assert InOrder(s, d);
    }
  }

  /** Nothing is left to do once no child of `i` has to run before it. */
  lemma SinkDone(s: seq<Task>, n: nat, i: nat)
    requires i <= n <= |s| && SunkBut(s, n, i)
    requires forall d :: i < d < n && Parent(d) == i ==> !Before(s[d], s[i])
    ensures OrderedBut(s, n, i)
  {
    forall k | 0 <= k < n && k != i ensures InOrder(s, k) {
    }
  }

  /** In a heap, any place may be opened for a new task. */
  lemma OpenHole(s: seq<Task>, i: nat)
    requires IsHeap(s) && i < |s|
    ensures SunkBut(s, |s|, i) && Bypass(s, |s|, i)
  {
    forall c | 0 < i < c < |s| && Parent(c) == i ensures !Before(s[c], s[Parent(i)]) {
      assert InOrder(s, c) && InOrder(s, i);
    }
  }

  /** Moving the last task into the place `i` leaves a heap with a hole there, one shorter. */
  lemma FillHole(s: seq<Task>, i: nat)
    requires IsHeap(s) && i < |s|
    ensures var t := Swapped(s, i, |s| - 1); SunkBut(t, |s| - 1, i) && Bypass(t, |s| - 1, i)
  {
    var n, t := |s| - 1, Swapped(s, i, |s| - 1);
    OpenHole(s, i);
    forall k | 0 <= k < n && k != i && Parent(k) != i ensures InOrder(t, k) {
      assert InOrder(s, k);
    }
  }

  /** What stands in order among the first `n` stays in order when the rest is cut off. */
  lemma CutOff(s: seq<Task>, n: nat)
    requires n <= |s| && OrderedBut(s, n, -1)
    ensures IsHeap(s[..n])
  {
    forall k | 0 <= k < n ensures InOrder(s[..n], k) {
      assert InOrder(s, k);
    }
  }

  lemma Append(s: seq<Task>, task: Task)
    requires IsHeap(s)
    ensures OrderedBut(s + [task], |s| + 1, |s|) && Bypass(s + [task], |s| + 1, |s|)
  {
    forall k | 0 <= k < |s| ensures InOrder(s + [task], k) {
      assert InOrder(s, k);
    }
  }

  /** One pop: `task` leaves `queue`, and nothing queued has to run before it. */
  ghost predicate PopStep(queue: multiset<Task>, task: Task, rest: multiset<Task>)
    reads queue, task
  {
    task in queue && rest == queue - multiset{task} && forall t :: t in queue ==> !Before(t, task)
  }

  ghost predicate FirstWith(s: seq<Task>, id: string, i: int) {
    0 <= i < |s| && s[i].id == id && forall k :: 0 <= k < i ==> s[k].id != id
  }

  lemma RootMinimal(s: seq<Task>)
    requires IsHeap(s) && s != []
    ensures forall t :: t in s ==> !Before(t, s[0])
  {
    forall t | t in s ensures !Before(t, s[0]) {
      var i :| 0 <= i < |s| && s[i] == t;
      RootFirst(s, i);
    }
  }

  /** The tasks of `s` that are pending and due. */
  ghost function ReadyIn(s: seq<Task>, now: int): seq<Task>
    reads s
  {
    if s == [] then []
    else
      var init, last := s[..|s| - 1], s[|s| - 1];
      if last.nextRunAt <= now && last.state == Pending then ReadyIn(init, now) + [last] else ReadyIn(init, now)
  }

  lemma {:induction false} ReadyMeaning(s: seq<Task>, now: int)
    ensures forall t :: t in ReadyIn(s, now) <==> t in s && t.nextRunAt <= now && t.state == Pending
    ensures multiset(ReadyIn(s, now)) <= multiset(s)
  {
    if s != [] {
      var init, last := s[..|s| - 1], s[|s| - 1];
      assert s == init + [last];
      ReadyMeaning(init, now);
    }
  }

  /** A heap of three tasks due, whose ready tasks are not sorted: the last has to run before the second. */
  lemma ReadyNotSorted(a: Task, b: Task, c: Task, now: int)
    requires a.priority == 3 && b.priority == 1 && c.priority == 2
    requires a.nextRunAt == b.nextRunAt == c.nextRunAt == now
    requires a.state == b.state == c.state == Pending
    ensures IsHeap([a, b, c]) && ReadyIn([a, b, c], now) == [a, b, c] && Before(c, b)
  {
    assert [a, b, c][..2] == [a, b] && [a, b][..1] == [a] && [a][..0] == [];
    assert ReadyIn([a], now) == [a] && ReadyIn([a, b], now) == [a, b];
    forall i | 0 <= i < 3 ensures InOrder([a, b, c], i) {
      assert i == 1 || i == 2 ==> Parent(i) == 0;
    }
  }

  class PriorityQueue {
    var items: seq<Task>

    constructor ()
      ensures items == []
    {
      items := [];
    }

    predicate Less(i: nat, j: nat)
      requires i < |items| && j < |items|
      reads this, items
    {
      Before(items[i], items[j])
    }

    method Swap(i: nat, j: nat)
      requires i < |items| && j < |items|
      modifies this`items
      ensures items == Swapped(old(items), i, j)
      ensures multiset(items) == multiset(old(items))
    {
      items := items[i := items[j]][j := items[i]];
    }

    /** container/heap up: lets the task at `j0` rise to its place. */
    method Up(j0: nat, ghost n: nat)
      requires j0 < n <= |items|
      requires OrderedBut(items, n, j0) && Bypass(items, n, j0)
      modifies this`items
      ensures |items| == |old(items)| && OrderedBut(items, n, -1) && (forall k :: n <= k < |items| ==> items[k] == old(items)[k])
      ensures multiset(items) == multiset(old(items))
    {
      var j := j0;
      while true
        invariant 0 <= j < n <= |items| == |old(items)|
        invariant OrderedBut(items, n, j) && Bypass(items, n, j)
        invariant (forall k :: n <= k < |items| ==> items[k] == old(items)[k]) && multiset(items) == multiset(old(items))
        decreases j
      {
        var i: nat := if j == 0 then 0 else (j - 1) / 2;
        if i == j || !Less(j, i) {
          break;
        }
        RiseStep(items, n, j);
        Swap(i, j);
        j := i;
      }
    }

    /** The swap of one step of down. */
    method Sink(i: nat, j: nat, ghost n: nat)
      requires n <= |items| && i < j < n && Parent(j) == i && SunkBut(items, n, i) && Bypass(items, n, i)
      requires Less(j, i)
      requires forall d :: i < d < n && Parent(d) == i ==> !Before(items[d], items[j])
      modifies this`items
      ensures |items| == |old(items)| && (forall k :: n <= k < |items| ==> items[k] == old(items)[k])
      ensures multiset(items) == multiset(old(items))
      ensures SunkBut(items, n, j) && Bypass(items, n, j) && InOrder(items, j)
    {
      SinkStep(items, n, i, j);
      Swap(i, j);
    }

    /** container/heap down: lets the task at `i0` sink to its place among the first `n`,
        and tells whether it moved. */
    method Down(i0: nat, n: nat) returns (moved: bool)
      requires i0 <= n <= |items|
      requires SunkBut(items, n, i0) && Bypass(items, n, i0)
      modifies this`items
      ensures |items| == |old(items)| && (forall k :: n <= k < |items| ==> items[k] == old(items)[k])
      ensures multiset(items) == multiset(old(items))
      ensures if moved then OrderedBut(items, n, -1) else items == old(items) && OrderedBut(items, n, i0)
    {
      var i := i0;
      while true
        invariant i0 <= i <= n <= |items| == |old(items)|
        invariant SunkBut(items, n, i) && Bypass(items, n, i)
        invariant i > i0 ==> i < n && InOrder(items, i)
        invariant i == i0 ==> items == old(items)
        invariant (forall k :: n <= k < |items| ==> items[k] == old(items)[k]) && multiset(items) == multiset(old(items))
        decreases n - i
      {
        var j1 := 2 * i + 1;
        if j1 >= n {
          SinkDone(items, n, i);
          break;
        }
        var j := j1;
        var j2 := j1 + 1;
        if j2 < n && Less(j2, j1) {
          j := j2;
        }
        assert forall d :: i < d < n && Parent(d) == i ==> d == j1 || d == j2;
        if !Less(j, i) {
          SinkDone(items, n, i);
          break;
        }
        Sink(i, j, n);
        i := j;
      }
      moved := i > i0;
    }

    /** Down, and up when that did not move anything, as both Remove and Fix in container/heap do. */
    method Settle(i: nat, n: nat)
      requires i < n <= |items| && SunkBut(items, n, i) && Bypass(items, n, i)
      modifies this`items
      ensures |items| == |old(items)| && forall k :: n <= k < |items| ==> items[k] == old(items)[k]
      ensures OrderedBut(items, n, -1) && multiset(items) == multiset(old(items))
    {
      var moved := Down(i, n);
      if !moved {
        Up(i, n);
      }
    }

    /** container/heap Remove: takes the task at `i` out of the heap. */
    method RemoveAt(i: nat) returns (task: Task)
      requires IsHeap(items) && i < |items|
      modifies this`items
      ensures IsHeap(items) && task == old(items)[i]
      ensures multiset(items) == multiset(old(items)) - multiset{task}
    {
      var n := |items| - 1;
      if n != i {
        FillHole(items, i);
        Swap(i, n);
        Settle(i, n);
      }
      task := Pop();
    }

    /** The queue's Pop: cuts off the last element of the slice. */
    method Pop() returns (task: Task)
      requires items != [] && OrderedBut(items, |items| - 1, -1)
      modifies this`items
      ensures IsHeap(items)
      ensures task == old(items)[|old(items)| - 1] && items == old(items)[..|old(items)| - 1]
      ensures multiset(items) == multiset(old(items)) - multiset{task}
    {
      CutOff(items, |items| - 1);
      task := items[|items| - 1];
      items := items[..|items| - 1];
      assert old(items) == items + [task];
    }

    /** container/heap Pop. */
    method PopRoot() returns (task: Task)
      requires IsHeap(items) && items != []
      modifies this`items
      ensures IsHeap(items) && task == old(items)[0]
      ensures multiset(items) == multiset(old(items)) - multiset{task}
    {
      FillHole(items, 0);
      var n := |items| - 1;
      Swap(0, n);
      var moved := Down(0, n);
      task := Pop();
    }

    method PushTask(task: Task)
      requires IsHeap(items)
      modifies this`items
      ensures IsHeap(items)
      ensures multiset(items) == multiset(old(items)) + multiset{task}
    {
      Append(items, task);
      items := items + [task];
      Up(|items| - 1, |items|);
    }

    method PopTask() returns (task: Task?)
      requires IsHeap(items)
      modifies this`items
      ensures IsHeap(items)
      ensures task == null <==> old(items) == []
      ensures task == null ==> items == []
      ensures task != null ==> PopStep(multiset(old(items)), task, multiset(items))
    {
      if |items| == 0 {
        return null;
      }
      RootMinimal(items);
      task := PopRoot();
    }

    method PeekTask() returns (task: Task?)
      requires IsHeap(items)
      ensures task == null <==> items == []
      ensures task != null ==> task in items && forall t :: t in items ==> !Before(t, task)
    {
      if |items| == 0 {
        return null;
      }
      RootMinimal(items);
      return items[0];
    }

    /** Exactly the pending tasks whose time has come, in the order of the heap array. */
    method GetReadyTasks(now: int) returns (ready: seq<Task>)
      ensures ready == ReadyIn(items, now)
      ensures forall t :: t in ready <==> t in items && t.nextRunAt <= now && t.state == Pending
      ensures multiset(ready) <= multiset(items)
    {
      ready := [];
      for i := 0 to |items|
        invariant ready == ReadyIn(items[..i], now)
      {
        assert items[..i + 1][..i] == items[..i];
        if !(items[i].nextRunAt > now) && items[i].state == Pending {
          ready := ready + [items[i]];
        }
      }
      assert items[..|items|] == items;
      ReadyMeaning(items, now);
    }

    method RemoveTask(id: string) returns (found: bool)
      requires IsHeap(items)
      modifies this`items
      ensures IsHeap(items)
      ensures !found ==> items == old(items) && forall t :: t in items ==> t.id != id
      ensures found ==> exists i :: FirstWith(old(items), id, i) &&
                          multiset(items) == multiset(old(items)) - multiset{old(items)[i]}
    {
      for i := 0 to |items|
        invariant items == old(items) && forall k :: 0 <= k < i ==> items[k].id != id
      {
        if items[i].id == id {
          var task := RemoveAt(i);
          assert FirstWith(old(items), id, i);
          return true;
        }
      }
      return false;
    }

    /** The queue refers to the first task with this id once only. */
    ghost predicate Unaliased(id: string)
      reads this`items
    {
      forall i, k :: FirstWith(items, id, i) && 0 <= k < |items| && items[k] == items[i] ==> k == i
    }

    method UpdatePriority(id: string, priority: int) returns (found: bool)
      requires IsHeap(items) && Unaliased(id)
      modifies this`items, items`priority
      ensures IsHeap(items) && multiset(items) == multiset(old(items))
      ensures found <==> exists k :: FirstWith(old(items), id, k)
      ensures forall k :: 0 <= k < |old(items)| ==>
                old(items)[k].priority == if FirstWith(old(items), id, k) then priority else old(items[k].priority)
    {
      for i := 0 to |items|
        invariant items == old(items) && forall k :: 0 <= k < i ==> items[k].id != id
        invariant forall k :: 0 <= k < |items| ==> items[k].priority == old(items[k].priority)
        invariant IsHeap(items)
      {
        if items[i].id == id {
          assert FirstWith(items, id, i);
          OpenHole(items, i);
          items[i].priority := priority;
          Settle(i, |items|);
          return true;
        }
      }
      return false;
    }

    /** Pops until nil comes back: every queued task once, in the order in which they have to run. */
    method Drain() returns (popped: seq<Task>)
      requires IsHeap(items)
      modifies this`items
      ensures items == [] && multiset(popped) == multiset(old(items))
      ensures forall i, j :: 0 <= i < j < |popped| ==>
                && popped[i].priority >= popped[j].priority
                && (popped[i].priority == popped[j].priority ==> popped[i].nextRunAt <= popped[j].nextRunAt)
    {
      hide IsHeap, PopStep, Pops;
      popped := [];
      ghost var queues := [multiset(items)];
      NoPops(multiset(items));
      while true
        invariant IsHeap(items) && Pops(queues, popped) && |queues| == |popped| + 1
        invariant queues[0] == multiset(old(items)) && queues[|popped|] == multiset(items)
        decreases |items|
      {
        ghost var before := items;
        var task := PopTask();
        if task == null {
          break;
        }
        PopShrinks(multiset(before), task, multiset(items));
        OnePop(queues, popped, task, multiset(items));
        popped, queues := popped + [task], queues + [multiset(items)];
      }
      DrainSorts(queues, popped);
    }
  }

  // ---------- Popping until empty ----------

  /** One pop after the other, from queue to queue. */
  ghost predicate Pops(queues: seq<multiset<Task>>, popped: seq<Task>)
    reads popped, set i, t | 0 <= i < |queues| && t in queues[i] :: t
  {
    |queues| == |popped| + 1 && forall k :: 0 <= k < |popped| ==> PopStep(queues[k], popped[k], queues[k + 1])
  }

  lemma NoPops(queue: multiset<Task>)
    ensures Pops([queue], [])
  {
  }

  lemma OnePop(queues: seq<multiset<Task>>, popped: seq<Task>, task: Task, rest: multiset<Task>)
    requires Pops(queues, popped) && PopStep(queues[|popped|], task, rest)
    ensures Pops(queues + [rest], popped + [task])
  {
    var q, p := queues + [rest], popped + [task];
    forall k | 0 <= k < |p| ensures PopStep(q[k], p[k], q[k + 1]) {
      if k < |popped| {
        assert PopStep(queues[k], popped[k], queues[k + 1]);
      }
    }
  }

  lemma PopShrinks(queue: multiset<Task>, task: Task, rest: multiset<Task>)
    requires PopStep(queue, task, rest)
    ensures |rest| < |queue|
  {
  }

  /** However many pops there are, they take queued tasks once each and leave the others. */
  lemma {:induction false} PopsConserve(queues: seq<multiset<Task>>, popped: seq<Task>)
    requires Pops(queues, popped)
    ensures queues[0] == multiset(popped) + queues[|popped|]
  {
    if popped != [] {
      assert PopStep(queues[0], popped[0], queues[1]);
      forall k | 0 <= k < |popped[1..]| ensures PopStep(queues[1..][k], popped[1..][k], queues[1..][k + 1]) {
        assert PopStep(queues[k + 1], popped[k + 1], queues[k + 2]);
      }
      PopsConserve(queues[1..], popped[1..]);
      assert popped == [popped[0]] + popped[1..];
    }
  }

  /** What is popped later was already queued, so it does not have to run earlier. */
  lemma {:induction false} PopsInOrder(queues: seq<multiset<Task>>, popped: seq<Task>, i: nat, j: nat)
    requires Pops(queues, popped) && i < j < |popped|
    ensures popped[j] in queues[i] && !Before(popped[j], popped[i])
    decreases j - i
  {
    assert PopStep(queues[i], popped[i], queues[i + 1]);
    if j > i + 1 {
      PopsInOrder(queues, popped, i + 1, j);
    } else {
      assert PopStep(queues[j], popped[j], queues[j + 1]);
    }
  }

  /** Popping until the queue is empty yields every queued task exactly once, by non-increasing priority
      and, within a priority, by non-decreasing time. */
  lemma DrainSorts(queues: seq<multiset<Task>>, popped: seq<Task>)
    requires Pops(queues, popped) && queues[|popped|] == multiset{}
    ensures multiset(popped) == queues[0]
    ensures forall i, j :: 0 <= i < j < |popped| ==>
              && popped[i].priority >= popped[j].priority
              && (popped[i].priority == popped[j].priority ==> popped[i].nextRunAt <= popped[j].nextRunAt)
  {
    PopsConserve(queues, popped);
    forall i, j | 0 <= i < j < |popped| ensures !Before(popped[j], popped[i]) {
      PopsInOrder(queues, popped, i, j);
    }
  }
}
