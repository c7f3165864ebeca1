/** Which of its tasks WaitAny returns, against the order in which they completed. */
module WaitOrder {
  import opened Common
  import opened TaskWaiter

  /** The completed tasks in the order in which they completed: a task joins when it is marked for the first time
      since it was last cleared, and leaves when it is cleared. */
  ghost function Order<E>(events: seq<Event<E>>): seq<TaskId> {
    if events == [] then []
    else
      var before, e := Order(events[..|events| - 1]), events[|events| - 1];
      if e.Cleared? then Without(before, e.id)
      else if e.id in before then before
      else before + [e.id]
  }

  ghost function Without(ids: seq<TaskId>, id: TaskId): seq<TaskId> {
    if ids == [] then []
    else if ids[|ids| - 1] == id then Without(ids[..|ids| - 1], id)
    else Without(ids[..|ids| - 1], id) + [ids[|ids| - 1]]
  }

  /** The one of `ids` that completed first. */
  ghost function Earliest(order: seq<TaskId>, ids: seq<TaskId>): Option<TaskId> {
    if order == [] then None
    else if order[0] in ids then Some(order[0])
    else Earliest(order[1..], ids)
  }

  lemma {:induction false} WithoutMeaning(ids: seq<TaskId>, id: TaskId)
    ensures forall x :: x in Without(ids, id) <==> x in ids && x != id
    ensures Distinct(ids) ==> Distinct(Without(ids, id))
  {
    if ids != [] {
      var init, last := ids[..|ids| - 1], ids[|ids| - 1];
      WithoutMeaning(init, id);
      if Distinct(ids) {
        DistinctInit(ids);
        if last != id {
          DistinctAppend(Without(init, id), last);
        }
      }
    }
  }

  /** Exactly the tasks that are recorded as completed are in the order, once each. */
  lemma {:induction false} OrderMeaning<E>(events: seq<Event<E>>)
    ensures Distinct(Order(events))
    ensures forall id :: id in Order(events) <==> Recorded(events, id).Some?
  {
    if events != [] {
      var init, e := events[..|events| - 1], events[|events| - 1];
      OrderMeaning(init);
      if e.Cleared? {
        WithoutMeaning(Order(init), e.id);
      } else if e.id !in Order(init) {
        DistinctAppend(Order(init), e.id);
      }
    }
  }

  /** `a` completed before `b`. */
  ghost predicate CompletedBefore(order: seq<TaskId>, a: TaskId, b: TaskId) {
    exists i, j :: 0 <= i < j < |order| && order[i] == a && order[j] == b
  }

  lemma {:induction false} EarliestMeaning(order: seq<TaskId>, ids: seq<TaskId>, id: TaskId)
    requires Distinct(order) && id in order && id in ids
    ensures Earliest(order, ids) == Some(id) <==> forall x :: x in ids ==> !CompletedBefore(order, x, id)
  {
    var rest := order[1..];
    if order[0] == id {
      forall x ensures !CompletedBefore(order, x, id) {
        DistinctFrom(order, 0);
      }
    } else if order[0] in ids {
      var j :| 0 <= j < |order| && order[j] == id;
      assert CompletedBefore(order, order[0], id);
    } else {
      EarliestMeaning(rest, ids, id);
      forall x | x in ids ensures CompletedBefore(order, x, id) <==> CompletedBefore(rest, x, id) {
        BeforeTail(order, x, id);
      }
    }
  }

  lemma BeforeTail(order: seq<TaskId>, a: TaskId, b: TaskId)
    requires order != [] && order[0] != a
    ensures CompletedBefore(order, a, b) <==> CompletedBefore(order[1..], a, b)
  {
    var rest := order[1..];
    if CompletedBefore(order, a, b) {
      var i, j :| 0 <= i < j < |order| && order[i] == a && order[j] == b;
      assert rest[i - 1] == a && rest[j - 1] == b;
    }
    if CompletedBefore(rest, a, b) {
      var i, j :| 0 <= i < j < |rest| && rest[i] == a && rest[j] == b;
      assert order[i + 1] == a && order[j + 1] == b;
    }
  }

  /** In every reachable state, a WaitAny has returned the one of its tasks that completed first if and only if
      no argument completed when it looked had completed before the first completed one in argument order. */
  lemma WaitAnyEarliest<E>(goroutines: nat, acts: seq<Action<E>>, i: nat)
    requires Run(goroutines, acts).Some? && i < |Run(goroutines, acts).value.answers|
    requires Run(goroutines, acts).value.answers[i].outcome.First?
    ensures var s := Run(goroutines, acts).value;
            var a := s.answers[i];
            && a.at <= |s.events| && a.request.AnyOf?
            && var (order, ids, id) := (Order(s.events[..a.at]), a.request.ids, a.outcome.id);
               && FirstListed(order, ids) == Some(id)
               && (Earliest(order, ids) == Some(id) <==> forall x :: x in ids ==> !CompletedBefore(order, x, id))
  {
    hide Run, Order, Earliest, Recorded;
    AnswersAreTruthful(goroutines, acts, i);
    var s := Run(goroutines, acts).value;
    var a := s.answers[i];
    var events := s.events[..a.at];
    OrderMeaning(events);
    assert Truthful(events, a.request, a.outcome);
    var j :| 0 <= j < |a.request.ids| && a.request.ids[j] == a.outcome.id
             && forall k :: 0 <= k < j ==> Recorded(events, a.request.ids[k]) == None;
    FirstListedAt(Order(events), a.request.ids, j);
    EarliestMeaning(Order(events), a.request.ids, a.outcome.id);
  }

  /** The first of `ids` that is completed at all. */
  ghost function FirstListed(order: seq<TaskId>, ids: seq<TaskId>): Option<TaskId> {
    if ids == [] then None
    else if ids[0] in order then Some(ids[0])
    else FirstListed(order, ids[1..])
  }

  lemma {:induction false} FirstListedAt(order: seq<TaskId>, ids: seq<TaskId>, j: nat)
    requires j < |ids| && ids[j] in order && forall k :: 0 <= k < j ==> ids[k] !in order
    ensures FirstListed(order, ids) == Some(ids[j])
  {
    if j > 0 {
      FirstListedAt(order, ids[1..], j - 1);
    }
  }

  /** At most one of `ids` is completed. */
  ghost predicate AtMostOne<E>(events: seq<Event<E>>, ids: seq<TaskId>) {
    forall x, y :: x in ids && y in ids && Recorded(events, x).Some? && Recorded(events, y).Some? ==> x == y
  }

  /** That is so whenever only one of its tasks is completed when it looks. */
  lemma OnlyOneIsEarliest<E>(goroutines: nat, acts: seq<Action<E>>, i: nat)
    requires Run(goroutines, acts).Some? && i < |Run(goroutines, acts).value.answers|
    requires var s := Run(goroutines, acts).value;
             && s.answers[i].outcome.First? && s.answers[i].request.AnyOf? && s.answers[i].at <= |s.events|
             && AtMostOne(s.events[..s.answers[i].at], s.answers[i].request.ids)
    ensures var s := Run(goroutines, acts).value;
            Earliest(Order(s.events[..s.answers[i].at]), s.answers[i].request.ids) == Some(s.answers[i].outcome.id)
  {
    hide Run, Order, Earliest, FirstListed, Recorded;
    WaitAnyEarliest(goroutines, acts, i);
    AnswersAreTruthful(goroutines, acts, i);
    var s := Run(goroutines, acts).value;
    var events, ids, id := s.events[..s.answers[i].at], s.answers[i].request.ids, s.answers[i].outcome.id;
    OrderMeaning(events);
    forall x | x in ids ensures !CompletedBefore(Order(events), x, id) {
      if CompletedBefore(Order(events), x, id) {
        var p, q :| 0 <= p < q < |Order(events)| && Order(events)[p] == x && Order(events)[q] == id;
        DistinctFrom(Order(events), p);
      }
    }
  }

  lemma RunSnoc<E>(goroutines: nat, acts: seq<Action<E>>, a: Action<E>)
    requires Run(goroutines, acts).Some?
    ensures Run(goroutines, acts + [a]) == Step(Run(goroutines, acts).value, a)
  {
    assert (acts + [a])[..|acts|] == acts;
  }

  /** Two tasks are marked, "b" first; a WaitAny for "a" and "b" then returns "a". */
  lemma FirstListedNotEarliest<E>() returns (acts: seq<Action<E>>)
    ensures Run(1, acts).Some?
    ensures var s := Run(1, acts).value;
            && s.answers == [Answer(AnyOf(["a", "b"]), First("a", None), 2)]
            && s.events == [Marked("b", None), Marked("a", None)]
            && Order(s.events) == ["b", "a"] && Earliest(Order(s.events), ["a", "b"]) == Some("b")
  {
    acts := [];
    RunSnoc(1, acts, Mark(0, "b", None));
    acts := acts + [Mark(0, "b", None)];
    RunSnoc(1, acts, Broadcast(0));
    acts := acts + [Broadcast(0)];
    RunSnoc(1, acts, Mark(0, "a", None));
    acts := acts + [Mark(0, "a", None)];
    RunSnoc(1, acts, Broadcast(0));
    acts := acts + [Broadcast(0)];
    RunSnoc(1, acts, Call(0, AnyOf(["a", "b"]), false));
    acts := acts + [Call(0, AnyOf(["a", "b"]), false)];
    var s := Run(1, acts).value;
    OrderOfTwo<E>("b", "a");
    assert s.events == [Marked("b", None), Marked("a", None)];
    assert FirstDone(["a", "b"], s.completed) == Some(0);
  }

  lemma OrderOfTwo<E>(first: TaskId, second: TaskId)
    requires first != second
    ensures Order<E>([Marked(first, None), Marked(second, None)]) == [first, second]
  {
    var events: seq<Event<E>> := [Marked(first, None), Marked(second, None)];
    assert events[..1] == [Marked(first, None)] && [Event<E>.Marked(first, None)][..0] == [];
    assert Order<E>([Marked(first, None)]) == [first];
  }
}
