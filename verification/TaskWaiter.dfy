/** Waiting for tasks on a condition variable: any number of waiters, markers and resetters, interleaved
    in any way, one step per locked section or broadcast. */
module TaskWaiter {
  import opened Common

  type TaskId = string

  /** What a call waits for; an error of None is nil. */
  datatype Request = One(id: TaskId) | AnyOf(ids: seq<TaskId>) | AllOf(ids: seq<TaskId>)

  datatype Outcome<E> =
    | Single(error: Option<E>)
    | First(id: TaskId, error: Option<E>)
    | Everything(errors: map<TaskId, Option<E>>)
    | Cancelled

  datatype Event<E> = Marked(id: TaskId, error: Option<E>) | Cleared(id: TaskId)

  /** A return from Wait, WaitAny or WaitAll, made when `at` events had happened. */
  datatype Answer<E> = Answer(request: Request, outcome: Outcome<E>, at: nat)

  datatype Phase =
    | Idle
    | Parked(request: Request)   // in cond.Wait, not notified yet
    | Woken(request: Request)    // notified, about to lock and look again
    | Marking(id: TaskId)                // MarkComplete has unlocked and not broadcast yet

  /** `cancelled` are the goroutines whose context is done; `events` and `answers` are histories. */
  datatype State<E> = State(
    completed: set<TaskId>,
    errors: map<TaskId, Option<E>>,
    phases: seq<Phase>,
    cancelled: set<nat>,
    events: seq<Event<E>>,
    answers: seq<Answer<E>>)

  datatype Action<E> =
    | Call(g: nat, request: Request, done: bool)   // `done`: with a context that is done already
    | Recheck(g: nat)
    | Mark(g: nat, id: TaskId, error: Option<E>)
    | Broadcast(g: nat)
    | Reset(g: nat, id: TaskId)
    | Cancel(g: nat)
    | CancelBroadcast(g: nat)

  // ---------- What one look at the maps decides ----------

  function ErrorOf<E>(errors: map<TaskId, Option<E>>, id: TaskId): Option<E> {
    if id in errors then errors[id] else None
  }

  /** The place of the first of `ids` that is completed. */
  function FirstDone(ids: seq<TaskId>, completed: set<TaskId>): (i: Option<nat>)
    ensures i.Some? ==> i.value < |ids| && ids[i.value] in completed
    ensures i.Some? ==> forall k :: 0 <= k < i.value ==> ids[k] !in completed
    ensures i.None? ==> forall k :: 0 <= k < |ids| ==> ids[k] !in completed
  {
    if ids == [] then None
    else if ids[0] in completed then Some(0)
    else
      match FirstDone(ids[1..], completed)
      case None => (assert forall k :: 0 < k < |ids| ==> ids[k] == ids[1..][k - 1]; None)
      case Some(i) => (assert forall k :: 0 < k <= i ==> ids[k] == ids[1..][k - 1]; Some(i + 1))
  }

  function ErrorsOf<E>(ids: seq<TaskId>, errors: map<TaskId, Option<E>>): map<TaskId, Option<E>> {
    map id | id in ids :: ErrorOf(errors, id)
  }

  /** What a locked look returns; None means that the caller goes to sleep. Wait looks at the task before
      the context; WaitAny does so on entry only, afterwards the context comes first; in WaitAll always. */
  function Decide<E>(completed: set<TaskId>, errors: map<TaskId, Option<E>>, r: Request, done: bool, entry: bool)
    : Option<Outcome<E>>
  {
    match r
    case One(id) =>
      if id in completed then Some(Single(ErrorOf(errors, id))) else if done then Some(Cancelled) else None
    case AnyOf(ids) =>
      var i := FirstDone(ids, completed);
      if done && (!entry || i.None?) then Some(Cancelled)
      else if i.Some? then Some(First(ids[i.value], ErrorOf(errors, ids[i.value])))
      else None
    case AllOf(ids) =>
      if done then Some(Cancelled)
      else if forall id :: id in ids ==> id in completed then Some(Everything(ErrorsOf(ids, errors)))
      else None
  }

  // ---------- The machine ----------

  function Init<E>(goroutines: nat): State<E> {
    State({}, map[], seq(goroutines, _ => Idle), {}, [], [])
  }

  /** A broadcast notifies everybody that is parked. */
  function WakeAll(phases: seq<Phase>): seq<Phase> {
    seq(|phases|, i requires 0 <= i < |phases| =>
          if phases[i].Parked? then Woken(phases[i].request) else phases[i])
  }

  /** Looks under the lock, then returns or parks. */
  function LookUp<E>(s: State<E>, g: nat, r: Request, entry: bool): State<E>
    requires g < |s.phases|
  {
    match Decide(s.completed, s.errors, r, g in s.cancelled, entry)
    case None => s.(phases := s.phases[g := Parked(r)])
    case Some(o) => s.(phases := s.phases[g := Idle], answers := s.answers + [Answer(r, o, |s.events|)])
  }

  function Step<E>(s: State<E>, a: Action<E>): (t: Option<State<E>>)
    ensures t.Some? ==> |t.value.phases| == |s.phases|
  {
    if a.g >= |s.phases| then None
    else
      var p := s.phases[a.g];
      match a
      case Call(g, r, done) =>
        if !p.Idle? then None
        else Some(LookUp(s.(cancelled := if done then s.cancelled + {g} else s.cancelled - {g}), g, r, true))
      case Recheck(g) =>
        if p.Woken? then Some(LookUp(s, g, p.request, false)) else None
      case Mark(g, id, error) =>
        if !p.Idle? then None
        else Some(s.(completed := s.completed + {id}, errors := s.errors[id := error],
                     phases := s.phases[g := Marking(id)], events := s.events + [Marked(id, error)]))
      case Broadcast(g) =>
        if p.Marking? then Some(s.(phases := WakeAll(s.phases[g := Idle]))) else None
      case Reset(g, id) =>
        if !p.Idle? then None
        else Some(s.(completed := s.completed - {id}, errors := s.errors - {id}, events := s.events + [Cleared(id)]))
      case Cancel(g) =>
        Some(s.(cancelled := s.cancelled + {g}))
      case CancelBroadcast(g) =>
        if g in s.cancelled && (p.Parked? || p.Woken?) then Some(s.(phases := WakeAll(s.phases))) else None
  }

  function Run<E>(goroutines: nat, acts: seq<Action<E>>): (t: Option<State<E>>)
    ensures t.Some? ==> |t.value.phases| == goroutines
  {
    if acts == [] then Some(Init(goroutines))
    else
      match Run(goroutines, acts[..|acts| - 1])
      case None => None
      case Some(s) => Step(s, acts[|acts| - 1])
  }

  // ---------- No wakeup is lost ----------

  predicate Awaits(r: Request, id: TaskId) {
    match r
    case One(i) => i == id
    case AnyOf(ids) => id in ids
    case AllOf(ids) => id in ids
  }

  ghost predicate Satisfied(r: Request, completed: set<TaskId>) {
    match r
    case One(id) => id in completed
    case AnyOf(ids) => exists id :: id in ids && id in completed
    case AllOf(ids) => forall id :: id in ids ==> id in completed
  }

  /** Some MarkComplete of a task that `r` awaits has unlocked, but not broadcast. */
  ghost predicate BroadcastDue<E>(s: State<E>, r: Request) {
    exists h :: 0 <= h < |s.phases| && s.phases[h].Marking? && Awaits(r, s.phases[h].id)
  }

  ghost predicate WaiterOk<E>(s: State<E>, g: nat)
    requires g < |s.phases|
  {
    s.phases[g].Parked? && Satisfied(s.phases[g].request, s.completed) ==> BroadcastDue(s, s.phases[g].request)
  }

  ghost predicate Inv<E>(s: State<E>) {
    forall g :: 0 <= g < |s.phases| ==> WaiterOk(s, g)
  }

  /** A caller goes to sleep on an unsatisfied request only. */
  lemma ParksUnsatisfied<E>(completed: set<TaskId>, errors: map<TaskId, Option<E>>, r: Request, done: bool, entry: bool)
    requires Decide(completed, errors, r, done, entry).None?
    ensures !Satisfied(r, completed) && !done
  {
    if r.AnyOf? {
      assert forall id :: id in r.ids ==> exists k :: 0 <= k < |r.ids| && r.ids[k] == id;
    }
  }

  /** Completing one more task can satisfy only a request that awaits it. */
  lemma SatisfiedByMark(r: Request, completed: set<TaskId>, id: TaskId)
    requires Satisfied(r, completed + {id}) && !Satisfied(r, completed)
    ensures Awaits(r, id)
  {
  }

  lemma StepKeepsWaiter<E>(s: State<E>, a: Action<E>, g: nat)
    requires Inv(s) && Step(s, a).Some? && g < |s.phases|
    ensures WaiterOk(Step(s, a).value, g)
  {
    var t := Step(s, a).value;
    if t.phases[g].Parked? && Satisfied(t.phases[g].request, t.completed) {
      var r := t.phases[g].request;
      match a
      case Call(_, _, done) =>
        if g == a.g {
          ParksUnsatisfied(s.completed, s.errors, r, done, true);
        } else {
          StillDue(s, t, g);
        }
      case Recheck(_) =>
        if g == a.g {
          ParksUnsatisfied(s.completed, s.errors, r, g in s.cancelled, false);
        } else {
          StillDue(s, t, g);
        }
      case Mark(_, id, _) =>
        if Satisfied(r, s.completed) {
          StillDue(s, t, g);
        } else {
          SatisfiedByMark(r, s.completed, id);
          assert t.phases[a.g] == Marking(id);
        }
      case Reset(_, _) => StillDue(s, t, g);
      case Cancel(_) => StillDue(s, t, g);
      case _ =>
    }
  }

  /** A broadcast that is due stays due as long as its marker does not move. */
  lemma StillDue<E>(s: State<E>, t: State<E>, g: nat)
    requires Inv(s) && |t.phases| == |s.phases| && g < |s.phases|
    requires s.phases[g].Parked? && t.phases[g] == s.phases[g] && Satisfied(s.phases[g].request, s.completed)
    requires forall h :: 0 <= h < |s.phases| && s.phases[h].Marking? ==> t.phases[h] == s.phases[h]
    ensures BroadcastDue(t, t.phases[g].request)
  {
    assert WaiterOk(s, g);
    var h :| 0 <= h < |s.phases| && s.phases[h].Marking? && Awaits(s.phases[g].request, s.phases[h].id);
    assert t.phases[h] == s.phases[h];
  }

  lemma {:induction false} RunKeepsInv<E>(goroutines: nat, acts: seq<Action<E>>)
    requires Run(goroutines, acts).Some?
    ensures Inv(Run(goroutines, acts).value)
  {
    if acts != [] {
      var init, a := acts[..|acts| - 1], acts[|acts| - 1];
      RunKeepsInv(goroutines, init);
      var s := Run(goroutines, init).value;
      forall g | 0 <= g < |s.phases| ensures WaiterOk(Step(s, a).value, g) {
        StepKeepsWaiter(s, a, g);
      }
    }
  }

  /** Whoever is asleep although what it waits for holds already, will be woken: a MarkComplete of one
      of its tasks has still to broadcast. Hence nobody sleeps on a satisfied request once all
      MarkComplete calls have returned. Resets do not spoil this. */
  lemma NoLostWakeup<E>(goroutines: nat, acts: seq<Action<E>>, g: nat)
    requires Run(goroutines, acts).Some? && g < goroutines
    requires var s := Run(goroutines, acts).value;
             s.phases[g].Parked? && Satisfied(s.phases[g].request, s.completed)
    ensures var s := Run(goroutines, acts).value;
            exists h :: 0 <= h < goroutines && s.phases[h].Marking? && Awaits(s.phases[g].request, s.phases[h].id)
  {
    RunKeepsInv(goroutines, acts);
    assert WaiterOk(Run(goroutines, acts).value, g);
  }

  /** After that broadcast, a waiter whose context is not done returns the outcome at its next look,
      provided the condition still holds. */
  lemma WokenReturns<E>(s: State<E>, g: nat)
    requires g < |s.phases| && s.phases[g].Woken? && Satisfied(s.phases[g].request, s.completed)
    ensures Step(s, Recheck(g)).Some? && Step(s, Recheck(g)).value.phases[g].Idle?
    ensures |Step(s, Recheck(g)).value.answers| == |s.answers| + 1
    ensures g !in s.cancelled ==> !Step(s, Recheck(g)).value.answers[|s.answers|].outcome.Cancelled?
  {
    var r := s.phases[g].request;
    if Decide(s.completed, s.errors, r, g in s.cancelled, false).None? {
      ParksUnsatisfied(s.completed, s.errors, r, g in s.cancelled, false);
      assert false;
    }
  }

  // ---------- What a look comes to ----------

  /** The action is a locked look: a call on its entry, or a recheck after a wakeup. */
  ghost predicate Looks<E>(s: State<E>, a: Action<E>) {
    a.g < |s.phases| && ((a.Call? && s.phases[a.g].Idle?) || (a.Recheck? && s.phases[a.g].Woken?))
  }

  ghost function Asked<E>(s: State<E>, a: Action<E>): Request
    requires Looks(s, a)
  {
    if a.Call? then a.request else s.phases[a.g].request
  }

  ghost predicate ContextDone<E>(s: State<E>, a: Action<E>)
    requires Looks(s, a)
  {
    if a.Call? then a.done else a.g in s.cancelled
  }

  /** Wait returns the outcome before it looks at its context, and so does WaitAny on entry. */
  ghost predicate OutcomeFirst(r: Request, entry: bool) {
    r.One? || (r.AnyOf? && entry)
  }

  lemma FirstDoneSatisfies(ids: seq<TaskId>, completed: set<TaskId>)
    ensures FirstDone(ids, completed).Some? <==> Satisfied(AnyOf(ids), completed)
  {
    if FirstDone(ids, completed).None? {
      assert forall id :: id in ids ==> exists k :: 0 <= k < |ids| && ids[k] == id;
    }
  }

  /** A look parks if and only if what it waits for does not hold and its context is live; otherwise it returns,
      and gives up if and only if its context is done and it has not found the outcome before. */
  lemma LookExactly<E>(s: State<E>, a: Action<E>)
    requires Looks(s, a)
    ensures Step(s, a).Some?
    ensures var t := Step(s, a).value;
            var (r, holds, done) := (Asked(s, a), Satisfied(Asked(s, a), s.completed), ContextDone(s, a));
            && (t.phases[a.g] == Parked(r) <==> !holds && !done)
            && (t.phases[a.g].Parked? ==> t.answers == s.answers)
            && (!t.phases[a.g].Parked? ==>
                  && t.phases[a.g].Idle? && |t.answers| == |s.answers| + 1 && t.answers[..|s.answers|] == s.answers
                  && var o := t.answers[|s.answers|];
                     && o.request == r && o.at == |s.events|
                     && (o.outcome.Cancelled? <==> done && !(holds && OutcomeFirst(r, a.Call?))))
  {
    var r := Asked(s, a);
    if r.AnyOf? {
      FirstDoneSatisfies(r.ids, s.completed);
    }
  }

  /** A MarkComplete that has unlocked can broadcast, and so can a context that is done while its goroutine waits;
      either wakes everybody that is asleep. */
  lemma BroadcastWakes<E>(s: State<E>, a: Action<E>, g: nat)
    requires a.g < |s.phases| && g < |s.phases| && s.phases[g].Parked?
    requires || (a.Broadcast? && s.phases[a.g].Marking?)
             || (a.CancelBroadcast? && a.g in s.cancelled && (s.phases[a.g].Parked? || s.phases[a.g].Woken?))
    ensures Step(s, a).Some? && Step(s, a).value.phases[g] == Woken(s.phases[g].request)
  {
  }

  /** Only looks return anything. */
  lemma OnlyLooksReturn<E>(s: State<E>, a: Action<E>)
    requires Step(s, a).Some? && Step(s, a).value.answers != s.answers
    ensures Looks(s, a)
  {
  }

  /** Whether the context of `g` is done: it was when g made its last call, or it has been cancelled since. */
  ghost predicate DoneBy<E>(acts: seq<Action<E>>, g: nat) {
    acts != [] &&
    var a := acts[|acts| - 1];
    if a.g == g && a.Call? then a.done
    else (a.g == g && a.Cancel?) || DoneBy(acts[..|acts| - 1], g)
  }

  lemma {:induction false} CancelledMeaning<E>(goroutines: nat, acts: seq<Action<E>>, g: nat)
    requires Run(goroutines, acts).Some?
    ensures g in Run(goroutines, acts).value.cancelled <==> DoneBy(acts, g)
  {
    if acts != [] {
      CancelledMeaning(goroutines, acts[..|acts| - 1], g);
    }
  }

  /** Over every run: whoever is told that its context is done has a context that is done, and what it waited for did
      not hold when it looked, unless it was a WaitAny after a wakeup or a WaitAll. */
  lemma NobodyGivesUpEarly<E>(goroutines: nat, acts: seq<Action<E>>, a: Action<E>)
    requires Run(goroutines, acts + [a]).Some? && Run(goroutines, acts).Some?
    requires var (s, t) := (Run(goroutines, acts).value, Run(goroutines, acts + [a]).value);
             t.answers != s.answers && t.answers[|t.answers| - 1].outcome.Cancelled?
    ensures var (s, t) := (Run(goroutines, acts).value, Run(goroutines, acts + [a]).value);
            && DoneBy(acts + [a], a.g)
            && var r := t.answers[|t.answers| - 1].request;
               Satisfied(r, s.completed) ==> r.AllOf? || (r.AnyOf? && a.Recheck?)
  {
    assert (acts + [a])[..|acts|] == acts;
    var s := Run(goroutines, acts).value;
    OnlyLooksReturn(s, a);
    LookExactly(s, a);
    CancelledMeaning(goroutines, acts, a.g);
  }

  /** When no waiter, no MarkComplete and no context that is done has anything left to do, whoever still waits does so
      for something that does not hold, and with a live context. */
  lemma RestIsWaiting<E(!new)>(goroutines: nat, acts: seq<Action<E>>)
    requires Run(goroutines, acts).Some?
    ensures var s := Run(goroutines, acts).value;
            (forall a :: Step(s, a).Some? ==> a.Call? || a.Mark? || a.Reset? || a.Cancel?) <==>
            forall g :: 0 <= g < goroutines && !s.phases[g].Idle? ==>
              && s.phases[g].Parked? && g !in s.cancelled && !Satisfied(s.phases[g].request, s.completed)
  {
    var s := Run(goroutines, acts).value;
    if forall a :: Step(s, a).Some? ==> a.Call? || a.Mark? || a.Reset? || a.Cancel? {
      forall g | 0 <= g < goroutines && !s.phases[g].Idle?
        ensures s.phases[g].Parked? && g !in s.cancelled && !Satisfied(s.phases[g].request, s.completed)
      {
        CanMove(s, g);
        if Satisfied(s.phases[g].request, s.completed) {
          NoLostWakeup(goroutines, acts, g);
          var h :| 0 <= h < goroutines && s.phases[h].Marking?;
          CanMove(s, h);
        }
      }
    }
  }

  lemma CanMove<E>(s: State<E>, g: nat)
    requires g < |s.phases|
    ensures s.phases[g].Woken? ==> Step(s, Recheck(g)).Some?
    ensures s.phases[g].Marking? ==> Step(s, Broadcast(g)).Some?
    ensures s.phases[g].Parked? && g in s.cancelled ==> Step(s, CancelBroadcast(g)).Some?
  {
  }

  // ---------- What is returned is what was recorded ----------

  /** The error that the last MarkComplete of `id` recorded, unless a later Reset cleared it. */
  ghost function Recorded<E>(events: seq<Event<E>>, id: TaskId): Option<Option<E>> {
    if events == [] then None
    else
      var e := events[|events| - 1];
      if e.id != id then Recorded(events[..|events| - 1], id)
      else if e.Marked? then Some(e.error) else None
  }

  ghost predicate MapsOk<E>(s: State<E>) {
    && s.errors.Keys == s.completed
    && (forall id: TaskId :: id in s.completed <==> Recorded(s.events, id).Some?)
    && (forall id :: id in s.completed ==> Recorded(s.events, id) == Some(s.errors[id]))
  }

  /** What an outcome says about the events up to it. */
  ghost predicate Truthful<E>(events: seq<Event<E>>, r: Request, o: Outcome<E>) {
    match o
    case Cancelled => true
    case Single(error) => r.One? && Recorded(events, r.id) == Some(error)
    case First(id, error) =>
      && r.AnyOf? && Recorded(events, id) == Some(error)
      && exists i :: 0 <= i < |r.ids| && r.ids[i] == id && forall k :: 0 <= k < i ==> Recorded(events, r.ids[k]) == None
    case Everything(errors) =>
      && r.AllOf?
      && (forall id :: id in errors <==> id in r.ids)
      && (forall id :: id in r.ids ==> Recorded(events, id) == Some(errors[id]))
  }

  lemma {:induction false} RecordedLast<E>(events: seq<Event<E>>, e: Event<E>, id: TaskId)
    ensures Recorded(events + [e], id) ==
            if e.id != id then Recorded(events, id) else if e.Marked? then Some(e.error) else None
  {
    assert (events + [e])[..|events|] == events;
  }

  lemma StepKeepsMaps<E>(s: State<E>, a: Action<E>)
    requires MapsOk(s) && Step(s, a).Some?
    ensures MapsOk(Step(s, a).value)
  {
    var t := Step(s, a).value;
    if a.Mark? || a.Reset? {
      forall id: TaskId ensures id in t.completed <==> Recorded(t.events, id).Some? {
        RecordedLast(s.events, t.events[|s.events|], id);
      }
      forall id | id in t.completed ensures Recorded(t.events, id) == Some(t.errors[id]) {
        RecordedLast(s.events, t.events[|s.events|], id);
      }
    }
  }

  lemma DecideTruthful<E>(s: State<E>, r: Request, done: bool, entry: bool)
    requires MapsOk(s) && Decide(s.completed, s.errors, r, done, entry).Some?
    ensures Truthful(s.events, r, Decide(s.completed, s.errors, r, done, entry).value)
  {
    if r.AnyOf? && FirstDone(r.ids, s.completed).Some? {
      var i := FirstDone(r.ids, s.completed).value;
      assert forall k :: 0 <= k < i ==> Recorded(s.events, r.ids[k]) == None;
    }
  }

  ghost predicate AnswersOk<E>(s: State<E>) {
    forall i :: 0 <= i < |s.answers| ==>
      s.answers[i].at <= |s.events| && Truthful(s.events[..s.answers[i].at], s.answers[i].request, s.answers[i].outcome)
  }

  lemma StepKeepsAnswers<E>(s: State<E>, a: Action<E>)
    requires MapsOk(s) && AnswersOk(s) && Step(s, a).Some?
    ensures AnswersOk(Step(s, a).value)
  {
    var t := Step(s, a).value;
    assert s.events <= t.events;
    assert s.events[..|s.events|] == s.events;
    if a.Call? {
      if t.answers != s.answers {
        DecideTruthful(s, a.request, a.done, true);
      }
    } else if a.Recheck? {
      if t.answers != s.answers {
        DecideTruthful(s, s.phases[a.g].request, a.g in s.cancelled, false);
      }
    }
    forall i | 0 <= i < |s.answers|
      ensures t.events[..s.answers[i].at] == s.events[..s.answers[i].at]
    {
    }
  }

  lemma {:induction false} RunKeepsAnswers<E>(goroutines: nat, acts: seq<Action<E>>)
    requires Run(goroutines, acts).Some?
    ensures MapsOk(Run(goroutines, acts).value) && AnswersOk(Run(goroutines, acts).value)
  {
    if acts != [] {
      var init, a := acts[..|acts| - 1], acts[|acts| - 1];
      RunKeepsAnswers(goroutines, init);
      StepKeepsMaps(Run(goroutines, init).value, a);
      StepKeepsAnswers(Run(goroutines, init).value, a);
    }
  }

  /** Every return tells what the last MarkComplete calls before it recorded. */
  lemma AnswersAreTruthful<E>(goroutines: nat, acts: seq<Action<E>>, i: nat)
    requires Run(goroutines, acts).Some? && i < |Run(goroutines, acts).value.answers|
    ensures var s := Run(goroutines, acts).value;
            && s.answers[i].at <= |s.events|
            && Truthful(s.events[..s.answers[i].at], s.answers[i].request, s.answers[i].outcome)
  {
    RunKeepsAnswers(goroutines, acts);
  }

  // ---------- The object itself ----------

  class TaskWaiter<E> {
    var completed: map<TaskId, bool>
    var errors: map<TaskId, Option<E>>

    /** Only true is ever stored, so the keys are what is completed. */
    ghost predicate Valid()
      reads this
    {
      forall id :: id in completed ==> completed[id]
    }

    constructor ()
      ensures Valid() && completed == map[] && errors == map[]
    {
      completed, errors := map[], map[];
    }

    predicate IsCompleted(id: TaskId)
      reads this
    {
      id in completed && completed[id]
    }

    /** The locked section of MarkComplete. */
    method Record(id: TaskId, error: Option<E>)
      requires Valid()
      modifies this
      ensures Valid() && completed.Keys == old(completed.Keys) + {id} && errors == old(errors)[id := error]
    {
      completed := completed[id := true];
      errors := errors[id := error];
    }

    method Reset(id: TaskId)
      requires Valid()
      modifies this
      ensures Valid() && completed.Keys == old(completed.Keys) - {id} && errors == old(errors) - {id}
    {
      completed := completed - {id};
      errors := errors - {id};
    }

    /** One locked look of Wait. */
    method LookOne(id: TaskId, done: bool, ghost entry: bool) returns (o: Option<Outcome<E>>)
      requires Valid()
      ensures o == Decide(completed.Keys, errors, One(id), done, entry)
      ensures o.None? <==> id !in completed && !done
      ensures o == Some(Cancelled) <==> id !in completed && done
    {
      if IsCompleted(id) {
        return Some(Single(ErrorOf(errors, id)));
      }
      o := if done then Some(Cancelled) else None;
    }

    /** The loop of WaitAny over the task ids. */
    method ScanAny(ids: seq<TaskId>) returns (i: Option<nat>)
      requires Valid()
      ensures i == FirstDone(ids, completed.Keys)
    {
      for k := 0 to |ids|
        invariant forall j :: 0 <= j < k ==> ids[j] !in completed
      {
        if IsCompleted(ids[k]) {
          return Some(k);
        }
      }
      return None;
    }

    /** One locked look of WaitAny: on entry it scans before it looks at the context. */
    method LookAny(ids: seq<TaskId>, done: bool, entry: bool) returns (o: Option<Outcome<E>>)
      requires Valid()
      ensures o == Decide(completed.Keys, errors, AnyOf(ids), done, entry)
      ensures o.None? <==> (forall id :: id in ids ==> id !in completed) && !done
      ensures o == Some(Cancelled) <==> done && (entry ==> forall id :: id in ids ==> id !in completed)
    {
      FirstDoneSatisfies(ids, completed.Keys);
      if entry {
        var i := ScanAny(ids);
        if i.Some? {
          return Some(First(ids[i.value], ErrorOf(errors, ids[i.value])));
        }
      }
      if done {
        return Some(Cancelled);
      }
      var i := ScanAny(ids);
      if i.Some? {
        return Some(First(ids[i.value], ErrorOf(errors, ids[i.value])));
      }
      return None;
    }

    /** One locked look of WaitAll. */
    method LookAll(ids: seq<TaskId>, done: bool, ghost entry: bool) returns (o: Option<Outcome<E>>)
      requires Valid()
      ensures o == Decide(completed.Keys, errors, AllOf(ids), done, entry)
      ensures o.None? <==> !(forall id :: id in ids ==> id in completed) && !done
      ensures o == Some(Cancelled) <==> done
    {
      if done {
        return Some(Cancelled);
      }
      var allDone := true;
      for k := 0 to |ids|
        invariant allDone && forall j :: 0 <= j < k ==> ids[j] in completed
      {
        if !IsCompleted(ids[k]) {
          allDone := false;
          break;
        }
      }
      if !allDone {
        return None;
      }
      var results: map<TaskId, Option<E>> := map[];
      for k := 0 to |ids|
        invariant results == ErrorsOf(ids[..k], errors)
      {
        assert ids[..k + 1] == ids[..k] + [ids[k]];
        results := results[ids[k] := ErrorOf(errors, ids[k])];
      }
      assert ids[..|ids|] == ids;
      return Some(Everything(results));
    }
  }
}
