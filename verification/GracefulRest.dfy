/** Every shutdown of the pool comes to an end, and leaves everything closed. */
module GracefulRest {
  import opened Common
  import opened GracefulPool
  import P = WorkerPool

  // ---------- What is left to do ----------

  /** A queued job has four steps before it: it is taken, processed, its report sent and received. */
  ghost function WorkLeft<J, R>(w: Worker<J, R>): nat {
    match w
    case Selecting => 1
    case Processing(_) => 4
    case Sending(_, _) => 3
    case Exited => 0
  }

  ghost function CallLeft(p: Caller): nat {
    match p
    case Away => 0
    case DrainClosing => 1
    case Closing => 4
    case Waiting => 3
    case Stopping(_) => 2
    case Finishing(_) => 1
    case Cancelling => 4
    case ForceClosing => 3
    case ForceWaiting => 2
    case ForceFinishing => 1
  }

  ghost function WorkersLeft<J, R>(ws: seq<Worker<J, R>>): nat {
    Tally(ws, (w: Worker<J, R>) => WorkLeft(w))
  }

  ghost function CallersLeft(cs: seq<Caller>): nat {
    Tally(cs, (p: Caller) => CallLeft(p))
  }

  ghost function Left<J, R>(s: State<J, R>): nat
    requires s.received <= |s.carried|
  {
    4 * |s.jobs| + WorkersLeft(s.workers) + (|s.carried| - s.received) + CallersLeft(s.callers)
  }

  lemma MoveWorker<J, R>(ws: seq<Worker<J, R>>, w: nat, p: Worker<J, R>)
    requires w < |ws|
    ensures WorkersLeft(ws[w := p]) == WorkersLeft(ws) - WorkLeft(ws[w]) + WorkLeft(p)
  {
    TallyUpdate(ws, (q: Worker<J, R>) => WorkLeft(q), w, p);
  }

  lemma MoveCaller(cs: seq<Caller>, c: nat, p: Caller)
    requires c < |cs|
    ensures CallersLeft(cs[c := p]) == CallersLeft(cs) - CallLeft(cs[c]) + CallLeft(p)
  {
    TallyUpdate(cs, (q: Caller) => CallLeft(q), c, p);
  }

  /** The action begins another shutdown. */
  ghost predicate BeginsAny<J>(a: Action<J>) {
    a.Drain? || a.Shutdown? || a.Force?
  }

  lemma WorkLessLeft<J, R>(process: J -> Outcome<R>, s: State<J, R>, a: Action<J>)
    requires Inv(process, s) && !s.state.Running? && !IsCall(a) && Step(process, s, a).Some?
    ensures Inv(process, Step(process, s, a).value) && Left(Step(process, s, a).value) < Left(s)
  {
    hide Inv, WorkersLeft, CallersLeft;
    WorkKeepsInv(process, s, a);
    InvCounts(process, s);
    InvCounts(process, Step(process, s, a).value);
    if !a.Receive? {
      MoveWorker(s.workers, a.w, Step(process, s, a).value.workers[a.w]);
    }
  }

  lemma InvCounts<J, R>(process: J -> Outcome<R>, s: State<J, R>)
    requires Inv(process, s)
    ensures s.received <= |s.carried|
  {
  }

  lemma CallLessLeft<J, R>(process: J -> Outcome<R>, s: State<J, R>, a: Action<J>)
    requires Inv(process, s) && IsCall(a) && !BeginsAny(a) && Step(process, s, a).Some?
    ensures Inv(process, Step(process, s, a).value) && Left(Step(process, s, a).value) < Left(s)
  {
    hide Inv, WorkersLeft, CallersLeft;
    CallKeepsInv(process, s, a);
    InvCounts(process, s);
    InvCounts(process, Step(process, s, a).value);
    MoveCaller(s.callers, a.c, Step(process, s, a).value.callers[a.c]);
  }

  /** The pool does not run again. */
  lemma StaysDown<J, R>(process: J -> Outcome<R>, s: State<J, R>, a: Action<J>)
    requires !s.state.Running? && Step(process, s, a).Some?
    ensures !Step(process, s, a).value.state.Running?
    ensures s.jobsClosed ==> Step(process, s, a).value.jobsClosed
  {
  }

  // ---------- Every shutdown ends ----------

  function Follow<J, R>(process: J -> Outcome<R>, s: State<J, R>, acts: seq<Action<J>>): (t: Option<State<J, R>>) {
    if acts == [] then Some(s)
    else
      match Follow(process, s, acts[..|acts| - 1])
      case None => None
      case Some(t) => Step(process, t, acts[|acts| - 1])
  }

  /** Once the pool does not accept jobs any more, no more steps can follow than are left to do, other than the
      beginnings of further shutdowns. */
  lemma {:induction false} ShutdownEnds<J, R>(process: J -> Outcome<R>, s: State<J, R>, acts: seq<Action<J>>)
    requires Inv(process, s) && !s.state.Running? && Follow(process, s, acts).Some?
    requires forall i :: 0 <= i < |acts| ==> !BeginsAny(acts[i])
    ensures var t := Follow(process, s, acts).value;
            Inv(process, t) && !t.state.Running? && Left(t) + |acts| <= Left(s)
  {
    hide Inv, Step, Left;
    InvCounts(process, s);
    if acts != [] {
      var init, a := acts[..|acts| - 1], acts[|acts| - 1];
      ShutdownEnds(process, s, init);
      var t := Follow(process, s, init).value;
      StaysDown(process, t, a);
      if IsCall(a) {
        CallLessLeft(process, t, a);
      } else {
        WorkLessLeft(process, t, a);
      }
    }
  }

  // ---------- Where no step is left ----------

  /** Nothing but a new shutdown can happen. */
  ghost predicate AtRest<J(!new), R>(process: J -> Outcome<R>, s: State<J, R>) {
    forall a :: Step(process, s, a).Some? ==> BeginsAny(a)
  }

  /** Everything is done: all workers have exited, all callers have returned, all reports have been received. */
  ghost predicate AllDone<J, R>(s: State<J, R>) {
    && AllExited(s.workers) && (forall c :: 0 <= c < |s.callers| ==> s.callers[c].Away?)
    && s.received == |s.carried|
  }

  lemma WorkerCanGo<J, R>(process: J -> Outcome<R>, s: State<J, R>, w: nat) returns (a: Action<J>)
    requires Inv(process, s) && w < |s.workers| && !s.workers[w].Exited?
    requires s.jobsClosed || s.cancelled
    ensures !BeginsAny(a) && Step(process, s, a).Some?
  {
    match s.workers[w]
    case Selecting => a := if s.jobsClosed then Take(w) else Quit(w);
    case Processing(_) => a := Process(w);
    case Sending(_, _) =>
      a := if s.resultsClosed then SendClosed(w) else if s.received == |s.carried| then SendOut(w) else Receive;
  }

  lemma CallerCanGo<J, R>(process: J -> Outcome<R>, s: State<J, R>, c: nat)
    requires c < |s.callers| && !s.callers[c].Away? && AllExited(s.workers)
    ensures Step(process, s, Go(c)).Some?
  {
  }

  lemma CloserCanGo<J, R>(process: J -> Outcome<R>, s: State<J, R>, c: nat)
    requires c < |s.callers| && JobsClosing(s, c) && !s.jobsClosed
    ensures Step(process, s, Go(c)).Some?
  {
  }

  /** A shutdown never gets stuck: from any reachable state in which one has begun, by whichever callers, some step is
      possible until all workers have exited, all callers have returned and all reports have been received. */
  lemma NeverStuck<J(!new), R>(process: J -> Outcome<R>, setup: Setup, acts: seq<Action<J>>, c: nat)
    requires Run(process, setup, acts).Some? && c < setup.callers && Began(acts, c)
    ensures var s := Run(process, setup, acts).value; AtRest(process, s) <==> AllDone(s)
  {
    hide Step, Inv;
    RunKeepsInv(process, setup, acts);
    JobsClosedByThen(process, setup, acts, c);
    var s := Run(process, setup, acts).value;
    if !AllDone(s) {
      var a := SomebodyCanGo(process, s, c);
    } else {
      DoneIsRest(process, s);
    }
  }

  lemma SomebodyCanGo<J, R>(process: J -> Outcome<R>, s: State<J, R>, c: nat) returns (a: Action<J>)
    requires Inv(process, s) && c < |s.callers| && JobsClosing(s, c) && !AllDone(s)
    ensures !BeginsAny(a) && Step(process, s, a).Some?
  {
    hide Inv;
    if !s.jobsClosed {
      CloserCanGo(process, s, c);
      a := Go(c);
    } else if !AllExited(s.workers) {
      var w :| 0 <= w < |s.workers| && !s.workers[w].Exited?;
      a := WorkerCanGo(process, s, w);
    } else if s.received != |s.carried| {
      InvCounts(process, s);
      a := Receive;
    } else {
      var d :| 0 <= d < |s.callers| && !s.callers[d].Away?;
      CallerCanGo(process, s, d);
      a := Go(d);
    }
  }

  lemma DoneIsRest<J(!new), R>(process: J -> Outcome<R>, s: State<J, R>)
    requires Inv(process, s) && !s.state.Running? && AllDone(s)
    ensures AtRest(process, s)
  {
  }

  /** A step leaves accepted and queued jobs alone, or appends a job to both, or takes the first one out of the queue,
      or hands an accepted job straight to a worker past an empty queue. */
  lemma WorkQueue<J, R>(process: J -> Outcome<R>, s: State<J, R>, a: Action<J>)
    requires WorkStep(process, s, a).Some? && Suffix(s.jobs, s.accepted) && |s.jobs| <= s.capacity
    ensures var t := WorkStep(process, s, a).value; Suffix(t.jobs, t.accepted) && |t.jobs| <= t.capacity == s.capacity
  {
    hide Suffix;
    if a.Submit? || a.SubmitTo? {
      SuffixSteps(s.jobs, s.accepted, a.job);
    } else if a.Take? && s.jobs != [] {
      SuffixSteps(s.jobs, s.accepted, s.jobs[0]);
    }
  }

  lemma CallQueue<J, R>(process: J -> Outcome<R>, s: State<J, R>, a: Action<J>)
    requires IsCall(a) && Step(process, s, a).Some?
    ensures var t := Step(process, s, a).value; t.jobs == s.jobs && t.accepted == s.accepted && t.capacity == s.capacity
  {
  }

  lemma QueueStep<J, R>(process: J -> Outcome<R>, s: State<J, R>, a: Action<J>)
    requires Step(process, s, a).Some? && Suffix(s.jobs, s.accepted) && |s.jobs| <= s.capacity
    ensures var t := Step(process, s, a).value; Suffix(t.jobs, t.accepted) && |t.jobs| <= t.capacity == s.capacity
  {
    hide Suffix, WorkStep, CallStep;
    if IsCall(a) {
      CallQueue(process, s, a);
    } else {
      WorkQueue(process, s, a);
    }
  }

  /** What is queued is always the last part of what was accepted, in that order, and fits into the buffer: jobs are
      taken in the order in which they were accepted. */
  lemma {:induction false} TakenInOrder<J, R>(process: J -> Outcome<R>, setup: Setup, acts: seq<Action<J>>)
    requires Run(process, setup, acts).Some?
    ensures var s := Run(process, setup, acts).value;
            Suffix(s.jobs, s.accepted) && |s.jobs| <= s.capacity == setup.capacity
  {
    hide Step, Suffix;
    if acts == [] {
      NothingIsSuffix<J>();
    } else {
      var init := acts[..|acts| - 1];
      TakenInOrder(process, setup, init);
      QueueStep(process, Run(process, setup, init).value, acts[|acts| - 1]);
    }
  }

  // ---------- What a shutdown leaves behind ----------

  ghost predicate Closes<J>(a: Action<J>, c: nat) {
    (a.Shutdown? || a.Force?) && a.c == c
  }

  /** The caller began a GracefulShutdown or a ForceShutdown. */
  ghost predicate ShutsDown<J>(acts: seq<Action<J>>, c: nat) {
    acts != [] && (Closes(acts[|acts| - 1], c) || ShutsDown(acts[..|acts| - 1], c))
  }

  /** The results are closed, or the caller is on its way to it. */
  ghost predicate ResultsClosing<J, R>(s: State<J, R>, c: nat)
    requires c < |s.callers|
  {
    s.resultsClosed || (!s.callers[c].Away? && !s.callers[c].DrainClosing?)
  }

  lemma StepKeepsResultsClosing<J, R>(process: J -> Outcome<R>, s: State<J, R>, a: Action<J>, c: nat)
    requires Step(process, s, a).Some? && c < |s.callers| && (ResultsClosing(s, c) || Closes(a, c))
    ensures ResultsClosing(Step(process, s, a).value, c)
  {
  }

  lemma {:induction false} ResultsClosedByThen<J, R>(process: J -> Outcome<R>, setup: Setup, acts: seq<Action<J>>, c: nat)
    requires Run(process, setup, acts).Some? && c < setup.callers && ShutsDown(acts, c)
    ensures ResultsClosing(Run(process, setup, acts).value, c)
  {
    hide Step, ResultsClosing;
    var init, a := acts[..|acts| - 1], acts[|acts| - 1];
    if ShutsDown(init, c) {
      ResultsClosedByThen(process, setup, init, c);
    }
    StepKeepsResultsClosing(process, Run(process, setup, init).value, a, c);
  }

  lemma {:induction false} ShutsDownBegan<J>(acts: seq<Action<J>>, c: nat)
    requires ShutsDown(acts, c)
    ensures Began(acts, c)
  {
    if !Closes(acts[|acts| - 1], c) {
      ShutsDownBegan(acts[..|acts| - 1], c);
    }
  }

  /** No Drain was called on its own. */
  ghost predicate NoDrain<J>(acts: seq<Action<J>>) {
    forall i :: 0 <= i < |acts| ==> !acts[i].Drain?
  }

  /** A GracefulShutdown has begun to drain and has still to mark the pool as stopped. */
  ghost predicate WillStop(p: Caller) {
    p.Closing? || p.Waiting? || p.Stopping?
  }

  ghost predicate DrainingForShutdown<J, R>(s: State<J, R>) {
    s.state.Draining? ==> exists c :: 0 <= c < |s.callers| && WillStop(s.callers[c])
  }

  lemma StepKeepsDraining<J, R>(process: J -> Outcome<R>, s: State<J, R>, a: Action<J>)
    requires DrainingForShutdown(s) && !a.Drain? && Step(process, s, a).Some?
    ensures DrainingForShutdown(Step(process, s, a).value)
  {
    var t := Step(process, s, a).value;
    if t.state.Draining? {
      if a.Shutdown? {
        assert WillStop(t.callers[a.c]);
      } else {
        var c :| 0 <= c < |s.callers| && WillStop(s.callers[c]);
        assert WillStop(t.callers[c]);
      }
    }
  }

  lemma {:induction false} DrainsOnlyForShutdown<J, R>(process: J -> Outcome<R>, setup: Setup, acts: seq<Action<J>>)
    requires Run(process, setup, acts).Some? && NoDrain(acts)
    ensures DrainingForShutdown(Run(process, setup, acts).value)
  {
    hide Step, DrainingForShutdown;
    if acts == [] {
      StartsRunning<J, R>(setup);
    } else {
      var init := acts[..|acts| - 1];
      DrainsOnlyForShutdown(process, setup, init);
      StepKeepsDraining(process, Run(process, setup, init).value, acts[|acts| - 1]);
    }
  }

  lemma StartsRunning<J, R>(setup: Setup)
    ensures DrainingForShutdown(Init<J, R>(setup.workers, setup.callers, setup.capacity))
  {
  }

  /** When nothing is left to happen after a GracefulShutdown or ForceShutdown has begun, it has returned, all workers
      have exited, both channels are closed, and unless the pool was cancelled exactly one report of every accepted
      job has been received. The pool is then marked as stopped, if nobody called Drain on its own. */
  lemma ShutdownCompletes<J(!new), R>(process: J -> Outcome<R>, setup: Setup, acts: seq<Action<J>>, c: nat)
    requires Run(process, setup, acts).Some? && c < setup.callers && ShutsDown(acts, c)
    requires AtRest(process, Run(process, setup, acts).value)
    ensures var s := Run(process, setup, acts).value;
            && AllDone(s) && s.jobsClosed && s.resultsClosed && (NoDrain(acts) ==> s.state == Stopped)
            && (setup.workers > 0 && !s.cancelled ==>
                  multiset(P.JobsOf(s.carried[..s.received])) == multiset(s.accepted) && s.dropped == [])
  {
    hide Step, Inv, AtRest;
    ShutsDownBegan(acts, c);
    NeverStuck(process, setup, acts, c);
    JobsClosedByThen(process, setup, acts, c);
    ResultsClosedByThen(process, setup, acts, c);
    var s := Run(process, setup, acts).value;
    assert s.carried[..s.received] == s.carried;
    if setup.workers > 0 && !s.cancelled {
      OneReportPerJob(process, setup, acts);
    }
    if NoDrain(acts) {
      DrainsOnlyForShutdown(process, setup, acts);
      DownIsDown(process, setup, acts);
    }
  }

  lemma DownIsDown<J, R>(process: J -> Outcome<R>, setup: Setup, acts: seq<Action<J>>)
    requires Run(process, setup, acts).Some? && Run(process, setup, acts).value.jobsClosed
    ensures !Run(process, setup, acts).value.state.Running?
  {
    RunKeepsInv(process, setup, acts);
  }
}
