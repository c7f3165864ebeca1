/** A worker pool that can be drained and shut down, gracefully with a timeout or by force: any number of
    workers and of shutdown callers, interleaved in any way. A capacity of 0 makes both channels unbuffered. */
module GracefulPool {
  import opened Common
  import P = WorkerPool

  datatype PoolState = Running | Draining | Stopped

  /** What the user's function does with a job. */
  datatype Outcome<R> = Returns(result: R) | Panics(reason: string)

  /** safeProcess turns a panic into a result. */
  datatype Report<R> = Output(result: R) | Recovered(reason: string)

  function SafeProcess<J, R>(process: J -> Outcome<R>, job: J): Report<R> {
    match process(job)
    case Returns(r) => Output(r)
    case Panics(why) => Recovered(why)
  }

  datatype Worker<J, R> =
    | Selecting
    | Processing(job: J)
    | Sending(job: J, report: Report<R>)
    | Exited

  datatype Caller =
    | Away
    // Drain on its own
    | DrainClosing                      // has set the state, closes the jobs once
    // GracefulShutdown
    | Closing
    | Waiting                           // for the workers or the timeout
    | Stopping(timedOut: bool)          // runs the callbacks, sets the state
    | Finishing(timedOut: bool)         // closes the results once
    // ForceShutdown
    | Cancelling
    | ForceClosing
    | ForceWaiting
    | ForceFinishing

  /** `carried` are the reports sent on the results channel, each with its job, of which `received` have been
      taken out of it; `dropped` are the jobs whose report was given up. */
  datatype State<J, R> = State(
    capacity: nat,
    state: PoolState,
    jobs: seq<J>,
    jobsClosed: bool,
    workers: seq<Worker<J, R>>,
    callers: seq<Caller>,
    accepted: seq<J>,
    carried: seq<(J, Report<R>)>,
    received: nat,
    dropped: seq<J>,
    resultsClosed: bool,
    cancelled: bool)

  datatype Action<J> =
    | Submit(job: J)
    | SubmitTo(w: nat, job: J)
    | Take(w: nat)
    | Process(w: nat)
    | Send(w: nat)
    | SendOut(w: nat)
    | SendClosed(w: nat)     // panics on the closed results channel and is recovered
    | Receive
    | Quit(w: nat)           // a worker sees that the context is done
    | Drain(c: nat)
    | Shutdown(c: nat)
    | Force(c: nat)
    | Go(c: nat)             // a shutdown caller goes on
    | TimeOut(c: nat)

  function Init<J, R>(workers: nat, callers: nat, capacity: nat): State<J, R> {
    State(capacity, Running, [], false, seq(workers, _ => Selecting), seq(callers, _ => Away),
          [], [], 0, [], false, false)
  }

  predicate AllExited<J, R>(workers: seq<Worker<J, R>>) {
    forall w :: 0 <= w < |workers| ==> workers[w].Exited?
  }

  function Move<J, R>(s: State<J, R>, w: nat, p: Worker<J, R>): State<J, R>
    requires w < |s.workers|
  {
    s.(workers := s.workers[w := p])
  }

  /** What a worker, or a submitter or consumer at its channel end, does. Submit is one step: it finds the
      pool running and its send is done, or it changes nothing. */
  function WorkStep<J, R>(process: J -> Outcome<R>, s: State<J, R>, a: Action<J>): (t: Option<State<J, R>>)
    ensures t.Some? ==> |t.value.workers| == |s.workers| && t.value.callers == s.callers
  {
    match a
    case Submit(job) =>
      if !s.state.Running? || |s.jobs| >= s.capacity then None
      else Some(s.(jobs := s.jobs + [job], accepted := s.accepted + [job]))
    case Receive => if s.received < |s.carried| then Some(s.(received := s.received + 1)) else None
    case SubmitTo(w, job) =>
      if !s.state.Running? || s.jobs != [] || w >= |s.workers| || !s.workers[w].Selecting? then None
      else Some(Move(s.(accepted := s.accepted + [job]), w, Processing(job)))
    case Take(w) =>
      if w >= |s.workers| || !s.workers[w].Selecting? then None
      else if s.jobs != [] then Some(Move(s.(jobs := s.jobs[1..]), w, Processing(s.jobs[0])))
      else if s.jobsClosed then Some(Move(s, w, Exited))
      else None
    case Process(w) =>
      if w >= |s.workers| || !s.workers[w].Processing? then None
      else Some(Move(s, w, Sending(s.workers[w].job, SafeProcess(process, s.workers[w].job))))
    case Send(w) =>
      if w >= |s.workers| || !s.workers[w].Sending? || s.resultsClosed || |s.carried| - s.received >= s.capacity then None
      else Some(Move(s.(carried := s.carried + [(s.workers[w].job, s.workers[w].report)]), w, Selecting))
    case SendOut(w) =>
      if w >= |s.workers| || !s.workers[w].Sending? || s.resultsClosed || s.received != |s.carried| then None
      else Some(Move(s.(carried := s.carried + [(s.workers[w].job, s.workers[w].report)],
                        received := s.received + 1), w, Selecting))
    case SendClosed(w) =>
      if w >= |s.workers| || !s.workers[w].Sending? || !s.resultsClosed then None
      else Some(Move(s.(dropped := s.dropped + [s.workers[w].job]), w, Exited))
    case Quit(w) =>
      if !s.cancelled || w >= |s.workers| then None
      else if s.workers[w].Selecting? then Some(Move(s, w, Exited))
      else if s.workers[w].Sending? then Some(Move(s.(dropped := s.dropped + [s.workers[w].job]), w, Exited))
      else None
    case _ => None
  }

  /** One more step of a shutdown: the new state, and where the caller then stands. */
  function Onward<J, R>(s: State<J, R>, p: Caller): Option<(State<J, R>, Caller)> {
    match p
    case Away => None
    case DrainClosing => Some((s.(jobsClosed := true), Away))
    case Closing => Some((s.(jobsClosed := true), Waiting))
    case Waiting => if AllExited(s.workers) then Some((s, Stopping(false))) else None
    case Stopping(late) => Some((s.(state := Stopped), Finishing(late)))
    case Finishing(_) => Some((s.(resultsClosed := true), Away))
    case Cancelling => Some((s.(cancelled := true), ForceClosing))
    case ForceClosing => Some((s.(jobsClosed := true), ForceWaiting))
    case ForceWaiting => if AllExited(s.workers) then Some((s, ForceFinishing)) else None
    case ForceFinishing => Some((s.(resultsClosed := true), Away))
  }

  function CallStep<J, R>(s: State<J, R>, p: Caller, a: Action<J>): Option<(State<J, R>, Caller)> {
    match a
    case Drain(_) => if p.Away? then Some((s.(state := Draining), DrainClosing)) else None
    case Shutdown(_) => if p.Away? then Some((s.(state := Draining), Closing)) else None
    case Force(_) => if p.Away? then Some((s.(state := Stopped), Cancelling)) else None
    case TimeOut(_) => if p.Waiting? then Some((s.(cancelled := true), Stopping(true))) else None
    case Go(_) => Onward(s, p)
    case _ => None
  }

  predicate IsCall<J>(a: Action<J>) {
    a.Drain? || a.Shutdown? || a.Force? || a.TimeOut? || a.Go?
  }

  function Step<J, R>(process: J -> Outcome<R>, s: State<J, R>, a: Action<J>): (t: Option<State<J, R>>)
    ensures t.Some? ==> |t.value.workers| == |s.workers| && |t.value.callers| == |s.callers|
  {
    if !IsCall(a) then WorkStep(process, s, a)
    else if a.c >= |s.callers| then None
    else
      match CallStep(s, s.callers[a.c], a)
      case None => None
      case Some((t, p)) => Some(t.(callers := s.callers[a.c := p]))
  }

  datatype Setup = Setup(workers: nat, callers: nat, capacity: nat)

  function Run<J, R>(process: J -> Outcome<R>, setup: Setup, acts: seq<Action<J>>): (t: Option<State<J, R>>)
    ensures t.Some? ==> |t.value.workers| == setup.workers && |t.value.callers| == setup.callers
  {
    if acts == [] then Some(Init(setup.workers, setup.callers, setup.capacity))
    else
      match Run(process, setup, acts[..|acts| - 1])
      case None => None
      case Some(s) => Step(process, s, acts[|acts| - 1])
  }

  // ---------- Where a job is ----------

  ghost function Has<J, R>(p: Worker<J, R>, job: J): nat {
    if (p.Processing? || p.Sending?) && p.job == job then 1 else 0
  }

  ghost function InHand<J, R>(workers: seq<Worker<J, R>>, job: J): nat {
    Tally(workers, (p: Worker<J, R>) => Has(p, job))
  }

  /** Every time it was accepted, the job is queued, in a worker's hands, answered or dropped. */
  ghost predicate Conserved<J, R>(s: State<J, R>, job: J) {
    Times(s.accepted, job) ==
    Times(s.jobs, job) + InHand(s.workers, job) + Times(P.JobsOf(s.carried), job) + Times(s.dropped, job)
  }

  lemma MoveInHand<J, R>(s: State<J, R>, w: nat, p: Worker<J, R>, job: J)
    requires w < |s.workers|
    ensures InHand(s.workers[w := p], job) == InHand(s.workers, job) - Has(s.workers[w], job) + Has(p, job)
  {
    TallyUpdate(s.workers, (q: Worker<J, R>) => Has(q, job), w, p);
  }

  /** Accepting a job. */
  lemma SubmitConserves<J, R>(process: J -> Outcome<R>, s: State<J, R>, a: Action<J>, job: J)
    requires Conserved(s, job) && (a.Submit? || a.SubmitTo?) && WorkStep(process, s, a).Some?
    ensures Conserved(WorkStep(process, s, a).value, job)
  {
    TimesAppend(s.accepted, a.job, job);
    if a.Submit? {
      TimesAppend(s.jobs, a.job, job);
    } else {
      MoveInHand(s, a.w, Processing(a.job), job);
    }
  }

  lemma TakeConserves<J, R>(process: J -> Outcome<R>, s: State<J, R>, w: nat, job: J)
    requires Conserved(s, job) && WorkStep(process, s, Take(w)).Some?
    ensures Conserved(WorkStep(process, s, Take(w)).value, job)
  {
    MoveInHand(s, w, WorkStep(process, s, Take(w)).value.workers[w], job);
    if s.jobs != [] {
      TimesFirst(s.jobs, job);
    }
  }

  lemma ProcessConserves<J, R>(process: J -> Outcome<R>, s: State<J, R>, w: nat, job: J)
    requires Conserved(s, job) && WorkStep(process, s, Process(w)).Some?
    ensures Conserved(WorkStep(process, s, Process(w)).value, job)
  {
    MoveInHand(s, w, WorkStep(process, s, Process(w)).value.workers[w], job);
  }

  /** A report that goes onto the results channel. */
  lemma CarryConserves<J, R>(s: State<J, R>, w: nat, received: nat, job: J)
    requires Conserved(s, job) && w < |s.workers| && s.workers[w].Sending?
    ensures var p := s.workers[w];
            Conserved(Move(s.(carried := s.carried + [(p.job, p.report)], received := received), w, Selecting), job)
  {
    var p := s.workers[w];
    MoveInHand(s, w, Selecting, job);
    P.JobsOfAppend(s.carried, (p.job, p.report));
    TimesAppend(P.JobsOf(s.carried), p.job, job);
  }

  lemma SendConserves<J, R>(process: J -> Outcome<R>, s: State<J, R>, a: Action<J>, job: J)
    requires Conserved(s, job) && (a.Send? || a.SendOut?) && WorkStep(process, s, a).Some?
    ensures Conserved(WorkStep(process, s, a).value, job)
  {
    CarryConserves(s, a.w, if a.Send? then s.received else s.received + 1, job);
  }

  /** Giving up a report. */
  lemma DropConserves<J, R>(s: State<J, R>, w: nat, job: J)
    requires Conserved(s, job) && w < |s.workers| && s.workers[w].Sending?
    ensures Conserved(Move(s.(dropped := s.dropped + [s.workers[w].job]), w, Exited), job)
  {
    MoveInHand(s, w, Exited, job);
    TimesAppend(s.dropped, s.workers[w].job, job);
  }

  /** Leaving with empty hands. */
  lemma LeaveConserves<J, R>(s: State<J, R>, w: nat, job: J)
    requires Conserved(s, job) && w < |s.workers| && s.workers[w].Selecting?
    ensures Conserved(Move(s, w, Exited), job)
  {
    MoveInHand(s, w, Exited, job);
  }

  lemma QuitConserves<J, R>(process: J -> Outcome<R>, s: State<J, R>, a: Action<J>, job: J)
    requires Conserved(s, job) && (a.SendClosed? || a.Quit?) && WorkStep(process, s, a).Some?
    ensures Conserved(WorkStep(process, s, a).value, job)
  {
    hide Conserved, Move;
    if s.workers[a.w].Sending? {
      DropConserves(s, a.w, job);
    } else {
      LeaveConserves(s, a.w, job);
    }
  }

  lemma CallConserves<J, R>(s: State<J, R>, p: Caller, a: Action<J>, job: J)
    requires Conserved(s, job) && CallStep(s, p, a).Some?
    ensures Conserved(CallStep(s, p, a).value.0, job)
    ensures CallStep(s, p, a).value.0.callers == s.callers
  {
  }

  lemma ReceiveConserves<J, R>(process: J -> Outcome<R>, s: State<J, R>, job: J)
    requires Conserved(s, job) && WorkStep(process, s, Receive).Some?
    ensures Conserved(WorkStep(process, s, Receive).value, job)
  {
  }

  lemma CallerConserves<J, R>(s: State<J, R>, callers: seq<Caller>, job: J)
    requires Conserved(s, job)
    ensures Conserved(s.(callers := callers), job)
  {
  }

  lemma StepConserves<J, R>(process: J -> Outcome<R>, s: State<J, R>, a: Action<J>, job: J)
    requires Conserved(s, job) && Step(process, s, a).Some?
    ensures Conserved(Step(process, s, a).value, job)
  {
    hide Conserved;
    match a
    case Submit(_) => SubmitConserves(process, s, a, job);
    case SubmitTo(_, _) => SubmitConserves(process, s, a, job);
    case Take(w) => TakeConserves(process, s, w, job);
    case Process(w) => ProcessConserves(process, s, w, job);
    case Send(_) => SendConserves(process, s, a, job);
    case SendOut(_) => SendConserves(process, s, a, job);
    case SendClosed(_) => QuitConserves(process, s, a, job);
    case Quit(_) => QuitConserves(process, s, a, job);
    case Receive => ReceiveConserves(process, s, job);
    case _ =>
      CallConserves(s, s.callers[a.c], a, job);
      CallerConserves(CallStep(s, s.callers[a.c], a).value.0, s.callers[a.c := CallStep(s, s.callers[a.c], a).value.1], job);
  }

  // ---------- The invariant ----------

  ghost predicate WorkerOk<J, R>(process: J -> Outcome<R>, s: State<J, R>, w: nat)
    requires w < |s.workers|
  {
    match s.workers[w]
    case Sending(job, report) => report == SafeProcess(process, job)
    case Exited => s.cancelled || (s.jobsClosed && s.jobs == [])
    case _ => true
  }

  /** What a shutdown caller knows. */
  ghost predicate CallerOk<J, R>(s: State<J, R>, c: nat)
    requires c < |s.callers|
  {
    var p := s.callers[c];
    && (!p.Away? ==> !s.state.Running?)
    && (p.Waiting? || p.Stopping? || p.Finishing? || p.ForceWaiting? || p.ForceFinishing? ==> s.jobsClosed)
    && (match p
        case Stopping(late) => if late then s.cancelled else AllExited(s.workers)
        case Finishing(late) => if late then s.cancelled else AllExited(s.workers)
        case ForceClosing => s.cancelled
        case ForceWaiting => s.cancelled
        case ForceFinishing => s.cancelled && AllExited(s.workers)
        case _ => true)
  }

  ghost predicate Inv<J, R>(process: J -> Outcome<R>, s: State<J, R>) {
    && s.received <= |s.carried|
    && (forall i :: 0 <= i < |s.carried| ==> s.carried[i].1 == SafeProcess(process, s.carried[i].0))
    && (forall w :: 0 <= w < |s.workers| ==> WorkerOk(process, s, w))
    && (forall c :: 0 <= c < |s.callers| ==> CallerOk(s, c))
    && (s.jobsClosed || s.cancelled || s.resultsClosed ==> !s.state.Running?)
    && (s.resultsClosed ==> s.cancelled || AllExited(s.workers))
    && (s.dropped != [] ==> s.cancelled)
  }

  lemma WorkKeepsWorker<J, R>(process: J -> Outcome<R>, s: State<J, R>, a: Action<J>, w: nat)
    requires Inv(process, s) && WorkStep(process, s, a).Some? && w < |s.workers|
    ensures WorkerOk(process, WorkStep(process, s, a).value, w)
  {
    assert WorkerOk(process, s, w);
  }

  lemma WorkKeepsCaller<J, R>(process: J -> Outcome<R>, s: State<J, R>, a: Action<J>, c: nat)
    requires Inv(process, s) && WorkStep(process, s, a).Some? && c < |s.callers|
    ensures CallerOk(WorkStep(process, s, a).value, c)
  {
    assert CallerOk(s, c);
  }

  lemma WorkKeepsInv<J, R>(process: J -> Outcome<R>, s: State<J, R>, a: Action<J>)
    requires Inv(process, s) && WorkStep(process, s, a).Some?
    ensures Inv(process, WorkStep(process, s, a).value)
  {
    var t := WorkStep(process, s, a).value;
    forall w | 0 <= w < |t.workers| ensures WorkerOk(process, t, w) {
      WorkKeepsWorker(process, s, a, w);
    }
    forall c | 0 <= c < |t.callers| ensures CallerOk(t, c) {
      WorkKeepsCaller(process, s, a, c);
    }
    if !a.Submit? && !a.Receive? {
      assert WorkerOk(process, s, a.w);
    }
    hide CallerOk;
  }

  lemma CallKeepsInv<J, R>(process: J -> Outcome<R>, s: State<J, R>, a: Action<J>)
    requires Inv(process, s) && IsCall(a) && Step(process, s, a).Some?
    ensures Inv(process, Step(process, s, a).value)
  {
    var t := Step(process, s, a).value;
    assert CallerOk(s, a.c);
    forall w | 0 <= w < |t.workers| ensures WorkerOk(process, t, w) {
      assert WorkerOk(process, s, w);
    }
    forall c | 0 <= c < |t.callers| ensures CallerOk(t, c) {
      assert CallerOk(s, c);
    }
  }

  lemma {:induction false} RunKeepsInv<J, R>(process: J -> Outcome<R>, setup: Setup, acts: seq<Action<J>>)
    requires Run(process, setup, acts).Some?
    ensures Inv(process, Run(process, setup, acts).value)
  {
    if acts != [] {
      var init, a := acts[..|acts| - 1], acts[|acts| - 1];
      RunKeepsInv(process, setup, init);
      if IsCall(a) {
        CallKeepsInv(process, Run(process, setup, init).value, a);
      } else {
        WorkKeepsInv(process, Run(process, setup, init).value, a);
      }
    }
  }

  // ---------- What holds however workers and shutdowns interleave ----------

  /** No accepted job is lost: it is queued, being worked on, answered or dropped; none is answered twice. */
  lemma {:induction false} JobsConserved<J, R>(process: J -> Outcome<R>, setup: Setup, acts: seq<Action<J>>, job: J)
    requires Run(process, setup, acts).Some?
    ensures Conserved(Run(process, setup, acts).value, job)
  {
    if acts == [] {
      TallyNothing(Init<J, R>(setup.workers, setup.callers, setup.capacity).workers, (p: Worker<J, R>) => Has(p, job));
    } else {
      var init := acts[..|acts| - 1];
      JobsConserved(process, setup, init, job);
      StepConserves(process, Run(process, setup, init).value, acts[|acts| - 1], job);
    }
  }

  /** A report is dropped only once the pool has been cancelled, by a timeout or by force; in particular a send
      on the closed results channel never panics before. */
  lemma DropsOnlyAfterCancel<J, R>(process: J -> Outcome<R>, setup: Setup, acts: seq<Action<J>>, w: nat)
    requires Run(process, setup, acts).Some?
    ensures var s := Run(process, setup, acts).value;
            !s.cancelled ==> s.dropped == [] && Step(process, s, SendClosed(w)).None?
  {
    RunKeepsInv(process, setup, acts);
  }

  /** Every report is that of its job, a panic included. */
  lemma ReportsAreProcessed<J, R>(process: J -> Outcome<R>, setup: Setup, acts: seq<Action<J>>, i: nat)
    requires Run(process, setup, acts).Some? && i < |Run(process, setup, acts).value.carried|
    ensures var (job, report) := Run(process, setup, acts).value.carried[i];
            if process(job).Panics? then report == Recovered(process(job).reason) else report == Output(process(job).result)
  {
    RunKeepsInv(process, setup, acts);
  }

  lemma NobodyHolds<J, R>(workers: seq<Worker<J, R>>, job: J)
    requires AllExited(workers)
    ensures InHand(workers, job) == 0
  {
    TallyNothing(workers, (p: Worker<J, R>) => Has(p, job));
  }

  /** Workers that have all exited without a cancellation have answered every accepted job exactly once. */
  lemma ExitedWithoutCancel<J, R>(process: J -> Outcome<R>, setup: Setup, acts: seq<Action<J>>)
    requires setup.workers > 0 && Run(process, setup, acts).Some?
    requires var s := Run(process, setup, acts).value; AllExited(s.workers) && !s.cancelled
    ensures var s := Run(process, setup, acts).value;
            multiset(P.JobsOf(s.carried)) == multiset(s.accepted) && s.jobs == [] && s.dropped == []
  {
    RunKeepsInv(process, setup, acts);
    var s := Run(process, setup, acts).value;
    assert WorkerOk(process, s, 0);
    forall job: J | job in P.JobsOf(s.carried) || job in s.accepted
      ensures Times(P.JobsOf(s.carried), job) == Times(s.accepted, job)
    {
      JobsConserved(process, setup, acts, job);
      NobodyHolds(s.workers, job);
    }
    TimesDecide(P.JobsOf(s.carried), s.accepted);
  }

  /** When the results close without a cancellation, they have carried exactly one report per accepted job. */
  lemma OneReportPerJob<J, R>(process: J -> Outcome<R>, setup: Setup, acts: seq<Action<J>>)
    requires setup.workers > 0 && Run(process, setup, acts).Some?
    requires var s := Run(process, setup, acts).value; s.resultsClosed && !s.cancelled
    ensures var s := Run(process, setup, acts).value;
            multiset(P.JobsOf(s.carried)) == multiset(s.accepted) && s.jobs == [] && s.dropped == []
  {
    RunKeepsInv(process, setup, acts);
    ExitedWithoutCancel(process, setup, acts);
  }

  /** A GracefulShutdown about to return without an error has seen all workers exit; unless somebody else
      cancelled the pool, nothing that was accepted has been lost. */
  lemma CleanShutdown<J, R>(process: J -> Outcome<R>, setup: Setup, acts: seq<Action<J>>, c: nat)
    requires setup.workers > 0 && c < setup.callers && Run(process, setup, acts).Some?
    requires Run(process, setup, acts).value.callers[c] == Finishing(false)
    ensures var s := Run(process, setup, acts).value;
            && AllExited(s.workers)
            && (!s.cancelled ==> multiset(P.JobsOf(s.carried)) == multiset(s.accepted))
  {
    RunKeepsInv(process, setup, acts);
    var s := Run(process, setup, acts).value;
    assert CallerOk(s, c);
    if !s.cancelled {
      ExitedWithoutCancel(process, setup, acts);
    }
  }

  /** Once a shutdown has begun, no job is accepted any more. */
  lemma NothingAcceptedAfterDrain<J, R>(process: J -> Outcome<R>, setup: Setup, acts: seq<Action<J>>, job: J, c: nat)
    requires Run(process, setup, acts).Some? && c < setup.callers
    requires var s := Run(process, setup, acts).value; !s.callers[c].Away? || s.jobsClosed
    ensures Step(process, Run(process, setup, acts).value, Submit(job)).None?
    ensures forall w :: Step(process, Run(process, setup, acts).value, SubmitTo(w, job)).None?
    ensures !Run(process, setup, acts).value.state.Running?
  {
    RunKeepsInv(process, setup, acts);
    assert CallerOk(Run(process, setup, acts).value, c);
  }

  /** The action begins a Drain, a GracefulShutdown or a ForceShutdown. */
  ghost predicate Begins<J>(a: Action<J>, c: nat) {
    (a.Drain? || a.Shutdown? || a.Force?) && a.c == c
  }

  ghost predicate Began<J>(acts: seq<Action<J>>, c: nat) {
    acts != [] && (Begins(acts[|acts| - 1], c) || Began(acts[..|acts| - 1], c))
  }

  /** The jobs are closed, or the caller is about to do it. */
  ghost predicate JobsClosing<J, R>(s: State<J, R>, c: nat)
    requires c < |s.callers|
  {
    s.jobsClosed || s.callers[c].DrainClosing? || s.callers[c].Closing? || s.callers[c].Cancelling? || s.callers[c].ForceClosing?
  }

  lemma StepKeepsClosing<J, R>(process: J -> Outcome<R>, s: State<J, R>, a: Action<J>, c: nat)
    requires Step(process, s, a).Some? && c < |s.callers|
    requires JobsClosing(s, c) || (s.callers[c].Away? && (Begins(a, c) || !Step(process, s, a).value.callers[c].Away?))
    ensures JobsClosing(Step(process, s, a).value, c)
  {
  }

  /** Whoever shuts the pool down has closed the jobs by the time it waits for the workers or returns, whichever
      caller came first: nobody waits for workers that cannot exit. */
  lemma {:induction false} JobsClosedByThen<J, R>(process: J -> Outcome<R>, setup: Setup, acts: seq<Action<J>>, c: nat)
    requires Run(process, setup, acts).Some? && c < setup.callers
    requires Began(acts, c) || !Run(process, setup, acts).value.callers[c].Away?
    ensures var s := Run(process, setup, acts).value;
            var p := s.callers[c];
            s.jobsClosed || p.DrainClosing? || p.Closing? || p.Cancelling? || p.ForceClosing?
  {
    hide Inv, Step;
    if acts != [] {
      var init, a := acts[..|acts| - 1], acts[|acts| - 1];
      if Began(init, c) || !Run(process, setup, init).value.callers[c].Away? {
        JobsClosedByThen(process, setup, init, c);
      }
      StepKeepsClosing(process, Run(process, setup, init).value, a, c);
    }
  }

  // ---------- The object itself, and one worker's loop run on its own ----------

  ghost function Safe<J, R>(process: J -> Outcome<R>): J -> Report<R> {
    (job: J) => SafeProcess(process, job)
  }

  class GracefulPool<J, R> {
    const process: J -> Outcome<R>
    var state: PoolState
    var jobs: seq<J>
    var jobsClosed: bool
    var results: seq<Report<R>>
    var resultsClosed: bool

    /** closeOnce and the order of Drain: the jobs are never closed while the pool accepts. */
    ghost predicate Valid()
      reads this
    {
      jobsClosed || resultsClosed ==> !state.Running?
    }

    constructor (process: J -> Outcome<R>)
      ensures Valid() && this.process == process && state.Running? && jobs == [] && results == []
      ensures !jobsClosed && !resultsClosed
    {
      this.process := process;
      state, jobs, jobsClosed, results, resultsClosed := Running, [], false, [], false;
    }

    method Submit(job: J) returns (ok: bool)
      requires Valid()
      modifies this`jobs
      ensures Valid() && ok == state.Running? && jobs == if ok then old(jobs) + [job] else old(jobs)
    {
      if !state.Running? {
        return false;
      }
      jobs := jobs + [job];
      ok := true;
    }

    method Drain()
      requires Valid()
      modifies this`state, this`jobsClosed
      ensures Valid() && state == Draining && jobsClosed
    {
      state := Draining;
      if !jobsClosed {
        jobsClosed := true;
      }
    }

    /** The worker's loop on drained jobs; `done(i)` tells whether its i-th select takes the context's branch.
        It answers the jobs in order, and only a cancellation makes it leave jobs or drop a report. */
    method Work(done: nat -> bool) returns (selects: nat, ghost taken: nat, ghost answered: nat)
      requires Valid() && jobsClosed && !resultsClosed
      modifies this`jobs, this`results
      ensures taken - 1 <= answered <= taken <= |old(jobs)| && jobs == old(jobs)[taken..]
      ensures results == old(results) + Map(Safe(process), old(jobs)[..answered])
      ensures selects > 0 && (done(selects - 1) || answered == |old(jobs)|)
    {
      selects, taken, answered := 0, 0, 0;
      assert old(jobs)[..0] == [];
      while true
        invariant taken == answered <= |old(jobs)| && jobs == old(jobs)[taken..]
        invariant results == old(results) + Map(Safe(process), old(jobs)[..answered])
        decreases |jobs|
      {
        selects := selects + 1;
        if done(selects - 1) || jobs == [] {
          return;
        }
        var job := jobs[0];
        jobs, taken := jobs[1..], taken + 1;
        var report := SafeProcess(process, job);
        selects := selects + 1;
        if done(selects - 1) {
          return;
        }
        MapNext(Safe(process), old(jobs), answered);
        results, answered := results + [report], answered + 1;
      }
    }

    /** GracefulShutdown with `late` telling whether the timeout came first, and a worker's loop within. */
    method GracefulShutdown(late: bool, done: nat -> bool) returns (timedOut: bool)
      requires Valid() && !resultsClosed && (late || forall i: nat :: !done(i))
      modifies this
      ensures Valid() && state == Stopped && resultsClosed && timedOut == late
      ensures !late ==> jobs == [] && results == old(results) + Map(Safe(process), old(jobs))
    {
      Drain();
      var selects;
      ghost var taken, answered;
      selects, taken, answered := Work(done);
      timedOut := late;
      assert old(jobs)[..|old(jobs)|] == old(jobs);
      state := Stopped;
      if !resultsClosed {
        resultsClosed := true;
      }
    }
  }
}
