/** A fixed number of workers between a jobs channel and a results channel, interleaved in any way.
    A capacity of 0 makes both channels unbuffered. */
module WorkerPool {
  import opened Common

  datatype Phase<J, R> =
    | Selecting                         // between jobs
    | Processing(job: J)
    | Sending(job: J, result: R)        // blocked on the results channel
    | Exited

  /** `accepted` are the jobs submitted, in order; `jobs` is the jobs channel. `carried` are the results sent
      on the results channel, each with its job, of which `received` have been taken out of it. */
  datatype State<J, R> = State(
    capacity: nat,
    jobs: seq<J>,
    jobsClosed: bool,
    phases: seq<Phase<J, R>>,
    accepted: seq<J>,
    carried: seq<(J, R)>,
    received: nat,
    resultsClosed: bool,
    cancelled: bool)

  datatype Action<J> =
    | Submit(job: J)                 // into the buffer
    | SubmitTo(w: nat, job: J)       // straight to a worker that waits, on an empty channel
    | Take(w: nat)                   // a worker receives a job, or sees that there will be none
    | Process(w: nat)
    | Send(w: nat)                   // into the buffer
    | SendOut(w: nat)                // straight to a consumer that waits, on an empty channel
    | Receive                        // a consumer takes a result out of the buffer
    | Quit(w: nat)                   // a worker sees that the context is done
    | Cancel
    | Close
    | Wait                           // wg.Wait has returned: closes the results

  function Init<J, R>(workers: nat, capacity: nat): State<J, R> {
    State(capacity, [], false, seq(workers, _ => Selecting), [], [], 0, false, false)
  }

  function Move<J, R>(s: State<J, R>, w: nat, p: Phase<J, R>): State<J, R>
    requires w < |s.phases|
  {
    s.(phases := s.phases[w := p])
  }

  predicate AllExited<J, R>(phases: seq<Phase<J, R>>) {
    forall w :: 0 <= w < |phases| ==> phases[w].Exited?
  }

  predicate Selects<J, R>(s: State<J, R>, w: nat) {
    w < |s.phases| && s.phases[w].Selecting?
  }

  function Step<J, R>(process: J -> R, s: State<J, R>, a: Action<J>): (t: Option<State<J, R>>)
    ensures t.Some? ==> |t.value.phases| == |s.phases| && t.value.capacity == s.capacity
  {
    match a
    case Submit(job) =>
      if s.jobsClosed || |s.jobs| >= s.capacity then None
      else Some(s.(jobs := s.jobs + [job], accepted := s.accepted + [job]))
    case SubmitTo(w, job) =>
      if s.jobsClosed || s.jobs != [] || !Selects(s, w) then None
      else Some(Move(s.(accepted := s.accepted + [job]), w, Processing(job)))
    case Take(w) =>
      if !Selects(s, w) then None
      else if s.jobs != [] then Some(Move(s.(jobs := s.jobs[1..]), w, Processing(s.jobs[0])))
      else if s.jobsClosed then Some(Move(s, w, Exited))
      else None
    case Process(w) =>
      if w >= |s.phases| || !s.phases[w].Processing? then None
      else Some(Move(s, w, Sending(s.phases[w].job, process(s.phases[w].job))))
    case Send(w) =>
      if w >= |s.phases| || !s.phases[w].Sending? || |s.carried| - s.received >= s.capacity then None
      else Some(Move(s.(carried := s.carried + [(s.phases[w].job, s.phases[w].result)]), w, Selecting))
    case SendOut(w) =>
      if w >= |s.phases| || !s.phases[w].Sending? || s.received != |s.carried| then None
      else Some(Move(s.(carried := s.carried + [(s.phases[w].job, s.phases[w].result)],
                        received := s.received + 1), w, Selecting))
    case Receive => if s.received < |s.carried| then Some(s.(received := s.received + 1)) else None
    case Quit(w) => if s.cancelled && Selects(s, w) then Some(Move(s, w, Exited)) else None
    case Cancel => Some(s.(cancelled := true))
    case Close => if s.jobsClosed then None else Some(s.(jobsClosed := true))
    case Wait => if !s.resultsClosed && AllExited(s.phases) then Some(s.(resultsClosed := true)) else None
  }

  function Run<J, R>(process: J -> R, workers: nat, capacity: nat, acts: seq<Action<J>>): (t: Option<State<J, R>>)
    ensures t.Some? ==> |t.value.phases| == workers
  {
    if acts == [] then Some(Init(workers, capacity))
    else
      match Run(process, workers, capacity, acts[..|acts| - 1])
      case None => None
      case Some(s) => Step(process, s, acts[|acts| - 1])
  }

  // ---------- Where a job is ----------

  /** The jobs that a sequence of results answers. */
  function JobsOf<J, R>(results: seq<(J, R)>): (q: seq<J>)
    ensures |q| == |results|
  {
    if results == [] then [] else JobsOf(results[..|results| - 1]) + [results[|results| - 1].0]
  }

  lemma JobsOfAppend<J, R>(results: seq<(J, R)>, r: (J, R))
    ensures JobsOf(results + [r]) == JobsOf(results) + [r.0]
  {
    assert (results + [r])[..|results|] == results;
  }

  ghost function Has<J, R>(p: Phase<J, R>, job: J): nat {
    if (p.Processing? || p.Sending?) && p.job == job then 1 else 0
  }

  /** In how many workers' hands the job is. */
  ghost function InHand<J, R>(phases: seq<Phase<J, R>>, job: J): nat {
    Tally(phases, (p: Phase<J, R>) => Has(p, job))
  }

  /** Every time it was accepted, the job is queued, in a worker's hands, or answered. */
  ghost predicate Conserved<J, R>(s: State<J, R>, job: J) {
    Times(s.accepted, job) == Times(s.jobs, job) + InHand(s.phases, job) + Times(JobsOf(s.carried), job)
  }

  ghost predicate Answers<J, R>(process: J -> R, results: seq<(J, R)>) {
    forall i :: 0 <= i < |results| ==> results[i].1 == process(results[i].0)
  }

  ghost predicate WorkerOk<J, R>(process: J -> R, s: State<J, R>, w: nat)
    requires w < |s.phases|
  {
    match s.phases[w]
    case Sending(job, result) => result == process(job)
    case Exited => s.cancelled || (s.jobsClosed && s.jobs == [])
    case _ => true
  }

  ghost predicate Inv<J, R>(process: J -> R, s: State<J, R>) {
    && s.received <= |s.carried|
    && Answers(process, s.carried)
    && (forall w :: 0 <= w < |s.phases| ==> WorkerOk(process, s, w))
    && (s.resultsClosed ==> AllExited(s.phases))
    && (s.capacity > 0 ==> |s.carried| - s.received <= s.capacity)
  }

  lemma MoveInHand<J, R>(s: State<J, R>, w: nat, p: Phase<J, R>, job: J)
    requires w < |s.phases|
    ensures InHand(s.phases[w := p], job) == InHand(s.phases, job) - Has(s.phases[w], job) + Has(p, job)
  {
    TallyUpdate(s.phases, (q: Phase<J, R>) => Has(q, job), w, p);
  }

  lemma SubmitConserves<J, R>(process: J -> R, s: State<J, R>, j: J, job: J)
    requires Conserved(s, job) && Step(process, s, Submit(j)).Some?
    ensures Conserved(Step(process, s, Submit(j)).value, job)
  {
    TimesAppend(s.accepted, j, job);
    TimesAppend(s.jobs, j, job);
  }

  lemma SubmitToConserves<J, R>(process: J -> R, s: State<J, R>, w: nat, j: J, job: J)
    requires Conserved(s, job) && Step(process, s, SubmitTo(w, j)).Some?
    ensures Conserved(Step(process, s, SubmitTo(w, j)).value, job)
  {
    TimesAppend(s.accepted, j, job);
    MoveInHand(s, w, Processing(j), job);
  }

  lemma SendConserves<J, R>(process: J -> R, s: State<J, R>, a: Action<J>, job: J)
    requires Conserved(s, job) && Step(process, s, a).Some? && (a.Send? || a.SendOut?)
    ensures Conserved(Step(process, s, a).value, job)
  {
    var p := s.phases[a.w];
    MoveInHand(s, a.w, Selecting, job);
    JobsOfAppend(s.carried, (p.job, p.result));
    TimesAppend(JobsOf(s.carried), p.job, job);
  }

  lemma TakeConserves<J, R>(process: J -> R, s: State<J, R>, w: nat, job: J)
    requires Conserved(s, job) && Step(process, s, Take(w)).Some?
    ensures Conserved(Step(process, s, Take(w)).value, job)
  {
    MoveInHand(s, w, Step(process, s, Take(w)).value.phases[w], job);
    if s.jobs != [] {
      TimesFirst(s.jobs, job);
    }
  }

  /** Leaving with empty hands, and working. */
  lemma StayConserves<J, R>(process: J -> R, s: State<J, R>, a: Action<J>, job: J)
    requires Conserved(s, job) && (a.Process? || a.Quit?) && Step(process, s, a).Some?
    ensures Conserved(Step(process, s, a).value, job)
  {
    MoveInHand(s, a.w, Step(process, s, a).value.phases[a.w], job);
  }

  lemma OutsideConserves<J, R>(process: J -> R, s: State<J, R>, a: Action<J>, job: J)
    requires Conserved(s, job) && (a.Receive? || a.Cancel? || a.Close? || a.Wait?) && Step(process, s, a).Some?
    ensures Conserved(Step(process, s, a).value, job)
  {
  }

  lemma StepConserves<J, R>(process: J -> R, s: State<J, R>, a: Action<J>, job: J)
    requires Conserved(s, job) && Step(process, s, a).Some?
    ensures Conserved(Step(process, s, a).value, job)
  {
    hide Conserved, Step;
    match a
    case Submit(j) => SubmitConserves(process, s, j, job);
    case SubmitTo(w, j) => SubmitToConserves(process, s, w, j, job);
    case Take(w) => TakeConserves(process, s, w, job);
    case Send(_) => SendConserves(process, s, a, job);
    case SendOut(_) => SendConserves(process, s, a, job);
    case Process(_) => StayConserves(process, s, a, job);
    case Quit(_) => StayConserves(process, s, a, job);
    case _ => OutsideConserves(process, s, a, job);
  }

  lemma StepKeepsInv<J, R>(process: J -> R, s: State<J, R>, a: Action<J>)
    requires Inv(process, s) && Step(process, s, a).Some?
    ensures Inv(process, Step(process, s, a).value)
  {
    var t := Step(process, s, a).value;
    forall w | 0 <= w < |t.phases| ensures WorkerOk(process, t, w) {
      assert WorkerOk(process, s, w);
    }
    if a.Send? || a.SendOut? {
      assert WorkerOk(process, s, a.w);
    }
  }

  lemma {:induction false} RunKeepsInv<J, R>(process: J -> R, workers: nat, capacity: nat, acts: seq<Action<J>>)
    requires Run(process, workers, capacity, acts).Some?
    ensures Inv(process, Run(process, workers, capacity, acts).value)
  {
    if acts != [] {
      var init := acts[..|acts| - 1];
      RunKeepsInv(process, workers, capacity, init);
      StepKeepsInv(process, Run(process, workers, capacity, init).value, acts[|acts| - 1]);
    }
  }

  // ---------- What holds however the workers interleave ----------

  /** No job is lost, none is done twice. */
  lemma {:induction false} JobsConserved<J, R>(process: J -> R, workers: nat, capacity: nat, acts: seq<Action<J>>, job: J)
    requires Run(process, workers, capacity, acts).Some?
    ensures Conserved(Run(process, workers, capacity, acts).value, job)
  {
    if acts == [] {
      var s := Init<J, R>(workers, capacity);
      TallyNothing(s.phases, (p: Phase<J, R>) => Has(p, job));
    } else {
      var init := acts[..|acts| - 1];
      JobsConserved(process, workers, capacity, init, job);
      StepConserves(process, Run(process, workers, capacity, init).value, acts[|acts| - 1], job);
    }
  }

  /** Every result is that of its job, and the results channel, if buffered, never overflows. */
  lemma ResultsAreProcessed<J, R>(process: J -> R, workers: nat, capacity: nat, acts: seq<Action<J>>, i: nat)
    requires Run(process, workers, capacity, acts).Some?
    requires i < |Run(process, workers, capacity, acts).value.carried|
    ensures var s := Run(process, workers, capacity, acts).value;
            s.carried[i].1 == process(s.carried[i].0) && s.received <= |s.carried|
  {
    RunKeepsInv(process, workers, capacity, acts);
  }

  lemma NobodyHolds<J, R>(phases: seq<Phase<J, R>>, job: J)
    requires AllExited(phases)
    ensures InHand(phases, job) == 0
  {
    TallyNothing(phases, (p: Phase<J, R>) => Has(p, job));
  }

  /** When the results close without a cancellation, they have carried exactly one result per accepted job. */
  lemma OneResultPerJob<J, R>(process: J -> R, workers: nat, capacity: nat, acts: seq<Action<J>>)
    requires workers > 0 && Run(process, workers, capacity, acts).Some?
    requires var s := Run(process, workers, capacity, acts).value; s.resultsClosed && !s.cancelled
    ensures var s := Run(process, workers, capacity, acts).value;
            multiset(JobsOf(s.carried)) == multiset(s.accepted) && s.jobs == []
  {
    RunKeepsInv(process, workers, capacity, acts);
    var s := Run(process, workers, capacity, acts).value;
    assert WorkerOk(process, s, 0);
    forall job: J | job in JobsOf(s.carried) || job in s.accepted
      ensures Times(JobsOf(s.carried), job) == Times(s.accepted, job)
    {
      JobsConserved(process, workers, capacity, acts, job);
      NobodyHolds(s.phases, job);
    }
    TimesDecide(JobsOf(s.carried), s.accepted);
  }

  // ---------- The object itself, and one worker's loop run on its own ----------

  class WorkerPool<J, R> {
    const process: J -> R
    var jobs: seq<J>
    var jobsClosed: bool
    var results: seq<R>
    var resultsClosed: bool

    constructor (process: J -> R)
      ensures this.process == process && jobs == [] && results == [] && !jobsClosed && !resultsClosed
    {
      this.process := process;
      jobs, jobsClosed, results, resultsClosed := [], false, [], false;
    }

    method Submit(job: J)
      requires !jobsClosed
      modifies this`jobs
      ensures jobs == old(jobs) + [job]
    {
      jobs := jobs + [job];
    }

    method Close()
      requires !jobsClosed
      modifies this`jobsClosed
      ensures jobsClosed
    {
      jobsClosed := true;
    }

    /** The worker's loop on closed jobs; `done(i)` tells whether its i-th select takes the context's branch.
        It sends one result for every job it takes, in order, even when cancelled meanwhile. */
    method Work(done: nat -> bool) returns (selects: nat, ghost taken: nat)
      requires jobsClosed && !resultsClosed
      modifies this`jobs, this`results
      ensures taken <= |old(jobs)| && jobs == old(jobs)[taken..]
      ensures results == old(results) + Map(process, old(jobs)[..taken])
      ensures selects > 0 && (done(selects - 1) || taken == |old(jobs)|)
    {
      selects, taken := 0, 0;
      assert old(jobs)[..0] == [];
      while true
        invariant taken <= |old(jobs)| && jobs == old(jobs)[taken..]
        invariant results == old(results) + Map(process, old(jobs)[..taken])
        decreases |jobs|
      {
        selects := selects + 1;
        if done(selects - 1) || jobs == [] {
          return;
        }
        var job := jobs[0];
        jobs := jobs[1..];
        MapNext(process, old(jobs), taken);
        var result := process(job);
        results, taken := results + [result], taken + 1;
      }
    }

    method Wait()
      requires !resultsClosed
      modifies this`resultsClosed
      ensures resultsClosed
    {
      resultsClosed := true;
    }
  }
}
