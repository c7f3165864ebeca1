/** Once its jobs are closed, the worker pool comes to an end. */
module WorkerRest {
  import opened Common
  import opened WorkerPool

  /** The action is one of the pool's own or of a consumer, and not one of a submitter or of the owner. */
  ghost predicate Internal<J>(a: Action<J>) {
    !a.Submit? && !a.SubmitTo? && !a.Cancel? && !a.Close?
  }

  /** A queued job has four steps before it: it is taken, processed, its result sent and received. */
  ghost function WorkLeft<J, R>(p: Phase<J, R>): nat {
    match p
    case Selecting => 1
    case Processing(_) => 4
    case Sending(_, _) => 3
    case Exited => 0
  }

  ghost function WorkersLeft<J, R>(phases: seq<Phase<J, R>>): nat {
    Tally(phases, (p: Phase<J, R>) => WorkLeft(p))
  }

  ghost function Left<J, R>(s: State<J, R>): nat
    requires s.received <= |s.carried|
  {
    4 * |s.jobs| + WorkersLeft(s.phases) + (|s.carried| - s.received) + if s.resultsClosed then 0 else 1
  }

  lemma MoveWorker<J, R>(phases: seq<Phase<J, R>>, w: nat, p: Phase<J, R>)
    requires w < |phases|
    ensures WorkersLeft(phases[w := p]) == WorkersLeft(phases) - WorkLeft(phases[w]) + WorkLeft(p)
  {
    TallyUpdate(phases, (q: Phase<J, R>) => WorkLeft(q), w, p);
  }

  /** The pool's own steps become fewer with each of them; a submission adds four. */
  lemma LessLeft<J, R>(process: J -> R, s: State<J, R>, a: Action<J>)
    requires Inv(process, s) && Step(process, s, a).Some?
    ensures var t := Step(process, s, a).value;
            && Inv(process, t)
            && Left(t) <= Left(s) + (if Internal(a) then -1 else if a.Submit? || a.SubmitTo? then 4 else 0)
  {
    hide WorkersLeft, Answers;
    StepKeepsInv(process, s, a);
    var t := Step(process, s, a).value;
    if a.SubmitTo? || a.Take? || a.Process? || a.Send? || a.SendOut? || a.Quit? {
      MoveWorker(s.phases, a.w, t.phases[a.w]);
    }
  }

  ghost function Internals<J>(acts: seq<Action<J>>): nat {
    if acts == [] then 0 else Internals(acts[..|acts| - 1]) + (if Internal(acts[|acts| - 1]) then 1 else 0)
  }

  lemma {:induction false} AllSelecting<J, R>(n: nat)
    ensures WorkersLeft(seq(n, _ => Phase<J, R>.Selecting)) == n
  {
    var phases := seq(n, _ => Phase<J, R>.Selecting);
    if n > 0 {
      assert phases[1..] == seq(n - 1, _ => Phase<J, R>.Selecting);
      AllSelecting<J, R>(n - 1);
    }
  }

  lemma {:induction false} AcceptedGrows<J, R>(process: J -> R, s: State<J, R>, a: Action<J>)
    requires Step(process, s, a).Some?
    ensures |Step(process, s, a).value.accepted| == |s.accepted| + if a.Submit? || a.SubmitTo? then 1 else 0
  {
  }

  /** No run takes more steps of its own than four for every accepted job, one for every worker and one to close the
      results. */
  lemma {:induction false} RunsEnd<J, R>(process: J -> R, workers: nat, capacity: nat, acts: seq<Action<J>>)
    requires Run(process, workers, capacity, acts).Some?
    ensures var s := Run(process, workers, capacity, acts).value;
            Inv(process, s) && Internals(acts) + Left(s) <= 4 * |s.accepted| + workers + 1
  {
    hide Step, Inv, Left;
    RunKeepsInv(process, workers, capacity, acts);
    if acts == [] {
      LeftAtStart<J, R>(workers, capacity);
    } else {
      var init, a := acts[..|acts| - 1], acts[|acts| - 1];
      RunsEnd(process, workers, capacity, init);
      LessLeft(process, Run(process, workers, capacity, init).value, a);
      AcceptedGrows(process, Run(process, workers, capacity, init).value, a);
    }
  }

  lemma LeftAtStart<J, R>(workers: nat, capacity: nat)
    ensures Left(Init<J, R>(workers, capacity)) == workers + 1
  {
    AllSelecting<J, R>(workers);
  }

  lemma WorkerCanGo<J, R>(process: J -> R, s: State<J, R>, w: nat) returns (a: Action<J>)
    requires Inv(process, s) && w < |s.phases| && !s.phases[w].Exited? && s.jobsClosed
    ensures Internal(a) && Step(process, s, a).Some?
  {
    match s.phases[w]
    case Selecting => a := Take(w);
    case Processing(_) => a := Process(w);
    case Sending(_, _) => a := if s.received == |s.carried| then SendOut(w) else Receive;
  }

  /** A step leaves accepted and queued jobs alone, or appends a job to both, or takes the first one out of the queue,
      or hands an accepted job straight to a worker past an empty queue. */
  lemma QueueStep<J, R>(process: J -> R, s: State<J, R>, a: Action<J>)
    requires Step(process, s, a).Some? && Suffix(s.jobs, s.accepted) && |s.jobs| <= s.capacity
    ensures var t := Step(process, s, a).value; Suffix(t.jobs, t.accepted) && |t.jobs| <= t.capacity == s.capacity
  {
    hide Suffix;
    var t := Step(process, s, a).value;
    if a.Submit? || a.SubmitTo? {
      SuffixSteps(s.jobs, s.accepted, a.job);
    } else if t.jobs != s.jobs {
      SuffixSteps(s.jobs, s.accepted, s.jobs[0]);
    }
  }

  /** What is queued is always the last part of what was accepted, in that order, and fits into the buffer: jobs are
      taken in the order in which they were accepted. */
  lemma {:induction false} TakenInOrder<J, R>(process: J -> R, workers: nat, capacity: nat, acts: seq<Action<J>>)
    requires Run(process, workers, capacity, acts).Some?
    ensures var s := Run(process, workers, capacity, acts).value;
            Suffix(s.jobs, s.accepted) && |s.jobs| <= s.capacity == capacity
  {
    hide Step, Suffix;
    if acts == [] {
      NothingIsSuffix<J>();
    } else {
      var init := acts[..|acts| - 1];
      TakenInOrder(process, workers, capacity, init);
      QueueStep(process, Run(process, workers, capacity, init).value, acts[|acts| - 1]);
    }
  }

  /** Nothing can happen any more but submissions, Cancel and Close. */
  ghost predicate AtRest<J(!new), R>(process: J -> R, s: State<J, R>) {
    forall a :: Step(process, s, a).Some? ==> !Internal(a)
  }

  /** With its jobs closed, a pool never gets stuck: some step is possible until all workers have exited, the results
      are closed and all of them have been received, which without a cancellation is one for every accepted job. */
  lemma NeverStuck<J(!new), R>(process: J -> R, workers: nat, capacity: nat, acts: seq<Action<J>>)
    requires Run(process, workers, capacity, acts).Some? && Run(process, workers, capacity, acts).value.jobsClosed
    ensures var s := Run(process, workers, capacity, acts).value;
            && (AtRest(process, s) <==> AllExited(s.phases) && s.resultsClosed && s.received == |s.carried|)
            && (AtRest(process, s) && workers > 0 && !s.cancelled ==>
                  multiset(JobsOf(s.carried[..s.received])) == multiset(s.accepted))
  {
    RunKeepsInv(process, workers, capacity, acts);
    var s := Run(process, workers, capacity, acts).value;
    RestIsEnd(process, s);
    if AtRest(process, s) && workers > 0 && !s.cancelled {
      assert s.carried[..s.received] == s.carried;
      OneResultPerJob(process, workers, capacity, acts);
    }
  }

  lemma RestIsEnd<J(!new), R>(process: J -> R, s: State<J, R>)
    requires Inv(process, s) && s.jobsClosed
    ensures AtRest(process, s) <==> AllExited(s.phases) && s.resultsClosed && s.received == |s.carried|
  {
    if !AllExited(s.phases) {
      var w :| 0 <= w < |s.phases| && !s.phases[w].Exited?;
      var a := WorkerCanGo(process, s, w);
    } else if s.received != |s.carried| {
      assert Step(process, s, Receive).Some?;
    } else if !s.resultsClosed {
      assert Step(process, s, Wait).Some?;
    }
  }
}
