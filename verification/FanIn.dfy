/** Several input channels merged into one output channel by one goroutine each, interleaved in any way. */
module FanIn {
  import opened Common

  datatype Phase<T> = Receiving | Sending(msg: T) | Done

  /** `sources[g]` is everything ever sent on input g before it is closed, of which `taken[g]` messages have
      been received; `output` is what the merged channel has delivered, each with the input it came from. */
  datatype State<T> = State(sources: seq<seq<T>>, taken: seq<nat>, phases: seq<Phase<T>>,
                            output: seq<(nat, T)>, closed: bool, cancelled: bool)

  datatype Action =
    | Receive(g: nat)   // from its input: a message, or that it is closed
    | Send(g: nat)      // a send on the merged channel; on a closed channel it would panic
    | Quit(g: nat)      // notices that the context is done
    | Cancel
    | CloseOutput       // after wg.Wait

  function Init<T>(sources: seq<seq<T>>): State<T> {
    State(sources, seq(|sources|, _ => 0), seq(|sources|, _ => Receiving), [], false, false)
  }

  predicate Shaped<T>(s: State<T>) {
    |s.taken| == |s.phases| == |s.sources|
  }

  predicate AllDone<T>(phases: seq<Phase<T>>) {
    forall g :: 0 <= g < |phases| ==> phases[g].Done?
  }

  function Step<T>(s: State<T>, a: Action): (t: Option<State<T>>)
    requires Shaped(s)
    ensures t.Some? ==> Shaped(t.value) && t.value.sources == s.sources
  {
    match a
    case Cancel => Some(s.(cancelled := true))
    case CloseOutput => if !s.closed && AllDone(s.phases) then Some(s.(closed := true)) else None
    case Receive(g) =>
      if g >= |s.phases| || !s.phases[g].Receiving? then None
      else if s.taken[g] < |s.sources[g]| then
        Some(s.(taken := s.taken[g := s.taken[g] + 1], phases := s.phases[g := Sending(s.sources[g][s.taken[g]])]))
      else Some(s.(phases := s.phases[g := Done]))
    case Send(g) =>
      if g >= |s.phases| || !s.phases[g].Sending? then None
      else Some(s.(output := s.output + [(g, s.phases[g].msg)], phases := s.phases[g := Receiving]))
    case Quit(g) =>
      if s.cancelled && g < |s.phases| && !s.phases[g].Done? then Some(s.(phases := s.phases[g := Done])) else None
  }

  function Run<T>(sources: seq<seq<T>>, acts: seq<Action>): (t: Option<State<T>>)
    ensures t.Some? ==> Shaped(t.value) && t.value.sources == sources
  {
    if acts == [] then Some(Init(sources))
    else
      match Run(sources, acts[..|acts| - 1])
      case None => None
      case Some(s) => Step(s, acts[|acts| - 1])
  }

  /** The messages of the output that came from input g. */
  ghost function From<T>(output: seq<(nat, T)>, g: nat): seq<T> {
    if output == [] then []
    else
      var (tag, msg) := output[|output| - 1];
      From(output[..|output| - 1], g) + (if tag == g then [msg] else [])
  }

  lemma FromSnoc<T>(output: seq<(nat, T)>, p: (nat, T), g: nat)
    ensures From(output + [p], g) == From(output, g) + (if p.0 == g then [p.1] else [])
  {
    assert (output + [p])[..|output|] == output;
  }

  ghost predicate InputOk<T>(s: State<T>, g: nat)
    requires Shaped(s) && g < |s.phases|
  {
    var (n, source) := (s.taken[g], s.sources[g]);
    && n <= |source|
    && match s.phases[g]
       case Receiving => From(s.output, g) == source[..n]
       case Sending(msg) => n > 0 && msg == source[n - 1] && From(s.output, g) == source[..n - 1]
       case Done =>
         || (From(s.output, g) == source[..n] && (n == |source| || s.cancelled))
         || (s.cancelled && n > 0 && From(s.output, g) == source[..n - 1])
  }

  ghost predicate Inv<T>(s: State<T>) {
    && Shaped(s)
    && (forall g :: 0 <= g < |s.phases| ==> InputOk(s, g))
    && (forall i :: 0 <= i < |s.output| ==> s.output[i].0 < |s.sources|)
    && (s.closed ==> AllDone(s.phases))
  }

  lemma StepKeepsInv<T>(s: State<T>, a: Action)
    requires Inv(s) && Step(s, a).Some?
    ensures Inv(Step(s, a).value)
  {
    var t := Step(s, a).value;
    forall g | 0 <= g < |t.phases| ensures InputOk(t, g) {
      assert InputOk(s, g);
      if a.Send? {
        FromSnoc(s.output, (a.g, s.phases[a.g].msg), g);
        if g == a.g {
          assert s.sources[g][..s.taken[g]] == s.sources[g][..s.taken[g] - 1] + [s.sources[g][s.taken[g] - 1]];
        }
      } else if a.Receive? && g == a.g && s.taken[g] < |s.sources[g]| {
        assert s.sources[g][..s.taken[g] + 1 - 1] == s.sources[g][..s.taken[g]];
      }
    }
  }

  lemma {:induction false} RunKeepsInv<T>(sources: seq<seq<T>>, acts: seq<Action>)
    requires Run(sources, acts).Some?
    ensures Inv(Run(sources, acts).value)
  {
    if acts != [] {
      RunKeepsInv(sources, acts[..|acts| - 1]);
      StepKeepsInv(Run(sources, acts[..|acts| - 1]).value, acts[|acts| - 1]);
    }
  }

  /** At every step the output interleaves beginnings of the inputs, each in its order, and holds all that has
      been received but at most one message per input; there is nothing else in it. */
  lemma OutputInterleavesPrefixes<T>(sources: seq<seq<T>>, acts: seq<Action>, g: nat)
    requires Run(sources, acts).Some? && g < |sources|
    ensures var s := Run(sources, acts).value;
            && From(s.output, g) <= sources[g]
            && s.taken[g] - 1 <= |From(s.output, g)| <= s.taken[g]
            && forall i :: 0 <= i < |s.output| ==> s.output[i].0 < |sources|
  {
    RunKeepsInv(sources, acts);
    assert InputOk(Run(sources, acts).value, g);
  }

  /** Nobody ever sends on the merged channel after it has been closed. */
  lemma NeverSendsAfterClose<T>(sources: seq<seq<T>>, acts: seq<Action>, g: nat)
    requires Run(sources, acts).Some? && Run(sources, acts).value.closed
    ensures Step(Run(sources, acts).value, Send(g)).None?
  {
    RunKeepsInv(sources, acts);
  }

  /** Without cancellation the merged channel has carried every input to its end when it is closed,
      and nothing besides. */
  lemma CompleteAtClose<T>(sources: seq<seq<T>>, acts: seq<Action>)
    requires Run(sources, acts).Some?
    requires Run(sources, acts).value.closed && !Run(sources, acts).value.cancelled
    ensures var s := Run(sources, acts).value;
            && (forall g :: 0 <= g < |sources| ==> From(s.output, g) == sources[g])
            && |s.output| == TotalLength(sources)
  {
    RunKeepsInv(sources, acts);
    var s := Run(sources, acts).value;
    forall g | 0 <= g < |sources| ensures From(s.output, g) == sources[g] {
      assert InputOk(s, g);
      assert sources[g][..|sources[g]|] == sources[g];
    }
    CountByTag(s.output, sources);
  }

  ghost function TotalLength<T>(sources: seq<seq<T>>): nat {
    if sources == [] then 0 else TotalLength(sources[..|sources| - 1]) + |sources[|sources| - 1]|
  }

  ghost function Upto<T>(output: seq<(nat, T)>, n: nat): seq<(nat, T)> {
    if output == [] then []
    else Upto(output[..|output| - 1], n) + (if output[|output| - 1].0 < n then [output[|output| - 1]] else [])
  }

  lemma {:induction false} UptoNext<T>(output: seq<(nat, T)>, n: nat)
    ensures |Upto(output, n + 1)| == |Upto(output, n)| + |From(output, n)|
    ensures |Upto(output, 0)| == 0
  {
    if output != [] {
      UptoNext(output[..|output| - 1], n);
    }
  }

  lemma {:induction false} UptoAll<T>(output: seq<(nat, T)>, n: nat)
    requires forall i :: 0 <= i < |output| ==> output[i].0 < n
    ensures Upto(output, n) == output
  {
    if output != [] {
      UptoAll(output[..|output| - 1], n);
    }
  }

  lemma {:induction false} CountUpto<T>(output: seq<(nat, T)>, sources: seq<seq<T>>)
    requires forall g :: 0 <= g < |sources| ==> |From(output, g)| == |sources[g]|
    ensures |Upto(output, |sources|)| == TotalLength(sources)
  {
    if sources == [] {
      UptoNext(output, 0);
    } else {
      CountUpto(output, sources[..|sources| - 1]);
      UptoNext(output, |sources| - 1);
    }
  }

  lemma CountByTag<T>(output: seq<(nat, T)>, sources: seq<seq<T>>)
    requires forall i :: 0 <= i < |output| ==> output[i].0 < |sources|
    requires forall g :: 0 <= g < |sources| ==> From(output, g) == sources[g]
    ensures |output| == TotalLength(sources)
  {
    UptoAll(output, |sources|);
    CountUpto(output, sources);
  }

  // ---------- The goroutines come to their end ----------

  /** How many steps input g has left at most: two for every message, and one to end. */
  ghost function LeftAt<T>(s: State<T>, g: nat): nat
    requires Inv(s) && g < |s.phases|
  {
    assert InputOk(s, g);
    2 * (|s.sources[g]| - s.taken[g]) +
    match s.phases[g]
    case Receiving => 1
    case Sending(_) => 2
    case Done => 0
  }

  ghost function Lefts<T>(s: State<T>): seq<nat>
    requires Inv(s)
  {
    seq(|s.phases|, g requires 0 <= g < |s.phases| => LeftAt(s, g))
  }

  ghost function Left<T>(s: State<T>): nat
    requires Inv(s)
  {
    Tally(Lefts(s), (n: nat) => n) + if s.closed then 0 else 1
  }

  lemma LessLeft<T>(s: State<T>, a: Action)
    requires Inv(s) && Step(s, a).Some?
    ensures Inv(Step(s, a).value)
    ensures Left(Step(s, a).value) <= Left(s) - if a.Cancel? then 0 else 1
  {
    StepKeepsInv(s, a);
    var t := Step(s, a).value;
    if a.Cancel? || a.CloseOutput? {
      assert Lefts(t) == Lefts(s);
    } else {
      assert InputOk(s, a.g);
      assert Lefts(t) == Lefts(s)[a.g := LeftAt(t, a.g)];
      TallyUpdate(Lefts(s), (n: nat) => n, a.g, LeftAt(t, a.g));
    }
  }

  /** The steps of a run that are no cancellations. */
  ghost function Steps(acts: seq<Action>): nat {
    if acts == [] then 0 else Steps(acts[..|acts| - 1]) + (if acts[|acts| - 1].Cancel? then 0 else 1)
  }

  lemma {:induction false} LeftAtStart<T>(sources: seq<seq<T>>)
    ensures Inv(Init(sources)) && Left(Init(sources)) == 2 * TotalLength(sources) + |sources| + 1
  {
    assert Run(sources, []) == Some(Init(sources));
    RunKeepsInv(sources, []);
    TallyStart(sources, Lefts(Init(sources)));
  }

  lemma {:induction false} TallyStart<T>(sources: seq<seq<T>>, lefts: seq<nat>)
    requires |lefts| == |sources| && forall g :: 0 <= g < |lefts| ==> lefts[g] == 2 * |sources[g]| + 1
    ensures Tally(lefts, (n: nat) => n) == 2 * TotalLength(sources) + |sources|
  {
    if lefts != [] {
      var init := lefts[..|lefts| - 1];
      TallyStart(sources[..|sources| - 1], init);
      assert lefts == init + [lefts[|lefts| - 1]];
      TallySnoc(init, lefts[|lefts| - 1]);
    }
  }

  lemma {:induction false} TallySnoc(lefts: seq<nat>, last: nat)
    ensures Tally(lefts + [last], (n: nat) => n) == Tally(lefts, (n: nat) => n) + last
  {
    var f := (n: nat) => n;
    if lefts == [] {
      assert lefts + [last] == [last] && [last][1..] == [];
      assert Tally([last], f) == f(last) + Tally([last][1..], f);
    } else {
      assert (lefts + [last])[1..] == lefts[1..] + [last];
      TallySnoc(lefts[1..], last);
      assert Tally(lefts + [last], f) == f(lefts[0]) + Tally(lefts[1..] + [last], f);
    }
  }

  /** No run is longer than it takes to receive and send every message, end every goroutine and close the output. */
  lemma {:induction false} RunsEnd<T>(sources: seq<seq<T>>, acts: seq<Action>)
    requires Run(sources, acts).Some?
    ensures Inv(Run(sources, acts).value)
    ensures Steps(acts) + Left(Run(sources, acts).value) <= 2 * TotalLength(sources) + |sources| + 1
  {
    hide Left, Step, Inv;
    if acts == [] {
      LeftAtStart(sources);
    } else {
      var init := acts[..|acts| - 1];
      RunsEnd(sources, init);
      LessLeft(Run(sources, init).value, acts[|acts| - 1]);
    }
  }

  /** And none stops before the output is closed: until then some step is possible. */
  lemma StopsWhenClosed<T>(sources: seq<seq<T>>, acts: seq<Action>)
    requires Run(sources, acts).Some?
    ensures var s := Run(sources, acts).value; (forall a :: Step(s, a).Some? ==> a.Cancel?) <==> s.closed
  {
    RunKeepsInv(sources, acts);
    var s := Run(sources, acts).value;
    if AllDone(s.phases) {
      assert !s.closed ==> Step(s, CloseOutput).Some?;
    } else {
      var g :| 0 <= g < |s.phases| && !s.phases[g].Done?;
      assert Step(s, Receive(g)).Some? || Step(s, Send(g)).Some?;
    }
  }

  /** One goroutine's body. `done(i)` tells whether its i-th select takes the context's branch. */
  method Multiplex<T>(source: seq<T>, done: nat -> bool) returns (sent: seq<T>, ghost taken: nat, selects: nat)
    ensures taken <= |source| && selects > 0
    ensures sent == source[..taken] || (taken > 0 && sent == source[..taken - 1])
    ensures done(selects - 1) || (taken == |source| && sent == source)
  {
    sent, taken, selects := [], 0, 0;
    var i := 0;
    while true
      invariant i == taken <= |source| && sent == source[..taken]
      decreases |source| - i
    {
      selects := selects + 1;
      if done(selects - 1) {
        return;
      }
      if i == |source| {
        return;
      }
      var msg := source[i];
      i, taken := i + 1, taken + 1;
      selects := selects + 1;
      if done(selects - 1) {
        return;
      }
      sent := sent + [msg];
    }
  }
}
