/** A chain of stages joined by unbuffered channels, one goroutine each, interleaved in any way. */
module Pipeline {
  import opened Common

  datatype Phase<T> = Receiving | Holding(msg: T) | Sending(result: T) | Closed

  /** `source` is everything ever sent on the first input before it is closed. `flow[0]` is what the first
      stage has received; `flow[k + 1]` is what stage k has sent, which is what the next one has received. */
  datatype State<!T> = State(source: seq<T>, stages: seq<T -> T>, phases: seq<Phase<T>>,
                            flow: seq<seq<T>>, cancelled: bool)

  datatype Action =
    | Feed                 // the first stage, or the consumer if there is none, receives from the source
    | Transform(k: nat)
    | Hand(k: nat)         // stage k sends and the next one, or the consumer, receives: one rendezvous
    | SeeClosed(k: nat)    // stage k finds its input closed, and closes its output
    | Quit(k: nat)         // stage k notices that the context is done, and closes its output
    | Cancel

  function Init<T>(source: seq<T>, stages: seq<T -> T>): State<T> {
    State(source, stages, seq(|stages|, _ => Receiving), seq(|stages| + 1, _ => []), false)
  }

  predicate Shaped<T>(s: State<T>) {
    |s.phases| == |s.stages| && |s.flow| == |s.stages| + 1
  }

  function Append<T>(flow: seq<seq<T>>, k: nat, msg: T): seq<seq<T>>
    requires k < |flow|
  {
    flow[k := flow[k] + [msg]]
  }

  function Step<T>(s: State<T>, a: Action): (t: Option<State<T>>)
    requires Shaped(s)
    ensures t.Some? ==> Shaped(t.value) && t.value.source == s.source && t.value.stages == s.stages
  {
    match a
    case Cancel => Some(s.(cancelled := true))
    case Feed =>
      var n := |s.flow[0]|;
      if n >= |s.source| then None
      else if |s.phases| == 0 then Some(s.(flow := Append(s.flow, 0, s.source[n])))
      else if !s.phases[0].Receiving? then None
      else Some(s.(flow := Append(s.flow, 0, s.source[n]), phases := s.phases[0 := Holding(s.source[n])]))
    case Transform(k) =>
      if k >= |s.phases| || !s.phases[k].Holding? then None
      else Some(s.(phases := s.phases[k := Sending(s.stages[k](s.phases[k].msg))]))
    case Hand(k) =>
      if k >= |s.phases| || !s.phases[k].Sending? then None
      else
        var r := s.phases[k].result;
        if k + 1 == |s.phases| then
          Some(s.(flow := Append(s.flow, k + 1, r), phases := s.phases[k := Receiving]))
        else if !s.phases[k + 1].Receiving? then None
        else
          Some(s.(flow := Append(s.flow, k + 1, r), phases := s.phases[k := Receiving][k + 1 := Holding(r)]))
    case SeeClosed(k) =>
      if k >= |s.phases| || !s.phases[k].Receiving? then None
      else if (if k == 0 then |s.flow[0]| == |s.source| else s.phases[k - 1].Closed?) then
        Some(s.(phases := s.phases[k := Closed]))
      else None
    case Quit(k) =>
      if !s.cancelled || k >= |s.phases| || !(s.phases[k].Receiving? || s.phases[k].Sending?) then None
      else Some(s.(phases := s.phases[k := Closed]))
  }

  function Run<T>(source: seq<T>, stages: seq<T -> T>, acts: seq<Action>): (t: Option<State<T>>)
    ensures t.Some? ==> Shaped(t.value) && t.value.source == source && t.value.stages == stages
  {
    if acts == [] then Some(Init(source, stages))
    else
      match Run(source, stages, acts[..|acts| - 1])
      case None => None
      case Some(s) => Step(s, acts[|acts| - 1])
  }

  // ---------- What one stage makes of its input ----------

  lemma {:induction false} MapPrefix<T>(f: T -> T, p: seq<T>, q: seq<T>)
    requires p <= q
    ensures Map(f, p) <= Map(f, q)
  {
    if |p| < |q| {
      MapPrefix(f, p, q[..|q| - 1]);
    } else {
      assert p == q;
    }
  }

  /** `out` is all that has come of `input`, except for its last message. */
  ghost predicate Behind<T>(f: T -> T, input: seq<T>, out: seq<T>) {
    input != [] && out == Map(f, input[..|input| - 1])
  }

  ghost predicate StageOk<T>(s: State<T>, k: nat)
    requires Shaped(s) && k < |s.phases|
  {
    var (f, input, out) := (s.stages[k], s.flow[k], s.flow[k + 1]);
    match s.phases[k]
    case Receiving => out == Map(f, input)
    case Holding(msg) => Behind(f, input, out) && msg == input[|input| - 1]
    case Sending(r) => Behind(f, input, out) && r == f(input[|input| - 1])
    case Closed =>
      if s.cancelled then out == Map(f, input) || Behind(f, input, out)
      else out == Map(f, input) && if k == 0 then input == s.source else s.phases[k - 1].Closed?
  }

  ghost predicate Inv<T>(s: State<T>) {
    && Shaped(s) && s.flow[0] <= s.source
    && forall k :: 0 <= k < |s.phases| ==> StageOk(s, k)
  }

  /** Sending brings the output of a stage up to its input. */
  lemma CatchUp<T>(f: T -> T, input: seq<T>, out: seq<T>)
    requires Behind(f, input, out)
    ensures out + [f(input[|input| - 1])] == Map(f, input)
  {
  }

  /** Receiving puts it one message behind. */
  lemma FallBehind<T>(f: T -> T, input: seq<T>, msg: T)
    ensures Behind(f, input + [msg], Map(f, input))
  {
    assert (input + [msg])[..|input|] == input;
  }

  lemma FeedKeepsStage<T>(s: State<T>, k: nat)
    requires Inv(s) && Step(s, Feed).Some? && k < |s.phases|
    ensures StageOk(Step(s, Feed).value, k)
  {
    assert StageOk(s, k);
    FallBehind(s.stages[0], s.flow[0], s.source[|s.flow[0]|]);
  }

  lemma HandKeepsStage<T>(s: State<T>, j: nat, k: nat)
    requires Inv(s) && Step(s, Hand(j)).Some? && k < |s.phases|
    ensures StageOk(Step(s, Hand(j)).value, k)
  {
    assert StageOk(s, k) && StageOk(s, j);
    CatchUp(s.stages[j], s.flow[j], s.flow[j + 1]);
    if k == j + 1 {
      FallBehind(s.stages[k], s.flow[k], s.phases[j].result);
    }
  }

  lemma StepKeepsStage<T>(s: State<T>, a: Action, k: nat)
    requires Inv(s) && Step(s, a).Some? && k < |s.phases|
    ensures StageOk(Step(s, a).value, k)
  {
    match a
    case Feed => FeedKeepsStage(s, k);
    case Hand(j) => HandKeepsStage(s, j, k);
    case _ => assert StageOk(s, k);
  }

  lemma {:induction false} RunKeepsInv<T>(source: seq<T>, stages: seq<T -> T>, acts: seq<Action>)
    requires Run(source, stages, acts).Some?
    ensures Inv(Run(source, stages, acts).value)
  {
    if acts != [] {
      var init, a := acts[..|acts| - 1], acts[|acts| - 1];
      RunKeepsInv(source, stages, init);
      var s := Run(source, stages, init).value;
      forall k | 0 <= k < |s.phases| ensures StageOk(Step(s, a).value, k) {
        StepKeepsStage(s, a, k);
      }
    }
  }

  // ---------- What the whole chain makes of it ----------

  /** The stages from the first to the k-th, one after the other. */
  function Compose<T>(stages: seq<T -> T>, x: T): T {
    if stages == [] then x else stages[|stages| - 1](Compose(stages[..|stages| - 1], x))
  }

  ghost function Composed<T>(stages: seq<T -> T>): T -> T {
    (x: T) => Compose(stages, x)
  }

  lemma {:induction false} MapCompose<T>(stages: seq<T -> T>, q: seq<T>)
    requires stages != []
    ensures Map(stages[|stages| - 1], Map(Composed(stages[..|stages| - 1]), q)) == Map(Composed(stages), q)
  {
    if q != [] {
      MapCompose(stages, q[..|q| - 1]);
    }
  }

  lemma {:induction false} MapNothing<T>(q: seq<T>)
    ensures Map(Composed<T>([]), q) == q
  {
    if q != [] {
      MapNothing(q[..|q| - 1]);
    }
  }

  lemma StagePrefix<T>(f: T -> T, input: seq<T>, out: seq<T>, all: seq<T>)
    requires input <= all && (out == Map(f, input) || Behind(f, input, out))
    ensures out <= Map(f, all)
  {
    MapPrefix(f, input, all);
    if Behind(f, input, out) {
      MapPrefix(f, input[..|input| - 1], input);
    }
  }

  /** What stage k - 1 has sent is a beginning of the composed map of the source. */
  lemma {:induction false} FlowIsPrefix<T>(s: State<T>, k: nat)
    requires Inv(s) && k <= |s.stages|
    ensures s.flow[k] <= Map(Composed(s.stages[..k]), s.source)
  {
    if k == 0 {
      assert s.stages[..0] == [];
      MapNothing(s.source);
    } else {
      FlowIsPrefix(s, k - 1);
      assert StageOk(s, k - 1);
      assert s.stages[..k][..k - 1] == s.stages[..k - 1];
      MapCompose(s.stages[..k], s.source);
      StagePrefix(s.stages[k - 1], s.flow[k - 1], s.flow[k], Map(Composed(s.stages[..k - 1]), s.source));
    }
  }

  /** At every step the pipeline has delivered a beginning of the composed map of its input, and no stage has
      more than one message in flight. */
  lemma OutputIsPrefixOfComposedMap<T>(source: seq<T>, stages: seq<T -> T>, acts: seq<Action>, k: nat)
    requires Run(source, stages, acts).Some? && k < |stages|
    ensures var s := Run(source, stages, acts).value;
            && s.flow[|stages|] <= Map(Composed(stages), source)
            && |s.flow[k]| - 1 <= |s.flow[k + 1]| <= |s.flow[k]| <= |source|
  {
    RunKeepsInv(source, stages, acts);
    var s := Run(source, stages, acts).value;
    FlowIsPrefix(s, |stages|);
    assert stages[..|stages|] == stages;
    FlowIsPrefix(s, k);
    assert StageOk(s, k);
  }

  lemma {:induction false} ClosedIsComplete<T>(s: State<T>, k: nat)
    requires Inv(s) && !s.cancelled && k < |s.stages| && s.phases[k].Closed?
    ensures s.flow[k + 1] == Map(Composed(s.stages[..k + 1]), s.source)
  {
    assert StageOk(s, k);
    hide StageOk, Map, Composed;
    if k == 0 {
      assert s.stages[..1][..0] == [];
      MapNothing(s.source);
    } else {
      ClosedIsComplete(s, k - 1);
      assert s.stages[..k + 1][..k] == s.stages[..k];
    }
    MapCompose(s.stages[..k + 1], s.source);
  }

  /** Without cancellation a closed output has carried the composed map of the whole input. */
  lemma CompleteAtClose<T>(source: seq<T>, stages: seq<T -> T>, acts: seq<Action>)
    requires Run(source, stages, acts).Some? && stages != []
    requires var s := Run(source, stages, acts).value; s.phases[|stages| - 1].Closed? && !s.cancelled
    ensures Run(source, stages, acts).value.flow[|stages|] == Map(Composed(stages), source)
  {
    RunKeepsInv(source, stages, acts);
    ClosedIsComplete(Run(source, stages, acts).value, |stages| - 1);
    assert stages[..|stages|] == stages;
  }

  // ---------- The stages come to their end ----------

  /** How many steps a stage has before it that has `ahead` stages from itself on: one to close, and two a stage to
      carry what it holds to the end. */
  ghost function StageLeft<T>(p: Phase<T>, ahead: nat): int {
    match p
    case Receiving => 1
    case Holding(_) => 2 * ahead + 1
    case Sending(_) => 2 * ahead
    case Closed => 0
  }

  ghost function StagesLeft<T>(phases: seq<Phase<T>>): int {
    if phases == [] then 0 else StageLeft(phases[0], |phases|) + StagesLeft(phases[1..])
  }

  lemma {:induction false} MoveStage<T>(phases: seq<Phase<T>>, k: nat, p: Phase<T>)
    requires k < |phases|
    ensures StagesLeft(phases[k := p]) ==
            StagesLeft(phases) - StageLeft(phases[k], |phases| - k) + StageLeft(p, |phases| - k)
  {
    if k == 0 {
      assert phases[k := p][1..] == phases[1..];
    } else {
      assert phases[k := p][1..] == phases[1..][k - 1 := p];
      MoveStage(phases[1..], k - 1, p);
    }
  }

  lemma {:induction false} StagesCount<T>(phases: seq<Phase<T>>)
    ensures StagesLeft(phases) >= 0
  {
    if phases != [] {
      StagesCount(phases[1..]);
    }
  }

  lemma {:induction false} StagesAtStart<T>(n: nat)
    ensures StagesLeft(seq(n, _ => Phase<T>.Receiving)) == n
  {
    var phases := seq(n, _ => Phase<T>.Receiving);
    if n > 0 {
      assert phases[1..] == seq(n - 1, _ => Phase<T>.Receiving);
      StagesAtStart<T>(n - 1);
    }
  }

  /** How many steps are left at most, apart from cancellations. */
  ghost function Left<T>(s: State<T>): int
    requires Shaped(s)
  {
    (|s.source| - |s.flow[0]|) * (2 * |s.stages| + 1) + StagesLeft(s.phases)
  }

  lemma OneLess(a: int, b: int)
    ensures (a - 1) * b == a * b - b
  {
  }

  lemma FeedLessLeft<T>(s: State<T>)
    requires Shaped(s) && Step(s, Feed).Some?
    ensures Left(Step(s, Feed).value) < Left(s)
  {
    OneLess(|s.source| - |s.flow[0]|, 2 * |s.stages| + 1);
    if s.phases != [] {
      MoveStage(s.phases, 0, Holding(s.source[|s.flow[0]|]));
    }
  }

  lemma HandLessLeft<T>(s: State<T>, k: nat)
    requires Shaped(s) && Step(s, Hand(k)).Some?
    ensures Left(Step(s, Hand(k)).value) < Left(s)
  {
    var between := s.phases[k := Receiving];
    MoveStage(s.phases, k, Receiving);
    if k + 1 < |s.phases| {
      MoveStage(between, k + 1, Holding(s.phases[k].result));
    }
  }

  lemma LessLeft<T>(s: State<T>, a: Action)
    requires Shaped(s) && Step(s, a).Some?
    ensures Left(Step(s, a).value) <= Left(s) - if a.Cancel? then 0 else 1
  {
    match a
    case Cancel =>
    case Feed => FeedLessLeft(s);
    case Hand(k) => HandLessLeft(s, k);
    case Transform(k) => MoveStage(s.phases, k, Step(s, a).value.phases[k]);
    case SeeClosed(k) => MoveStage(s.phases, k, Closed);
    case Quit(k) => MoveStage(s.phases, k, Closed);
  }

  /** The steps of a run that are no cancellations. */
  ghost function Steps(acts: seq<Action>): nat {
    if acts == [] then 0 else Steps(acts[..|acts| - 1]) + (if acts[|acts| - 1].Cancel? then 0 else 1)
  }

  lemma Nonnegative(a: int, b: int)
    requires a >= 0 && b >= 0
    ensures a * b >= 0
  {
  }

  /** No run is longer than it takes to feed every message in, to transform and hand it on at every stage, and to close
      every stage. */
  lemma {:induction false} RunsEnd<T>(source: seq<T>, stages: seq<T -> T>, acts: seq<Action>)
    requires Run(source, stages, acts).Some?
    ensures var s := Run(source, stages, acts).value;
            0 <= Left(s) && Steps(acts) + Left(s) <= |source| * (2 * |stages| + 1) + |stages|
  {
    hide Step, StageOk, StagesLeft;
    RunKeepsInv(source, stages, acts);
    var s := Run(source, stages, acts).value;
    StagesCount(s.phases);
    Nonnegative(|s.source| - |s.flow[0]|, 2 * |s.stages| + 1);
    if acts == [] {
      StagesAtStart<T>(|stages|);
    } else {
      var init := acts[..|acts| - 1];
      RunsEnd(source, stages, init);
      LessLeft(Run(source, stages, init).value, acts[|acts| - 1]);
    }
  }

  /** Only a cancellation can happen. */
  ghost predicate AtRest<T>(s: State<T>)
    requires Shaped(s)
  {
    forall a :: Step(s, a).Some? ==> a.Cancel?
  }

  /** If a stage waits for its input, somebody before it can do something. */
  lemma {:induction false} SomebodyBefore<T>(s: State<T>, k: nat)
    requires Inv(s) && k < |s.phases| && s.phases[k].Receiving?
    ensures !AtRest(s)
  {
    if k == 0 {
      assert Step(s, Feed).Some? || Step(s, SeeClosed(0)).Some?;
    } else {
      match s.phases[k - 1]
      case Receiving => SomebodyBefore(s, k - 1);
      case Holding(_) => assert Step(s, Transform(k - 1)).Some?;
      case Sending(_) => assert Step(s, Hand(k - 1)).Some?;
      case Closed => assert Step(s, SeeClosed(k)).Some?;
    }
  }

  /** The last stage that is not closed, or somebody before it, can do something. */
  lemma {:induction false} SomebodyOpen<T>(s: State<T>, k: nat)
    requires Inv(s) && k < |s.phases| && !s.phases[k].Closed?
    ensures !AtRest(s)
    decreases |s.phases| - k
  {
    match s.phases[k]
    case Receiving => SomebodyBefore(s, k);
    case Holding(_) => assert Step(s, Transform(k)).Some?;
    case Sending(_) =>
      if k + 1 == |s.phases| {
        assert Step(s, Hand(k)).Some?;
      } else if s.phases[k + 1].Receiving? {
        assert Step(s, Hand(k)).Some?;
      } else if s.phases[k + 1].Closed? {
        assert StageOk(s, k + 1);
        assert Step(s, Quit(k)).Some?;
      } else {
        SomebodyOpen(s, k + 1);
      }
    case Closed =>
  }

  /** And none stops before all stages are closed: until then some step is possible. */
  lemma StopsWhenClosed<T>(source: seq<T>, stages: seq<T -> T>, acts: seq<Action>)
    requires Run(source, stages, acts).Some?
    ensures var s := Run(source, stages, acts).value;
            AtRest(s) <==> (forall k :: 0 <= k < |stages| ==> s.phases[k].Closed?) && (stages == [] ==> s.flow[0] == source)
  {
    RunKeepsInv(source, stages, acts);
    var s := Run(source, stages, acts).value;
    if k :| 0 <= k < |stages| && !s.phases[k].Closed? {
      SomebodyOpen(s, k);
    } else if stages == [] && s.flow[0] != source {
      assert Step(s, Feed).Some?;
    }
  }

  /** One stage's body. `done(i)` tells whether its i-th select takes the context's branch. */
  method PipelineStage<T>(input: seq<T>, transform: T -> T, done: nat -> bool) returns (output: seq<T>, selects: nat)
    ensures output <= Map(transform, input) && selects > 0
    ensures done(selects - 1) || output == Map(transform, input)
  {
    output, selects := [], 0;
    var i := 0;
    while true
      invariant i <= |input| && output == Map(transform, input[..i])
      decreases |input| - i
    {
      assert input[..i] <= input;
      MapPrefix(transform, input[..i], input);
      selects := selects + 1;
      if done(selects - 1) {
        return;
      }
      if i == |input| {
        assert input[..i] == input;
        return;
      }
      var msg := input[i];
      var result := transform(msg);
      selects := selects + 1;
      if done(selects - 1) {
        return;
      }
      MapNext(transform, input, i);
      output := output + [result];
      i := i + 1;
    }
  }

  /** The loop that chains the stages, each run on all that the one before it sends;
      `done(k)` are the selects of stage k. */
  method Chain<T>(input: seq<T>, stages: seq<T -> T>, done: nat -> nat -> bool) returns (output: seq<T>)
    ensures output <= Map(Composed(stages), input)
    ensures (forall k: nat, i: nat :: !done(k)(i)) ==> output == Map(Composed(stages), input)
  {
    output := input;
    MapNothing(input);
    for k := 0 to |stages|
      invariant output <= Map(Composed(stages[..k]), input)
      invariant (forall k: nat, i: nat :: !done(k)(i)) ==> output == Map(Composed(stages[..k]), input)
    {
      assert stages[..k + 1][..k] == stages[..k];
      MapCompose(stages[..k + 1], input);
      MapPrefix(stages[k], output, Map(Composed(stages[..k]), input));
      var selects;
      output, selects := PipelineStage(output, stages[k], done(k));
    }
    assert stages[..|stages|] == stages;
  }
}
