/** One input channel copied to several output channels by one goroutine, step by step. */
module FanOut {
  import opened Common

  /** `at` outputs have got the last message consumed. */
  datatype Phase =
    | Receiving
    | Sending(at: nat)
    | Closing(next: nat, at: nat)   // outputs before `next` are closed

  /** `source` is everything that is ever sent on the input before it is closed;
      `outputs` are the messages that each output has delivered so far. */
  datatype State<T> = State(source: seq<T>, consumed: nat, phase: Phase, outputs: seq<seq<T>>, cancelled: bool)

  datatype Action =
    | Receive    // from the input: a message, or that it is closed
    | Send       // the current message to the next output
    | Cancel     // the context is done
    | Quit       // the goroutine notices that
    | Close      // the next output

  function Init<T>(source: seq<T>, numOutputs: nat): State<T> {
    State(source, 0, Receiving, seq(numOutputs, _ => []), false)
  }

  /** After sending to `at` outputs. */
  function Onward(at: nat, numOutputs: nat): Phase {
    if at < numOutputs then Sending(at) else Receiving
  }

  function Step<T>(s: State<T>, a: Action): (t: Option<State<T>>)
    ensures t.Some? ==> |t.value.outputs| == |s.outputs| && t.value.source == s.source
  {
    match a
    case Cancel => Some(s.(cancelled := true))
    case Receive =>
      if !s.phase.Receiving? then None
      else if s.consumed < |s.source| then Some(s.(consumed := s.consumed + 1, phase := Onward(0, |s.outputs|)))
      else Some(s.(phase := Closing(0, |s.outputs|)))
    case Send =>
      if !s.phase.Sending? || s.phase.at >= |s.outputs| || !(0 < s.consumed <= |s.source|) then None
      else
        var k := s.phase.at;
        Some(s.(outputs := s.outputs[k := s.outputs[k] + [s.source[s.consumed - 1]]],
                phase := Onward(k + 1, |s.outputs|)))
    case Quit =>
      if !s.cancelled || s.phase.Closing? then None
      else Some(s.(phase := Closing(0, if s.phase.Sending? then s.phase.at else |s.outputs|)))
    case Close =>
      if s.phase.Closing? && s.phase.next < |s.outputs| then Some(s.(phase := s.phase.(next := s.phase.next + 1)))
      else None
  }

  function Run<T>(source: seq<T>, numOutputs: nat, acts: seq<Action>): (t: Option<State<T>>)
    ensures t.Some? ==> |t.value.outputs| == numOutputs && t.value.source == source
  {
    if acts == [] then Some(Init(source, numOutputs))
    else
      match Run(source, numOutputs, acts[..|acts| - 1])
      case None => None
      case Some(s) => Step(s, acts[|acts| - 1])
  }

  /** How many outputs have got the last message consumed. */
  ghost function Served<T>(s: State<T>): nat {
    match s.phase
    case Receiving => |s.outputs|
    case Sending(at) => at
    case Closing(_, at) => at
  }

  ghost predicate Inv<T>(s: State<T>) {
    && s.consumed <= |s.source| && Served(s) <= |s.outputs|
    && (Served(s) < |s.outputs| ==> s.consumed > 0)
    && (s.phase.Sending? ==> s.phase.at < |s.outputs|)
    && (s.phase.Closing? ==> s.phase.next <= |s.outputs|)
    && (s.phase.Closing? && !s.cancelled ==> Served(s) == |s.outputs| && s.consumed == |s.source|)
    && forall k :: 0 <= k < |s.outputs| ==>
         s.outputs[k] == s.source[..if k < Served(s) then s.consumed else s.consumed - 1]
  }

  lemma StepKeepsInv<T>(s: State<T>, a: Action)
    requires Inv(s) && Step(s, a).Some?
    ensures Inv(Step(s, a).value)
  {
    if a.Send? {
      assert s.source[..s.consumed] == s.source[..s.consumed - 1] + [s.source[s.consumed - 1]];
    }
  }

  lemma {:induction false} RunKeepsInv<T>(source: seq<T>, numOutputs: nat, acts: seq<Action>)
    requires Run(source, numOutputs, acts).Some?
    ensures Inv(Run(source, numOutputs, acts).value)
  {
    if acts != [] {
      RunKeepsInv(source, numOutputs, acts[..|acts| - 1]);
      StepKeepsInv(Run(source, numOutputs, acts[..|acts| - 1]).value, acts[|acts| - 1]);
    }
  }

  /** At every step each output has delivered a beginning of the input consumed, earlier outputs are never
      behind later ones, and no output is more than one message behind another. */
  lemma OutputsArePrefixes<T>(source: seq<T>, numOutputs: nat, acts: seq<Action>, j: nat, k: nat)
    requires Run(source, numOutputs, acts).Some? && j <= k < numOutputs
    ensures var s := Run(source, numOutputs, acts).value;
            && s.consumed <= |source|
            && s.outputs[k] <= s.outputs[j] <= source[..s.consumed]
            && s.consumed - 1 <= |s.outputs[k]| <= |s.outputs[j]| <= |s.outputs[k]| + 1
  {
    RunKeepsInv(source, numOutputs, acts);
  }

  /** Once one output is closed nothing is sent any more; and without cancellation every output has then
      delivered the whole input. */
  lemma CompleteAtClose<T>(source: seq<T>, numOutputs: nat, acts: seq<Action>)
    requires Run(source, numOutputs, acts).Some?
    requires Run(source, numOutputs, acts).value.phase.Closing?
    ensures var s := Run(source, numOutputs, acts).value;
            && Step(s, Send).None? && Step(s, Receive).None?
            && (!s.cancelled ==> forall k :: 0 <= k < numOutputs ==> s.outputs[k] == source)
  {
    RunKeepsInv(source, numOutputs, acts);
    var s := Run(source, numOutputs, acts).value;
    assert source[..|source|] == source;
  }

  // ---------- The goroutine comes to its end ----------

  /** How many steps are left at most, apart from cancellations. */
  ghost function Left<T>(s: State<T>): int {
    var n := |s.outputs|;
    (|s.source| - s.consumed) * (n + 1) +
    match s.phase
    case Receiving => n + 1
    case Sending(at) => n - at + n + 1
    case Closing(next, _) => n - next
  }

  lemma OneLess(a: int, b: int)
    ensures (a - 1) * b == a * b - b
  {
  }

  lemma LessLeft<T>(s: State<T>, a: Action)
    requires Inv(s) && Step(s, a).Some?
    ensures Left(Step(s, a).value) <= Left(s) - if a.Cancel? then 0 else 1
  {
    if a.Receive? {
      OneLess(|s.source| - s.consumed, |s.outputs| + 1);
    }
  }

  /** The steps of a run that are no cancellations. */
  ghost function Steps(acts: seq<Action>): nat {
    if acts == [] then 0 else Steps(acts[..|acts| - 1]) + (if acts[|acts| - 1].Cancel? then 0 else 1)
  }

  lemma Nonnegative(a: int, b: int)
    requires a >= 0 && b >= 0
    ensures a * b >= 0
  {
  }

  /** No run is longer than it takes to copy every message to every output and to close the outputs. */
  lemma {:induction false} RunsEnd<T>(source: seq<T>, numOutputs: nat, acts: seq<Action>)
    requires Run(source, numOutputs, acts).Some?
    ensures Left(Run(source, numOutputs, acts).value) >= 0
    ensures Steps(acts) + Left(Run(source, numOutputs, acts).value) <= (|source| + 1) * (numOutputs + 1)
  {
    hide Left, Step, Inv;
    RunKeepsInv(source, numOutputs, acts);
    LeftIsCount(Run(source, numOutputs, acts).value);
    if acts == [] {
      LeftAtStart(source, numOutputs);
    } else {
      var init := acts[..|acts| - 1];
      RunsEnd(source, numOutputs, init);
      RunKeepsInv(source, numOutputs, init);
      LessLeft(Run(source, numOutputs, init).value, acts[|acts| - 1]);
    }
  }

  lemma LeftIsCount<T>(s: State<T>)
    requires Inv(s)
    ensures Left(s) >= 0
  {
    Nonnegative(|s.source| - s.consumed, |s.outputs| + 1);
  }

  lemma LeftAtStart<T>(source: seq<T>, numOutputs: nat)
    ensures Left(Init(source, numOutputs)) == (|source| + 1) * (numOutputs + 1)
  {
    OneLess(|source| + 1, numOutputs + 1);
  }

  /** And none stops before all outputs are closed: until then some step is possible. */
  lemma StopsWhenClosed<T>(source: seq<T>, numOutputs: nat, acts: seq<Action>)
    requires Run(source, numOutputs, acts).Some?
    ensures var s := Run(source, numOutputs, acts).value;
            (forall a :: Step(s, a).Some? ==> a.Cancel?) <==> s.phase.Closing? && s.phase.next == numOutputs
  {
    RunKeepsInv(source, numOutputs, acts);
    var s := Run(source, numOutputs, acts).value;
    assert Step(s, Receive).Some? || Step(s, Send).Some? || Step(s, Close).Some? || (s.phase.Closing? && s.phase.next == numOutputs);
  }

  /** The goroutine's body. `done(i)` tells whether its i-th select takes the context's branch. */
  method Distribute<T>(source: seq<T>, numOutputs: nat, done: nat -> bool)
    returns (outputs: seq<seq<T>>, ghost consumed: nat, ghost served: nat, selects: nat)
    ensures consumed <= |source| && |outputs| == numOutputs && served <= numOutputs
    ensures served < numOutputs ==> consumed > 0
    ensures forall k :: 0 <= k < numOutputs ==> outputs[k] == source[..if k < served then consumed else consumed - 1]
    ensures selects > 0 && (done(selects - 1) || (consumed == |source| && served == numOutputs))
  {
    outputs := seq(numOutputs, _ => []);
    consumed, served, selects := 0, numOutputs, 0;
    var i := 0;
    while true
      invariant i == consumed <= |source| && |outputs| == numOutputs && served == numOutputs
      invariant forall k :: 0 <= k < numOutputs ==> outputs[k] == source[..consumed]
      decreases |source| - i
    {
      selects := selects + 1;
      if done(selects - 1) {
        return;
      }
      if i == |source| {
        return;
      }
      var msg := source[i];
      i, consumed, served := i + 1, consumed + 1, 0;
      assert source[..consumed] == source[..consumed - 1] + [msg];
      for k := 0 to numOutputs
        invariant i == consumed && 0 < consumed <= |source| && |outputs| == numOutputs && served == k
        invariant msg == source[consumed - 1] && source[..consumed] == source[..consumed - 1] + [msg]
        invariant forall j :: 0 <= j < numOutputs ==> outputs[j] == source[..if j < k then consumed else consumed - 1]
      {
        selects := selects + 1;
        if done(selects - 1) {
          return;
        }
        outputs := outputs[k := outputs[k] + [msg]];
        served := k + 1;
      }
    }
  }
}
