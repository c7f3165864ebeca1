/** Deduplication of concurrent calls: any number of goroutines inside Do, interleaved in any way. */
module Singleflight {
  import opened Common

  /** A call object. `leader` is the goroutine that registered it. */
  datatype Call<K, V, E> = Call(key: K, leader: nat, outcome: Option<Result<V, E>>, done: bool)

  /** The memory that all goroutines share; a call is known by its place in `calls`. */
  datatype Shared<K, V, E> = Shared(inflight: map<K, nat>, calls: seq<Call<K, V, E>>)

  /** Where a goroutine stands inside Do. */
  datatype Phase<K> =
    | Away
    | Leading(key: K, call: nat)   // registered its call, runs fn
    | Written(key: K, call: nat)   // wrote value and err
    | Removing(key: K, call: nat)  // released the waiters
    | Waiting(key: K, call: nat)   // waits for another goroutine's call

  datatype Return<K, V, E> = Return(who: nat, key: K, call: nat, result: Result<V, E>)

  /** `history` is the record of what calls of Do have returned. */
  datatype State<K, V, E> = State(shared: Shared<K, V, E>, phases: seq<Phase<K>>, history: seq<Return<K, V, E>>)

  datatype Action<K, V, E> =
    | Enter(g: nat, key: K)                 // the first locked section
    | Write(g: nat, result: Result<V, E>)   // fn has returned
    | Release(g: nat)                       // wg.Done
    | Remove(g: nat)                        // the second locked section, and the return
    | Wake(g: nat)                          // wg.Wait has returned

  // ---------- What the steps do to the shared memory ----------

  function Register<K, V, E>(s: Shared<K, V, E>, key: K, g: nat): Shared<K, V, E> {
    Shared(s.inflight[key := |s.calls|], s.calls + [Call(key, g, None, false)])
  }

  function SetOutcome<K, V, E>(s: Shared<K, V, E>, c: nat, r: Result<V, E>): Shared<K, V, E>
    requires c < |s.calls|
  {
    s.(calls := s.calls[c := s.calls[c].(outcome := Some(r))])
  }

  function SetDone<K, V, E>(s: Shared<K, V, E>, c: nat): Shared<K, V, E>
    requires c < |s.calls|
  {
    s.(calls := s.calls[c := s.calls[c].(done := true)])
  }

  function Unregister<K, V, E>(s: Shared<K, V, E>, key: K): Shared<K, V, E> {
    s.(inflight := s.inflight - {key})
  }

  // ---------- The machine ----------

  function Init<K, V, E>(goroutines: nat): State<K, V, E> {
    State(Shared(map[], []), seq(goroutines, _ => Away), [])
  }

  /** One step, or None where the goroutine cannot take it. */
  function Step<K(==), V, E>(s: State<K, V, E>, a: Action<K, V, E>): (t: Option<State<K, V, E>>)
    ensures t.Some? ==> |t.value.phases| == |s.phases|
  {
    if a.g >= |s.phases| then None
    else
      var p := s.phases[a.g];
      if p.Away? then
        if !a.Enter? then None
        else if a.key in s.shared.inflight then
          Some(s.(phases := s.phases[a.g := Waiting(a.key, s.shared.inflight[a.key])]))
        else
          Some(s.(shared := Register(s.shared, a.key, a.g),
                  phases := s.phases[a.g := Leading(a.key, |s.shared.calls|)]))
      else if p.call >= |s.shared.calls| then None
      else
        match p
        case Leading(key, c) =>
          if !a.Write? then None
          else Some(s.(shared := SetOutcome(s.shared, c, a.result), phases := s.phases[a.g := Written(key, c)]))
        case Written(key, c) =>
          if !a.Release? then None
          else Some(s.(shared := SetDone(s.shared, c), phases := s.phases[a.g := Removing(key, c)]))
        case Removing(key, c) =>
          if !a.Remove? || s.shared.calls[c].outcome.None? then None
          else Some(Back(s.(shared := Unregister(s.shared, key)), a.g, key, c))
        case Waiting(key, c) =>
          if !a.Wake? || !s.shared.calls[c].done || s.shared.calls[c].outcome.None? then None
          else Some(Back(s, a.g, key, c))
  }

  /** Goroutine `g` returns from Do with what it reads in the call object. */
  function Back<K, V, E>(s: State<K, V, E>, g: nat, key: K, c: nat): State<K, V, E>
    requires g < |s.phases| && c < |s.shared.calls| && s.shared.calls[c].outcome.Some?
  {
    s.(phases := s.phases[g := Away],
       history := s.history + [Return(g, key, c, s.shared.calls[c].outcome.value)])
  }

  /** Replays an interleaving. */
  function Run<K(==), V, E>(goroutines: nat, acts: seq<Action<K, V, E>>): (t: Option<State<K, V, E>>)
    ensures t.Some? ==> |t.value.phases| == goroutines
  {
    if acts == [] then Some(Init(goroutines))
    else
      match Run(goroutines, acts[..|acts| - 1])
      case None => None
      case Some(s) => Step(s, acts[|acts| - 1])
  }

  // ---------- The invariant ----------

  predicate Leads<K>(p: Phase<K>) {
    p.Leading? || p.Written? || p.Removing?
  }

  ghost predicate PhaseOk<K, V, E>(s: State<K, V, E>, g: nat)
    requires g < |s.phases|
  {
    var p := s.phases[g];
    !p.Away? ==>
      && p.call < |s.shared.calls| && s.shared.calls[p.call].key == p.key
      && (Leads(p) ==>
            && s.shared.calls[p.call].leader == g
            && p.key in s.shared.inflight && s.shared.inflight[p.key] == p.call
            && (s.shared.calls[p.call].outcome.Some? <==> !p.Leading?)
            && (s.shared.calls[p.call].done <==> p.Removing?))
  }

  ghost predicate InflightOk<K, V, E>(s: State<K, V, E>, key: K)
    requires key in s.shared.inflight
  {
    var c := s.shared.inflight[key];
    && c < |s.shared.calls| && s.shared.calls[c].key == key
    && var g := s.shared.calls[c].leader;
       && g < |s.phases| && Leads(s.phases[g]) && s.phases[g].key == key && s.phases[g].call == c
  }

  /** A call that has not been released still has its leader at work. */
  ghost predicate CallOk<K, V, E>(s: State<K, V, E>, c: nat)
    requires c < |s.shared.calls|
  {
    var g := s.shared.calls[c].leader;
    if s.shared.calls[c].done then s.shared.calls[c].outcome.Some?
    else g < |s.phases| && Leads(s.phases[g]) && s.phases[g].call == c
  }

  ghost predicate ReturnOk<K, V, E>(s: State<K, V, E>, r: Return<K, V, E>) {
    && r.call < |s.shared.calls|
    && s.shared.calls[r.call].key == r.key && s.shared.calls[r.call].done
    && s.shared.calls[r.call].outcome == Some(r.result)
    && (r.who == s.shared.calls[r.call].leader ==>
          !(r.key in s.shared.inflight && s.shared.inflight[r.key] == r.call))
  }

  ghost predicate Inv<K, V, E>(s: State<K, V, E>) {
    && (forall g :: 0 <= g < |s.phases| ==> PhaseOk(s, g))
    && (forall k :: k in s.shared.inflight ==> InflightOk(s, k))
    && (forall c :: 0 <= c < |s.shared.calls| ==> CallOk(s, c))
    && (forall i :: 0 <= i < |s.history| ==> ReturnOk(s, s.history[i]))
  }

  lemma OtherStays<K, V, E>(s: State<K, V, E>, a: Action<K, V, E>, g: nat)
    requires Step(s, a).Some? && g < |s.phases| && g != a.g
    ensures Step(s, a).value.phases[g] == s.phases[g]
  {
  }

  lemma StepKeepsPhases<K, V, E>(s: State<K, V, E>, a: Action<K, V, E>)
    requires Inv(s) && Step(s, a).Some?
    ensures var t := Step(s, a).value; forall g :: 0 <= g < |t.phases| ==> PhaseOk(t, g)
  {
    var t := Step(s, a).value;
    assert PhaseOk(s, a.g);
    forall g | 0 <= g < |t.phases| ensures PhaseOk(t, g) {
      assert PhaseOk(s, g);
    }
  }

  lemma PhaseHolds<K, V, E>(s: State<K, V, E>, g: nat)
    requires Inv(s) && g < |s.phases|
    ensures PhaseOk(s, g)
  {
  }

  lemma CallHolds<K, V, E>(s: State<K, V, E>, c: nat)
    requires Inv(s) && c < |s.shared.calls|
    ensures CallOk(s, c)
  {
  }

  lemma StepKeepsCalls<K, V, E>(s: State<K, V, E>, a: Action<K, V, E>)
    requires Inv(s) && Step(s, a).Some?
    ensures var t := Step(s, a).value;
            && (forall k :: k in t.shared.inflight ==> InflightOk(t, k))
            && (forall c :: 0 <= c < |t.shared.calls| ==> CallOk(t, c))
  {
    var t := Step(s, a).value;
    assert PhaseOk(s, a.g);
    forall k | k in t.shared.inflight ensures InflightOk(t, k) {
      assert k in s.shared.inflight ==> InflightOk(s, k);
    }
    forall c | 0 <= c < |t.shared.calls| ensures CallOk(t, c) {
      assert c < |s.shared.calls| ==> CallOk(s, c);
    }
  }

  lemma StepKeepsHistory<K, V, E>(s: State<K, V, E>, a: Action<K, V, E>)
    requires Inv(s) && Step(s, a).Some?
    ensures var t := Step(s, a).value; forall i :: 0 <= i < |t.history| ==> ReturnOk(t, t.history[i])
  {
    var t := Step(s, a).value;
    assert PhaseOk(s, a.g);
    forall i | 0 <= i < |t.history| ensures ReturnOk(t, t.history[i]) {
      assert i < |s.history| ==> ReturnOk(s, s.history[i]);
    }
  }

  lemma StepKeepsInv<K, V, E>(s: State<K, V, E>, a: Action<K, V, E>)
    requires Inv(s) && Step(s, a).Some?
    ensures Inv(Step(s, a).value)
  {
    StepKeepsPhases(s, a);
    StepKeepsCalls(s, a);
    StepKeepsHistory(s, a);
  }

  lemma {:induction false} RunKeepsInv<K, V, E>(goroutines: nat, acts: seq<Action<K, V, E>>)
    requires Run(goroutines, acts).Some?
    ensures Inv(Run(goroutines, acts).value)
  {
    if acts != [] {
      RunKeepsInv(goroutines, acts[..|acts| - 1]);
      StepKeepsInv(Run(goroutines, acts[..|acts| - 1]).value, acts[|acts| - 1]);
    }
  }

  // ---------- What follows for every interleaving ----------

  /** At most one goroutine at a time is between registering and removing a call for a key. */
  lemma MutualExclusion<K, V, E>(goroutines: nat, acts: seq<Action<K, V, E>>, g: nat, h: nat)
    requires Run(goroutines, acts).Some? && g < goroutines && h < goroutines
    requires var s := Run(goroutines, acts).value;
             Leads(s.phases[g]) && Leads(s.phases[h]) && s.phases[g].key == s.phases[h].key
    ensures g == h
  {
    RunKeepsInv(goroutines, acts);
    var s := Run(goroutines, acts).value;
    assert PhaseOk(s, g) && PhaseOk(s, h);
  }

  /** The second locked section always removes the leader's own call. */
  lemma RemovesOwnCall<K, V, E>(goroutines: nat, acts: seq<Action<K, V, E>>, g: nat)
    requires Run(goroutines, acts).Some? && g < goroutines
    requires var s := Run(goroutines, acts).value; s.phases[g].Removing?
    ensures var s := Run(goroutines, acts).value;
            && s.phases[g].key in s.shared.inflight && s.shared.inflight[s.phases[g].key] == s.phases[g].call
            && Step(s, Remove(g)).Some?
  {
    RunKeepsInv(goroutines, acts);
    assert PhaseOk(Run(goroutines, acts).value, g);
  }

  /** Who joins a call, joins one whose leader has not returned. */
  lemma JoinsUnreturnedCall<K, V, E>(goroutines: nat, acts: seq<Action<K, V, E>>, g: nat, key: K)
    requires Run(goroutines, acts).Some? && Run(goroutines, acts + [Enter(g, key)]).Some? && g < goroutines
    requires var t := Run(goroutines, acts + [Enter(g, key)]).value; t.phases[g].Waiting?
    ensures var (s, t) := (Run(goroutines, acts).value, Run(goroutines, acts + [Enter(g, key)]).value);
            var c := t.phases[g].call;
            && c < |s.shared.calls| && s.shared.calls[c].key == key
            && s.shared.calls[c].leader < |s.phases| && s.shared.calls[c].leader != g
            && Leads(s.phases[s.shared.calls[c].leader]) && s.phases[s.shared.calls[c].leader].call == c
            && forall i :: 0 <= i < |s.history| ==> !(s.history[i].call == c && s.history[i].who == s.shared.calls[c].leader)
  {
    assert (acts + [Enter(g, key)])[..|acts|] == acts;
    RunKeepsInv(goroutines, acts);
    var s := Run(goroutines, acts).value;
    assert InflightOk(s, key);
    forall i | 0 <= i < |s.history|
      ensures !(s.history[i].call == s.shared.inflight[key]
                && s.history[i].who == s.shared.calls[s.shared.inflight[key]].leader)
    {
      assert ReturnOk(s, s.history[i]);
    }
  }

  /** All goroutines that return from one call, its leader and its followers, return the same result under the same key. */
  lemma SameResult<K, V, E>(goroutines: nat, acts: seq<Action<K, V, E>>, i: nat, j: nat)
    requires Run(goroutines, acts).Some?
    requires var s := Run(goroutines, acts).value;
             i < |s.history| && j < |s.history| && s.history[i].call == s.history[j].call
    ensures var s := Run(goroutines, acts).value;
            s.history[i].result == s.history[j].result && s.history[i].key == s.history[j].key
  {
    RunKeepsInv(goroutines, acts);
    var s := Run(goroutines, acts).value;
    assert ReturnOk(s, s.history[i]) && ReturnOk(s, s.history[j]);
  }

  /** A waiting goroutine whose leader has released it can always go on, and gets what fn returned. */
  lemma ReleasedCanReturn<K, V, E>(goroutines: nat, acts: seq<Action<K, V, E>>, g: nat)
    requires Run(goroutines, acts).Some? && g < goroutines
    requires var s := Run(goroutines, acts).value; s.phases[g].Waiting?
    ensures var s := Run(goroutines, acts).value;
            && s.phases[g].call < |s.shared.calls|
            && (s.shared.calls[s.phases[g].call].done <==> Step(s, Wake(g)).Some?)
            && (!s.shared.calls[s.phases[g].call].done ==>
                  exists h :: 0 <= h < |s.phases| && Leads(s.phases[h]) && s.phases[h].call == s.phases[g].call)
  {
    RunKeepsInv(goroutines, acts);
    var s := Run(goroutines, acts).value;
    assert PhaseOk(s, g) && CallOk(s, s.phases[g].call);
  }

  /** Nothing can happen but new calls of Do. */
  ghost predicate AtRest<K(!new), V(!new), E(!new)>(s: State<K, V, E>) {
    forall a :: Step(s, a).Some? ==> a.Enter?
  }

  lemma LeaderCanGo<K, V, E>(s: State<K, V, E>, g: nat, r: Result<V, E>) returns (a: Action<K, V, E>)
    requires Inv(s) && g < |s.phases| && Leads(s.phases[g])
    ensures !a.Enter? && Step(s, a).Some?
  {
    assert PhaseOk(s, g);
    match s.phases[g]
    case Leading(_, _) => a := Write(g, r);
    case Written(_, _) => a := Release(g);
    case Removing(_, _) => a := Remove(g);
  }

  /** No call of Do is ever stuck: from every reachable state some step is possible until all have returned. The
      result stands for whatever the function returns. */
  lemma NeverStuck<K(!new), V(!new), E(!new)>(goroutines: nat, acts: seq<Action<K, V, E>>, r: Result<V, E>)
    requires Run(goroutines, acts).Some?
    ensures var s := Run(goroutines, acts).value;
            AtRest(s) <==> forall g :: 0 <= g < goroutines ==> s.phases[g].Away?
  {
    RunKeepsInv(goroutines, acts);
    var s := Run(goroutines, acts).value;
    if g :| 0 <= g < goroutines && !s.phases[g].Away? {
      if Leads(s.phases[g]) {
        var a := LeaderCanGo(s, g, r);
      } else {
        ReleasedCanReturn(goroutines, acts, g);
        if Step(s, Wake(g)).None? {
          var h :| 0 <= h < |s.phases| && Leads(s.phases[h]) && s.phases[h].call == s.phases[g].call;
          var a := LeaderCanGo(s, h, r);
        }
      }
    }
  }

  /** How many steps each call of Do has left. */
  ghost function CallLeft<K>(p: Phase<K>): nat {
    match p
    case Away => 0
    case Leading(_, _) => 3
    case Written(_, _) => 2
    case Removing(_, _) => 1
    case Waiting(_, _) => 1
  }

  ghost function Left<K>(phases: seq<Phase<K>>): nat {
    Tally(phases, (p: Phase<K>) => CallLeft(p))
  }

  /** And every step but a new call takes one of them. */
  lemma LessLeft<K, V, E>(s: State<K, V, E>, a: Action<K, V, E>)
    requires Step(s, a).Some?
    ensures if a.Enter? then Left(Step(s, a).value.phases) <= Left(s.phases) + 3
            else Left(Step(s, a).value.phases) == Left(s.phases) - 1
  {
    TallyUpdate(s.phases, (p: Phase<K>) => CallLeft(p), a.g, Step(s, a).value.phases[a.g]);
  }

  // ---------- The object itself ----------

  class CallObject<V, E> {
    ghost const id: nat
    var outcome: Option<Result<V, E>>
    var done: bool

    constructor (ghost id: nat)
      ensures this.id == id && outcome == None && !done
    {
      this.id, outcome, done := id, None, false;
    }
  }

  class Singleflight<K(==), V, E> {
    var inflight: map<K, CallObject<V, E>>
    ghost var calls: seq<CallObject<V, E>>
    ghost var shared: Shared<K, V, E>

    ghost predicate Valid()
      reads this, calls
    {
      && |calls| == |shared.calls|
      && (forall c :: 0 <= c < |calls| ==>
            && calls[c].id == c
            && calls[c].outcome == shared.calls[c].outcome && calls[c].done == shared.calls[c].done)
      && inflight.Keys == shared.inflight.Keys
      && forall k :: k in inflight ==> inflight[k].id == shared.inflight[k] < |calls| && calls[inflight[k].id] == inflight[k]
    }

    constructor ()
      ensures Valid() && shared == Shared(map[], []) && calls == []
    {
      inflight, calls, shared := map[], [], Shared(map[], []);
    }

    /** The first locked section of Do: finds the call in flight, or registers a new one. */
    method Enter(key: K, ghost g: nat) returns (c: CallObject<V, E>, leads: bool)
      requires Valid()
      modifies this
      ensures Valid() && leads == (key !in old(shared).inflight)
      ensures shared == if leads then Register(old(shared), key, g) else old(shared)
      ensures key in shared.inflight && c.id == shared.inflight[key] && c == calls[c.id]
      ensures if leads then fresh(c) && calls == old(calls) + [c] else calls == old(calls)
    {
      if key in inflight {
        return inflight[key], false;
      }
      c := new CallObject(|calls|);
      inflight := inflight[key := c];
      calls, shared := calls + [c], Register(shared, key, g);
      leads := true;
    }

    method Write(c: CallObject<V, E>, result: Result<V, E>)
      requires Valid() && c.id < |calls| && calls[c.id] == c
      modifies this`shared, c`outcome
      ensures Valid() && shared == SetOutcome(old(shared), c.id, result)
    {
      c.outcome := Some(result);
      shared := SetOutcome(shared, c.id, result);
    }

    method Release(c: CallObject<V, E>)
      requires Valid() && c.id < |calls| && calls[c.id] == c
      modifies this`shared, c`done
      ensures Valid() && shared == SetDone(old(shared), c.id)
    {
      c.done := true;
      shared := SetDone(shared, c.id);
    }

    method Remove(key: K)
      requires Valid()
      modifies this`shared, this`inflight
      ensures Valid() && shared == Unregister(old(shared), key)
    {
      inflight := inflight - {key};
      shared := Unregister(shared, key);
    }
  }
}
