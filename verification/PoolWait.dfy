/** When an Acquire of the managed pool stays blocked beside a free slot. */
module PoolWait {
  import opened Common
  import opened ManagedPool

  /** The state that a sequence of steps leads to. */
  function Follow(s: State, acts: seq<Action>): (t: Option<State>)
    ensures t.Some? ==> |t.value.phases| == |s.phases|
  {
    if acts == [] then Some(s)
    else
      match Follow(s, acts[..|acts| - 1])
      case None => None
      case Some(t) => Step(t, acts[|acts| - 1])
  }

  /** How many of the steps take a slot. */
  ghost function Reserves(s: State, acts: seq<Action>): nat
    requires Follow(s, acts).Some?
  {
    if acts == [] then 0
    else
      var init, a := acts[..|acts| - 1], acts[|acts| - 1];
      Reserves(s, init) + (if StepEffect(Follow(s, init).value, a).Reserve? then 1 else 0)
  }

  /** How many of the steps give a slot back: with a destroyed connection, or because the factory failed. */
  ghost function GivesBack(s: State, acts: seq<Action>): nat
    requires Follow(s, acts).Some?
  {
    if acts == [] then 0
    else
      var init, a := acts[..|acts| - 1], acts[|acts| - 1];
      var e := StepEffect(Follow(s, init).value, a);
      GivesBack(s, init) + (if e.GiveBack? || e.Destroy? then 1 else 0)
  }

  lemma {:induction false} TakenBalance(s: State, acts: seq<Action>)
    requires Inv(s) && Follow(s, acts).Some?
    ensures var t := Follow(s, acts).value;
            && Inv(t) && t.pool.maxSize == s.pool.maxSize
            && t.pool.taken == s.pool.taken - GivesBack(s, acts) + Reserves(s, acts)
  {
    hide Inv, Step, StepEffect;
    if acts != [] {
      var init, a := acts[..|acts| - 1], acts[|acts| - 1];
      TakenBalance(s, init);
      StepExplained(Follow(s, init).value, a, MAKING);
      StepKeepsInv(Follow(s, init).value, a);
    }
  }

  lemma {:induction false} RunFollows(maxSize: int, goroutines: nat, before: seq<Action>, acts: seq<Action>)
    requires Run(maxSize, goroutines, before).Some?
    ensures Run(maxSize, goroutines, before + acts) == Follow(Run(maxSize, goroutines, before).value, acts)
  {
    hide Step;
    if acts == [] {
      assert before + acts == before;
    } else {
      RunFollows(maxSize, goroutines, before, acts[..|acts| - 1]);
      assert (before + acts)[..|before + acts| - 1] == before + acts[..|acts| - 1];
    }
  }

  ghost predicate IsBlocked(s: State, g: nat) {
    g < |s.phases| && s.phases[g] == InAcquire(Blocked)
  }

  /** The goroutine is blocked after each of the steps, and was before. */
  ghost predicate StaysBlocked(s: State, acts: seq<Action>, g: nat) {
    && Follow(s, acts).Some? && IsBlocked(Follow(s, acts).value, g)
    && (acts == [] || StaysBlocked(s, acts[..|acts| - 1], g))
  }

  /** In state `s` goroutine `g` has found all slots taken, and blocks with its next step. */
  ghost predicate Blocks(s: State, g: nat, yes: bool) {
    && g < |s.phases| && s.phases[g] == InAcquire(TrySlot)
    && Step(s, Go(g, yes)).Some? && IsBlocked(Step(s, Go(g, yes)).value, g)
  }

  lemma BlocksWhenFull(s: State, g: nat, yes: bool)
    requires Inv(s) && Blocks(s, g, yes)
    ensures Step(s, Go(g, yes)).value.pool == s.pool && s.pool.taken == s.pool.maxSize
  {
  }

  /** Who is blocked after a step was so before, or has just found all slots taken. */
  lemma BlockedBefore(s: State, a: Action, g: nat)
    requires Step(s, a).Some? && IsBlocked(Step(s, a).value, g) && !IsBlocked(s, g)
    ensures a.Go? && a.g == g && Blocks(s, g, a.yes)
  {
  }

  /** Whenever a goroutine is blocked there was a step, the i-th, with which it blocked for good. */
  lemma {:induction false} BlockedSince(maxSize: int, goroutines: nat, acts: seq<Action>, g: nat) returns (i: nat)
    requires Run(maxSize, goroutines, acts).Some? && IsBlocked(Run(maxSize, goroutines, acts).value, g)
    ensures i < |acts| && acts[i].Go? && acts[i].g == g && Run(maxSize, goroutines, acts[..i]).Some?
    ensures Blocks(Run(maxSize, goroutines, acts[..i]).value, g, acts[i].yes)
    ensures Step(Run(maxSize, goroutines, acts[..i]).value, acts[i]).Some?
    ensures StaysBlocked(Step(Run(maxSize, goroutines, acts[..i]).value, acts[i]).value, acts[i + 1..], g)
  {
    hide Step, Blocks;
    assert acts != [];
    var init, a := acts[..|acts| - 1], acts[|acts| - 1];
    var s := Run(maxSize, goroutines, init).value;
    if IsBlocked(s, g) {
      i := BlockedSince(maxSize, goroutines, init, g);
      assert acts[..i] == init[..i];
      var rest := acts[i + 1..];
      assert rest[..|rest| - 1] == init[i + 1..];
      SplitAt(maxSize, goroutines, init, i);
    } else {
      i := |acts| - 1;
      BlockedBefore(s, a, g);
      Blocking(s, g, a.yes);
      assert acts[i + 1..] == [] && acts[..i] == init;
    }
  }

  lemma SplitAt(maxSize: int, goroutines: nat, acts: seq<Action>, i: nat)
    requires i < |acts| && Run(maxSize, goroutines, acts[..i]).Some?
    requires Step(Run(maxSize, goroutines, acts[..i]).value, acts[i]).Some?
    ensures Run(maxSize, goroutines, acts) ==
            Follow(Step(Run(maxSize, goroutines, acts[..i]).value, acts[i]).value, acts[i + 1..])
  {
    hide Step;
    RunFollows(maxSize, goroutines, acts[..i], [acts[i]]);
    assert [acts[i]][..0] == [];
    assert Follow(Run(maxSize, goroutines, acts[..i]).value, []) == Run(maxSize, goroutines, acts[..i]);
    RunFollows(maxSize, goroutines, acts[..i] + [acts[i]], acts[i + 1..]);
    assert acts[..i] + [acts[i]] + acts[i + 1..] == acts;
  }

  /** In every reachable state, a blocked Acquire stands beside as many free slots as have been given back, less
      those taken again, since it blocked: beside a free one if and only if more were given back than taken. */
  lemma BlockedBesideFreeSlots(maxSize: int, goroutines: nat, acts: seq<Action>, g: nat) returns (i: nat)
    requires Run(maxSize, goroutines, acts).Some? && IsBlocked(Run(maxSize, goroutines, acts).value, g)
    ensures i < |acts| && Run(maxSize, goroutines, acts[..i]).Some?
    ensures acts[i].Go? && acts[i].g == g && Blocks(Run(maxSize, goroutines, acts[..i]).value, g, acts[i].yes)
    ensures var (s, since) := (Step(Run(maxSize, goroutines, acts[..i]).value, acts[i]).value, acts[i + 1..]);
            && StaysBlocked(s, since, g)
            && var p := Run(maxSize, goroutines, acts).value.pool;
               && p.maxSize - p.taken == GivesBack(s, since) - Reserves(s, since)
               && (p.taken < p.maxSize <==> GivesBack(s, since) > Reserves(s, since))
  {
    hide Step, Inv, Blocks, StepEffect;
    i := BlockedSince(maxSize, goroutines, acts, g);
    var s0 := Run(maxSize, goroutines, acts[..i]).value;
    RunKeepsInv(maxSize, goroutines, acts[..i]);
    BlocksWhenFull(s0, g, acts[i].yes);
    Blocking(s0, g, acts[i].yes);
    StepKeepsInv(s0, acts[i]);
    SplitAt(maxSize, goroutines, acts, i);
    TakenBalance(Step(s0, acts[i]).value, acts[i + 1..]);
  }

  lemma Blocking(s: State, g: nat, yes: bool)
    requires Blocks(s, g, yes)
    ensures Step(s, Go(g, yes)).Some?
  {
  }

  // ---------- A condition under which it never happens ----------

  /** No connection is found stale and the factory does not fail. */
  ghost predicate Calm(s: State, a: Action)
    requires a.g < |s.phases|
  {
    a.Go? ==>
      match s.phases[a.g]
      case InAcquire(p) => (p.Got? ==> !a.yes) && (p.Creating? ==> a.yes)
      case InRelease(p) => p.Returning? ==> !a.yes
      case InCleanup(p) => p.Checking? ==> !a.yes
      case InFill(p) => p.Making? ==> a.yes
      case Away => true
  }

  ghost predicate CalmRun(maxSize: int, goroutines: nat, acts: seq<Action>) {
    acts == [] ||
    var init, a := acts[..|acts| - 1], acts[|acts| - 1];
    && CalmRun(maxSize, goroutines, init) && Run(maxSize, goroutines, init).Some?
    && a.g < goroutines && Calm(Run(maxSize, goroutines, init).value, a)
  }

  /** Nobody is about to give a slot back. */
  ghost predicate Keeps(p: Phase) {
    match p
    case InAcquire(a) => !a.Stale? && !a.CreateFailed?
    case InRelease(r) => !r.Discarding?
    case InCleanup(k) => !k.Removing?
    case InFill(f) => !f.Failed? && !f.Dropping?
    case Away => true
  }

  ghost predicate FullIfBlocked(s: State) {
    && (forall g :: 0 <= g < |s.phases| ==> Keeps(s.phases[g]))
    && (forall g :: 0 <= g < |s.phases| && s.phases[g] == InAcquire(Blocked) ==> s.pool.taken == s.pool.maxSize)
  }

  lemma CalmStep(s: State, a: Action)
    requires Inv(s) && FullIfBlocked(s) && Step(s, a).Some? && Calm(s, a)
    ensures Keeps(Step(s, a).value.phases[a.g])
    ensures !StepEffect(s, a).GiveBack? && !StepEffect(s, a).Destroy?
  {
    hide Inv, AllHands, AllLoads;
    if a.Go? && Load(s.phases[a.g]) > 0 {
      Roomy(s, a.g);
    }
  }

  lemma CalmKeepsFull(s: State, a: Action)
    requires Inv(s) && FullIfBlocked(s) && Step(s, a).Some? && Calm(s, a)
    ensures FullIfBlocked(Step(s, a).value)
  {
    var t := Step(s, a).value;
    CalmStep(s, a);
    StepKeepsInv(s, a);
    OthersStay(s, a);
    StepExplained(s, a, MAKING);
    forall g | 0 <= g < |t.phases| && t.phases[g] == InAcquire(Blocked) ensures t.pool.taken == t.pool.maxSize {
      if !IsBlocked(s, g) {
        BlockedBefore(s, a, g);
        BlocksWhenFull(s, g, a.yes);
      }
    }
  }

  lemma OthersStay(s: State, a: Action)
    requires Step(s, a).Some?
    ensures forall g :: 0 <= g < |s.phases| && g != a.g ==> Step(s, a).value.phases[g] == s.phases[g]
  {
  }

  /** With connections that stay valid, no limit on idle time and lifetime, and a factory that does not fail,
      whoever is blocked is so because all slots are taken. */
  lemma {:induction false} NeverBesideFreeSlot(maxSize: int, goroutines: nat, acts: seq<Action>)
    requires Run(maxSize, goroutines, acts).Some? && CalmRun(maxSize, goroutines, acts)
    ensures FullIfBlocked(Run(maxSize, goroutines, acts).value)
  {
    hide Step, Inv, Calm;
    if acts == [] {
      assert Run(maxSize, goroutines, acts) == Some(Init(maxSize, goroutines));
    } else {
      var init := acts[..|acts| - 1];
      NeverBesideFreeSlot(maxSize, goroutines, init);
      RunKeepsInv(maxSize, goroutines, init);
      CalmKeepsFull(Run(maxSize, goroutines, init).value, acts[|acts| - 1]);
    }
  }
}
