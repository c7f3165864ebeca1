/** The managed connection pool before Close: any number of goroutines inside Acquire, Release, the idle
    cleanup, WarmUp and EnsureMinConnections, interleaved in any way, one step per channel operation. */
module ManagedPool {
  import opened Common

  /** Connections are numbered from 0 in the order of their creation; MAKING stands for a slot that has
      been taken for a connection that does not exist yet, or never will. */
  const MAKING: int := -1

  datatype Acquiring =
    | TryIdle                         // about to look for an idle connection
    | Got(c: nat)                     // received it, about to check it
    | Stale(c: nat)                   // closed it, about to give its slot back and start over
    | Reviving(c: nat)                // about to mark it as in use
    | TrySlot                         // saw no idle connection
    | Creating                        // has a slot, runs the factory
    | CreateFailed                    // about to give the slot back
    | Blocked                         // waits for an idle connection or its context

  datatype Releasing =
    | Returning(c: nat)               // about to check it
    | Putting(c: nat)                 // about to send it to the idle ones
    | Discarding(c: nat)              // closed it, about to give its slot back

  /** The idle cleanup, with the connections collected and not dealt with yet. */
  datatype Cleaning =
    | Collecting(list: seq<nat>)
    | Checking(list: seq<nat>)
    | PuttingBack(c: nat, list: seq<nat>)
    | Removing(c: nat, list: seq<nat>)

  /** WarmUp and EnsureMinConnections, with `n` more connections to make. */
  datatype Filling =
    | Asking(n: nat)
    | Making(n: nat)
    | Failed
    | Sending(c: nat, n: nat)
    | Dropping(c: nat, n: nat)

  /** Where a goroutine stands. */
  datatype Phase =
    | Away
    | InAcquire(acquiring: Acquiring)
    | InRelease(releasing: Releasing)
    | InCleanup(cleaning: Cleaning)
    | InFill(filling: Filling)

  /** `idle` is the channel of idle connections, `taken` the number of slots in the semaphore channel,
      `held` the connections that users have, `released` the connections whose released flag is set. */
  datatype Pool = Pool(maxSize: nat, idle: seq<nat>, taken: nat, held: multiset<nat>, released: set<nat>,
                       created: nat, destroyed: nat)

  datatype State = State(pool: Pool, phases: seq<Phase>)

  datatype Action =
    | Acquire(g: nat)
    | Release(g: nat, conn: nat)
    | Cleanup(g: nat)
    | WarmUp(g: nat, minSize: int)
    | EnsureMin(g: nat, minSize: int)
    | Go(g: nat, yes: bool)   // the goroutine goes on; `yes` answers shouldDestroy or the factory's success
    | GiveUp(g: nat)          // its context is done

  function Init(maxSize: int, goroutines: nat): State {
    State(Pool(if maxSize <= 0 then 10 else maxSize, [], 0, multiset{}, {}, 0, 0), seq(goroutines, _ => Away))
  }

  // ---------- The channel operations ----------

  /** A blocking receive from the semaphore channel. */
  function GiveSlot(p: Pool, next: Phase): Option<(Pool, Phase)> {
    if p.taken > 0 then Some((p.(taken := p.taken - 1), next)) else None
  }

  /** The end of destroyConn. */
  function Destroyed(p: Pool, next: Phase): Option<(Pool, Phase)> {
    if p.taken > 0 then Some((p.(taken := p.taken - 1, destroyed := p.destroyed + 1), next)) else None
  }

  /** A non-blocking send to the semaphore channel. */
  function TakeSlot(p: Pool, got: Phase, none: Phase): (Pool, Phase) {
    if p.taken < p.maxSize then (p.(taken := p.taken + 1), got) else (p, none)
  }

  /** A non-blocking send to the idle connections; `full` is where the default branch leads. */
  function Put(p: Pool, c: nat, sent: Phase, full: Phase): (Pool, Phase) {
    if |p.idle| < p.maxSize then (p.(idle := p.idle + [c]), sent) else (p, full)
  }

  function AcquireStep(p: Pool, a: Acquiring, yes: bool): Option<(Pool, Phase)> {
    match a
    case TryIdle =>
      Some(if p.idle == [] then (p, InAcquire(TrySlot)) else (p.(idle := p.idle[1..]), InAcquire(Got(p.idle[0]))))
    case Got(c) => Some((p, InAcquire(if yes then Stale(c) else Reviving(c))))
    case Stale(c) => Destroyed(p, InAcquire(TryIdle))
    case Reviving(c) => Some((p.(released := p.released - {c}, held := p.held + multiset{c}), Away))
    case TrySlot => Some(TakeSlot(p, InAcquire(Creating), InAcquire(Blocked)))
    case Creating =>
      Some(if yes then (p.(created := p.created + 1, held := p.held + multiset{p.created}), Away)
           else (p, InAcquire(CreateFailed)))
    case CreateFailed => GiveSlot(p, Away)
    case Blocked =>
      if p.idle == [] then None else Some((p.(idle := p.idle[1..]), InAcquire(Got(p.idle[0]))))
  }

  function ReleaseStep(p: Pool, r: Releasing, yes: bool): Option<(Pool, Phase)> {
    match r
    case Returning(c) => Some((p, InRelease(if yes then Discarding(c) else Putting(c))))
    case Putting(c) => Some(Put(p, c, Away, InRelease(Discarding(c))))
    case Discarding(c) => Destroyed(p, Away)
  }

  function CleanStep(p: Pool, k: Cleaning, yes: bool): Option<(Pool, Phase)> {
    match k
    case Collecting(list) =>
      Some(if p.idle == [] then (p, InCleanup(Checking(list)))
           else (p.(idle := p.idle[1..]), InCleanup(Collecting(list + [p.idle[0]]))))
    case Checking(list) =>
      Some((p, if list == [] then Away
               else InCleanup(if yes then Removing(list[0], list[1..]) else PuttingBack(list[0], list[1..]))))
    case PuttingBack(c, list) => Some(Put(p, c, InCleanup(Checking(list)), InCleanup(Removing(c, list))))
    case Removing(c, list) => Destroyed(p, InCleanup(Checking(list)))
  }

  function FillStep(p: Pool, f: Filling, yes: bool): Option<(Pool, Phase)> {
    match f
    case Asking(n) => Some(if n == 0 then (p, Away) else TakeSlot(p, InFill(Making(n - 1)), Away))
    case Making(n) =>
      Some(if yes then (p.(created := p.created + 1, released := p.released + {p.created}), InFill(Sending(p.created, n)))
           else (p, InFill(Failed)))
    case Failed => GiveSlot(p, Away)
    case Sending(c, n) => Some(Put(p, c, InFill(Asking(n)), InFill(Dropping(c, n))))
    case Dropping(c, n) => GiveSlot(p, InFill(Asking(n)))
  }

  function Continue(p: Pool, phase: Phase, yes: bool): Option<(Pool, Phase)> {
    match phase
    case Away => None
    case InAcquire(a) => AcquireStep(p, a, yes)
    case InRelease(r) => ReleaseStep(p, r, yes)
    case InCleanup(k) => CleanStep(p, k, yes)
    case InFill(f) => FillStep(p, f, yes)
  }

  /** Calling into the pool. A Release finds the flag set and does nothing, or is made for a connection
      that is held; one by a former holder after somebody else acquired it is not part of this model. */
  function Begin(p: Pool, a: Action): Option<(Pool, Phase)> {
    match a
    case Acquire(_) => Some((p, InAcquire(TryIdle)))
    case Release(_, c) =>
      if c in p.released then Some((p, Away))
      else if c in p.held then
        Some((p.(released := p.released + {c}, held := p.held - multiset{c}), InRelease(Returning(c))))
      else None
    case Cleanup(_) => Some((p, InCleanup(Collecting([]))))
    case WarmUp(_, minSize) => Some((p, InFill(Asking(if minSize > 0 then minSize else 0))))
    case EnsureMin(_, minSize) => Some((p, if p.taken >= minSize then Away else InFill(Asking(minSize - p.taken))))
    case _ => None
  }

  /** A context that is done is noticed by a blocked Acquire and between two connections of a fill. */
  predicate Interruptible(phase: Phase) {
    phase == InAcquire(Blocked) || (phase.InFill? && phase.filling.Asking?)
  }

  function Next(p: Pool, phase: Phase, a: Action): Option<(Pool, Phase)> {
    if a.Go? then Continue(p, phase, a.yes)
    else if a.GiveUp? then (if Interruptible(phase) then Some((p, Away)) else None)
    else if phase.Away? then Begin(p, a)
    else None
  }

  function Step(s: State, a: Action): (t: Option<State>)
    ensures t.Some? ==> |t.value.phases| == |s.phases|
  {
    if a.g >= |s.phases| then None
    else
      match Next(s.pool, s.phases[a.g], a)
      case None => None
      case Some((pool, phase')) => Some(State(pool, s.phases[a.g := phase']))
  }

  function Run(maxSize: int, goroutines: nat, acts: seq<Action>): (t: Option<State>)
    ensures t.Some? ==> |t.value.phases| == goroutines
  {
    if acts == [] then Some(Init(maxSize, goroutines))
    else
      match Run(maxSize, goroutines, acts[..|acts| - 1])
      case None => None
      case Some(s) => Step(s, acts[|acts| - 1])
  }

  // ---------- Where everything is ----------

  /** How often `x`, a connection or MAKING, is in the hands of a goroutine. */
  ghost function Hands(p: Phase, x: int): nat {
    match p
    case Away => 0
    case InAcquire(a) =>
      (match a
       case Got(c) => if x == c then 1 else 0
       case Stale(c) => if x == c then 1 else 0
       case Reviving(c) => if x == c then 1 else 0
       case Creating => if x == MAKING then 1 else 0
       case CreateFailed => if x == MAKING then 1 else 0
       case _ => 0)
    case InRelease(r) => if x == r.c then 1 else 0
    case InCleanup(k) => (if (k.PuttingBack? || k.Removing?) && x == k.c then 1 else 0) + Times<int>(k.list, x)
    case InFill(f) =>
      (match f
       case Asking(_) => 0
       case Making(_) => if x == MAKING then 1 else 0
       case Failed => if x == MAKING then 1 else 0
       case Sending(c, _) => if x == c then 1 else 0
       case Dropping(c, _) => if x == c then 1 else 0)
  }

  /** How many things a goroutine has in its hands. */
  ghost function Load(p: Phase): nat {
    match p
    case Away => 0
    case InAcquire(a) => if a.TryIdle? || a.TrySlot? || a.Blocked? then 0 else 1
    case InRelease(_) => 1
    case InCleanup(k) => (if k.PuttingBack? || k.Removing? then 1 else 0) + |k.list|
    case InFill(f) => if f.Asking? then 0 else 1
  }

  ghost function AllHands(phases: seq<Phase>, x: int): nat {
    Tally(phases, (p: Phase) => Hands(p, x))
  }

  ghost function AllLoads(phases: seq<Phase>): nat {
    Tally(phases, Load)
  }

  lemma HandsUpdate(phases: seq<Phase>, g: nat, p: Phase, x: int)
    requires g < |phases|
    ensures AllHands(phases[g := p], x) == AllHands(phases, x) - Hands(phases[g], x) + Hands(p, x)
    ensures Hands(phases[g], x) <= AllHands(phases, x)
  {
    TallyUpdate(phases, (q: Phase) => Hands(q, x), g, p);
  }

  lemma LoadsUpdate(phases: seq<Phase>, g: nat, p: Phase)
    requires g < |phases|
    ensures AllLoads(phases[g := p]) == AllLoads(phases) - Load(phases[g]) + Load(p)
    ensures Load(phases[g]) <= AllLoads(phases)
  {
    TallyUpdate(phases, Load, g, p);
  }

  /** How often `x` is anywhere: idle, held by users, in some goroutine's hands. */
  ghost function Places(s: State, x: int): nat {
    Times<int>(s.pool.idle, x) + HeldTimes(s.pool, x) + AllHands(s.phases, x)
  }

  ghost function HeldTimes(p: Pool, x: int): nat {
    if x >= 0 then p.held[x] else 0
  }

  ghost function Total(s: State): nat {
    |s.pool.idle| + |s.pool.held| + AllLoads(s.phases)
  }

  // ---------- What one step does to it ----------

  datatype Effect = Keep | Reserve | Create | GiveBack | Destroy(c: nat)

  ghost function EffectOf(p: Pool, phase: Phase, yes: bool): Effect {
    match phase
    case Away => Keep
    case InAcquire(a) =>
      (match a
       case Stale(c) => Destroy(c)
       case TrySlot => if p.taken < p.maxSize then Reserve else Keep
       case Creating => if yes then Create else Keep
       case CreateFailed => GiveBack
       case _ => Keep)
    case InRelease(r) => if r.Discarding? then Destroy(r.c) else Keep
    case InCleanup(k) => if k.Removing? then Destroy(k.c) else Keep
    case InFill(f) =>
      (match f
       case Asking(n) => if n > 0 && p.taken < p.maxSize then Reserve else Keep
       case Making(_) => if yes then Create else Keep
       case Failed => GiveBack
       case _ => Keep)
  }

  /** What an effect adds to the places of `x`. */
  ghost function Delta(e: Effect, created: nat, x: int): int {
    match e
    case Keep => 0
    case Reserve => if x == MAKING then 1 else 0
    case Create => if x == MAKING then -1 else if x == created then 1 else 0
    case GiveBack => if x == MAKING then -1 else 0
    case Destroy(c) => if x == c then -1 else 0
  }

  ghost function Growth(e: Effect): int {
    match e
    case Keep => 0
    case Reserve => 1
    case Create => 0
    case GiveBack => -1
    case Destroy(_) => -1
  }

  ghost predicate Counted(e: Effect, p: Pool, q: Pool) {
    && q.maxSize == p.maxSize && q.taken == p.taken + Growth(e)
    && q.created == p.created + (if e.Create? then 1 else 0)
    && q.destroyed == p.destroyed + (if e.Destroy? then 1 else 0)
    && (e.Reserve? ==> p.taken < p.maxSize)
  }

  /** What a goroutine in this phase can reach. */
  ghost function Near(p: Pool, phase: Phase, x: int): nat {
    Times<int>(p.idle, x) + HeldTimes(p, x) + Hands(phase, x)
  }

  /** The step has just the effect that EffectOf tells. */
  ghost predicate Explained(p: Pool, phase: Phase, yes: bool, x: int) {
    var next := Continue(p, phase, yes);
    next.Some? ==>
      var (e, q, phase') := (EffectOf(p, phase, yes), next.value.0, next.value.1);
      && Counted(e, p, q)
      && Near(q, phase', x) == Near(p, phase, x) + Delta(e, p.created, x)
      && |q.idle| + |q.held| + Load(phase') == |p.idle| + |p.held| + Load(phase) + Growth(e)
  }

  lemma AcquireExplained(p: Pool, a: Acquiring, yes: bool, x: int)
    ensures Explained(p, InAcquire(a), yes, x)
  {
    if a.TryIdle? || a.Blocked? {
      IdleExplained(p, a, yes, x);
    } else if a.Got? || a.Stale? || a.Reviving? {
      OldExplained(p, a, yes, x);
    } else {
      NewExplained(p, a, yes, x);
    }
  }

  lemma IdleExplained(p: Pool, a: Acquiring, yes: bool, x: int)
    requires a.TryIdle? || a.Blocked?
    ensures Explained(p, InAcquire(a), yes, x)
  {
    if p.idle != [] {
      TimesFirst<int>(p.idle, x);
    }
  }

  lemma OldExplained(p: Pool, a: Acquiring, yes: bool, x: int)
    requires a.Got? || a.Stale? || a.Reviving?
    ensures Explained(p, InAcquire(a), yes, x)
  {
  }

  lemma NewExplained(p: Pool, a: Acquiring, yes: bool, x: int)
    requires a.TrySlot? || a.Creating? || a.CreateFailed?
    ensures Explained(p, InAcquire(a), yes, x)
  {
  }

  lemma ReleaseExplained(p: Pool, r: Releasing, yes: bool, x: int)
    requires |p.idle| < p.maxSize
    ensures Explained(p, InRelease(r), yes, x)
  {
    TimesAppend<int>(p.idle, r.c, x);
  }

  lemma CleanExplained(p: Pool, k: Cleaning, yes: bool, x: int)
    requires k.PuttingBack? ==> |p.idle| < p.maxSize
    ensures Explained(p, InCleanup(k), yes, x)
  {
    match k
    case Collecting(_) => CollectExplained(p, k, yes, x);
    case Checking(_) => CheckExplained(p, k, yes, x);
    case PuttingBack(_, _) => PutBackExplained(p, k, yes, x);
    case Removing(_, _) =>
  }

  lemma CollectExplained(p: Pool, k: Cleaning, yes: bool, x: int)
    requires k.Collecting?
    ensures Explained(p, InCleanup(k), yes, x)
  {
    if p.idle != [] {
      TimesFirst<int>(p.idle, x);
      TimesAppend<int>(k.list, p.idle[0], x);
    }
  }

  lemma CheckExplained(p: Pool, k: Cleaning, yes: bool, x: int)
    requires k.Checking?
    ensures Explained(p, InCleanup(k), yes, x)
  {
    if k.list != [] {
      TimesFirst<int>(k.list, x);
    }
  }

  lemma PutBackExplained(p: Pool, k: Cleaning, yes: bool, x: int)
    requires k.PuttingBack? && |p.idle| < p.maxSize
    ensures Explained(p, InCleanup(k), yes, x)
  {
    TimesAppend<int>(p.idle, k.c, x);
  }

  lemma FillExplained(p: Pool, f: Filling, yes: bool, x: int)
    requires f.Sending? ==> |p.idle| < p.maxSize
    requires !f.Dropping?
    ensures Explained(p, InFill(f), yes, x)
  {
    if f.Sending? {
      TimesAppend<int>(p.idle, f.c, x);
    }
  }

  lemma BeginExplained(p: Pool, a: Action, x: int)
    requires Begin(p, a).Some?
    ensures var (q, phase') := Begin(p, a).value;
            && Counted(Keep, p, q)
            && Near(q, phase', x) == Near(p, Away, x)
            && |q.idle| + |q.held| + Load(phase') == |p.idle| + |p.held|
  {
  }

  // ---------- The invariant ----------

  ghost predicate Sound(s: State, x: nat) {
    Places(s, x) <= 1 && (Places(s, x) > 0 ==> x < s.pool.created)
  }

  ghost predicate Flagged(p: Pool) {
    && (forall c :: c in p.held ==> c !in p.released)
    && (forall c :: c in p.released ==> c < p.created)
  }

  ghost predicate Inv(s: State) {
    && s.pool.taken == Total(s) <= s.pool.maxSize
    && s.pool.created == s.pool.destroyed + Total(s) - Places(s, MAKING)
    && (forall x: nat :: Sound(s, x))
    && Flagged(s.pool)
    && forall g :: 0 <= g < |s.phases| ==> !(s.phases[g].InFill? && s.phases[g].filling.Dropping?)
  }

  /** Everything a goroutine has in its hands has a slot, so there is room for it among the idle ones. */
  lemma Roomy(s: State, g: nat)
    requires Inv(s) && g < |s.phases| && Load(s.phases[g]) > 0
    ensures |s.pool.idle| < s.pool.maxSize
  {
    LoadsUpdate(s.phases, g, Away);
  }

  lemma GoExplained(s: State, g: nat, yes: bool, x: int)
    requires Inv(s) && g < |s.phases|
    ensures Explained(s.pool, s.phases[g], yes, x)
  {
    if Load(s.phases[g]) > 0 {
      Roomy(s, g);
    }
    match s.phases[g]
    case Away =>
    case InAcquire(a) => AcquireExplained(s.pool, a, yes, x);
    case InRelease(r) => ReleaseExplained(s.pool, r, yes, x);
    case InCleanup(k) => CleanExplained(s.pool, k, yes, x);
    case InFill(f) => FillExplained(s.pool, f, yes, x);
  }

  ghost function StepEffect(s: State, a: Action): Effect
    requires a.g < |s.phases|
  {
    if a.Go? then EffectOf(s.pool, s.phases[a.g], a.yes) else Keep
  }

  /** One step adds its effect to the places of every thing, and to their number. */
  lemma StepExplained(s: State, a: Action, x: int)
    requires Inv(s) && Step(s, a).Some?
    ensures var (t, e) := (Step(s, a).value, StepEffect(s, a));
            && Counted(e, s.pool, t.pool)
            && Places(t, x) == Places(s, x) + Delta(e, s.pool.created, x)
            && Total(t) == Total(s) + Growth(e)
  {
    var t := Step(s, a).value;
    HandsUpdate(s.phases, a.g, t.phases[a.g], x);
    LoadsUpdate(s.phases, a.g, t.phases[a.g]);
    if a.Go? {
      GoExplained(s, a.g, a.yes, x);
    } else if !a.GiveUp? {
      BeginExplained(s.pool, a, x);
    }
  }

  lemma StepKeepsFlags(s: State, a: Action)
    requires Inv(s) && Step(s, a).Some?
    ensures Flagged(Step(s, a).value.pool)
  {
    var p, phase := s.pool, s.phases[a.g];
    if a.Go? {
      GoKeepsFlags(s, a.g, a.yes);
    } else if a.Release? {
      assert Sound(s, a.conn);
    }
  }

  lemma GoKeepsFlags(s: State, g: nat, yes: bool)
    requires Inv(s) && g < |s.phases| && Continue(s.pool, s.phases[g], yes).Some?
    ensures Flagged(Continue(s.pool, s.phases[g], yes).value.0)
  {
    assert Sound(s, s.pool.created);
    match s.phases[g]
    case Away =>
    case InAcquire(a) => AcquireKeepsFlags(s.pool, a, yes);
    case InRelease(r) =>
    case InCleanup(k) => CleanKeepsFlags(s.pool, k, yes);
    case InFill(f) => FillKeepsFlags(s.pool, f, yes);
  }

  lemma AcquireKeepsFlags(p: Pool, a: Acquiring, yes: bool)
    requires Flagged(p) && p.created !in p.held && AcquireStep(p, a, yes).Some?
    ensures Flagged(AcquireStep(p, a, yes).value.0)
  {
  }

  lemma CleanKeepsFlags(p: Pool, k: Cleaning, yes: bool)
    requires Flagged(p) && CleanStep(p, k, yes).Some?
    ensures Flagged(CleanStep(p, k, yes).value.0)
  {
  }

  lemma FillKeepsFlags(p: Pool, f: Filling, yes: bool)
    requires Flagged(p) && p.created !in p.held && FillStep(p, f, yes).Some?
    ensures Flagged(FillStep(p, f, yes).value.0)
  {
  }

  lemma StepNeverDrops(s: State, a: Action)
    requires Inv(s) && Step(s, a).Some?
    ensures var p := Step(s, a).value.phases[a.g]; !(p.InFill? && p.filling.Dropping?)
  {
    if a.Go? && Load(s.phases[a.g]) > 0 {
      Roomy(s, a.g);
    }
  }

  lemma StepKeepsInv(s: State, a: Action)
    requires Inv(s) && Step(s, a).Some?
    ensures Inv(Step(s, a).value)
  {
    var t := Step(s, a).value;
    StepExplained(s, a, MAKING);
    StepKeepsFlags(s, a);
    StepNeverDrops(s, a);
    forall x: nat ensures Sound(t, x) {
      StepExplained(s, a, x);
      assert Sound(s, x);
    }
  }

  lemma InitialInv(maxSize: int, goroutines: nat)
    ensures Inv(Init(maxSize, goroutines))
  {
    var s := Init(maxSize, goroutines);
    NoHands(s.phases, MAKING);
    forall x: nat ensures Sound(s, x) {
      NoHands(s.phases, x);
    }
  }

  lemma NoHands(phases: seq<Phase>, x: int)
    requires forall g :: 0 <= g < |phases| ==> phases[g] == Away
    ensures AllHands(phases, x) == 0 && AllLoads(phases) == 0
  {
    TallyNothing(phases, (p: Phase) => Hands(p, x));
    TallyNothing(phases, Load);
  }

  lemma {:induction false} RunKeepsInv(maxSize: int, goroutines: nat, acts: seq<Action>)
    requires Run(maxSize, goroutines, acts).Some?
    ensures Inv(Run(maxSize, goroutines, acts).value)
  {
    if acts == [] {
      InitialInv(maxSize, goroutines);
    } else {
      RunKeepsInv(maxSize, goroutines, acts[..|acts| - 1]);
      StepKeepsInv(Run(maxSize, goroutines, acts[..|acts| - 1]).value, acts[|acts| - 1]);
    }
  }

  // ---------- What holds however the goroutines interleave ----------

  /** The slots taken are as many as the connections idle, held or in some goroutine's hands, together with
      those being created; they are never more than the maximum. */
  lemma SlotsAccountedFor(maxSize: int, goroutines: nat, acts: seq<Action>)
    requires Run(maxSize, goroutines, acts).Some?
    ensures var s := Run(maxSize, goroutines, acts).value;
            && s.pool.taken == |s.pool.idle| + |s.pool.held| + AllLoads(s.phases) <= s.pool.maxSize
            && s.pool.created - s.pool.destroyed == s.pool.taken - AllHands(s.phases, MAKING)
            && s.pool.maxSize == if maxSize <= 0 then 10 else maxSize
  {
    RunKeepsInv(maxSize, goroutines, acts);
    RunKeepsSize(maxSize, goroutines, acts);
    NeverIdle(Run(maxSize, goroutines, acts).value.pool.idle);
  }

  lemma {:induction false} NeverIdle(idle: seq<nat>)
    ensures Times<int>(idle, MAKING) == 0
  {
    if idle != [] {
      NeverIdle(idle[..|idle| - 1]);
    }
  }

  lemma {:induction false} RunKeepsSize(maxSize: int, goroutines: nat, acts: seq<Action>)
    requires Run(maxSize, goroutines, acts).Some?
    ensures Run(maxSize, goroutines, acts).value.pool.maxSize == if maxSize <= 0 then 10 else maxSize
  {
    if acts != [] {
      var init := acts[..|acts| - 1];
      RunKeepsSize(maxSize, goroutines, init);
      RunKeepsInv(maxSize, goroutines, init);
      StepExplained(Run(maxSize, goroutines, init).value, acts[|acts| - 1], MAKING);
    }
  }

  /** No connection is idle twice, idle and held at once, held twice, or in the hands of two goroutines. */
  lemma OnePlaceOnly(maxSize: int, goroutines: nat, acts: seq<Action>, c: nat)
    requires Run(maxSize, goroutines, acts).Some?
    ensures var s := Run(maxSize, goroutines, acts).value;
            Times<int>(s.pool.idle, c) + s.pool.held[c] + AllHands(s.phases, c) <= 1
  {
    RunKeepsInv(maxSize, goroutines, acts);
    assert Sound(Run(maxSize, goroutines, acts).value, c);
  }

  /** The branches for a full pool are never taken, and no receive from the semaphore ever blocks:
      whoever has something in its hands can go on, and puts a connection back if that is its turn. */
  lemma NeverFullNeverStuck(maxSize: int, goroutines: nat, acts: seq<Action>, g: nat, yes: bool)
    requires Run(maxSize, goroutines, acts).Some? && g < goroutines
    requires Load(Run(maxSize, goroutines, acts).value.phases[g]) > 0
    ensures var s := Run(maxSize, goroutines, acts).value;
            && Step(s, Go(g, yes)).Some?
            && (Sends(s.phases[g]) ==>
                  Step(s, Go(g, yes)).value.pool.idle == s.pool.idle + [Parcel(s.phases[g])])
            && !(s.phases[g].InFill? && s.phases[g].filling.Dropping?)
  {
    RunKeepsInv(maxSize, goroutines, acts);
    var s := Run(maxSize, goroutines, acts).value;
    Roomy(s, g);
    LoadsUpdate(s.phases, g, Away);
  }

  /** Whoever is inside a call can go on, but for an Acquire that waits for an idle connection when there is none. */
  lemma OnlyBlockedWaits(maxSize: int, goroutines: nat, acts: seq<Action>, g: nat, yes: bool)
    requires Run(maxSize, goroutines, acts).Some? && g < goroutines && !Run(maxSize, goroutines, acts).value.phases[g].Away?
    ensures var s := Run(maxSize, goroutines, acts).value;
            Step(s, Go(g, yes)).None? <==> s.phases[g] == InAcquire(Blocked) && s.pool.idle == []
  {
    hide Inv;
    if Load(Run(maxSize, goroutines, acts).value.phases[g]) > 0 {
      NeverFullNeverStuck(maxSize, goroutines, acts, g, yes);
    }
  }

  /** An Acquire that looks for an idle connection takes the one that has been idle longest, if there is any. */
  lemma TakesOldestIdle(s: State, g: nat, yes: bool)
    requires g < |s.phases| && (s.phases[g] == InAcquire(TryIdle) || s.phases[g] == InAcquire(Blocked))
    requires s.pool.idle != []
    ensures Step(s, Go(g, yes)).Some?
    ensures var t := Step(s, Go(g, yes)).value;
            t.phases[g] == InAcquire(Got(s.pool.idle[0])) && [s.pool.idle[0]] + t.pool.idle == s.pool.idle
  {
  }

  /** About to send a connection to the idle ones. */
  predicate Sends(p: Phase) {
    || (p.InRelease? && p.releasing.Putting?)
    || (p.InCleanup? && p.cleaning.PuttingBack?)
    || (p.InFill? && p.filling.Sending?)
  }

  function Parcel(p: Phase): nat
    requires Sends(p)
  {
    match p
    case InRelease(r) => r.c
    case InCleanup(k) => k.c
    case InFill(f) => f.c
  }

  /** Releasing again what has been released and not acquired since does nothing. */
  lemma SecondReleaseIgnored(s: State, g: nat, h: nat, c: nat)
    requires Step(s, Release(g, c)).Some? && h < |s.phases| && h != g && s.phases[h].Away?
    ensures var t := Step(s, Release(g, c)).value; Step(t, Release(h, c)) == Some(t)
  {
    var t := Step(s, Release(g, c)).value;
    assert t.phases[h := Away] == t.phases;
  }

  // ---------- A blocked Acquire is not woken by a slot that becomes free ----------

  lemma Extend(acts: seq<Action>, a: Action, p: Pool, x: Phase, y: Phase)
    requires Run(1, 2, acts) == Some(State(p, [x, y])) && a.g < 2
    requires Next(p, if a.g == 0 then x else y, a).Some?
    ensures var (q, z) := Next(p, if a.g == 0 then x else y, a).value;
            Run(1, 2, acts + [a]) == Some(State(q, if a.g == 0 then [z, y] else [x, z]))
  {
    var z := Next(p, if a.g == 0 then x else y, a).value.1;
    assert (acts + [a])[..|acts|] == acts;
    assert [x, y][a.g := z] == if a.g == 0 then [z, y] else [x, z];
  }

  /** The pool of one place, with its connection in use. */
  const IN_USE := Pool(1, [], 1, multiset{0}, {}, 1, 0)

  /** Goroutine 0 takes the only connection. */
  lemma OneHolds() returns (acts: seq<Action>)
    ensures Run(1, 2, acts) == Some(State(IN_USE, [Away, Away]))
  {
    acts := [];
    var empty := Init(1, 2).pool;
    assert Init(1, 2).phases == [Away, Away];
    Extend(acts, Acquire(0), empty, Away, Away);
    acts := acts + [Acquire(0)];
    Extend(acts, Go(0, true), empty, InAcquire(TryIdle), Away);
    acts := acts + [Go(0, true)];
    Extend(acts, Go(0, true), empty, InAcquire(TrySlot), Away);
    acts := acts + [Go(0, true)];
    Extend(acts, Go(0, true), empty.(taken := 1), InAcquire(Creating), Away);
    acts := acts + [Go(0, true)];
    assert empty.held + multiset{0} == IN_USE.held;
  }

  /** Then goroutine 1 blocks. */
  lemma OneHoldsOneBlocks() returns (acts: seq<Action>)
    ensures Run(1, 2, acts) == Some(State(IN_USE, [Away, InAcquire(Blocked)]))
  {
    acts := OneHolds();
    Extend(acts, Acquire(1), IN_USE, Away, Away);
    acts := acts + [Acquire(1)];
    Extend(acts, Go(1, true), IN_USE, Away, InAcquire(TryIdle));
    acts := acts + [Go(1, true)];
    Extend(acts, Go(1, true), IN_USE, Away, InAcquire(TrySlot));
    acts := acts + [Go(1, true)];
  }

  /** The same pool when that connection is on its way back. */
  const ON_ITS_WAY := Pool(1, [], 1, multiset{}, {0}, 1, 0)

  /** Goroutine 0 releases it. */
  lemma OneReleases() returns (acts: seq<Action>)
    ensures Run(1, 2, acts) == Some(State(ON_ITS_WAY, [InRelease(Returning(0)), InAcquire(Blocked)]))
  {
    acts := OneHoldsOneBlocks();
    assert IN_USE.held - multiset{0} == ON_ITS_WAY.held && IN_USE.released + {0} == ON_ITS_WAY.released;
    Extend(acts, Release(0, 0), IN_USE, Away, InAcquire(Blocked));
    acts := acts + [Release(0, 0)];
  }

  /** When the connection is found stale its slot becomes free, yet goroutine 1 stays blocked:
      it looks at the idle connections only. */
  lemma BlockedBesideFreeSlot() returns (acts: seq<Action>)
    ensures var s := Run(1, 2, acts);
            && s.Some? && s.value.pool.taken == 0 < s.value.pool.maxSize
            && s.value.phases == [Away, InAcquire(Blocked)]
            && forall yes :: Step(s.value, Go(1, yes)).None?
  {
    acts := OneReleases();
    Extend(acts, Go(0, true), ON_ITS_WAY, InRelease(Returning(0)), InAcquire(Blocked));
    acts := acts + [Go(0, true)];
    Extend(acts, Go(0, true), ON_ITS_WAY, InRelease(Discarding(0)), InAcquire(Blocked));
    acts := acts + [Go(0, true)];
  }
}
