/** Cache-aside reads through a singleflight group: any number of concurrent Get calls on an unbounded
    cache without expiry, which starts empty and is written by Get alone. */
module CacheAside {
  import opened Common
  import SF = Singleflight

  /** Where a goroutine stands inside Get; the steps of Do themselves are those of the singleflight group. */
  datatype Local<K, V, E> =
    | Out
    | Looking(key: K)                          // the first look into the cache
    | Calling(key: K)                          // missed, goes into Do
    | Following(key: K)                        // waits for somebody else's call
    | Checking(key: K)                         // leads, looks into the cache again
    | Fetching(key: K)
    | Storing(key: K, value: V)                // has fetched, populates the cache
    | Ready(key: K, result: Result<V, E>)      // fn returns
    | Closing(key: K)

  datatype Reply<K, V, E> = Reply(key: K, result: Result<V, E>)

  /** `wins` counts the successful fetches of each key, `won` is what the last of them fetched. */
  datatype State<K, V, E> = State(
    sf: SF.State<K, V, E>,
    cache: map<K, V>,
    locals: seq<Local<K, V, E>>,
    wins: multiset<K>,
    won: map<K, V>,
    replies: seq<Reply<K, V, E>>)

  datatype Action<K, V, E> =
    | Begin(g: nat, key: K)
    | Look(g: nat)
    | Enter(g: nat)
    | Check(g: nat)
    | Fetched(g: nat, result: Result<V, E>)
    | Store(g: nat)
    | Finish(g: nat)
    | Release(g: nat)
    | Remove(g: nat)
    | Wake(g: nat)

  function Init<K, V, E>(goroutines: nat): State<K, V, E> {
    State(SF.Init(goroutines), map[], seq(goroutines, _ => Out), multiset{}, map[], [])
  }

  function At<K, V, E>(s: State<K, V, E>, g: nat, l: Local<K, V, E>): State<K, V, E>
    requires g < |s.locals|
  {
    s.(locals := s.locals[g := l])
  }

  function Answer<K, V, E>(s: State<K, V, E>, g: nat, key: K, r: Result<V, E>): State<K, V, E>
    requires g < |s.locals|
  {
    s.(locals := s.locals[g := Out], replies := s.replies + [Reply(key, r)])
  }

  /** A step inside Do that also returns from it. */
  function Leave<K(==), V, E>(s: State<K, V, E>, key: K, a: SF.Action<K, V, E>): Option<State<K, V, E>>
    requires a.g < |s.locals|
  {
    match SF.Step(s.sf, a)
    case None => None
    case Some(sf) =>
      if |sf.history| != |s.sf.history| + 1 then None
      else Some(Answer(s.(sf := sf), a.g, key, sf.history[|s.sf.history|].result))
  }

  function Step<K(==), V, E>(s: State<K, V, E>, a: Action<K, V, E>): (t: Option<State<K, V, E>>)
    ensures t.Some? ==> |t.value.locals| == |s.locals|
  {
    if a.g >= |s.locals| || |s.sf.phases| != |s.locals| then None
    else
      match s.locals[a.g]
      case Out =>
        if a.Begin? then Some(At(s, a.g, Looking(a.key))) else None
      case Looking(key) =>
        if !a.Look? then None
        else if key in s.cache then Some(Answer(s, a.g, key, Ok(s.cache[key])))
        else Some(At(s, a.g, Calling(key)))
      case Calling(key) =>
        if !a.Enter? then None
        else
          (match SF.Step(s.sf, SF.Enter(a.g, key))
           case None => None
           case Some(sf) =>
             Some(At(s.(sf := sf), a.g, if sf.phases[a.g].Waiting? then Following(key) else Checking(key))))
      case Following(key) =>
        if a.Wake? then Leave(s, key, SF.Wake(a.g)) else None
      case Checking(key) =>
        if !a.Check? then None
        else if key in s.cache then Some(At(s, a.g, Ready(key, Ok(s.cache[key]))))
        else Some(At(s, a.g, Fetching(key)))
      case Fetching(key) =>
        if !a.Fetched? then None
        else
          (match a.result
           case Ok(v) => Some(At(s.(wins := s.wins + multiset{key}, won := s.won[key := v]), a.g, Storing(key, v)))
           case Err(e) => Some(At(s, a.g, Ready(key, Err(e)))))
      case Storing(key, v) =>
        if a.Store? then Some(At(s.(cache := s.cache[key := v]), a.g, Ready(key, Ok(v)))) else None
      case Ready(key, r) =>
        if !a.Finish? then None
        else
          (match SF.Step(s.sf, SF.Write(a.g, r))
           case None => None
           case Some(sf) => Some(At(s.(sf := sf), a.g, Closing(key))))
      case Closing(key) =>
        if a.Release? then
          (match SF.Step(s.sf, SF.Release(a.g))
           case None => None
           case Some(sf) => Some(s.(sf := sf)))
        else if a.Remove? then Leave(s, key, SF.Remove(a.g))
        else None
  }

  function Run<K(==), V, E>(goroutines: nat, acts: seq<Action<K, V, E>>): (t: Option<State<K, V, E>>)
    ensures t.Some? ==> |t.value.locals| == goroutines
  {
    if acts == [] then Some(Init(goroutines))
    else
      match Run(goroutines, acts[..|acts| - 1])
      case None => None
      case Some(s) => Step(s, acts[|acts| - 1])
  }

  /** A step that touches the group is one of its steps. */
  lemma SfStep<K, V, E>(s: State<K, V, E>, a: Action<K, V, E>) returns (b: SF.Action<K, V, E>)
    requires Step(s, a).Some? && Step(s, a).value.sf != s.sf
    ensures SF.Step(s.sf, b) == Some(Step(s, a).value.sf)
  {
    b := match s.locals[a.g]
      case Calling(key) => SF.Enter(a.g, key)
      case Ready(_, r) => SF.Write(a.g, r)
      case Following(_) => SF.Wake(a.g)
      case _ => if a.Release? then SF.Release(a.g) else SF.Remove(a.g);
  }

  lemma SfExtend<K, V, E>(goroutines: nat, acts: seq<SF.Action<K, V, E>>, b: SF.Action<K, V, E>)
    requires SF.Run(goroutines, acts).Some?
    ensures SF.Run(goroutines, acts + [b]) == SF.Step(SF.Run(goroutines, acts).value, b)
  {
    assert (acts + [b])[..|acts|] == acts;
  }

  /** What happens inside Do is a run of the singleflight group. */
  lemma {:induction false} RunsSingleflight<K, V, E>(goroutines: nat, acts: seq<Action<K, V, E>>)
    returns (sfActs: seq<SF.Action<K, V, E>>)
    requires Run(goroutines, acts).Some?
    ensures SF.Run(goroutines, sfActs) == Some(Run(goroutines, acts).value.sf)
  {
    if acts == [] {
      sfActs := [];
    } else {
      var init, a := acts[..|acts| - 1], acts[|acts| - 1];
      sfActs := RunsSingleflight(goroutines, init);
      var s := Run(goroutines, init).value;
      if Step(s, a).value.sf != s.sf {
        var b := SfStep(s, a);
        SfExtend(goroutines, sfActs, b);
        sfActs := sfActs + [b];
      }
    }
  }

  // ---------- The invariant ----------

  ghost predicate Won<K, V, E>(s: State<K, V, E>, key: K, r: Result<V, E>) {
    r.Ok? ==> key in s.won && s.won[key] == r.value
  }

  ghost predicate LocalOk<K, V, E>(s: State<K, V, E>, g: nat)
    requires g < |s.locals| == |s.sf.phases|
  {
    var p := s.sf.phases[g];
    match s.locals[g]
    case Following(key) => p.Waiting? && p.key == key
    case Checking(key) => p.Leading? && p.key == key
    case Fetching(key) => p.Leading? && p.key == key && key !in s.won
    case Storing(key, v) => p.Leading? && p.key == key && Won<K, V, E>(s, key, Ok(v))
    case Ready(key, r) => p.Leading? && p.key == key && Won(s, key, r)
    case Closing(key) => (p.Written? || p.Removing?) && p.key == key
    case _ => p.Away?
  }

  /** A fetched value is in the cache, or its leader is about to put it there. */
  ghost predicate WonOk<K, V, E>(s: State<K, V, E>, key: K)
    requires key in s.won
  {
    key in s.cache || exists g :: 0 <= g < |s.locals| && s.locals[g] == Storing(key, s.won[key])
  }

  ghost predicate Inv<K, V, E>(s: State<K, V, E>) {
    && |s.locals| == |s.sf.phases|
    && (forall g :: 0 <= g < |s.locals| ==> LocalOk(s, g))
    && (forall k :: k in s.won ==> WonOk(s, k))
    && (forall k :: k in s.cache ==> k in s.won && s.won[k] == s.cache[k])
    && (forall k :: k in s.wins ==> k in s.won && s.wins[k] == 1)
    && (forall k :: k in s.won ==> k in s.wins)
    && (forall c :: 0 <= c < |s.sf.shared.calls| && s.sf.shared.calls[c].outcome.Some? ==>
          Won(s, s.sf.shared.calls[c].key, s.sf.shared.calls[c].outcome.value))
    && (forall i :: 0 <= i < |s.replies| ==> Won(s, s.replies[i].key, s.replies[i].result))
  }

  /** Two goroutines that lead under the same key are the same. */
  lemma SameLeader<K, V, E>(s: State<K, V, E>, g: nat, h: nat)
    requires SF.Inv(s.sf) && g < |s.sf.phases| && h < |s.sf.phases|
    requires s.sf.phases[g].Leading? && s.sf.phases[h].Leading? && s.sf.phases[g].key == s.sf.phases[h].key
    ensures g == h
  {
    assert SF.PhaseOk(s.sf, g) && SF.PhaseOk(s.sf, h);
  }

  /** The steps that belong to Do. */
  ghost predicate InDo<K, V, E>(l: Local<K, V, E>) {
    l.Calling? || l.Following? || l.Ready? || l.Closing?
  }

  /** A step that the invariant has to survive. */
  ghost predicate Good<K, V, E>(s: State<K, V, E>, a: Action<K, V, E>) {
    Inv(s) && SF.Inv(s.sf) && Step(s, a).Some?
  }

  /** A step of one goroutine leaves the others where they are, and makes its own fetch the only new one. */
  lemma OtherStays<K, V, E>(s: State<K, V, E>, a: Action<K, V, E>, g: nat)
    requires Step(s, a).Some? && g < |s.locals| && g != a.g
    ensures var t := Step(s, a).value;
            && a.g < |s.locals| == |t.sf.phases| == |s.sf.phases| && t.locals[g] == s.locals[g] && t.sf.phases[g] == s.sf.phases[g]
            && (t.won == s.won || (s.locals[a.g].Fetching? && t.won.Keys == s.won.Keys + {s.locals[a.g].key}))
            && forall k :: k in s.won && k in t.won && s.won[k] != t.won[k] ==> s.locals[a.g] == Fetching(k)
  {
    hide SF.Step;
    match s.locals[a.g]
    case Calling(key) => SF.OtherStays(s.sf, SF.Enter(a.g, key), g);
    case Following(key) => SF.OtherStays(s.sf, SF.Wake(a.g), g);
    case Ready(key, r) => SF.OtherStays(s.sf, SF.Write(a.g, r), g);
    case Closing(key) => SF.OtherStays(s.sf, if a.Release? then SF.Release(a.g) else SF.Remove(a.g), g);
    case _ =>
  }

  lemma OtherLocal<K, V, E>(s: State<K, V, E>, a: Action<K, V, E>, g: nat)
    requires Good(s, a) && g < |s.locals| && g != a.g
    ensures g < |Step(s, a).value.sf.phases| == |s.locals| && LocalOk(Step(s, a).value, g)
    ensures Step(s, a).value.locals[g] == s.locals[g]
  {
    hide Step, SF.Inv;
    OtherStays(s, a, g);
    assert LocalOk(s, a.g) && LocalOk(s, g);
    if s.locals[a.g].Fetching? && s.locals[g].Fetching? && s.locals[g].key == s.locals[a.g].key {
      SameLeader(s, g, a.g);
    }
  }

  lemma OwnLocalInDo<K, V, E>(s: State<K, V, E>, a: Action<K, V, E>)
    requires Good(s, a) && InDo(s.locals[a.g])
    ensures a.g < |Step(s, a).value.sf.phases| == |s.locals| && LocalOk(Step(s, a).value, a.g)
  {
    assert LocalOk(s, a.g) && SF.PhaseOk(s.sf, a.g);
  }

  lemma OwnLocalOutsideDo<K, V, E>(s: State<K, V, E>, a: Action<K, V, E>)
    requires Good(s, a) && !InDo(s.locals[a.g])
    ensures a.g < |Step(s, a).value.sf.phases| == |s.locals| && LocalOk(Step(s, a).value, a.g)
  {
    assert LocalOk(s, a.g);
    if s.locals[a.g].Checking? && s.locals[a.g].key in s.won {
      StoredBeforeChecked(s, a.g);
    }
  }

  /** Whatever has been fetched under a leader's key is in the cache by the time the leader looks again. */
  lemma StoredBeforeChecked<K, V, E>(s: State<K, V, E>, g: nat)
    requires Inv(s) && SF.Inv(s.sf) && g < |s.locals| && s.locals[g].Checking? && s.locals[g].key in s.won
    ensures s.locals[g].key in s.cache
  {
    var key := s.locals[g].key;
    assert WonOk(s, key) && LocalOk(s, g);
    if key !in s.cache {
      var h :| 0 <= h < |s.locals| && s.locals[h] == Storing(key, s.won[key]);
      assert LocalOk(s, h);
      SameLeader(s, h, g);
      assert false;
    }
  }

  lemma KeepsWon<K, V, E>(s: State<K, V, E>, a: Action<K, V, E>, k: K)
    requires Good(s, a) && k in Step(s, a).value.won
    ensures WonOk(Step(s, a).value, k)
  {
    var t := Step(s, a).value;
    assert LocalOk(s, a.g);
    if k in s.won {
      assert WonOk(s, k);
      if k !in s.cache {
        var h :| 0 <= h < |s.locals| && s.locals[h] == Storing(k, s.won[k]);
        if h != a.g {
          OtherLocal(s, a, h);
          assert t.locals[h] == Storing(k, t.won[k]);
        }
      }
    } else {
      assert t.locals[a.g] == Storing(k, t.won[k]);
    }
  }

  /** Do itself touches neither the cache nor what has been fetched. */
  lemma InDoFrame<K, V, E>(s: State<K, V, E>, a: Action<K, V, E>)
    requires Good(s, a) && InDo(s.locals[a.g])
    ensures var t := Step(s, a).value; t.cache == s.cache && t.won == s.won && t.wins == s.wins
  {
  }

  /** Outside Do nothing happens to the group, and what has been fetched stays fetched. */
  lemma OutsideDoFrame<K, V, E>(s: State<K, V, E>, a: Action<K, V, E>)
    requires Good(s, a) && !InDo(s.locals[a.g])
    ensures var t := Step(s, a).value; t.sf == s.sf && forall k :: k in s.won ==> k in t.won && t.won[k] == s.won[k]
  {
    assert LocalOk(s, a.g);
  }

  lemma KeepsCache<K, V, E>(s: State<K, V, E>, a: Action<K, V, E>)
    requires Good(s, a)
    ensures var t := Step(s, a).value;
            && (forall k :: k in t.cache ==> k in t.won && t.won[k] == t.cache[k])
            && (forall k :: k in t.wins ==> k in t.won && t.wins[k] == 1)
            && (forall k :: k in t.won ==> k in t.wins)
  {
    if InDo(s.locals[a.g]) {
      InDoFrame(s, a);
    } else {
      KeepsCacheOutsideDo(s, a, Step(s, a).value);
    }
  }

  /** What one key's entries in the cache and in the fetches have to do with one another. */
  ghost predicate KeyOk<K, V, E>(s: State<K, V, E>, k: K) {
    && (k in s.cache ==> k in s.won && s.won[k] == s.cache[k])
    && (k in s.wins ==> k in s.won && s.wins[k] == 1)
    && (k in s.won ==> k in s.wins)
  }

  lemma KeepsKeyOutsideDo<K, V, E>(s: State<K, V, E>, a: Action<K, V, E>, k: K)
    requires Step(s, a).Some? && !InDo(s.locals[a.g]) && |s.locals| == |s.sf.phases| && LocalOk(s, a.g) && KeyOk(s, k)
    ensures KeyOk(Step(s, a).value, k)
  {
    hide SF.Step;
  }

  lemma KeepsCacheOutsideDo<K, V, E>(s: State<K, V, E>, a: Action<K, V, E>, t: State<K, V, E>)
    requires Good(s, a) && !InDo(s.locals[a.g]) && Step(s, a) == Some(t)
    ensures forall k :: k in t.cache ==> k in t.won && t.won[k] == t.cache[k]
    ensures forall k :: k in t.wins ==> k in t.won && t.wins[k] == 1
    ensures forall k :: k in t.won ==> k in t.wins
  {
    assert LocalOk(s, a.g);
    hide SF.Inv, Step, LocalOk;
    forall k | k in t.cache || k in t.wins || k in t.won ensures KeyOk(t, k) {
      assert KeyOk(s, k);
      KeepsKeyOutsideDo(s, a, k);
    }
  }

  lemma KeepsOutcomes<K, V, E>(s: State<K, V, E>, a: Action<K, V, E>, c: nat)
    requires Good(s, a)
    requires var calls := Step(s, a).value.sf.shared.calls; c < |calls| && calls[c].outcome.Some?
    ensures var t := Step(s, a).value; Won(t, t.sf.shared.calls[c].key, t.sf.shared.calls[c].outcome.value)
  {
    if InDo(s.locals[a.g]) {
      KeepsOutcomesInDo(s, a, c);
    } else {
      OutsideDoFrame(s, a);
    }
  }

  lemma KeepsOutcomesInDo<K, V, E>(s: State<K, V, E>, a: Action<K, V, E>, c: nat)
    requires Good(s, a) && InDo(s.locals[a.g])
    requires var calls := Step(s, a).value.sf.shared.calls; c < |calls| && calls[c].outcome.Some?
    ensures var t := Step(s, a).value; Won(t, t.sf.shared.calls[c].key, t.sf.shared.calls[c].outcome.value)
  {
    hide SF.Inv, WonOk;
    SF.PhaseHolds(s.sf, a.g);
    assert LocalOk(s, a.g);
  }

  lemma KeepsReplies<K, V, E>(s: State<K, V, E>, a: Action<K, V, E>, i: nat)
    requires Good(s, a) && i < |Step(s, a).value.replies|
    ensures var t := Step(s, a).value; Won(t, t.replies[i].key, t.replies[i].result)
  {
    if InDo(s.locals[a.g]) {
      KeepsRepliesInDo(s, a, i);
    } else {
      KeepsRepliesOutsideDo(s, a, i);
    }
  }

  lemma KeepsRepliesInDo<K, V, E>(s: State<K, V, E>, a: Action<K, V, E>, i: nat)
    requires Good(s, a) && InDo(s.locals[a.g]) && i < |Step(s, a).value.replies|
    ensures var t := Step(s, a).value; Won(t, t.replies[i].key, t.replies[i].result)
  {
    hide SF.Inv, WonOk;
    SF.PhaseHolds(s.sf, a.g);
    assert LocalOk(s, a.g);
  }

  lemma KeepsRepliesOutsideDo<K, V, E>(s: State<K, V, E>, a: Action<K, V, E>, i: nat)
    requires Good(s, a) && !InDo(s.locals[a.g]) && i < |Step(s, a).value.replies|
    ensures var t := Step(s, a).value; Won(t, t.replies[i].key, t.replies[i].result)
  {
    hide SF.Inv, SF.Step, WonOk;
    assert LocalOk(s, a.g);
  }

  lemma StepKeepsInv<K, V, E>(s: State<K, V, E>, a: Action<K, V, E>)
    requires Good(s, a)
    ensures Inv(Step(s, a).value)
  {
    var t := Step(s, a).value;
    if InDo(s.locals[a.g]) {
      OwnLocalInDo(s, a);
    } else {
      OwnLocalOutsideDo(s, a);
    }
    forall g | 0 <= g < |s.locals| && g != a.g ensures LocalOk(t, g) {
      OtherLocal(s, a, g);
    }
    forall k | k in t.won ensures WonOk(t, k) {
      KeepsWon(s, a, k);
    }
    KeepsCache(s, a);
    forall c | 0 <= c < |t.sf.shared.calls| && t.sf.shared.calls[c].outcome.Some?
      ensures Won(t, t.sf.shared.calls[c].key, t.sf.shared.calls[c].outcome.value)
    {
      KeepsOutcomes(s, a, c);
    }
    forall i | 0 <= i < |t.replies| ensures Won(t, t.replies[i].key, t.replies[i].result) {
      KeepsReplies(s, a, i);
    }
  }

  lemma {:induction false} RunKeepsInv<K, V, E>(goroutines: nat, acts: seq<Action<K, V, E>>)
    requires Run(goroutines, acts).Some?
    ensures Inv(Run(goroutines, acts).value)
  {
    if acts != [] {
      var init := acts[..|acts| - 1];
      RunKeepsInv(goroutines, init);
      var sfActs := RunsSingleflight(goroutines, init);
      SF.RunKeepsInv(goroutines, sfActs);
      StepKeepsInv(Run(goroutines, init).value, acts[|acts| - 1]);
    }
  }

  // ---------- No stampede ----------

  /** However the Gets interleave, a key is fetched successfully at most once,
      and every Get of it that succeeds returns the value of that one fetch. */
  lemma FetchedOnce<K, V, E>(goroutines: nat, acts: seq<Action<K, V, E>>, key: K)
    requires Run(goroutines, acts).Some?
    ensures var s := Run(goroutines, acts).value;
            && s.wins[key] <= 1
            && forall i :: 0 <= i < |s.replies| && s.replies[i].key == key && s.replies[i].result.Ok? ==>
                 s.wins[key] == 1 && key in s.won && s.replies[i].result.value == s.won[key]
  {
    RunKeepsInv(goroutines, acts);
    var s := Run(goroutines, acts).value;
    forall i | 0 <= i < |s.replies| && s.replies[i].key == key && s.replies[i].result.Ok?
      ensures s.wins[key] == 1 && key in s.won && s.replies[i].result.value == s.won[key]
    {
      assert Won(s, s.replies[i].key, s.replies[i].result);
    }
  }

  /** A Get of a cached key answers at its first look, with the cached value; any other goes into Do, and fetches only
      if it leads there and the key is still not cached. */
  lemma FetchesOnlyMissing<K, V, E>(s: State<K, V, E>, a: Action<K, V, E>)
    requires Step(s, a).Some? && (s.locals[a.g].Looking? || s.locals[a.g].Checking?)
    ensures var (t, key) := (Step(s, a).value, s.locals[a.g].key);
            && (a.Look? && key in s.cache ==> t.locals[a.g].Out? && t.replies == s.replies + [Reply(key, Ok(s.cache[key]))])
            && (t.locals[a.g].Calling? ==> a.Look? && key !in s.cache)
            && (a.Check? && key in s.cache ==> t.locals[a.g] == Ready(key, Ok(s.cache[key])))
            && (t.locals[a.g].Fetching? <==> a.Check? && key !in s.cache)
  {
  }

  // ---------- Every Get returns ----------

  /** Nothing can happen but new Gets. */
  ghost predicate AtRest<K(!new), V(!new), E(!new)>(s: State<K, V, E>) {
    forall a :: Step(s, a).Some? ==> a.Begin?
  }

  /** Whoever is inside Get and does not follow somebody else can go on; `r` stands for what a fetch returns. */
  lemma CanGo<K, V, E>(s: State<K, V, E>, g: nat, r: Result<V, E>) returns (a: Action<K, V, E>)
    requires Inv(s) && SF.Inv(s.sf) && g < |s.locals| && !s.locals[g].Out? && !s.locals[g].Following?
    ensures !a.Begin? && Step(s, a).Some?
  {
    assert LocalOk(s, g);
    SF.PhaseHolds(s.sf, g);
    match s.locals[g]
    case Looking(_) => a := Look(g);
    case Calling(_) => a := Enter(g);
    case Checking(_) => a := Check(g);
    case Fetching(_) => a := Fetched(g, r);
    case Storing(_, _) => a := Store(g);
    case Ready(_, _) => a := Finish(g);
    case Closing(_) => a := if s.sf.phases[g].Written? then Release(g) else Remove(g);
  }

  /** Whoever follows can go on, or else the leader of that call can. */
  lemma FollowerOrLeader<K, V, E>(s: State<K, V, E>, g: nat, r: Result<V, E>) returns (a: Action<K, V, E>)
    requires Inv(s) && SF.Inv(s.sf) && g < |s.locals| && s.locals[g].Following?
    ensures !a.Begin? && Step(s, a).Some?
  {
    assert LocalOk(s, g);
    SF.PhaseHolds(s.sf, g);
    var c := s.sf.phases[g].call;
    SF.CallHolds(s.sf, c);
    if s.sf.shared.calls[c].done {
      a := Wake(g);
    } else {
      var h := s.sf.shared.calls[c].leader;
      assert LocalOk(s, h);
      a := CanGo(s, h, r);
    }
  }

  /** However the Gets interleave none is ever stuck: some step is possible until all have returned. */
  lemma NeverStuck<K(!new), V(!new), E(!new)>(goroutines: nat, acts: seq<Action<K, V, E>>, r: Result<V, E>)
    requires Run(goroutines, acts).Some?
    ensures var s := Run(goroutines, acts).value;
            AtRest(s) <==> forall g :: 0 <= g < goroutines ==> s.locals[g].Out?
  {
    hide Step, Inv, SF.Inv;
    RunKeepsInv(goroutines, acts);
    var sfActs := RunsSingleflight(goroutines, acts);
    SF.RunKeepsInv(goroutines, sfActs);
    var s := Run(goroutines, acts).value;
    if g :| 0 <= g < goroutines && !s.locals[g].Out? {
      if s.locals[g].Following? {
        var a := FollowerOrLeader(s, g, r);
      } else {
        var a := CanGo(s, g, r);
      }
    } else {
      OnlyBegins(s);
    }
  }

  lemma OnlyBegins<K(!new), V(!new), E(!new)>(s: State<K, V, E>)
    requires forall g :: 0 <= g < |s.locals| ==> s.locals[g].Out?
    ensures AtRest(s)
  {
  }

  /** How many steps a Get has left at most. */
  ghost function GetLeft<K, V, E>(l: Local<K, V, E>, p: SF.Phase<K>): nat {
    match l
    case Out => 0
    case Looking(_) => 8
    case Calling(_) => 7
    case Following(_) => 1
    case Checking(_) => 6
    case Fetching(_) => 5
    case Storing(_, _) => 4
    case Ready(_, _) => 3
    case Closing(_) => if p.Written? then 2 else 1
  }

  /** A step other than the beginning of a Get leaves its goroutine fewer steps, and the others as many. */
  lemma LessLeft<K, V, E>(s: State<K, V, E>, a: Action<K, V, E>, g: nat)
    requires Inv(s) && SF.Inv(s.sf) && Step(s, a).Some? && !a.Begin? && g < |s.locals|
    ensures var t := Step(s, a).value;
            && g < |t.locals| == |t.sf.phases|
            && GetLeft(t.locals[g], t.sf.phases[g]) <= GetLeft(s.locals[g], s.sf.phases[g]) - if g == a.g then 1 else 0
  {
    assert LocalOk(s, a.g);
    if g == a.g {
      OwnLessLeft(s, a);
    } else {
      hide Step;
      OtherStays(s, a, g);
    }
  }

  lemma OwnLessLeft<K, V, E>(s: State<K, V, E>, a: Action<K, V, E>)
    requires |s.locals| == |s.sf.phases| && Step(s, a).Some? && !a.Begin? && LocalOk(s, a.g)
    ensures var t := Step(s, a).value;
            && |t.locals| == |t.sf.phases|
            && GetLeft(t.locals[a.g], t.sf.phases[a.g]) < GetLeft(s.locals[a.g], s.sf.phases[a.g])
  {
  }

  // ---------- The objects themselves, used by one goroutine ----------

  class Cache<K(==), V> {
    var data: map<K, V>
    var hits: nat
    var misses: nat

    constructor ()
      ensures data == map[] && hits == misses == 0
    {
      data, hits, misses := map[], 0, 0;
    }

    method Get(key: K) returns (value: Option<V>)
      modifies this`hits, this`misses
      ensures value == if key in data then Some(data[key]) else None
      ensures hits + misses == old(hits + misses) + 1 && (hits > old(hits) <==> value.Some?)
    {
      if key !in data {
        misses := misses + 1;
        return None;
      }
      hits := hits + 1;
      return Some(data[key]);
    }

    method Set(key: K, value: V)
      modifies this`data
      ensures data == old(data)[key := value]
    {
      data := data[key := value];
    }
  }

  class CacheAside<K(==), V, E> {
    const cache: Cache<K, V>
    const sf: SF.Singleflight<K, V, E>
    const fetch: K -> Result<V, E>

    constructor (cache: Cache<K, V>, fetch: K -> Result<V, E>)
      ensures this.cache == cache && this.fetch == fetch && fresh(sf) && sf.Valid() && sf.shared.inflight == map[]
    {
      this.cache, this.fetch := cache, fetch;
      this.sf := new SF.Singleflight();
    }

    /** An undisturbed Get: fetches on a miss only, stores what it fetched, and leaves nothing in flight. */
    method Get(key: K) returns (result: Result<V, E>)
      requires sf.Valid() && sf.shared.inflight == map[]
      modifies cache, sf
      ensures sf.Valid() && sf.shared.inflight == map[]
      ensures result == if key in old(cache.data) then Ok(old(cache.data)[key]) else fetch(key)
      ensures cache.data ==
              if key !in old(cache.data) && fetch(key).Ok? then old(cache.data)[key := fetch(key).value] else old(cache.data)
    {
      var value := cache.Get(key);
      if value.Some? {
        return Ok(value.value);
      }
      result := Do(key);
    }

    /** What the leader does: look again, else fetch and store. */
    method Load(key: K) returns (result: Result<V, E>)
      modifies cache
      ensures result == if key in old(cache.data) then Ok(old(cache.data)[key]) else fetch(key)
      ensures cache.data ==
              if key !in old(cache.data) && fetch(key).Ok? then old(cache.data)[key := fetch(key).value] else old(cache.data)
    {
      var again := cache.Get(key);
      if again.Some? {
        return Ok(again.value);
      }
      result := fetch(key);
      if result.Ok? {
        cache.Set(key, result.value);
      }
    }

    method Do(key: K) returns (result: Result<V, E>)
      requires sf.Valid() && sf.shared.inflight == map[]
      modifies cache, sf
      ensures sf.Valid() && sf.shared.inflight == map[]
      ensures result == if key in old(cache.data) then Ok(old(cache.data)[key]) else fetch(key)
      ensures cache.data ==
              if key !in old(cache.data) && fetch(key).Ok? then old(cache.data)[key := fetch(key).value] else old(cache.data)
    {
      var c, leads := sf.Enter(key, 0);
      result := Load(key);
      sf.Write(c, result);
      sf.Release(c);
      sf.Remove(key);
      result := c.outcome.value;
    }
  }
}
