/** Shared vocabulary: optional and failing results, and counting over sequences. */
module Common {

  /** The largest 64-bit int. */
  const MAX_INT: int := 0x7FFF_FFFF_FFFF_FFFF

  datatype Option<+T> = None | Some(value: T)

  datatype Result<+T, +E> = Ok(value: T) | Err(error: E)

  function Map<T, U>(f: T -> U, q: seq<T>): (r: seq<U>)
    ensures |r| == |q|
  {
    if q == [] then [] else Map(f, q[..|q| - 1]) + [f(q[|q| - 1])]
  }

  lemma MapNext<T, U>(f: T -> U, q: seq<T>, k: nat)
    requires k < |q|
    ensures Map(f, q[..k + 1]) == Map(f, q[..k]) + [f(q[k])]
  {
    assert q[..k + 1][..k] == q[..k];
  }

  lemma {:induction false} MapAt<T, U>(f: T -> U, q: seq<T>, i: nat)
    requires i < |q|
    ensures Map(f, q)[i] == f(q[i])
  {
    if i < |q| - 1 {
      MapAt(f, q[..|q| - 1], i);
    }
  }

  /** Nothing occurs twice. */
  ghost predicate Distinct<T>(s: seq<T>) {
    s == [] || (s[0] !in s[1..] && Distinct(s[1..]))
  }

  lemma {:induction false} DistinctFrom<T>(s: seq<T>, i: nat)
    requires Distinct(s) && i < |s|
    ensures forall j :: 0 <= j < |s| && j != i ==> s[j] != s[i]
  {
    if i == 0 {
      assert forall j :: 0 < j < |s| ==> s[j] == s[1..][j - 1];
    } else {
      DistinctFrom(s[1..], i - 1);
      assert forall j :: 0 < j < |s| ==> s[j] == s[1..][j - 1];
      assert s[i] == s[1..][i - 1];
    }
  }

  lemma {:induction false} DistinctAppend<T>(s: seq<T>, x: T)
    requires Distinct(s) && x !in s
    ensures Distinct(s + [x])
  {
    if s == [] {
      assert [x][1..] == [];
    } else {
      assert (s + [x])[1..] == s[1..] + [x];
      DistinctAppend(s[1..], x);
    }
  }

  /** Without its last member. */
  lemma {:induction false} DistinctInit<T>(s: seq<T>)
    requires Distinct(s) && s != []
    ensures Distinct(s[..|s| - 1]) && s[|s| - 1] !in s[..|s| - 1]
  {
    if |s| > 1 {
      DistinctInit(s[1..]);
      assert s[..|s| - 1][1..] == s[1..][..|s| - 2];
    }
  }

  /** `q` is the last part of `all`. */
  ghost predicate Suffix<T>(q: seq<T>, all: seq<T>) {
    |q| <= |all| && q == all[|all| - |q|..]
  }

  lemma NothingIsSuffix<T>()
    ensures Suffix<T>([], [])
  {
  }

  lemma SuffixSteps<T>(q: seq<T>, all: seq<T>, x: T)
    requires Suffix(q, all)
    ensures Suffix(q + [x], all + [x]) && Suffix([], all + [x])
    ensures q != [] ==> Suffix(q[1..], all)
  {
  }

  /** How often `x` occurs in `q`. */
  ghost function Times<T>(q: seq<T>, x: T): nat {
    if q == [] then 0 else Times(q[..|q| - 1], x) + (if q[|q| - 1] == x then 1 else 0)
  }

  lemma TimesAppend<T>(q: seq<T>, y: T, x: T)
    ensures Times(q + [y], x) == Times(q, x) + (if y == x then 1 else 0)
  {
    assert (q + [y])[..|q|] == q;
  }

  lemma {:induction false} TimesFirst<T>(q: seq<T>, x: T)
    requires q != []
    ensures Times(q, x) == (if q[0] == x then 1 else 0) + Times(q[1..], x)
  {
    if |q| > 1 {
      TimesFirst(q[..|q| - 1], x);
      assert q[..|q| - 1][1..] == q[1..][..|q| - 2];
    }
  }

  lemma {:induction false} TimesMultiset<T>(q: seq<T>, x: T)
    ensures Times(q, x) == multiset(q)[x]
  {
    if q != [] {
      assert q == q[..|q| - 1] + [q[|q| - 1]];
      TimesMultiset(q[..|q| - 1], x);
    }
  }

  /** Sequences in which everything occurs equally often hold the same things. */
  lemma TimesDecide<T>(p: seq<T>, q: seq<T>)
    requires forall x :: x in p || x in q ==> Times(p, x) == Times(q, x)
    ensures multiset(p) == multiset(q)
  {
    forall x | x in multiset(p) || x in multiset(q) ensures multiset(p)[x] == multiset(q)[x] {
      assert x in p || x in q;
      TimesMultiset(p, x);
      TimesMultiset(q, x);
    }
  }

  /** The sum of what the members of `gs`, goroutines say, contribute under `f`. */
  ghost function Tally<G>(gs: seq<G>, f: G -> nat): nat {
    if gs == [] then 0 else f(gs[0]) + Tally(gs[1..], f)
  }

  /** Changing one member changes the sum by that member's contribution. */
  lemma {:induction false} TallyUpdate<G>(gs: seq<G>, f: G -> nat, i: nat, g: G)
    requires i < |gs|
    ensures f(gs[i]) <= Tally(gs, f)
    ensures Tally(gs[i := g], f) == Tally(gs, f) - f(gs[i]) + f(g)
  {
    if i == 0 {
      assert gs[i := g][1..] == gs[1..];
    } else {
      assert gs[i := g][1..] == gs[1..][i - 1 := g];
      TallyUpdate(gs[1..], f, i - 1, g);
    }
  }

  lemma {:induction false} TallyNothing<G>(gs: seq<G>, f: G -> nat)
    requires forall i :: 0 <= i < |gs| ==> f(gs[i]) == 0
    ensures Tally(gs, f) == 0
  {
    if gs != [] {
      assert f(gs[0]) == 0;
      TallyNothing(gs[1..], f);
    }
  }

  // ---------- Remainders ----------

  lemma {:induction false} MulGap(d: int, a: int, b: int)
    requires d > 0 && a < b
    ensures d * b >= d * a + d
    decreases b - a
  {
    if a < b - 1 {
      MulGap(d, a, b - 1);
    }
  }

  lemma RemainderUnique(x: int, d: int, q: int, r: int)
    requires d > 0 && x == d * q + r && 0 <= r < d
    ensures x % d == r
  {
    var q' := x / d;
    assert x == d * q' + x % d;
    if q > q' {
      MulGap(d, q', q);
    } else if q < q' {
      MulGap(d, q, q');
    }
  }
}
