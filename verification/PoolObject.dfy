/** The managed pool as an object used by one goroutine at a time: what each call does from start to end. */
module PoolObject {
  import opened Common

  class PooledConn {
    const createdAt: int
    var lastUsedAt: int
    var useCount: nat
    var released: bool
    /** What IsValid of the wrapped connection reports. */
    var valid: bool

    constructor (now: int, useCount: nat, released: bool)
      ensures createdAt == lastUsedAt == now && this.useCount == useCount && this.released == released && valid
    {
      createdAt, lastUsedAt, this.useCount, this.released, valid := now, now, useCount, released, true;
    }
  }

  /** How WarmUp and EnsureMinConnections come to an end. */
  datatype End = Complete | Cancelled | AtCapacity | FactoryError

  datatype Outcome = Acquired(conn: PooledConn) | FactoryFailed | WouldBlock

  class ManagedPool {
    const minSize: int
    const maxSize: nat
    const maxIdleTime: int
    const maxLifetime: int
    var conns: seq<PooledConn>
    /** The slots taken in the semaphore channel. */
    var taken: nat
    var destroyed: nat
    /** The connections that users have acquired and not released. */
    ghost var held: set<PooledConn>

    ghost predicate Valid()
      reads this, conns, held
    {
      && taken == |conns| + |held| <= maxSize && maxSize > 0
      && Distinct(conns)
      && (forall c :: c in conns ==> c.released && c !in held)
      && (forall c :: c in held ==> !c.released)
    }

    constructor (minSize: int, maxSize: int, maxIdleTime: int, maxLifetime: int)
      ensures Valid() && conns == [] && held == {} && destroyed == 0
      ensures this.maxSize == if maxSize <= 0 then 10 else maxSize
      ensures this.minSize == minSize && this.maxIdleTime == maxIdleTime && this.maxLifetime == maxLifetime
    {
      this.minSize, this.maxSize := minSize, if maxSize <= 0 then 10 else maxSize;
      this.maxIdleTime, this.maxLifetime := maxIdleTime, maxLifetime;
      conns, taken, destroyed, held := [], 0, 0, {};
    }

    predicate ShouldDestroy(c: PooledConn, now: int)
      reads c`valid, c`lastUsedAt
    {
      if !c.valid then true
      else if maxLifetime > 0 && now - c.createdAt > maxLifetime then true
      else maxIdleTime > 0 && now - c.lastUsedAt > maxIdleTime
    }

    /** A connection may be handed out: it is valid, no older than the longest lifetime and has been unused for no
        longer than the longest idle time, where there are such limits. */
    ghost predicate Fit(c: PooledConn, now: int)
      reads c`valid, c`lastUsedAt
    {
      && c.valid
      && (maxLifetime > 0 ==> now <= c.createdAt + maxLifetime)
      && (maxIdleTime > 0 ==> now <= c.lastUsedAt + maxIdleTime)
    }

    lemma DestroysUnfit(c: PooledConn, now: int)
      ensures ShouldDestroy(c, now) <==> !Fit(c, now)
    {
    }

    /** The end of destroyConn. */
    method GiveSlot()
      requires taken > 0
      modifies this`taken, this`destroyed
      ensures taken == old(taken) - 1 && destroyed == old(destroyed) + 1
    {
      taken := taken - 1;
      destroyed := destroyed + 1;
    }

    /** Receives a stale idle connection and destroys it. */
    method DropFirst()
      requires Valid() && conns != []
      modifies this`conns, this`taken, this`destroyed
      ensures Valid() && conns == old(conns)[1..] && taken == old(taken) - 1 && destroyed == old(destroyed) + 1
      ensures |held| < maxSize
    {
      conns := conns[1..];
      GiveSlot();
    }

    /** Receives an idle connection and marks it as in use. */
    method ReviveFirst() returns (c: PooledConn)
      requires Valid() && conns != []
      modifies this`conns, this`held, conns`released, conns`useCount
      ensures Valid() && c == old(conns)[0] && conns == old(conns)[1..] && held == old(held) + {c}
      ensures c.useCount == old(conns[0].useCount) + 1
    {
      c := conns[0];
      conns := conns[1..];
      c.released := false;
      c.useCount := c.useCount + 1;
      held := held + {c};
    }

    /** How many connections at the front of `q` are stale, up to the first healthy one. */
    ghost function StaleFront(q: seq<PooledConn>, now: int): (n: nat)
      reads q
      ensures n <= |q|
    {
      if q == [] || Fit(q[0], now) then 0 else 1 + StaleFront(q[1..], now)
    }

    lemma {:induction false} StaleFrontMeaning(q: seq<PooledConn>, now: int)
      ensures forall i :: 0 <= i < StaleFront(q, now) ==> !Fit(q[i], now)
      ensures StaleFront(q, now) < |q| ==> Fit(q[StaleFront(q, now)], now)
    {
      if q != [] && !Fit(q[0], now) {
        StaleFrontMeaning(q[1..], now);
        forall i | 0 < i < StaleFront(q, now) ensures !Fit(q[i], now) {
          assert q[i] == q[1..][i - 1];
        }
      }
    }

    /** Destroys the stale connections at the front of the queue, then hands out the first healthy one,
        or a new one if there is a slot; it would block only when users hold all of them. */
    method Acquire(now: int, factory: bool) returns (o: Outcome)
      requires Valid()
      modifies this`conns, this`taken, this`destroyed, this`held, conns`released, conns`useCount
      ensures Valid()
      ensures var stale := old(StaleFront(conns, now));
              && destroyed == old(destroyed) + stale
              && if stale < |old(conns)|
                 then o == Acquired(old(conns)[stale]) && conns == old(conns)[stale + 1..] && taken == old(taken) - stale
                 else conns == []
                      && (o.Acquired? ==> fresh(o.conn) && factory && taken == old(taken) - stale + 1)
                      && (o.FactoryFailed? ==> !factory && taken == old(taken) - stale)
      ensures o.WouldBlock? <==> old(conns) == [] && |old(held)| == maxSize
      ensures o.Acquired? && o.conn in old(conns) ==> old(Fit(o.conn, now))
      ensures held == if o.Acquired? then old(held) + {o.conn} else old(held)
      decreases |conns|
    {
      hide Valid, ShouldDestroy, Fit;
      if conns == [] {
        o := Create(now, factory);
        return;
      }
      DestroysUnfit(conns[0], now);
      if ShouldDestroy(conns[0], now) {
        DropFirst();
        o := Acquire(now, factory);
      } else {
        var c := ReviveFirst();
        o := Acquired(c);
      }
    }

    /** The rest of Acquire when nothing is idle. */
    method Create(now: int, factory: bool) returns (o: Outcome)
      requires Valid() && conns == []
      modifies this`taken, this`held
      ensures Valid()
      ensures o.Acquired? ==> fresh(o.conn) && factory && taken == old(taken) + 1
      ensures o.FactoryFailed? ==> !factory && taken == old(taken)
      ensures o.WouldBlock? <==> |old(held)| == maxSize
      ensures held == if o.Acquired? then old(held) + {o.conn} else old(held)
    {
      if taken < maxSize {
        taken := taken + 1;
        if !factory {
          taken := taken - 1;
          return FactoryFailed;
        }
        var c := new PooledConn(now, 1, false);
        held := held + {c};
        return Acquired(c);
      }
      o := WouldBlock;
    }

    /** Returns a held connection, or destroys it; a second call does nothing. */
    method Release(c: PooledConn, now: int)
      requires Valid() && (c in held || c.released)
      modifies this`conns, this`taken, this`destroyed, this`held, c`released, c`lastUsedAt
      ensures Valid() && held == old(held) - {c}
      ensures old(c.released) ==> conns == old(conns) && taken == old(taken) && destroyed == old(destroyed)
      ensures !old(c.released) ==> c.lastUsedAt == now && (Fit(c, now) <==> c.valid && (maxLifetime > 0 ==> now <= c.createdAt + maxLifetime))
      ensures !old(c.released) && !Fit(c, now) ==>
                conns == old(conns) && taken == old(taken) - 1 && destroyed == old(destroyed) + 1
      ensures !old(c.released) && Fit(c, now) ==>
                conns == old(conns) + [c] && taken == old(taken) && destroyed == old(destroyed)
    {
      if c.released {
        return;
      }
      c.released := true;
      c.lastUsedAt := now;
      held := held - {c};
      DestroysUnfit(c, now);
      if ShouldDestroy(c, now) {
        GiveSlot();
        return;
      }
      DistinctAppend(conns, c);
      conns := conns + [c];
    }

    ghost function Healthy(q: seq<PooledConn>, now: int): (h: seq<PooledConn>)
      reads q
      ensures |h| <= |q|
    {
      if q == [] then []
      else if Fit(q[|q| - 1], now) then Healthy(q[..|q| - 1], now) + [q[|q| - 1]]
      else Healthy(q[..|q| - 1], now)
    }

    lemma {:induction false} HealthyPart(q: seq<PooledConn>, now: int)
      ensures forall c :: c in Healthy(q, now) <==> c in q && Fit(c, now)
    {
      if q != [] {
        HealthyPart(q[..|q| - 1], now);
      }
    }

    lemma {:induction false} HealthyDistinct(q: seq<PooledConn>, now: int)
      requires Distinct(q)
      ensures Distinct(Healthy(q, now))
    {
      if q != [] {
        var init, last := q[..|q| - 1], q[|q| - 1];
        DistinctInit(q);
        HealthyDistinct(init, now);
        if Fit(last, now) {
          HealthyPart(init, now);
          DistinctAppend(Healthy(init, now), last);
        }
      }
    }

    /** Keeps exactly the healthy idle connections, in their order. */
    method CleanupIdleConnections(now: int)
      requires Valid()
      modifies this`conns, this`taken, this`destroyed
      ensures Valid() && conns == Healthy(old(conns), now)
      ensures forall c :: c in conns <==> c in old(conns) && Fit(c, now)
      ensures old(taken) - taken == destroyed - old(destroyed) == |old(conns)| - |conns|
    {
      var toCheck := CollectIdle();
      HealthyDistinct(toCheck, now);
      PutBackHealthy(toCheck, now);
      HealthyPart(toCheck, now);
    }

    /** Takes all idle connections out. */
    method CollectIdle() returns (toCheck: seq<PooledConn>)
      modifies this`conns
      ensures conns == [] && toCheck == old(conns)
    {
      toCheck := [];
      while conns != []
        invariant toCheck + conns == old(conns)
      {
        toCheck := toCheck + [conns[0]];
        conns := conns[1..];
      }
    }

    method PutBackHealthy(toCheck: seq<PooledConn>, now: int)
      requires conns == [] && |toCheck| <= taken
      modifies this`conns, this`taken, this`destroyed
      ensures conns == Healthy(toCheck, now)
      ensures old(taken) - taken == destroyed - old(destroyed) == |toCheck| - |conns|
    {
      hide Fit, ShouldDestroy;
      for i := 0 to |toCheck|
        invariant conns == Healthy(toCheck[..i], now)
        invariant taken == old(taken) - (i - |conns|) && destroyed == old(destroyed) + (i - |conns|)
      {
        assert toCheck[..i + 1][..i] == toCheck[..i];
        DestroysUnfit(toCheck[i], now);
        if ShouldDestroy(toCheck[i], now) {
          GiveSlot();
        } else {
          conns := conns + [toCheck[i]];
        }
      }
      assert toCheck[..|toCheck|] == toCheck;
    }

    /** WarmUp: up to the minimum size, as long as there are slots and the factory delivers. */
    method WarmUp(now: int, factory: nat -> bool, done: nat -> bool) returns (made: nat, end: End)
      requires Valid()
      modifies this`conns, this`taken
      ensures Valid() && held == old(held)
      ensures taken == old(taken) + made && |conns| == |old(conns)| + made && old(conns) <= conns
      ensures forall i :: 0 <= i < made ==> factory(i) && !done(i)
      ensures EndsWith(end, made, minSize, factory, done)
    {
      made, end := Fill(now, factory, done, minSize);
    }

    /** EnsureMinConnections: the difference to the minimum size. */
    method EnsureMinConnections(now: int, factory: nat -> bool, done: nat -> bool) returns (made: nat, end: End)
      requires Valid()
      modifies this`conns, this`taken
      ensures Valid() && held == old(held)
      ensures taken == old(taken) + made && |conns| == |old(conns)| + made && old(conns) <= conns
      ensures forall i :: 0 <= i < made ==> factory(i) && !done(i)
      ensures EndsWith(end, made, minSize - old(taken), factory, done)
      ensures taken >= minSize <==> end.Complete?
      ensures made > 0 ==> taken <= minSize
    {
      var current := taken;
      if current >= minSize {
        return 0, Complete;
      }
      made, end := Fill(now, factory, done, minSize - current);
    }

    /** Why a loop for `needed` connections came to its end after `made` of them. */
    ghost predicate EndsWith(end: End, made: nat, needed: int, factory: nat -> bool, done: nat -> bool)
      reads this`taken
    {
      match end
      case Complete => made == if needed < 0 then 0 else needed
      case Cancelled => made < needed && done(made)
      case AtCapacity => made < needed && !done(made) && taken == maxSize
      case FactoryError => made < needed && !done(made) && taken < maxSize && !factory(made)
    }

    /** The loop of both. `done(i)` tells whether the i-th select takes the context's branch. */
    method Fill(now: int, factory: nat -> bool, done: nat -> bool, needed: int) returns (made: nat, end: End)
      requires Valid()
      modifies this`conns, this`taken
      ensures Valid() && held == old(held)
      ensures taken == old(taken) + made && |conns| == |old(conns)| + made && old(conns) <= conns
      ensures forall i :: 0 <= i < made ==> factory(i) && !done(i)
      ensures EndsWith(end, made, needed, factory, done)
    {
      made := 0;
      while made < needed
        invariant Valid() && held == old(held)
        invariant taken == old(taken) + made && |conns| == |old(conns)| + made && old(conns) <= conns
        invariant forall i :: 0 <= i < made ==> factory(i) && !done(i)
        invariant made == 0 || made <= needed
      {
        if done(made) {
          return made, Cancelled;
        }
        if taken >= maxSize {
          return made, AtCapacity;
        }
        taken := taken + 1;
        if !factory(made) {
          taken := taken - 1;
          return made, FactoryError;
        }
        var c := new PooledConn(now, 0, true);
        DistinctAppend(conns, c);
        conns := conns + [c];
        made := made + 1;
      }
      end := Complete;
    }
  }
}
