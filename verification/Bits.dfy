/** Bits of natural numbers, and the bit-smearing round-up to a power of two. */
module Bits {
  import opened Common

  function Pow2(k: nat): (p: nat)
    ensures p > k
  {
    if k == 0 then 1 else 2 * Pow2(k - 1)
  }

  /** `x >> s` */
  function Shift(x: nat, s: nat): nat {
    if s == 0 then x else Shift(x / 2, s - 1)
  }

  /** `a | b` */
  function Or(a: nat, b: nat): nat
    decreases a + b
  {
    if a == 0 && b == 0 then 0
    else 2 * Or(a / 2, b / 2) + (if a % 2 == 1 || b % 2 == 1 then 1 else 0)
  }

  /** `a & b` */
  function And(a: nat, b: nat): nat {
    if a == 0 then 0
    else 2 * And(a / 2, b / 2) + (if a % 2 == 1 && b % 2 == 1 then 1 else 0)
  }

  predicate Bit(x: nat, j: nat) {
    if j == 0 then x % 2 == 1 else Bit(x / 2, j - 1)
  }

  lemma {:induction false} BitShift(x: nat, s: nat, j: nat)
    ensures Bit(Shift(x, s), j) <==> Bit(x, j + s)
  {
    if s > 0 {
      BitShift(x / 2, s - 1, j);
    }
  }

  lemma {:induction false} BitOr(a: nat, b: nat, j: nat)
    ensures Bit(Or(a, b), j) <==> Bit(a, j) || Bit(b, j)
  {
    if a == 0 && b == 0 {
      BitZero(j);
    } else if j > 0 {
      BitOr(a / 2, b / 2, j - 1);
    }
  }

  lemma {:induction false} BitZero(j: nat)
    ensures !Bit(0, j)
  {
    if j > 0 {
      BitZero(j - 1);
    }
  }

  /** Only numbers from 2^j on have bit j. */
  lemma {:induction false} BitBound(x: nat, j: nat)
    requires Bit(x, j)
    ensures x >= Pow2(j)
  {
    if j > 0 {
      BitBound(x / 2, j - 1);
    }
  }

  /** Numbers with the same bits are equal. */
  lemma {:induction false} SameBits(a: nat, b: nat)
    requires forall j: nat :: Bit(a, j) <==> Bit(b, j)
    ensures a == b
    decreases a + b
  {
    if a > 0 || b > 0 {
      assert Bit(a, 0) <==> Bit(b, 0);
      forall j: nat ensures Bit(a / 2, j) <==> Bit(b / 2, j) {
        assert Bit(a, j + 1) <==> Bit(b, j + 1);
      }
      SameBits(a / 2, b / 2);
    }
  }

  /** All ones below place k. */
  lemma {:induction false} BitOnes(k: nat, j: nat)
    ensures Bit(Pow2(k) - 1, j) <==> j < k
  {
    if k == 0 {
      BitZero(j);
    } else if j > 0 {
      assert (Pow2(k) - 1) / 2 == Pow2(k - 1) - 1;
      BitOnes(k - 1, j - 1);
    }
  }

  /** Masking with 2^k - 1 is the remainder modulo 2^k. */
  lemma {:induction false} AndMask(h: nat, p: nat, k: nat)
    requires p == Pow2(k)
    ensures And(h, p - 1) == h % p
  {
    if k == 0 {
      AndZero(h);
    } else if h > 0 {
      var half := Pow2(k - 1);
      AndMask(h / 2, half, k - 1);
      AndStep(h, half);
      HalfMod(h, half);
    } else {
      RemainderUnique(0, p, 0, 0);
    }
  }

  lemma AndStep(h: nat, p: nat)
    requires h > 0 && p > 0
    ensures And(h, 2 * p - 1) == 2 * And(h / 2, p - 1) + h % 2
  {
    assert (2 * p - 1) / 2 == p - 1;
  }

  lemma {:induction false} AndZero(h: nat)
    ensures And(h, 0) == 0
  {
    if h > 0 {
      AndZero(h / 2);
    }
  }

  lemma HalfMod(h: nat, p: nat)
    requires p > 0
    ensures h % (2 * p) == 2 * (h / 2 % p) + h % 2
  {
    var q, r := h / 2 / p, h / 2 % p;
    assert h / 2 == p * q + r;
    assert (2 * p) * q == 2 * (p * q);
    RemainderUnique(h, 2 * p, q, 2 * r + h % 2);
  }

  /** Whatever the mask, the masked hash does not exceed it. */
  lemma {:induction false} AndBound(h: nat, mask: nat)
    ensures And(h, mask) <= mask
  {
    if h > 0 {
      AndBound(h / 2, mask / 2);
    }
  }

  // ---------- Rounding up to a power of two ----------

  /** Some bit of `m` is set among the `w` places from `j` on. */
  ghost predicate Nearby(m: nat, j: nat, w: nat) {
    exists i: nat :: j <= i < j + w && Bit(m, i)
  }

  /** The bits of `r` are those of `m`, each smeared over the `w` places from its own downwards. */
  ghost predicate Smeared(m: nat, r: nat, w: nat) {
    forall j: nat :: Bit(r, j) <==> Nearby(m, j, w)
  }

  lemma SmearStart(m: nat)
    ensures Smeared(m, m, 1)
  {
    forall j: nat ensures Bit(m, j) <==> Nearby(m, j, 1) {
    }
  }

  lemma SmearStep(m: nat, r: nat, w: nat)
    requires Smeared(m, r, w)
    ensures Smeared(m, Or(r, Shift(r, w)), 2 * w)
  {
    forall j: nat ensures Bit(Or(r, Shift(r, w)), j) <==> Nearby(m, j, 2 * w) {
      BitOr(r, Shift(r, w), j);
      BitShift(r, w, j);
      assert Bit(r, j) <==> Nearby(m, j, w);
      assert Bit(r, j + w) <==> Nearby(m, j + w, w);
      if Nearby(m, j, 2 * w) {
        var i: nat :| j <= i < j + 2 * w && Bit(m, i);
        assert i < j + w || j + w <= i < j + w + w;
      }
    }
  }

  /** A number with fewer bits is not larger. */
  lemma {:induction false} FewerBits(a: nat, b: nat)
    requires forall j: nat :: Bit(a, j) ==> Bit(b, j)
    ensures a <= b
  {
    if a > 0 {
      assert Bit(a, 0) ==> Bit(b, 0);
      forall j: nat ensures Bit(a / 2, j) ==> Bit(b / 2, j) {
        assert Bit(a, j + 1) ==> Bit(b, j + 1);
      }
      FewerBits(a / 2, b / 2);
    }
  }

  lemma SmearGrows(m: nat, r: nat, w: nat)
    requires Smeared(m, r, w) && w > 0
    ensures m <= r
  {
    forall j: nat ensures Bit(m, j) ==> Bit(r, j) {
      assert Bit(r, j) <==> Nearby(m, j, w);
    }
    FewerBits(m, r);
  }

  /** `t` is the place of the leading one of `m`. */
  ghost predicate Leading(m: nat, t: nat) {
    Pow2(t) <= m < Pow2(t + 1)
  }

  lemma {:induction false} LeadingOne(m: nat) returns (t: nat)
    requires m > 0
    ensures Leading(m, t)
  {
    if m == 1 {
      t := 0;
    } else {
      t := LeadingOne(m / 2);
      t := t + 1;
    }
  }

  lemma {:induction false} LeadingBits(m: nat, t: nat, j: nat)
    requires Leading(m, t) && t <= j
    ensures Bit(m, j) <==> j == t
  {
    if j == 0 {
      assert m == 1;
    } else if t == 0 {
      assert m / 2 == 0;
      BitZero(j - 1);
    } else {
      LeadingBits(m / 2, t - 1, j - 1);
    }
  }

  lemma {:induction false} Pow2Monotone(a: nat, b: nat)
    requires a < b
    ensures 2 * Pow2(a) <= Pow2(b)
  {
    if a < b - 1 {
      Pow2Monotone(a, b - 1);
    }
  }

  /** The least power of two that is not smaller than `n`. */
  ghost predicate IsRoundedUp(n: int, p: int) {
    && (exists k: nat :: p == Pow2(k))
    && n <= p
    && forall k: nat :: n <= Pow2(k) ==> p <= Pow2(k)
  }

  /** Below the leading one of `m` there are never 32 zeros in a row. */
  ghost predicate NoLongGap(m: nat) {
    forall j: nat :: Pow2(j) <= m ==> Nearby(m, j, 32)
  }

  lemma NearbyAbove(m: nat, t: nat, j: nat)
    requires Leading(m, t) && t <= j
    ensures Nearby(m, j, 32) <==> j == t
  {
    LeadingBits(m, t, j);
    if Nearby(m, j, 32) {
      var i: nat :| j <= i < j + 32 && Bit(m, i);
      LeadingBits(m, t, i);
    }
  }

  /** What is smeared over 32 places has the same leading one, and is all ones just when there was no gap. */
  lemma SmearedOnes(m: nat, r: nat, t: nat)
    requires Smeared(m, r, 32) && Leading(m, t)
    ensures Leading(r, t)
    ensures NoLongGap(m) <==> r == Pow2(t + 1) - 1
  {
    forall j: nat | t <= j ensures Bit(r, j) <==> j == t {
      NearbyAbove(m, t, j);
    }
    LeadingFromBits(r, t);
    if NoLongGap(m) {
      forall j: nat ensures Bit(r, j) <==> Bit(Pow2(t + 1) - 1, j) {
        BitOnes(t + 1, j);
        if j < t {
          Pow2Monotone(j, t);
          assert Bit(r, j) <==> Nearby(m, j, 32);
        }
      }
      SameBits(r, Pow2(t + 1) - 1);
    }
    if r == Pow2(t + 1) - 1 {
      forall j: nat | Pow2(j) <= m ensures Nearby(m, j, 32) {
        if j > t {
          if j > t + 1 {
            Pow2Monotone(t + 1, j);
          }
          assert false;
        }
        BitOnes(t + 1, j);
        assert Bit(r, j) <==> Nearby(m, j, 32);
      }
    }
  }

  lemma LeadingFromBits(r: nat, t: nat)
    requires forall j: nat :: t <= j ==> (Bit(r, j) <==> j == t)
    ensures Leading(r, t)
  {
    BitBound(r, t);
    var u := LeadingOne(r);
    LeadingBits(r, u, u);
    if u < t {
      LeadingBits(r, u, t);
    }
  }

  /** The power of two above a leading one at `t` is the rounded-up value of everything in between. */
  lemma RoundedUpAt(n: int, t: nat)
    requires Pow2(t) < n <= Pow2(t + 1)
    ensures IsRoundedUp(n, Pow2(t + 1))
  {
    forall k: nat | n <= Pow2(k) ensures Pow2(t + 1) <= Pow2(k) {
      if k < t {
        Pow2Monotone(k, t);
      } else if k > t + 1 {
        Pow2Monotone(t + 1, k);
      }
    }
  }

  /** Next to a number whose leading one is at `t`, only 2^(t + 1) can be a power of two. */
  lemma PowersDiffer(r: int, t: nat, k: nat)
    requires Pow2(t) <= r < Pow2(t + 1) && r + 1 == Pow2(k)
    ensures r + 1 == Pow2(t + 1)
  {
    if k < t {
      Pow2Monotone(k, t);
    } else if k > t + 1 {
      Pow2Monotone(t + 1, k);
    }
  }

  /** n + 1 in two's complement. */
  function Increment(n: int): int {
    if n == MAX_INT then -MAX_INT - 1 else n + 1
  }

  lemma NoGapBelow32(m: nat)
    requires 0 < m < Pow2(32)
    ensures NoLongGap(m)
  {
    var t := LeadingOne(m);
    LeadingBits(m, t, t);
    if t > 31 {
      Pow2Monotone(31, t);
      assert false;
    }
    forall j: nat | Pow2(j) <= m ensures Nearby(m, j, 32) {
      if j > t + 1 {
        Pow2Monotone(t + 1, j);
      }
      assert j <= t < j + 32 && Bit(m, t);
    }
  }

  method NextPowerOf2(n: int) returns (p: int)
    requires n <= MAX_INT
    ensures n <= Pow2(32) ==> IsRoundedUp(if n < 1 then 1 else n, p)
    ensures n > 1 ==> (IsRoundedUp(n, p) <==> n <= Pow2(62) && NoLongGap(n - 1))
    ensures n <= Pow2(62) ==> p >= n && p >= 1
    ensures n == Pow2(32) + 1 ==> p == Pow2(33) - 1
  {
    hide Or, Shift, Pow2, Smeared, IsRoundedUp, NoLongGap;
    if n <= 1 {
      SmallestPower();
      return 1;
    }
    var m: nat := n - 1;
    SmearStart(m);
    SmearStep(m, m, 1);
    m := Or(m, Shift(m, 1));
    SmearStep(n - 1, m, 2);
    m := Or(m, Shift(m, 2));
    SmearStep(n - 1, m, 4);
    m := Or(m, Shift(m, 4));
    SmearStep(n - 1, m, 8);
    m := Or(m, Shift(m, 8));
    SmearStep(n - 1, m, 16);
    m := Or(m, Shift(m, 16));
    RoundsUp(n, m);
    if n == Pow2(32) + 1 {
      FailsAboveTwoTo32(m);
    }
    return Increment(m);
  }

  lemma {:induction false} BitPow(k: nat, j: nat)
    ensures Bit(Pow2(k), j) <==> j == k
  {
    if k == 0 {
      if j > 0 {
        BitZero(j - 1);
      }
    } else if j > 0 {
      BitPow(k - 1, j - 1);
    }
  }

  /** The first failure: 2^32 + 1 is rounded to 2^33 - 1, for the leading one of 2^32 does not reach the last bit. */
  lemma FailsAboveTwoTo32(r: nat)
    requires Smeared(Pow2(32), r, 32)
    ensures Increment(r) == Pow2(33) - 1 && !NoLongGap(Pow2(32))
  {
    var ones := Pow2(32) - 1;
    forall j: nat ensures Bit(r, j) <==> Bit(2 * ones, j) {
      assert Bit(r, j) <==> Nearby(Pow2(32), j, 32);
      forall i: nat ensures Bit(Pow2(32), i) <==> i == 32 {
        BitPow(32, i);
      }
      assert j > 0 && j <= 32 ==> Nearby(Pow2(32), j, 32) by { assert Bit(Pow2(32), 32); }
      if j > 0 {
        BitOnes(32, j - 1);
      }
    }
    SameBits(r, 2 * ones);
    Places();
    assert !Bit(r, 0) && Pow2(0) == 1;
    assert Bit(r, 0) <==> Nearby(Pow2(32), 0, 32);
  }

  lemma SmallestPower()
    ensures IsRoundedUp(1, 1)
  {
    assert Pow2(0) == 1;
  }

  lemma Places()
    ensures Pow2(32) == 0x1_0000_0000
    ensures Pow2(62) == 0x4000_0000_0000_0000 && Pow2(63) == MAX_INT + 1
  {
    assert Pow2(8) == 0x100;
    assert Pow2(16) == 0x1_0000;
    assert Pow2(24) == 0x100_0000;
    assert Pow2(32) == 0x1_0000_0000;
    assert Pow2(40) == 0x100_0000_0000;
    assert Pow2(48) == 0x1_0000_0000_0000;
    assert Pow2(56) == 0x100_0000_0000_0000;
  }

  lemma RoundsUp(n: int, r: nat)
    requires 1 < n <= MAX_INT && Smeared(n - 1, r, 32)
    ensures n <= Pow2(32) ==> IsRoundedUp(n, Increment(r))
    ensures IsRoundedUp(n, Increment(r)) <==> n <= Pow2(62) && NoLongGap(n - 1)
    ensures n <= Pow2(62) ==> Increment(r) >= n
  {
    Places();
    var t := LeadingOne(n - 1);
    SmearedOnes(n - 1, r, t);
    SmearGrows(n - 1, r, 32);
    if n <= Pow2(62) {
      RoundsUpInRange(n, r, t);
    } else {
      RoundsUpTooFar(n, r, t);
    }
  }

  /** Up to 2^62 nothing wraps around. */
  lemma RoundsUpInRange(n: int, r: nat, t: nat)
    requires 1 < n <= Pow2(62) && Leading(n - 1, t) && Leading(r, t) && n - 1 <= r
    requires NoLongGap(n - 1) <==> r == Pow2(t + 1) - 1
    ensures n <= Pow2(32) ==> IsRoundedUp(n, Increment(r))
    ensures IsRoundedUp(n, Increment(r)) <==> NoLongGap(n - 1)
    ensures Increment(r) >= n
  {
    Places();
    LeadingBelow(n - 1, t, 62);
    RoundedUpAt(n, t);
    if n <= Pow2(32) {
      NoGapBelow32(n - 1);
    }
    if IsRoundedUp(n, Increment(r)) {
      assert Increment(r) == Pow2(t + 1);
    }
  }

  lemma LeadingBelow(m: nat, t: nat, k: nat)
    requires Leading(m, t) && m < Pow2(k)
    ensures t < k && Pow2(t + 1) <= Pow2(k)
  {
    if t > k {
      Pow2Monotone(k, t);
    } else if t + 1 < k {
      Pow2Monotone(t + 1, k);
    }
  }

  /** Above 2^62 the next power of two is not an int. */
  lemma RoundsUpTooFar(n: int, r: nat, t: nat)
    requires Pow2(62) < n <= MAX_INT && Leading(n - 1, t) && Leading(r, t)
    ensures !IsRoundedUp(n, Increment(r))
  {
    Places();
    LeadingBelow(n - 1, t, 63);
    if t < 62 {
      Pow2Monotone(t + 1, 63);
      LeadingMeets(n - 1, t);
    }
    if exists k: nat :: Increment(r) == Pow2(k) {
      var k: nat :| Increment(r) == Pow2(k);
      PowersDiffer(r, t, k);
    }
  }

  lemma LeadingMeets(m: nat, t: nat)
    requires t < 62 && m < Pow2(t + 1)
    ensures m < Pow2(62)
  {
    if t + 1 < 62 {
      Pow2Monotone(t + 1, 62);
    }
  }
}
