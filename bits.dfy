/**
 * Bitwise operations on non-negative integers, needed for the growth formula
 * `(n + g) & ~g` of the ring buffers. For non-negative `a` and `g`,
 * `a & ~g` keeps exactly the bits of `a` that are clear in `g`.
 */
module Bits {

  function Pow2(k: nat): (r: nat)
    ensures r >= 1
  {
    if k == 0 then 1 else 2 * Pow2(k - 1)
  }

  /** `a & b` */
  function And(a: nat, b: nat): nat
  {
    if a == 0 || b == 0 then 0
    else 2 * And(a / 2, b / 2) + (if a % 2 == 1 && b % 2 == 1 then 1 else 0)
  }

  /** `a & ~b` */
  function AndNot(a: nat, b: nat): nat
  {
    if a == 0 then 0
    else 2 * AndNot(a / 2, b / 2) + (if a % 2 == 1 && b % 2 == 0 then 1 else 0)
  }

  /** Every bit of `a` is either in `b` or in `~b`. */
  lemma {:induction false} AndPlusAndNot(a: nat, b: nat)
    ensures And(a, b) + AndNot(a, b) == a
  {
    if a != 0 {
      AndPlusAndNot(a / 2, b / 2);
      if b == 0 {
        AndNotZero(a);
      }
    }
  }

  lemma {:induction false} AndNotZero(a: nat)
    ensures AndNot(a, 0) == a
  {
    if a != 0 {
      AndNotZero(a / 2);
    }
  }

  /** `a & b` never exceeds `b`. */
  lemma {:induction false} AndAtMostRight(a: nat, b: nat)
    ensures And(a, b) <= b
  {
    if a != 0 && b != 0 {
      AndAtMostRight(a / 2, b / 2);
    }
  }

  /** Masking with `2^k - 1` keeps the remainder modulo `2^k`. */
  lemma {:induction false} AndLowMask(a: nat, k: nat)
    ensures And(a, Pow2(k) - 1) == a % Pow2(k)
  {
    if k == 0 {
    } else if a == 0 {
    } else {
      var m := Pow2(k - 1);
      assert Pow2(k) - 1 == 2 * (m - 1) + 1;
      assert (Pow2(k) - 1) / 2 == m - 1;
      assert (Pow2(k) - 1) % 2 == 1;
      AndLowMask(a / 2, k - 1);
      ModHalving(a, m);
    }
  }

  lemma ModHalving(a: nat, m: nat)
    requires m >= 1
    ensures a % (2 * m) == 2 * ((a / 2) % m) + a % 2
  {
    var q := a / 2;
    var t := q / m;
    var s := q % m;
    assert a == 2 * q + a % 2;
    assert q == m * t + s;
    assert a == (2 * m) * t + (2 * s + a % 2);
    ModUnique(a, 2 * m, t, 2 * s + a % 2);
  }

  lemma ModUnique(a: int, d: int, q: int, r: int)
    requires d > 0 && a == d * q + r && 0 <= r < d
    ensures a % d == r
  {
    var q0, r0 := a / d, a % d;
    assert a == d * q0 + r0;
    assert d * (q - q0) == r0 - r by {
      assert d * (q - q0) == d * q - d * q0;
    }
    if q > q0 {
      MulAtLeast(d, q - q0);
    } else if q < q0 {
      MulAtLeast(d, q0 - q);
    }
  }

  lemma MulAtLeast(d: int, k: int)
    requires d > 0 && k >= 1
    ensures d * k >= d
  {
    assert d * k == d * (k - 1) + d;
    assert d * (k - 1) >= 0;
  }
}
