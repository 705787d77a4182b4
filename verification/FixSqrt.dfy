/** The bit-by-bit square root of the fixed-point helpers. */
module FixSqrt {
  import opened Bits

  /** Before the step for bit k - 1: q is the root so far, a multiple of Pow2(k); the rest of
      it is below Pow2(k); r and v are the program's variables. */
  ghost predicate PartialRoot(x: nat, k: nat, q: nat, r: nat, v: nat) {
    && q % Pow2(k) == 0 && q * q <= x < (q + Pow2(k)) * (q + Pow2(k))
    && r == q * Pow2(k) && v == x - q * q && q + Pow2(k) <= 0x1_0000
  }

  /** r and v belong to some root so far. */
  ghost predicate Partial(x: nat, k: nat, r: nat, v: nat) { exists q: nat :: PartialRoot(x, k, q, r, v) }

  lemma SquareOfSum(q: int, p: int)
    ensures (q + p) * (q + p) == q * q + (2 * (q * p) + p * p)
  {
  }

  lemma Products(q: nat, p: nat)
    ensures q * (2 * p) == 2 * (q * p) && (q + p) * p == q * p + p * p
  {
  }

  lemma StepNumbers(x: nat, k: nat, q: nat, r: nat, v: nat)
    requires PartialRoot(x, k + 1, q, r, v)
    ensures var p := Pow2(k);
            && Pow2(2 * k) == p * p && r == 2 * (q * p) && v == x - q * q && q * q <= x
            && q % (2 * p) == 0 && x < (q + 2 * p) * (q + 2 * p) && q + 2 * p <= 0x1_0000
            && (q + p) * (q + p) == q * q + (r + p * p)
  {
    var p := Pow2(k);
    Pow2Add(k, k);
    Products(q, p);
    SquareOfSum(q, p);
  }

  lemma Multiple(q: nat, p: nat)
    requires p > 0 && q % (2 * p) == 0
    ensures q % p == 0 && (q + p) % p == 0
  {
    var m := q / (2 * p);
    assert q == m * (2 * p) + 0;
    TwiceMultiple(m, p);
    DivModUnique(q, p, 2 * m, 0);
    DivModUnique(q + p, p, 2 * m + 1, 0);
  }

  lemma TwiceMultiple(m: int, p: int)
    ensures m * (2 * p) == 2 * m * p && (2 * m + 1) * p == 2 * m * p + p
  {
  }

  /** The bit that a step sets is still clear. */
  lemma BitIsClear(q: nat, p: nat)
    requires p > 0 && q % (2 * p) == 0
    ensures p * p > 0 && (q * p) % (2 * (p * p)) == 0
  {
    var m := q / (2 * p);
    MulPositive(p, p);
    assert q == m * (2 * p) + 0;
    Regroup(m, p);
    DivModUnique(q * p, 2 * (p * p), m, 0);
  }

  lemma MulPositive(a: nat, b: nat)
    requires a > 0 && b > 0
    ensures a * b > 0
  {
  }

  lemma Regroup(m: int, p: int)
    ensures m * (2 * p) * p == m * (2 * (p * p))
  {
    assert m * (2 * p) * p == m * ((2 * p) * p);
    assert (2 * p) * p == 2 * (p * p);
  }

  /** STEP(k) */
  method Step(ghost x: nat, k: nat, r0: nat, v0: nat) returns (r: nat, v: nat)
    requires Partial(x, k + 1, r0, v0) && x < 0x1_0000_0000
    ensures Partial(x, k, r, v)
  {
    ghost var q0: nat :| PartialRoot(x, k + 1, q0, r0, v0);
    hide *;
    StepNumbers(x, k, q0, r0, v0);
    ghost var p, q := Pow2(k), q0;
    Pow2Positive(k);
    var s := r0 + Pow2(2 * k);
    SquaresGrow(q0 + p, 0xFFFF);
    assert s < 0x1_0000_0000;
    r, v := r0 / 2, v0;
    Multiple(q0, p);
    BitIsClear(q0, p);
    Products(q0, p);
    if s <= v {
      v := v - s;
      assert r % (2 * Pow2(2 * k)) == 0;
      r := r + Pow2(2 * k);
      q := q0 + p;
    }
    IsPartial(x, k, q, r, v);
  }

  lemma Pow2Positive(k: nat)
    ensures Pow2(k) > 0
  {
  }

  lemma IsPartial(x: nat, k: nat, q: nat, r: nat, v: nat)
    requires q % Pow2(k) == 0 && q * q <= x && r == q * Pow2(k) && v == x - q * q && q + Pow2(k) <= 0x1_0000
    requires x < (q + Pow2(k)) * (q + Pow2(k))
    ensures Partial(x, k, r, v)
  {
    assert PartialRoot(x, k, q, r, v);
  }

  lemma AtFirst(x: nat)
    requires x < 0x1_0000_0000
    ensures Partial(x, 16, 0, x)
  {
    Pow2Values();
    assert PartialRoot(x, 16, 0, 0, x);
  }

  lemma AtLast(x: nat, r: nat, v: nat)
    requires Partial(x, 0, r, v)
    ensures r * r <= x < (r + 1) * (r + 1) && r <= 0xFFFF
  {
  }

  /** fixsqrt32: the integer square root, scaled by half the precision of 16 bits. */
  method FixSqrt32(x: int) returns (y: int)
    requires 0 <= x < 0x8000_0000
    ensures exists r: nat :: y == r * 0x100 && r * r <= x < (r + 1) * (r + 1)
    ensures y < 0x8000_0000
  {
    hide *;
    var r: nat, v: nat := 0, x;
    AtFirst(x);
    r, v := Step(x, 15, r, v);
    r, v := Step(x, 14, r, v);
    r, v := Step(x, 13, r, v);
    r, v := Step(x, 12, r, v);
    r, v := Step(x, 11, r, v);
    r, v := Step(x, 10, r, v);
    r, v := Step(x, 9, r, v);
    r, v := Step(x, 8, r, v);
    r, v := Step(x, 7, r, v);
    r, v := Step(x, 6, r, v);
    r, v := Step(x, 5, r, v);
    r, v := Step(x, 4, r, v);
    r, v := Step(x, 3, r, v);
    r, v := Step(x, 2, r, v);
    r, v := Step(x, 1, r, v);
    r, v := Step(x, 0, r, v);
    AtLast(x, r, v);
    return r * 0x100;
  }

  /** There is only one such root: the result is determined. */
  lemma RootIsUnique(x: nat, a: nat, b: nat)
    requires a * a <= x < (a + 1) * (a + 1) && b * b <= x < (b + 1) * (b + 1)
    ensures a == b
  {
    if a < b {
      SquaresGrow(a + 1, b);
    } else if b < a {
      SquaresGrow(b + 1, a);
    }
  }

  lemma SquaresGrow(a: nat, b: nat)
    requires a <= b
    ensures a * a <= b * b
  {
    assert a * a <= a * b;
    assert a * b <= b * b;
  }
}
