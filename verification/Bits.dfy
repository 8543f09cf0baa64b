// Powers of two and the integer logarithm the kernel computes with shifts.
module Bits {

  function Pow2(n: nat): (r: nat)
    ensures r >= 1
  {
    if n == 0 then 1 else 2 * Pow2(n - 1)
  }

  /** The number of times a positive x can be halved before it reaches 1. */
  function FloorLog2(x: nat): nat
    requires x >= 1
  {
    if x == 1 then 0 else 1 + FloorLog2(x / 2)
  }

  predicate IsPow2(x: nat) {
    x >= 1 && Pow2(FloorLog2(x)) == x
  }

  /** What the kernel's log2 returns: the floor, plus one when x is odd. */
  function KernelLog2(x: nat): nat {
    (if x % 2 == 1 then 1 else 0) + (if x == 0 then 0 else FloorLog2(x))
  }

  method Log2(x: nat) returns (result: nat)
    ensures result == KernelLog2(x)
  {
    result := 0;
    if x % 2 != 0 {
      result := result + 1;
    }
    var y: nat := x / 2;
    while y != 0
      invariant y != 0 ==> result + 1 + FloorLog2(y) == KernelLog2(x)
      invariant y == 0 ==> result == KernelLog2(x)
    {
      result := result + 1;
      y := y / 2;
    }
  }

  /** x shifted right k times. */
  function ShiftRight(x: nat, k: nat): nat
    decreases k
  {
    if k == 0 then x else ShiftRight(x / 2, k - 1)
  }

  /** unit * 2^n. */
  function Scaled(unit: nat, n: nat): (r: nat)
    ensures unit >= 1 ==> r >= 1
  {
    if n == 0 then unit else 2 * Scaled(unit, n - 1)
  }

  lemma {:induction false} ScaledProduct(unit: nat, n: nat)
    ensures Scaled(unit, n) == unit * Pow2(n)
  {
    if n > 0 {
      ScaledProduct(unit, n - 1);
    }
  }

  lemma {:induction false} ShiftScaled(unit: nat, n: nat, k: nat)
    requires k <= n
    ensures ShiftRight(Scaled(unit, n), k) == Scaled(unit, n - k)
    decreases k
  {
    if k > 0 {
      ShiftScaled(unit, n - 1, k - 1);
    }
  }

  lemma {:induction false} FloorLog2Bounds(x: nat)
    requires x >= 1
    ensures Pow2(FloorLog2(x)) <= x < 2 * Pow2(FloorLog2(x))
  {
    if x > 1 {
      FloorLog2Bounds(x / 2);
    }
  }

  lemma {:induction false} Pow2Monotone(a: nat, b: nat)
    ensures a <= b ==> Pow2(a) <= Pow2(b)
    ensures a < b ==> Pow2(a) < Pow2(b)
  {
    if a < b {
      Pow2Monotone(a, b - 1);
    }
  }

  lemma {:induction false} Pow2Add(a: nat, b: nat)
    ensures Pow2(a + b) == Pow2(a) * Pow2(b)
  {
    if a > 0 {
      Pow2Add(a - 1, b);
    }
  }

  /** The floor logarithm is the only exponent whose power brackets x. */
  lemma FloorLog2Unique(x: nat, e: nat)
    requires Pow2(e) <= x < 2 * Pow2(e)
    ensures FloorLog2(x) == e
  {
    FloorLog2Bounds(x);
    Pow2Monotone(e + 1, FloorLog2(x));
    Pow2Monotone(FloorLog2(x) + 1, e);
  }

  lemma FloorLog2Pow2(e: nat)
    ensures FloorLog2(Pow2(e)) == e
  {
    FloorLog2Unique(Pow2(e), e);
  }
}
