/** Bit operations on unbounded two's-complement integers, as Python's `int` has them. */
module Bits {

  function Pow2(k: nat): (p: nat)
    ensures p >= 1
  {
    if k == 0 then 1 else 2 * Pow2(k - 1)
  }

  /** Distance of `a` from the nearer of 0 and -1, the two values that halving leaves alone. */
  function Size(a: int): nat {
    if a >= 0 then a else -a - 1
  }

  predicate IsSign(a: int) {
    a == 0 || a == -1
  }

  function BitOr(a: int, b: int): int
    decreases Size(a) + Size(b)
  {
    if IsSign(a) && IsSign(b) then
      if a == -1 || b == -1 then -1 else 0
    else
      2 * BitOr(a / 2, b / 2) + if a % 2 == 1 || b % 2 == 1 then 1 else 0
  }

  function BitAnd(a: int, b: int): int
    decreases Size(a) + Size(b)
  {
    if IsSign(a) && IsSign(b) then
      if a == -1 && b == -1 then -1 else 0
    else
      2 * BitAnd(a / 2, b / 2) + if a % 2 == 1 && b % 2 == 1 then 1 else 0
  }

  function ShiftLeft(a: int, k: nat): int {
    a * Pow2(k)
  }

  function ShiftRight(a: int, k: nat): int {
    a / Pow2(k)
  }

  lemma DivModUnique(a: int, m: int, q: int, r: int)
    requires a == q * m + r && 0 <= r < m
    ensures a / m == q && a % m == r
  {
    var gap := a / m - q;
    assert gap * m == r - a % m;
    assert gap >= 1 ==> gap * m >= m;
    assert gap <= -1 ==> gap * m <= -m;
  }

  /** Halving commutes with a division by a power of two; one lemma for quotient and remainder. */
  lemma HalveThenDivide(a: int, p: nat)
    requires p >= 1
    ensures a / (2 * p) == (a / 2) / p
    ensures a % (2 * p) == 2 * ((a / 2) % p) + a % 2
  {
    var q, r := (a / 2) / p, (a / 2) % p;
    assert a == q * (2 * p) + (2 * r + a % 2);
    DivModUnique(a, 2 * p, q, 2 * r + a % 2);
  }

  lemma ShiftLeftStep(a: int, k: nat)
    requires k >= 1
    ensures ShiftLeft(a, k) == 2 * ShiftLeft(a, k - 1)
  {
  }

  lemma ShiftRightStep(a: int, k: nat)
    requires k >= 1
    ensures ShiftRight(a, k) == ShiftRight(a / 2, k - 1)
  {
    HalveThenDivide(a, Pow2(k - 1));
  }

  lemma {:induction false} OrZero(a: int)
    ensures BitOr(a, 0) == a
    decreases Size(a)
  {
    if !IsSign(a) {
      OrZero(a / 2);
    }
  }

  lemma {:induction false} AndZero(a: int)
    ensures BitAnd(a, 0) == 0
    decreases Size(a)
  {
    if !IsSign(a) {
      AndZero(a / 2);
    }
  }

  /** Combining a shifted field with a lower field that fits below it is addition. */
  lemma {:induction false} OrDisjoint(hi: int, k: nat, lo: int)
    requires 0 <= lo < Pow2(k)
    ensures BitOr(ShiftLeft(hi, k), lo) == ShiftLeft(hi, k) + lo
    decreases k
  {
    if k == 0 {
      OrZero(hi);
    } else {
      var half := ShiftLeft(hi, k - 1);
      assert ShiftLeft(hi, k) == 2 * half;
      OrDisjoint(hi, k - 1, lo / 2);
    }
  }

  lemma AndOdd(a: int, h: nat)
    ensures BitAnd(a, 2 * h + 1) == 2 * BitAnd(a / 2, h) + a % 2
  {
    assert (2 * h + 1) / 2 == h && (2 * h + 1) % 2 == 1;
  }

  /** Masking with k one bits keeps the remainder modulo 2^k. */
  lemma {:induction false} AndMask(a: int, k: nat)
    ensures BitAnd(a, Pow2(k) - 1) == a % Pow2(k)
    decreases k
  {
    if k == 0 {
      AndZero(a);
    } else {
      var p := Pow2(k - 1);
      AndMask(a / 2, k - 1);
      AndOdd(a, p - 1);
      HalveThenDivide(a, p);
    }
  }

  /** Masking with n one bits placed k bits up keeps that field, in place. */
  lemma {:induction false} AndShiftedMask(a: int, n: nat, k: nat)
    ensures BitAnd(a, ShiftLeft(Pow2(n) - 1, k)) == ShiftLeft(ShiftRight(a, k) % Pow2(n), k)
    decreases k
  {
    if k == 0 {
      AndMask(a, n);
    } else {
      ShiftRightStep(a, k);
      ShiftLeftStep(Pow2(n) - 1, k);
      ShiftLeftStep(ShiftRight(a, k) % Pow2(n), k);
      AndShiftedMask(a / 2, n, k - 1);
    }
  }
}
