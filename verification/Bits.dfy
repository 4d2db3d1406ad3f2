/** Bitwise operators as Python defines them for unbounded integers. */
module Bits {
  import opened Arith

  function Pow2(k: nat): (r: nat)
    ensures r > 0
  {
    if k == 0 then 1 else 2 * Pow2(k - 1)
  }

  function Or(a: nat, b: nat): nat
    decreases a + b
  {
    if a == 0 then b
    else if b == 0 then a
    else (if a % 2 == 1 || b % 2 == 1 then 1 else 0) + 2 * Or(a / 2, b / 2)
  }

  function And(a: nat, b: nat): nat
    decreases a
  {
    if a == 0 || b == 0 then 0
    else (if a % 2 == 1 && b % 2 == 1 then 1 else 0) + 2 * And(a / 2, b / 2)
  }

  /** Filling in bits above the ones in use is addition. */
  lemma {:induction false} OrAbove(x: nat, y: nat, s: nat)
    requires x < Pow2(s)
    ensures Or(x, y * Pow2(s)) == x + y * Pow2(s)
    decreases s
  {
    if s == 0 {
    } else {
      var half := y * Pow2(s - 1);
      assert y * Pow2(s) == 2 * half;
      OrAbove(x / 2, y, s - 1);
    }
  }

  /** Masking the low bits takes the remainder. */
  lemma {:induction false} AndMask(x: nat, s: nat)
    ensures And(x, Pow2(s) - 1) == x % Pow2(s)
    decreases s
  {
    if s > 0 {
      var j := s - 1;
      var h := Pow2(j);
      AndMask(x / 2, j);
      assert (Pow2(s) - 1) / 2 == h - 1;
      HalfMod(x, h);
    }
  }

  function Abs(x: int): nat {
    if x < 0 then -x else x
  }

  /** Bitwise or of numbers of any sign, in two's complement. */
  function OrSigned(x: int, y: int): int
    decreases Abs(x) + Abs(y)
  {
    if x == 0 then y
    else if y == 0 then x
    else if x == -1 || y == -1 then -1
    else (if x % 2 == 1 || y % 2 == 1 then 1 else 0) + 2 * OrSigned(x / 2, y / 2)
  }

  /** On natural numbers it is the or above. */
  lemma {:induction false} OrSignedIsOr(a: nat, b: nat)
    ensures OrSigned(a, b) == Or(a, b)
    decreases a + b
  {
    if a != 0 && b != 0 {
      OrSignedIsOr(a / 2, b / 2);
    }
  }

  /** Setting all bits from `k` on keeps the low bits and makes the number negative. */
  lemma {:induction false} OrHighBits(x: int, k: nat, p: int)
    requires p == Pow2(k)
    ensures OrSigned(x, -p) == x % p - p
    decreases k
  {
    if x == -1 {
      ModShift(x, -1, p);
    } else if x != 0 && k > 0 {
      var j := k - 1;
      var h: int := Pow2(j);
      assert p == 2 * h;
      OrHighBits(x / 2, j, h);
      assert -p / 2 == -h && -p % 2 == 0;
      OrEven(x, -p);
      HighStep(x, h, OrSigned(x / 2, -h));
    }
  }

  lemma HighStep(x: int, h: int, half: int)
    requires h > 0 && half == x / 2 % h - h
    ensures x % 2 + 2 * half == x % (2 * h) - 2 * h
  {
    HalfMod(x, h);
  }

  lemma OrEven(x: int, y: int)
    requires x != 0 && x != -1 && y != 0 && y % 2 == 0
    ensures OrSigned(x, y) == x % 2 + 2 * OrSigned(x / 2, y / 2)
  {
  }

  lemma HalfMod(x: int, h: int)
    requires h > 0
    ensures x % (2 * h) == 2 * (x / 2 % h) + x % 2
  {
    var q, r := x / 2 / h, x / 2 % h;
    assert x / 2 == q * h + r;
    assert x == q * (2 * h) + (2 * r + x % 2);
    ModShift(x, q, 2 * h);
  }

  lemma Pow2Parity(k: nat)
    ensures k > 0 ==> Pow2(k) % 2 == 0
  {
  }

  ghost predicate PowerOfTwo(n: nat) {
    exists k: nat :: n == Pow2(k)
  }

  lemma DoublePower(h: nat)
    ensures PowerOfTwo(h) ==> PowerOfTwo(2 * h)
  {
    if k: nat :| h == Pow2(k) {
      var j := k + 1;
      assert 2 * h == Pow2(j);
    }
  }

  lemma HalfPower(h: nat)
    requires h > 0
    ensures PowerOfTwo(2 * h) ==> PowerOfTwo(h)
  {
    if k: nat :| 2 * h == Pow2(k) {
      assert k > 0;
      var j := k - 1;
      assert h == Pow2(j);
    }
  }

  lemma OddPower(n: nat)
    requires n > 1 && n % 2 == 1
    ensures !PowerOfTwo(n)
  {
    forall k: nat ensures n != Pow2(k) {
      Pow2Parity(k);
    }
  }

  /** The classic test: exactly the powers of two share no bit with their predecessor. */
  lemma {:induction false} PowerOfTwoTest(n: nat)
    requires n > 0
    ensures And(n, n - 1) == 0 <==> PowerOfTwo(n)
    decreases n
  {
    if n == 1 {
      assert n == Pow2(0);
    } else if n % 2 == 1 {
      assert And(n, n - 1) == 2 * And(n / 2, (n - 1) / 2);
      AndSelf(n / 2);
      OddPower(n);
    } else {
      var h := n / 2;
      assert (n - 1) / 2 == h - 1;
      assert And(n, n - 1) == 2 * And(h, h - 1);
      PowerOfTwoTest(h);
      DoublePower(h);
      HalfPower(h);
    }
  }

  lemma {:induction false} AndSelf(n: nat)
    ensures And(n, n) == n
    decreases n
  {
    if n > 0 {
      AndSelf(n / 2);
    }
  }
}
