/** The restart sequence of Luby, Sinclair and Zuckerman (contrib/luby.c). */
module Luby {
  import opened Powers

  function Power(y: real, n: nat): real {
    if n == 0 then 1.0 else y * Power(y, n - 1)
  }

  lemma PowerOne(y: real)
    ensures Power(y, 1) == y
  {
    assert Power(y, 1) == y * Power(y, 0);
  }

  /** Exponents add up. */
  lemma {:induction false} PowerAdd(y: real, m: nat, n: nat)
    ensures Power(y, m + n) == Power(y, m) * Power(y, n)
  {
    if m > 0 {
      PowerAdd(y, m - 1, n);
      assert Power(y, m + n) == y * Power(y, m - 1 + n);
      assert Power(y, m) == y * Power(y, m - 1);
    }
  }

  /** With base two the powers are the whole numbers 2^n. */
  lemma {:induction false} PowerTwo(n: nat)
    ensures Power(2.0, n) == Pow2(n) as real
  {
    if n > 0 {
      PowerTwo(n - 1);
    }
  }

  /** A power is 1, or y times the one before: this determines Power. */
  lemma {:induction false} PowerUnique(y: real, f: nat -> real, n: nat)
    requires f(0) == 1.0 && forall m: nat :: f(m + 1) == f(m) * y
    ensures Power(y, n) == f(n)
  {
    if n > 0 {
      PowerUnique(y, f, n - 1);
      assert f(n - 1 + 1) == f(n - 1) * y;
    }
  }

  /**
   The i-th term of the sequence as a whole number, i = 1, 2, ...: 2^(k-1) if i = 2^k - 1, and the
   term number i - 2^(k-1) + 1 if 2^(k-1) <= i < 2^k - 1.
   */
  ghost function Term(i: nat): nat
    requires i > 0
  {
    var k := Digits(i);
    if i == Pow2(k) - 1 then Pow2(k - 1) else LargerPow(k, i); Term(i - Pow2(k - 1) + 1)
  }

  lemma {:induction false} TermIsPower(i: nat)
    requires i > 0
    ensures Term(i) == Pow2(Exponent(i))
  {
    var k := Digits(i);
    if i != Pow2(k) - 1 {
      LargerPow(k, i);
      TermIsPower(i - Pow2(k - 1) + 1);
    }
  }

  /** The number of binary digits. */
  ghost function Digits(i: nat): (k: nat)
    ensures i > 0 ==> k > 0 && Pow2(k - 1) <= i
    ensures i < Pow2(k)
  {
    if i == 0 then 0 else 1 + Digits(i / 2)
  }

  /**
   The exponent of the i-th term, i = 1, 2, ...: the term is 2^(k-1) if i = 2^k - 1, and
   the term number i - 2^(k-1) + 1 if 2^(k-1) <= i < 2^k - 1.
   */
  ghost function Exponent(i: nat): nat
    requires i > 0
  {
    var k := Digits(i);
    if i == Pow2(k) - 1 then k - 1 else LargerPow(k, i); Exponent(i - Pow2(k - 1) + 1)
  }

  lemma LargerPow(k: nat, i: nat)
    requires k > 0 && Pow2(k - 1) <= i < Pow2(k) - 1
    ensures Pow2(k - 1) > 1
  {
    assert Pow2(k) == 2 * Pow2(k - 1);
  }

  lemma {:induction false} Pow2Monotone(a: nat, b: nat)
    requires a <= b
    ensures Pow2(a) <= Pow2(b)
  {
    if a < b {
      Pow2Monotone(a, b - 1);
    }
  }

  lemma DigitsUnique(i: nat, k: nat)
    requires k > 0 && Pow2(k - 1) <= i < Pow2(k)
    ensures Digits(i) == k
  {
    var n := Digits(i);
    if n < k {
      Pow2Monotone(n, k - 1);
    } else if n > k {
      Pow2Monotone(k, n - 1);
    }
  }

  lemma {:induction false} ExponentLast(k: nat, i: nat)
    requires k > 0 && i == Pow2(k) - 1
    ensures i > 0 && Exponent(i) == k - 1
  {
    assert Pow2(k) == 2 * Pow2(k - 1);
    DigitsUnique(i, k);
  }

  lemma ExponentRepeats(k: nat, i: nat)
    requires k > 0 && Pow2(k - 1) <= i < Pow2(k) - 1
    ensures i - Pow2(k - 1) + 1 > 0 && Exponent(i) == Exponent(i - Pow2(k - 1) + 1)
  {
    DigitsUnique(i, k);
  }

  /** The first 2^k - 1 exponents: twice the block before, then k - 1. */
  ghost function Block(k: nat): (r: seq<nat>)
    ensures |r| == Pow2(k) - 1
  {
    if k == 0 then [] else Block(k - 1) + Block(k - 1) + [k - 1]
  }

  lemma BlockParts(k: nat, x: nat)
    requires k > 0 && x < Pow2(k) - 1
    ensures var half := Pow2(k - 1) - 1;
            Block(k)[x] == if x < half then Block(k - 1)[x] else if x < 2 * half then Block(k - 1)[x - half] else k - 1
  {
    var half := Pow2(k - 1) - 1;
    assert Block(k) == Block(k - 1) + Block(k - 1) + [k - 1] && Pow2(k) - 1 == 2 * half + 1;
  }

  lemma {:induction false} BlockIsExponents(k: nat, x: nat)
    requires x < Pow2(k) - 1
    ensures Block(k)[x] == Exponent(x + 1)
  {
    BlockParts(k, x);
    var half := Pow2(k - 1) - 1;
    assert Pow2(k) == 2 * Pow2(k - 1);
    if x < half {
      BlockIsExponents(k - 1, x);
    } else if x < 2 * half {
      BlockIsExponents(k - 1, x - half);
      ExponentRepeats(k, x + 1);
      assert x + 1 - Pow2(k - 1) + 1 == x - half + 1;
    } else {
      ExponentLast(k, x + 1);
    }
  }

  lemma Remainder(x: nat, n: nat)
    requires n > 0 && x < 2 * n
    ensures x % n == if x < n then x else x - n
  {
    if x >= n {
      assert x / n == 1;
    }
  }

  /** A position in a block that is not the last is a position in the block before. */
  lemma Reduce(k: nat, half: nat, x: nat)
    requires half == Pow2(k) - 1 && x < 2 * half
    ensures Exponent(x % half + 1) == Exponent(x + 1)
  {
    Remainder(x, half);
    if x >= half {
      ExponentRepeats(k + 1, x + 1);
      assert x + 1 - Pow2(k) + 1 == x % half + 1;
    }
  }

  /** The same in terms of the sizes of the blocks. */
  lemma ReduceSize(k: nat, size: nat, x: nat)
    requires size == Pow2(k + 1) - 1 && x < size - 1
    ensures k > 0 && (size - 1) / 2 == Pow2(k) - 1 > 0
    ensures x % ((size - 1) / 2) < (size - 1) / 2
    ensures Exponent(x % ((size - 1) / 2) + 1) == Exponent(x + 1)
  {
    var half := Pow2(k) - 1;
    assert size == 2 * half + 1 && (size - 1) / 2 == half;
    Reduce(k, half, x);
  }

  method Luby(y: real, x0: nat) returns (r: real, exponent: nat)
    ensures exponent == Exponent(x0 + 1) && r == Power(y, exponent)
    ensures forall k: nat :: x0 < Pow2(k) - 1 ==> exponent == Block(k)[x0]
    ensures y == 2.0 ==> r == Term(x0 + 1) as real
  {
    var x: nat, size: nat, sequence: nat := x0, 1, 0;
    while size < x + 1
      invariant size == Pow2(sequence + 1) - 1
      decreases x + 1 - size
    {
      sequence := sequence + 1;
      size := 2 * size + 1;
    }
    while size - 1 != x
      invariant size == Pow2(sequence + 1) - 1 && x < size && Exponent(x + 1) == Exponent(x0 + 1)
      decreases size
    {
      ReduceSize(sequence, size, x);
      size := (size - 1) / 2;
      sequence := sequence - 1;
      x := x % size;
    }
    ExponentLast(sequence + 1, x + 1);
    exponent := sequence;
    r := Power(y, exponent);
    PowerTwo(exponent);
    TermIsPower(x0 + 1);
    forall k: nat | x0 < Pow2(k) - 1 ensures exponent == Block(k)[x0] {
      BlockIsExponents(k, x0);
    }
  }
}
