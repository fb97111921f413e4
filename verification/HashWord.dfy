/**
 Symbolic words as bit-vector expressions (examples/hashsmt/word.cpp).  The value of
 an expression is a sequence of bits, the least significant one first.
 */
module HashWord {
  import opened Powers

  type Bits = seq<bool>

  // ---------- bits ----------

  function Zeros(n: nat): (r: Bits)
    ensures |r| == n && forall i :: 0 <= i < n ==> !r[i]
  {
    seq(n, _ => false)
  }

  /** The low `width` bits of a number. */
  function ToBits(v: nat, width: nat): (r: Bits)
    ensures |r| == width
  {
    if width == 0 then [] else [v % 2 == 1] + ToBits(v / 2, width - 1)
  }

  ghost function Val(b: Bits): nat {
    if b == [] then 0 else (if b[0] then 1 else 0) + 2 * Val(b[1..])
  }

  lemma {:induction false} ValToBits(v: nat, width: nat)
    ensures v < Pow2(width) ==> Val(ToBits(v, width)) == v
  {
    if width > 0 {
      ValToBits(v / 2, width - 1);
    }
  }

  lemma ProductNotNegative(a: nat, b: nat)
    ensures a * b >= 0
  {
  }

  lemma SmallerMultiple(d: int, q: int, r: int, p: int, s: int)
    requires 0 <= r < d && 0 <= s < d && q * d + r == p * d + s
    ensures q >= p
  {
    if q < p {
      ProductNotNegative(p - q - 1, d);
    }
  }

  lemma DivModUnique(v: nat, d: nat, q: nat, r: nat)
    requires d > 0 && r < d && v == q * d + r
    ensures v / d == q && v % d == r
  {
    var p, s := v / d, v % d;
    assert p * d + s == v;
    SmallerMultiple(d, q, r, p, s);
    SmallerMultiple(d, p, s, q, r);
  }

  /** A number of one bit more loses its highest bit. */
  lemma {:induction false} ValToBitsWrapped(v: nat, width: nat)
    requires v < 2 * Pow2(width)
    ensures Val(ToBits(v, width)) == if v < Pow2(width) then v else v - Pow2(width)
  {
    if width > 0 {
      ValToBitsWrapped(v / 2, width - 1);
    }
  }

  lemma {:induction false} ValBounded(b: Bits)
    ensures Val(b) < Pow2(|b|)
  {
    if b != [] {
      ValBounded(b[1..]);
    }
  }

  lemma ProductTwice(v: nat, p: nat)
    ensures v * (2 * p) == 2 * (v * p)
  {
  }

  lemma {:induction false} ValConcat(a: Bits, b: Bits)
    ensures Val(a + b) == Val(b) * Pow2(|a|) + Val(a)
  {
    if a == [] {
      assert a + b == b;
    } else {
      var low := a[1..];
      assert (a + b)[0] == a[0] && (a + b)[1..] == low + b;
      ValConcat(low, b);
      var bit := if a[0] then 1 else 0;
      assert Val(a + b) == bit + 2 * Val(low + b) && Val(a) == bit + 2 * Val(low);
      assert Pow2(|a|) == 2 * Pow2(|low|);
      ProductTwice(Val(b), Pow2(|low|));
    }
  }

  lemma {:induction false} ToBitsZero(width: nat)
    ensures ToBits(0, width) == Zeros(width)
  {
    if width > 0 {
      ToBitsZero(width - 1);
    }
  }

  ghost function BitNot(a: Bits): (r: Bits)
    ensures |r| == |a| && forall i :: 0 <= i < |r| ==> r[i] == !a[i]
  {
    seq(|a|, i requires 0 <= i < |a| => !a[i])
  }

  ghost function BitAnd(a: Bits, b: Bits): (r: Bits)
    requires |a| == |b|
    ensures |r| == |a| && forall i :: 0 <= i < |r| ==> r[i] == (a[i] && b[i])
  {
    seq(|a|, i requires 0 <= i < |a| => a[i] && b[i])
  }

  ghost function BitOr(a: Bits, b: Bits): (r: Bits)
    requires |a| == |b|
    ensures |r| == |a| && forall i :: 0 <= i < |r| ==> r[i] == (a[i] || b[i])
  {
    seq(|a|, i requires 0 <= i < |a| => a[i] || b[i])
  }

  ghost function BitXor(a: Bits, b: Bits): (r: Bits)
    requires |a| == |b|
    ensures |r| == |a| && forall i :: 0 <= i < |r| ==> r[i] == (a[i] != b[i])
  {
    seq(|a|, i requires 0 <= i < |a| => a[i] != b[i])
  }

  /** Addition modulo 2^width. */
  ghost function BitAdd(a: Bits, b: Bits): (r: Bits)
    requires |a| == |b|
    ensures |r| == |a|
  {
    ToBits(Val(a) + Val(b), |a|)
  }

  /** The sum of the numbers, without the carry out of the highest bit. */
  lemma {:induction false} BitAddValue(a: Bits, b: Bits)
    requires |a| == |b|
    ensures var sum := Val(a) + Val(b);
            Val(BitAdd(a, b)) == if sum < Pow2(|a|) then sum else sum - Pow2(|a|)
  {
    ValBounded(a);
    ValBounded(b);
    ValToBitsWrapped(Val(a) + Val(b), |a|);
  }

  /** Logical shift to the right. */
  ghost function ShiftRight(a: Bits, n: nat): (r: Bits)
    ensures |r| == |a|
  {
    if n <= |a| then a[n..] + Zeros(n) else Zeros(|a|)
  }

  // ---------- expressions ----------

  datatype Expr =
    | Const(value: nat, width: nat)
    | Var(name: string, varWidth: nat)
    | ZeroExtend(count: nat, arg: Expr)
    | Extract(high: nat, low: nat, arg: Expr)
    | Concat(left: Expr, right: Expr)
    | Plus(left: Expr, right: Expr)
    | Not(arg: Expr)
    | And(left: Expr, right: Expr)
    | Or(left: Expr, right: Expr)
    | Xor(left: Expr, right: Expr)
    | Lshr(left: Expr, right: Expr)
  {
    /** Word::size */
    function Size(): nat {
      match this
      case Const(_, w) => w
      case Var(_, w) => w
      case ZeroExtend(n, e) => e.Size() + n
      case Extract(h, l, _) => if h >= l then h - l + 1 else 0
      case Concat(a, b) => a.Size() + b.Size()
      case Plus(a, _) => a.Size()
      case Not(e) => e.Size()
      case And(a, _) => a.Size()
      case Or(a, _) => a.Size()
      case Xor(a, _) => a.Size()
      case Lshr(a, _) => a.Size()
    }

    /** The expression manager accepts the expression: sizes are positive and fit. */
    ghost predicate Typed() {
      match this
      case Const(_, w) => w > 0
      case Var(_, w) => w > 0
      case ZeroExtend(_, e) => e.Typed()
      case Extract(h, l, e) => e.Typed() && l <= h < e.Size()
      case Concat(a, b) => a.Typed() && b.Typed()
      case Plus(a, b) => a.Typed() && b.Typed() && a.Size() == b.Size()
      case Not(e) => e.Typed()
      case And(a, b) => a.Typed() && b.Typed() && a.Size() == b.Size()
      case Or(a, b) => a.Typed() && b.Typed() && a.Size() == b.Size()
      case Xor(a, b) => a.Typed() && b.Typed() && a.Size() == b.Size()
      case Lshr(a, b) => a.Typed() && b.Typed() && a.Size() == b.Size()
    }

    /** The value of the expression under values of the variables. */
    ghost function Denote(env: string -> nat): (r: Bits)
      requires Typed()
      ensures |r| == Size() > 0
    {
      match this
      case Const(v, w) => ToBits(v, w)
      case Var(x, w) => ToBits(env(x), w)
      case ZeroExtend(n, e) => e.Denote(env) + Zeros(n)
      case Extract(h, l, e) => e.Denote(env)[l..h + 1]
      case Concat(a, b) => b.Denote(env) + a.Denote(env)
      case Plus(a, b) => BitAdd(a.Denote(env), b.Denote(env))
      case Not(e) => BitNot(e.Denote(env))
      case And(a, b) => BitAnd(a.Denote(env), b.Denote(env))
      case Or(a, b) => BitOr(a.Denote(env), b.Denote(env))
      case Xor(a, b) => BitXor(a.Denote(env), b.Denote(env))
      case Lshr(a, b) => ShiftRight(a.Denote(env), Val(b.Denote(env)))
    }
  }

  // ---------- the operators of Word ----------

  function Max(a: nat, b: nat): nat {
    if a < b then b else a
  }

  function ExtendToSize(e: Expr, newSize: nat): (r: Expr)
    ensures r.Size() == Max(e.Size(), newSize)
    ensures e.Typed() ==> r.Typed()
    ensures e.Typed() ==> forall env {:trigger r.Denote(env)} :: r.Denote(env) == Extended(e.Denote(env), r.Size())
  {
    if newSize <= e.Size() then e else ZeroExtend(newSize - e.Size(), e)
  }

  /** The bits with zeros added at the high end. */
  ghost function Extended(b: Bits, size: nat): (r: Bits)
    ensures |r| == Max(|b|, size)
  {
    if size <= |b| then b else b + Zeros(size - |b|)
  }

  function Add(a: Expr, b: Expr): Expr {
    var n := Max(a.Size(), b.Size());
    Plus(ExtendToSize(a, n), ExtendToSize(b, n))
  }

  function BitwiseAnd(a: Expr, b: Expr): Expr {
    var n := Max(a.Size(), b.Size());
    And(ExtendToSize(a, n), ExtendToSize(b, n))
  }

  function BitwiseOr(a: Expr, b: Expr): Expr {
    var n := Max(a.Size(), b.Size());
    Or(ExtendToSize(a, n), ExtendToSize(b, n))
  }

  function BitwiseXor(a: Expr, b: Expr): Expr {
    var n := Max(a.Size(), b.Size());
    Xor(ExtendToSize(a, n), ExtendToSize(b, n))
  }

  /** operator<<: instead of shifting, zeros are added, so the word gets wider. */
  function ShiftLeft(e: Expr, amount: nat): Expr {
    Concat(e, Const(0, amount))
  }

  /** operator>> */
  function ShiftRightBy(e: Expr, amount: nat): Expr {
    Lshr(e, Const(amount, e.Size()))
  }

  /** The conversions to cvc4_uint32 and cvc4_uchar8: extend or cut to the size. */
  function Convert(e: Expr, size: nat): (r: Expr)
    requires size > 0
    ensures r.Size() == size && (e.Typed() ==> r.Typed())
    ensures e.Typed() ==> forall env {:trigger r.Denote(env)} :: r.Denote(env) == Extended(e.Denote(env), size)[..size]
  {
    if e.Size() > size then Extract(size - 1, 0, e)
    else if e.Size() < size then ZeroExtend(size - e.Size(), e)
    else e
  }

  /** sha1.hpp: left_rotate */
  function LeftRotate(x: Expr, n: nat): Expr
    requires n <= 32
  {
    Convert(BitwiseXor(ShiftLeft(x, n), ShiftRightBy(x, 32 - n)), 32)
  }

  /** ROTL of FIPS 180-4, section 2.2.2, on bits: the n high bits become the low ones. */
  ghost function Rotl(n: nat, x: Bits): (r: Bits)
    requires n <= |x|
    ensures |r| == |x|
  {
    x[|x| - n..] + x[..|x| - n]
  }

  /** The high n bits of the number come to the low end, and the others are moved up by n. */
  lemma {:induction false} RotlValue(n: nat, x: Bits)
    requires n <= |x|
    ensures Val(Rotl(n, x)) == (Val(x) % Pow2(|x| - n)) * Pow2(n) + Val(x) / Pow2(|x| - n)
  {
    var low, high := x[..|x| - n], x[|x| - n..];
    assert x == low + high && Rotl(n, x) == high + low;
    ValConcat(low, high);
    ValConcat(high, low);
    ValBounded(low);
    DivModUnique(Val(x), Pow2(|low|), Val(high), Val(low));
  }

  /** The binary operators extend the shorter word with zeros. */
  lemma BinaryDenotes(a: Expr, b: Expr, env: string -> nat)
    requires a.Typed() && b.Typed()
    ensures var n := Max(a.Size(), b.Size());
            && Add(a, b).Typed() && BitwiseAnd(a, b).Typed() && BitwiseOr(a, b).Typed() && BitwiseXor(a, b).Typed()
            && Add(a, b).Size() == BitwiseAnd(a, b).Size() == BitwiseOr(a, b).Size() == BitwiseXor(a, b).Size() == n
            && Add(a, b).Denote(env) == BitAdd(Extended(a.Denote(env), n), Extended(b.Denote(env), n))
            && BitwiseAnd(a, b).Denote(env) == BitAnd(Extended(a.Denote(env), n), Extended(b.Denote(env), n))
            && BitwiseOr(a, b).Denote(env) == BitOr(Extended(a.Denote(env), n), Extended(b.Denote(env), n))
            && BitwiseXor(a, b).Denote(env) == BitXor(Extended(a.Denote(env), n), Extended(b.Denote(env), n))
  {
    var n := Max(a.Size(), b.Size());
    assert ExtendToSize(a, n).Denote(env) == Extended(a.Denote(env), n);
    assert ExtendToSize(b, n).Denote(env) == Extended(b.Denote(env), n);
  }

  lemma XorDenotes(a: Expr, b: Expr, env: string -> nat)
    requires a.Typed() && b.Typed()
    ensures var n := Max(a.Size(), b.Size());
            && BitwiseXor(a, b).Typed() && BitwiseXor(a, b).Size() == n
            && BitwiseXor(a, b).Denote(env) == BitXor(Extended(a.Denote(env), n), Extended(b.Denote(env), n))
  {
    BinaryDenotes(a, b, env);
  }

  lemma ShiftLeftDenotes(e: Expr, amount: nat, env: string -> nat)
    requires e.Typed() && amount > 0
    ensures ShiftLeft(e, amount).Typed() && ShiftLeft(e, amount).Size() == e.Size() + amount
    ensures ShiftLeft(e, amount).Denote(env) == Zeros(amount) + e.Denote(env)
  {
    ToBitsZero(amount);
    var zero := Const(0, amount);
    assert zero.Denote(env) == ToBits(0, amount);
  }

  lemma ShiftRightDenotes(e: Expr, amount: nat, env: string -> nat)
    requires e.Typed() && amount < Pow2(e.Size())
    ensures ShiftRightBy(e, amount).Typed()
    ensures ShiftRightBy(e, amount).Denote(env) == ShiftRight(e.Denote(env), amount)
  {
    ValToBits(amount, e.Size());
    assert e.Denote(env) == e.Denote(env);
  }

  lemma RotlBits(b: Bits, n: nat)
    requires n <= |b|
    ensures BitXor(Zeros(n) + b, ShiftRight(b, |b| - n) + Zeros(n))[..|b|] == Rotl(n, b)
  {
  }

  lemma {:induction false} Pow2Above(n: nat)
    ensures Pow2(n) > n
  {
    if n > 0 {
      Pow2Above(n - 1);
    }
  }

  /** The two shifted words, put together. */
  lemma RotateHalves(x: Expr, n: nat, env: string -> nat)
    requires x.Typed() && 0 < n < x.Size()
    ensures var w := x.Size();
            var both := BitwiseXor(ShiftLeft(x, n), ShiftRightBy(x, w - n));
            both.Typed() && both.Size() == w + n && both.Denote(env)[..w] == Rotl(n, x.Denote(env))
  {
    var w := x.Size();
    Pow2Above(w);
    ShiftLeftDenotes(x, n, env);
    ShiftRightDenotes(x, w - n, env);
    XorDenotes(ShiftLeft(x, n), ShiftRightBy(x, w - n), env);
    RotlBits(x.Denote(env), n);
  }

  /** Over words that widen when shifted, left_rotate is ROTL. */
  lemma LeftRotateIsRotl(x: Expr, n: nat, env: string -> nat)
    requires x.Typed() && x.Size() == 32 && 0 < n < 32
    ensures LeftRotate(x, n).Typed() && LeftRotate(x, n).Size() == 32
    ensures LeftRotate(x, n).Denote(env) == Rotl(n, x.Denote(env))
  {
    RotateHalves(x, n, env);
    var both := BitwiseXor(ShiftLeft(x, n), ShiftRightBy(x, 32 - n));
    assert Convert(both, 32).Denote(env) == Extended(both.Denote(env), 32)[..32];
  }
}
