/**
 The symbolic SHA-1 encoder (examples/hashsmt/sha1.hpp): it computes with words that
 are expressions, and so builds the expressions of the digest.  `env` stands for any
 values of the variables in the message.
 */
module Sha1 {
  import opened Powers
  import opened HashWord
  import opened Fips180

  ghost predicate IsWord(e: Expr, size: nat) {
    e.Typed() && e.Size() == size
  }

  /** Operators on words of 32 bits change no sizes. */
  lemma Words32(a: Expr, b: Expr, env: string -> nat)
    requires IsWord(a, 32) && IsWord(b, 32)
    ensures IsWord(Add(a, b), 32) && IsWord(BitwiseAnd(a, b), 32) && IsWord(BitwiseOr(a, b), 32)
            && IsWord(BitwiseXor(a, b), 32)
    ensures Add(a, b).Denote(env) == BitAdd(a.Denote(env), b.Denote(env))
    ensures BitwiseAnd(a, b).Denote(env) == BitAnd(a.Denote(env), b.Denote(env))
    ensures BitwiseOr(a, b).Denote(env) == BitOr(a.Denote(env), b.Denote(env))
    ensures BitwiseXor(a, b).Denote(env) == BitXor(a.Denote(env), b.Denote(env))
  {
    BinaryDenotes(a, b, env);
  }

  // ---------- the words of the message ----------

  function MessageWord(b0: Expr, b1: Expr, b2: Expr, b3: Expr): Expr {
    var w := Convert(ShiftLeft(b0, 24), 32);
    var w1 := BitwiseOr(w, ShiftLeft(b1, 16));
    var w2 := BitwiseOr(w1, ShiftLeft(b2, 8));
    BitwiseOr(w2, b3)
  }

  /** Adding a word of fewer bits with |. */
  lemma OrShorter(w: Expr, b: Expr, env: string -> nat)
    requires IsWord(w, 32) && b.Typed() && b.Size() <= 32
    ensures IsWord(BitwiseOr(w, b), 32)
    ensures BitwiseOr(w, b).Denote(env) == BitOr(w.Denote(env), Extended(b.Denote(env), 32))
  {
    BinaryDenotes(w, b, env);
  }

  /** The bytes meet no others when they are put together. */
  lemma Assembled(b0: Bits, b1: Bits, b2: Bits, b3: Bits)
    requires |b0| == |b1| == |b2| == |b3| == 8
    ensures BitOr(BitOr(BitOr(Zeros(24) + b0, Extended(Zeros(16) + b1, 32)), Extended(Zeros(8) + b2, 32)),
            Extended(b3, 32))
            == b3 + b2 + b1 + b0
  {
    var x0, x1 := Zeros(24) + b0, Extended(Zeros(16) + b1, 32);
    assert BitOr(x0, x1) == Zeros(16) + b1 + b0;
    var x2 := Extended(Zeros(8) + b2, 32);
    assert BitOr(Zeros(16) + b1 + b0, x2) == Zeros(8) + b2 + b1 + b0;
    assert BitOr(Zeros(8) + b2 + b1 + b0, Extended(b3, 32)) == b3 + b2 + b1 + b0;
  }

  lemma MessageWordDenotes(b0: Expr, b1: Expr, b2: Expr, b3: Expr, env: string -> nat)
    requires IsWord(b0, 8) && IsWord(b1, 8) && IsWord(b2, 8) && IsWord(b3, 8)
    ensures IsWord(MessageWord(b0, b1, b2, b3), 32)
    ensures MessageWord(b0, b1, b2, b3).Denote(env) == b3.Denote(env) + b2.Denote(env) + b1.Denote(env) + b0.Denote(env)
  {
    ShiftLeftDenotes(b0, 24, env);
    ShiftLeftDenotes(b1, 16, env);
    ShiftLeftDenotes(b2, 8, env);
    var w := Convert(ShiftLeft(b0, 24), 32);
    assert w == ShiftLeft(b0, 24);
    OrShorter(w, ShiftLeft(b1, 16), env);
    var w1 := BitwiseOr(w, ShiftLeft(b1, 16));
    OrShorter(w1, ShiftLeft(b2, 8), env);
    OrShorter(BitwiseOr(w1, ShiftLeft(b2, 8)), b3, env);
    Assembled(b0.Denote(env), b1.Denote(env), b2.Denote(env), b3.Denote(env));
  }

  // ---------- a round ----------

  datatype Regs = Regs(a: Expr, b: Expr, c: Expr, d: Expr, e: Expr) {
    ghost predicate Ok() {
      IsWord(a, 32) && IsWord(b, 32) && IsWord(c, 32) && IsWord(d, 32) && IsWord(e, 32)
    }

    ghost function Values(env: string -> nat): (r: State)
      requires Ok()
      ensures r.Ok()
    {
      State(a.Denote(env), b.Denote(env), c.Denote(env), d.Denote(env), e.Denote(env))
    }
  }

  function RoundFunction(i: nat, b: Expr, c: Expr, d: Expr): Expr {
    if i < 20 then BitwiseOr(BitwiseAnd(b, c), BitwiseAnd(Not(b), d))
    else if i < 40 then BitwiseXor(BitwiseXor(b, c), d)
    else if i < 60 then BitwiseOr(BitwiseOr(BitwiseAnd(b, c), BitwiseAnd(b, d)), BitwiseAnd(c, d))
    else BitwiseXor(BitwiseXor(b, c), d)
  }

  function RoundConstant(i: nat): Expr {
    Const(if i < 20 then 0x5A827999 else if i < 40 then 0x6ED9EBA1 else if i < 60 then 0x8F1BBCDC else 0xCA62C1D6, 32)
  }

  lemma ChDenotes(b: Expr, c: Expr, d: Expr, env: string -> nat)
    requires IsWord(b, 32) && IsWord(c, 32) && IsWord(d, 32)
    ensures var f := BitwiseOr(BitwiseAnd(b, c), BitwiseAnd(Not(b), d));
            IsWord(f, 32) && f.Denote(env) == Ch(b.Denote(env), c.Denote(env), d.Denote(env))
  {
    Words32(b, c, env);
    Words32(Not(b), d, env);
    Words32(BitwiseAnd(b, c), BitwiseAnd(Not(b), d), env);
    OrForms(b.Denote(env), c.Denote(env), d.Denote(env));
  }

  lemma ParityDenotes(b: Expr, c: Expr, d: Expr, env: string -> nat)
    requires IsWord(b, 32) && IsWord(c, 32) && IsWord(d, 32)
    ensures var f := BitwiseXor(BitwiseXor(b, c), d);
            IsWord(f, 32) && f.Denote(env) == Parity(b.Denote(env), c.Denote(env), d.Denote(env))
  {
    Words32(b, c, env);
    Words32(BitwiseXor(b, c), d, env);
  }

  lemma MajDenotes(b: Expr, c: Expr, d: Expr, env: string -> nat)
    requires IsWord(b, 32) && IsWord(c, 32) && IsWord(d, 32)
    ensures var f := BitwiseOr(BitwiseOr(BitwiseAnd(b, c), BitwiseAnd(b, d)), BitwiseAnd(c, d));
            IsWord(f, 32) && f.Denote(env) == Maj(b.Denote(env), c.Denote(env), d.Denote(env))
  {
    Words32(b, c, env);
    Words32(b, d, env);
    Words32(c, d, env);
    Words32(BitwiseAnd(b, c), BitwiseAnd(b, d), env);
    Words32(BitwiseOr(BitwiseAnd(b, c), BitwiseAnd(b, d)), BitwiseAnd(c, d), env);
    OrForms(b.Denote(env), c.Denote(env), d.Denote(env));
  }

  lemma RoundFunctionDenotes(i: nat, b: Expr, c: Expr, d: Expr, env: string -> nat)
    requires IsWord(b, 32) && IsWord(c, 32) && IsWord(d, 32)
    ensures IsWord(RoundFunction(i, b, c, d), 32)
    ensures RoundFunction(i, b, c, d).Denote(env) == F(i, b.Denote(env), c.Denote(env), d.Denote(env))
  {
    if i < 20 {
      ChDenotes(b, c, d, env);
    } else if 40 <= i < 60 {
      MajDenotes(b, c, d, env);
    } else {
      ParityDenotes(b, c, d, env);
    }
  }

  function NextRegs(r: Regs, i: nat, w: Expr): Regs {
    var temp := Add(Add(Add(Add(LeftRotate(r.a, 5), RoundFunction(i, r.b, r.c, r.d)), r.e), RoundConstant(i)), w);
    Regs(temp, r.a, LeftRotate(r.b, 30), r.c, r.d)
  }

  /** One turn of the loop builds the expressions of one round. */
  lemma NextRegsDenotes(r: Regs, i: nat, w: Expr, env: string -> nat)
    requires r.Ok() && IsWord(w, 32)
    ensures NextRegs(r, i, w).Ok()
    ensures NextRegs(r, i, w).Values(env) == Round(r.Values(env), i, w.Denote(env))
  {
    LeftRotateIsRotl(r.a, 5, env);
    LeftRotateIsRotl(r.b, 30, env);
    RoundFunctionDenotes(i, r.b, r.c, r.d, env);
    var k := RoundConstant(i);
    assert k.Denote(env) == K(i);
    var s1 := Add(LeftRotate(r.a, 5), RoundFunction(i, r.b, r.c, r.d));
    Words32(LeftRotate(r.a, 5), RoundFunction(i, r.b, r.c, r.d), env);
    Words32(s1, r.e, env);
    Words32(Add(s1, r.e), k, env);
    Words32(Add(Add(s1, r.e), k), w, env);
  }

  function ScheduleWord(w3: Expr, w8: Expr, w14: Expr, w16: Expr): Expr {
    LeftRotate(BitwiseXor(BitwiseXor(BitwiseXor(w3, w8), w14), w16), 1)
  }

  lemma ScheduleWordDenotes(w3: Expr, w8: Expr, w14: Expr, w16: Expr, env: string -> nat)
    requires IsWord(w3, 32) && IsWord(w8, 32) && IsWord(w14, 32) && IsWord(w16, 32)
    ensures IsWord(ScheduleWord(w3, w8, w14, w16), 32)
    ensures ScheduleWord(w3, w8, w14, w16).Denote(env) ==
            Rotl(1, BitXor(BitXor(BitXor(w3.Denote(env), w8.Denote(env)), w14.Denote(env)), w16.Denote(env)))
  {
    Words32(w3, w8, env);
    Words32(BitwiseXor(w3, w8), w14, env);
    var x := BitwiseXor(BitwiseXor(w3, w8), w14);
    Words32(x, w16, env);
    LeftRotateIsRotl(BitwiseXor(x, w16), 1, env);
  }

  // ---------- messages and their padding ----------

  ghost predicate IsMessage(es: seq<Expr>) {
    forall i :: 0 <= i < |es| ==> IsWord(es[i], 8)
  }

  ghost function Bytes(es: seq<Expr>, env: string -> nat): (r: seq<Bits>)
    requires IsMessage(es)
    ensures |r| == |es| && IsBytes(r) && forall i :: 0 <= i < |r| ==> r[i] == es[i].Denote(env)
  {
    seq(|es|, i requires 0 <= i < |es| => es[i].Denote(env))
  }

  /** The eight bytes that get_digest appends for the length: the low 32 bits only. */
  function LengthBytes(bitCount: nat): (r: seq<Expr>)
    ensures |r| == 8 && IsMessage(r)
  {
    [Const(0, 8), Const(0, 8), Const(0, 8), Const(0, 8),
     Const(bitCount / 0x1000000 % 256, 8), Const(bitCount / 0x10000 % 256, 8), Const(bitCount / 0x100 % 256, 8),
     Const(bitCount % 256, 8)]
  }

  /** All that get_digest appends, with k zero bytes after the first. */
  ghost function Padding(n: nat, k: nat): (r: seq<Expr>)
    ensures IsMessage(r) && |r| == 1 + k + 8
  {
    [Const(0x80, 8)] + ZeroBytes(k) + LengthBytes(n * 8)
  }

  ghost function ZeroBytes(k: nat): (r: seq<Expr>)
    ensures |r| == k && IsMessage(r) && forall i :: 0 <= i < k ==> r[i] == Const(0, 8)
  {
    seq(k, _ => Const(0, 8))
  }

  lemma {:induction false} ToBitsPeriodic(v: nat, width: nat, q: nat)
    ensures ToBits(v + Pow2(width) * q, width) == ToBits(v, width)
  {
    if width > 0 {
      var m := Pow2(width - 1) * q;
      assert Pow2(width) * q == 2 * m;
      assert (v + 2 * m) % 2 == v % 2 && (v + 2 * m) / 2 == v / 2 + m;
      ToBitsPeriodic(v / 2, width - 1, q);
    }
  }

  /** A byte is the low eight bits. */
  lemma LowByte(v: nat)
    ensures ToBits(v % 256, 8) == ToBits(v, 8)
  {
    assert Pow2(8) == 256;
    ToBitsPeriodic(v % 256, 8, v / 256);
  }

  ghost predicate AllZero(s: seq<Bits>) {
    forall i :: 0 <= i < |s| ==> s[i] == ToBits(0, 8)
  }

  lemma ZeroByte(v: nat)
    ensures ToBits(v, 8) == ToBits(0, 8) <==> v % 256 == 0
  {
    assert Pow2(8) == 256;
    LowByte(v);
    ValToBits(v % 256, 8);
    ValToBits(0, 8);
  }

  lemma {:induction false} BigEndianZero(v: nat, count: nat)
    requires v < Pow2(8 * count)
    ensures AllZero(BigEndian(v, count)) <==> v == 0
  {
    if count > 0 {
      var front := BigEndian(v / 256, count - 1);
      Pow2Split(8 * (count - 1));
      assert 8 * (count - 1) + 8 == 8 * count;
      BigEndianZero(v / 256, count - 1);
      ZeroByte(v);
      AllZeroSnoc(front, ToBits(v, 8));
    }
  }

  lemma AllZeroSnoc(s: seq<Bits>, b: Bits)
    ensures AllZero(s + [b]) <==> AllZero(s) && b == ToBits(0, 8)
  {
    var r := s + [b];
    assert r[|s|] == b && forall i :: 0 <= i < |s| ==> r[i] == s[i];
  }

  lemma Pow2Split(n: nat)
    ensures Pow2(n + 8) == 256 * Pow2(n)
  {
    assert Pow2(n + 8) == 2 * Pow2(n + 7) && Pow2(n + 7) == 2 * Pow2(n + 6) && Pow2(n + 6) == 2 * Pow2(n + 5);
    assert Pow2(n + 5) == 2 * Pow2(n + 4) && Pow2(n + 4) == 2 * Pow2(n + 3) && Pow2(n + 3) == 2 * Pow2(n + 2);
    assert Pow2(n + 2) == 2 * Pow2(n + 1) && Pow2(n + 1) == 2 * Pow2(n);
  }

  /** The length field is right exactly for lengths below 2^32 bits. */
  lemma LengthExact(bits: nat, env: string -> nat)
    requires bits < Pow2(64)
    ensures Bytes(LengthBytes(bits), env) == BigEndian(bits, 8) <==> bits < 0x1_0000_0000
  {
    var code, std := Bytes(LengthBytes(bits), env), BigEndian(bits, 8);
    var high := bits / 0x1_0000_0000;
    LowBytes(bits, env);
    HighPart(bits);
    BigEndianZero(high, 4);
    HighBytes(bits, env);
    AllZeroSame(code[..4], std[..4]);
    assert code == code[..4] + code[4..] && std == std[..4] + std[4..];
  }

  lemma AllZeroSame(a: seq<Bits>, b: seq<Bits>)
    requires AllZero(a) && |a| == |b|
    ensures a == b <==> AllZero(b)
  {
  }

  lemma HighBytes(bits: nat, env: string -> nat)
    ensures AllZero(Bytes(LengthBytes(bits), env)[..4])
  {
    var c := Const(0, 8);
    assert c.Denote(env) == ToBits(0, 8);
    assert forall i :: 0 <= i < 4 ==> LengthBytes(bits)[i] == c;
  }

  lemma LongEnough()
    ensures Pow2(64) > 0x1_0000_0000
  {
    Pow2Split(56);
    Pow2Split(48);
    Pow2Split(40);
    Pow2Split(32);
    Pow2Split(24);
  }

  lemma HighPart(bits: nat)
    requires bits < Pow2(64)
    ensures bits / 0x1_0000_0000 < Pow2(32)
  {
    Pow2Split(56);
    Pow2Split(48);
    Pow2Split(40);
    Pow2Split(32);
  }

  /** The low four bytes always agree. */
  lemma LowBytes(bits: nat, env: string -> nat)
    ensures BigEndian(bits, 8)[..4] == BigEndian(bits / 0x1_0000_0000, 4)
    ensures BigEndian(bits, 8)[4..] == Bytes(LengthBytes(bits), env)[4..]
  {
    var b1, b2, b3 := bits / 256, bits / 0x10000, bits / 0x1000000;
    assert b1 / 256 == b2 && b2 / 256 == b3 && b3 / 256 == bits / 0x1_0000_0000;
    assert BigEndian(bits, 8) == BigEndian(b1, 7) + [ToBits(bits, 8)];
    assert BigEndian(b1, 7) == BigEndian(b2, 6) + [ToBits(b1, 8)];
    assert BigEndian(b2, 6) == BigEndian(b3, 5) + [ToBits(b2, 8)];
    assert BigEndian(b3, 5) == BigEndian(b3 / 256, 4) + [ToBits(b3, 8)];
    LowByte(bits);
    LowByte(b1);
    LowByte(b2);
    LowByte(b3);
  }

  /** get_digest pads as the standard does exactly for messages of less than 2^29 bytes. */
  lemma PaddingExact(m: seq<Expr>, k: nat, env: string -> nat)
    requires IsMessage(m) && 8 * |m| < Pow2(64)
    ensures Bytes(m + Padding(|m|, k), env) == Padded(Bytes(m, env), k) <==> |m| < 0x2000_0000
  {
    PaddingParts(m, k, env);
    LengthExact(8 * |m|, env);
    SameEnds(Bytes(m, env) + [ToBits(0x80, 8)] + seq(k, _ => ToBits(0, 8)), Bytes(LengthBytes(8 * |m|), env),
      BigEndian(8 * |m|, 8));
  }

  lemma SameEnds(a: seq<Bits>, b: seq<Bits>, c: seq<Bits>)
    ensures a + b == a + c <==> b == c
  {
    assert (a + b)[|a|..] == b && (a + c)[|a|..] == c;
  }

  lemma BytesConcat(a: seq<Expr>, b: seq<Expr>, env: string -> nat)
    requires IsMessage(a) && IsMessage(b)
    ensures Bytes(a + b, env) == Bytes(a, env) + Bytes(b, env)
  {
  }

  lemma ConstByte(v: nat, env: string -> nat)
    ensures IsMessage([Const(v, 8)]) && Bytes([Const(v, 8)], env) == [ToBits(v, 8)]
  {
    var c := Const(v, 8);
    assert c.Denote(env) == ToBits(v, 8);
  }

  lemma ZeroBytesDenote(k: nat, env: string -> nat)
    ensures Bytes(ZeroBytes(k), env) == seq(k, _ => ToBits(0, 8))
  {
    var c := Const(0, 8);
    assert c.Denote(env) == ToBits(0, 8);
  }

  lemma PaddingParts(m: seq<Expr>, k: nat, env: string -> nat)
    requires IsMessage(m)
    ensures Bytes(m + Padding(|m|, k), env) ==
            Bytes(m, env) + [ToBits(0x80, 8)] + seq(k, _ => ToBits(0, 8)) + Bytes(LengthBytes(8 * |m|), env)
  {
    var one, zeros, length := [Const(0x80, 8)], ZeroBytes(k), LengthBytes(8 * |m|);
    ConstByte(0x80, env);
    ZeroBytesDenote(k, env);
    BytesConcat(m, one, env);
    BytesConcat(m + one, zeros, env);
    BytesConcat(m + one + zeros, length, env);
    assert m + Padding(|m|, k) == m + one + zeros + length;
  }

  // ---------- the expressions that a block builds ----------

  /** The first n words of the array w. */
  ghost function ScheduleExprs(block: seq<Expr>, n: nat): (w: seq<Expr>)
    requires |block| == 64
    ensures |w| == n
  {
    if n == 0 then []
    else
      var w := ScheduleExprs(block, n - 1);
      w + [ScheduleExpr(block, w, n - 1)]
  }

  ghost function ScheduleExpr(block: seq<Expr>, w: seq<Expr>, t: nat): Expr
    requires |block| == 64 && t <= |w|
  {
    if t < 16 then MessageWord(block[4 * t], block[4 * t + 1], block[4 * t + 2], block[4 * t + 3])
    else ScheduleWord(w[t - 3], w[t - 8], w[t - 14], w[t - 16])
  }

  /** The value after f has taken in the first n items, each with its number. */
  ghost function Iterate<S, X>(f: (S, nat, X) -> S, s: S, xs: seq<X>, n: nat): S
    requires n <= |xs|
  {
    if n == 0 then s else f(Iterate(f, s, xs, n - 1), n - 1, xs[n - 1])
  }

  ghost function CompressExprs(r: Regs, block: seq<Expr>, rounds: nat): Regs
    requires |block| == 64
  {
    var v := Iterate(NextRegs, r, ScheduleExprs(block, rounds), rounds);
    Regs(Add(r.a, v.a), Add(r.b, v.b), Add(r.c, v.c), Add(r.d, v.d), Add(r.e, v.e))
  }

  ghost function StepExprs(rounds: nat): (Regs, seq<Expr>) -> Regs {
    (r: Regs, block: seq<Expr>) => if |block| == 64 then CompressExprs(r, block, rounds) else r
  }

  ghost function InitialExprs(): Regs {
    Regs(Const(0x67452301, 32), Const(0xEFCDAB89, 32), Const(0x98BADCFE, 32), Const(0x10325476, 32),
      Const(0xC3D2E1F0, 32))
  }

  /** The digest that the encoder builds for a message, with k zero bytes of padding. */
  ghost function DigestExprs(m: seq<Expr>, k: nat, rounds: nat): Regs {
    var all := m + Padding(|m|, k);
    Fold(StepExprs(rounds), InitialExprs(), all, |all| / 64)
  }

  // ---------- what they denote ----------

  ghost predicate WordOk(e: Expr, m: seq<Bits>, t: nat, env: string -> nat)
    requires IsBlock(m)
  {
    IsWord(e, 32) && e.Denote(env) == W(m, t)
  }

  lemma FirstWord(block: seq<Expr>, t: nat, env: string -> nat)
    requires |block| == 64 && IsMessage(block) && t < 16
    ensures WordOk(MessageWord(block[4 * t], block[4 * t + 1], block[4 * t + 2], block[4 * t + 3]), Bytes(block, env),
            t, env)
  {
    MessageWordDenotes(block[4 * t], block[4 * t + 1], block[4 * t + 2], block[4 * t + 3], env);
  }

  lemma LaterWord(w3: Expr, w8: Expr, w14: Expr, w16: Expr, m: seq<Bits>, t: nat, env: string -> nat)
    requires IsBlock(m) && 16 <= t
    requires WordOk(w3, m, t - 3, env) && WordOk(w8, m, t - 8, env) && WordOk(w14, m, t - 14, env)
             && WordOk(w16, m, t - 16, env)
    ensures WordOk(ScheduleWord(w3, w8, w14, w16), m, t, env)
  {
    ScheduleWordDenotes(w3, w8, w14, w16, env);
  }

  ghost predicate Scheduled(w: seq<Expr>, m: seq<Bits>, env: string -> nat) {
    IsBlock(m) && forall t {:trigger WordOk(w[t], m, t, env)} :: 0 <= t < |w| ==> WordOk(w[t], m, t, env)
  }

  lemma ScheduleNext(block: seq<Expr>, w: seq<Expr>, env: string -> nat)
    requires |block| == 64 && IsMessage(block) && Scheduled(w, Bytes(block, env), env)
    ensures WordOk(ScheduleExpr(block, w, |w|), Bytes(block, env), |w|, env)
  {
    var t, m := |w|, Bytes(block, env);
    if t < 16 {
      FirstWord(block, t, env);
    } else {
      assert WordOk(w[t - 3], m, t - 3, env) && WordOk(w[t - 8], m, t - 8, env);
      assert WordOk(w[t - 14], m, t - 14, env) && WordOk(w[t - 16], m, t - 16, env);
      LaterWord(w[t - 3], w[t - 8], w[t - 14], w[t - 16], m, t, env);
    }
  }

  lemma ScheduledSnoc(w: seq<Expr>, e: Expr, m: seq<Bits>, env: string -> nat)
    requires Scheduled(w, m, env) && WordOk(e, m, |w|, env)
    ensures Scheduled(w + [e], m, env)
  {
    forall t | 0 <= t < |w| + 1 ensures WordOk((w + [e])[t], m, t, env) {
      assert t < |w| ==> WordOk(w[t], m, t, env);
    }
  }

  lemma {:induction false} ScheduleDenotes(block: seq<Expr>, n: nat, env: string -> nat)
    requires |block| == 64 && IsMessage(block)
    ensures Scheduled(ScheduleExprs(block, n), Bytes(block, env), env)
  {
    if n > 0 {
      var w := ScheduleExprs(block, n - 1);
      ScheduleDenotes(block, n - 1, env);
      ScheduleNext(block, w, env);
      ScheduledSnoc(w, ScheduleExpr(block, w, n - 1), Bytes(block, env), env);
    }
  }

  lemma RoundStep(r: Regs, before: State, m: seq<Bits>, i: nat, w: Expr, env: string -> nat)
    requires r.Ok() && before.Ok() && IsBlock(m) && r.Values(env) == Rounds(before, m, i) && WordOk(w, m, i, env)
    ensures NextRegs(r, i, w).Ok() && NextRegs(r, i, w).Values(env) == Rounds(before, m, i + 1)
  {
    NextRegsDenotes(r, i, w, env);
  }

  lemma {:induction false} IterateKeeps(f: (Regs, nat, Expr) -> Regs, r: Regs, w: seq<Expr>, n: nat,
    p: (nat, Regs) -> bool)
    requires n <= |w| && p(0, r)
    requires forall i: nat, x :: i < n && p(i, x) ==> p(i + 1, f(x, i, w[i]))
    ensures p(n, Iterate(f, r, w, n))
  {
    if n > 0 {
      IterateKeeps(f, r, w, n - 1, p);
    }
  }

  /** The registers denote the working variables after i rounds. */
  ghost function Reached(before: State, m: seq<Bits>, env: string -> nat): (nat, Regs) -> bool
    requires before.Ok() && IsBlock(m)
  {
    (i: nat, x: Regs) => x.Ok() && x.Values(env) == Rounds(before, m, i)
  }

  lemma RoundsDenote(r: Regs, w: seq<Expr>, m: seq<Bits>, n: nat, env: string -> nat)
    requires r.Ok() && Scheduled(w, m, env) && n <= |w|
    ensures Iterate(NextRegs, r, w, n).Ok() && Iterate(NextRegs, r, w, n).Values(env) == Rounds(r.Values(env), m, n)
  {
    var before := r.Values(env);
    var p := Reached(before, m, env);
    forall i: nat, x | i < n && p(i, x) ensures p(i + 1, NextRegs(x, i, w[i])) {
      assert WordOk(w[i], m, i, env);
      RoundStep(x, before, m, i, w[i], env);
    }
    IterateKeeps(NextRegs, r, w, n, p);
  }

  /** The expressions built for a block denote the compression of the block. */
  lemma CompressDenotes(r: Regs, block: seq<Expr>, rounds: nat, env: string -> nat)
    requires r.Ok() && |block| == 64 && IsMessage(block)
    ensures CompressExprs(r, block, rounds).Ok()
    ensures CompressExprs(r, block, rounds).Values(env) == Compress(r.Values(env), Bytes(block, env), rounds)
  {
    var w := ScheduleExprs(block, rounds);
    var v := Iterate(NextRegs, r, w, rounds);
    ScheduleDenotes(block, rounds, env);
    RoundsDenote(r, w, Bytes(block, env), rounds, env);
    Words32(r.a, v.a, env);
    Words32(r.b, v.b, env);
    Words32(r.c, v.c, env);
    Words32(r.d, v.d, env);
    Words32(r.e, v.e, env);
  }

  lemma InitialDenotes(env: string -> nat)
    ensures InitialExprs().Ok() && InitialExprs().Values(env) == Initial()
  {
  }

  lemma StepDenotes(r: Regs, s: State, block: seq<Expr>, rounds: nat, env: string -> nat)
    requires r.Ok() && r.Values(env) == s && |block| == 64 && IsMessage(block)
    ensures StepExprs(rounds)(r, block).Ok()
    ensures StepExprs(rounds)(r, block).Values(env) == Step(rounds)(s, Bytes(block, env))
  {
    CompressDenotes(r, block, rounds, env);
  }

  /** Two folds whose steps keep a relation are related. */
  lemma {:induction false} FoldRelated(f: (Regs, seq<Expr>) -> Regs, g: (State, seq<Bits>) -> State, r: Regs, s: State,
                                       m: seq<Expr>, m': seq<Bits>, n: nat,
                                       rel: (Regs, State) -> bool, same: (seq<Expr>, seq<Bits>) -> bool)
    requires 64 * n <= |m| == |m'| && rel(r, s)
    requires forall i :: 0 <= i < n ==> same(BlockAt(m, i), BlockAt(m', i))
    requires forall x, y, b, b' :: rel(x, y) && same(b, b') ==> rel(f(x, b), g(y, b'))
    ensures rel(Fold(f, r, m, n), Fold(g, s, m', n))
  {
    if n > 0 {
      FoldRelated(f, g, r, s, m, m', n - 1, rel, same);
    }
  }

  ghost function Denoted(env: string -> nat): (Regs, State) -> bool {
    (r: Regs, s: State) => r.Ok() && r.Values(env) == s
  }

  ghost function SameBlock(env: string -> nat): (seq<Expr>, seq<Bits>) -> bool {
    (b: seq<Expr>, b': seq<Bits>) => |b| == 64 && IsMessage(b) && Bytes(b, env) == b'
  }

  lemma FoldDenotes(m: seq<Expr>, n: nat, rounds: nat, env: string -> nat)
    requires IsMessage(m) && 64 * n <= |m|
    ensures Fold(StepExprs(rounds), InitialExprs(), m, n).Ok()
    ensures Fold(StepExprs(rounds), InitialExprs(), m, n).Values(env) == Fold(Step(rounds), Initial(), Bytes(m, env), n)
  {
    var rel, same := Denoted(env), SameBlock(env);
    InitialDenotes(env);
    BlocksDenote(m, n, env);
    forall x, y, b, b' | rel(x, y) && same(b, b') ensures rel(StepExprs(rounds)(x, b), Step(rounds)(y, b')) {
      StepDenotes(x, y, b, rounds, env);
    }
    FoldRelated(StepExprs(rounds), Step(rounds), InitialExprs(), Initial(), m, Bytes(m, env), n, rel, same);
  }

  lemma BlocksDenote(m: seq<Expr>, n: nat, env: string -> nat)
    requires IsMessage(m) && 64 * n <= |m|
    ensures forall i :: 0 <= i < n ==> SameBlock(env)(BlockAt(m, i), BlockAt(Bytes(m, env), i))
  {
    forall i | 0 <= i < n ensures SameBlock(env)(BlockAt(m, i), BlockAt(Bytes(m, env), i)) {
      assert Bytes(BlockAt(m, i), env) == BlockAt(Bytes(m, env), i);
    }
  }

  /**
   The expressions of the digest denote the hash of the standard, whatever the values of the
   variables, for every message of less than 2^29 bytes.
   */
  lemma DigestDenotes(m: seq<Expr>, k: nat, rounds: nat, env: string -> nat)
    requires IsMessage(m) && |m| < 0x2000_0000 && PaddingLength(|m|, k)
    ensures DigestExprs(m, k, rounds).Ok()
    ensures DigestExprs(m, k, rounds).Values(env) == Hash(Bytes(m, env), k, rounds)
  {
    var all := m + Padding(|m|, k);
    LongEnough();
    PaddingExact(m, k, env);
    FoldDenotes(all, |all| / 64, rounds, env);
  }

  // ---------- the encoder ----------

  lemma Position(n: nat, blocks: nat, index: nat)
    requires n == 64 * blocks + index && index < 64
    ensures n / 64 == blocks && n % 64 == index
  {
  }

  lemma Concat4(a: seq<Expr>, b: seq<Expr>, c: seq<Expr>, d: seq<Expr>)
    ensures a + b + c + d == a + (b + c + d)
  {
  }

  /** A byte that does not fill a block leaves the hash value alone; one that does brings in the block. */
  lemma FoldByte(f: (Regs, seq<Expr>) -> Regs, r: Regs, m: seq<Expr>, byte: Expr, n: nat)
    requires 64 * n <= |m| < 64 * n + 64
    ensures Fold(f, r, m + [byte], n) == Fold(f, r, m, n)
    ensures |m| == 64 * n + 63 ==> Fold(f, r, m + [byte], n + 1) == f(Fold(f, r, m, n), (m + [byte])[64 * n..])
  {
    FoldPrefix(f, r, m, [byte], n);
    if |m| == 64 * n + 63 {
      assert BlockAt(m + [byte], n) == (m + [byte])[64 * n..];
    }
  }

  ghost predicate Built(block: seq<Expr>, w: seq<Expr>) {
    |block| == 64 && forall n {:trigger ScheduleExprs(block, n)} :: 0 <= n <= |w| ==> w[..n] == ScheduleExprs(block, n)
  }

  lemma BuiltNext(block: seq<Expr>, w: seq<Expr>)
    requires Built(block, w)
    ensures Built(block, w + [ScheduleExpr(block, w, |w|)])
  {
    var w' := w + [ScheduleExpr(block, w, |w|)];
    forall n | 0 <= n <= |w'| ensures w'[..n] == ScheduleExprs(block, n) {
      assert w[..|w|] == w == ScheduleExprs(block, |w|);
      assert n <= |w| ==> w'[..n] == w[..n];
      assert n == |w'| ==> w'[..n] == w';
    }
  }

  class Sha1 {
    const rounds: nat
    /** What a block does to the hash value, and the initial value. */
    ghost const step: (Regs, seq<Expr>) -> Regs
    ghost const initial: Regs
    const h: array<Expr>
    const block: array<Expr>
    var blockByteIndex: nat
    var byteCount: nat
    /** The bytes since the last reset, and how many blocks they filled. */
    ghost var message: seq<Expr>
    ghost var blocks: nat

    ghost predicate Shape()
      reads this, block
    {
      && rounds <= 80 && h.Length == 5 && block.Length == 64 && h != block
      && byteCount == |message| == 64 * blocks + blockByteIndex && blockByteIndex < 64
      && block[..blockByteIndex] == message[64 * blocks..]
    }

    ghost function Hashed(): Regs
      requires h.Length == 5
      reads h
    {
      Regs(h[0], h[1], h[2], h[3], h[4])
    }

    /** The complete blocks are hashed, the rest of the message is in the block. */
    ghost predicate Valid()
      reads this, h, block
    {
      Shape() && Hashed() == Fold(step, initial, message, blocks)
    }

    /** A block acts as StepExprs says. */
    ghost predicate Standard() {
      forall r, b {:trigger StepExprs(rounds)(r, b)} :: step(r, b) == StepExprs(rounds)(r, b)
    }

    constructor (rounds: nat)
      requires rounds <= 80
      ensures Valid() && Standard() && message == [] && fresh(h) && fresh(block)
      ensures this.rounds == rounds && step == StepExprs(rounds) && initial == InitialExprs()
    {
      this.rounds := rounds;
      step, initial := StepExprs(rounds), InitialExprs();
      h, block := new Expr[5], new Expr[64];
      blockByteIndex, byteCount, message, blocks := 0, 0, [], 0;
      new;
      Reset();
    }

    method Reset()
      requires rounds <= 80 && h.Length == 5 && block.Length == 64 && h != block && initial == InitialExprs()
      modifies this, h
      ensures Valid() && message == []
    {
      h[0] := Const(0x67452301, 32);
      h[1] := Const(0xEFCDAB89, 32);
      h[2] := Const(0x98BADCFE, 32);
      h[3] := Const(0x10325476, 32);
      h[4] := Const(0xC3D2E1F0, 32);
      blockByteIndex, byteCount, message, blocks := 0, 0, [], 0;
    }

    method ProcessByte(byte: Expr)
      requires Valid() && Standard()
      modifies this, h, block
      ensures Valid() && message == old(message) + [byte]
      ensures blockByteIndex == if old(blockByteIndex) == 63 then 0 else old(blockByteIndex) + 1
    {
      FoldByte(step, initial, message, byte, blocks);
      StoreByte(byte);
      if blockByteIndex == 64 {
        blockByteIndex := 0;
        blocks := blocks + 1;
        assert block[..] == block[..64];
        ProcessBlock();
      }
    }

    /** The byte goes to the block and is counted. */
    method StoreByte(byte: Expr)
      requires Shape()
      modifies this`blockByteIndex, this`byteCount, this`message, block
      ensures message == old(message) + [byte] && byteCount == |message| && blockByteIndex == old(blockByteIndex) + 1
      ensures block[..blockByteIndex] == message[64 * blocks..]
    {
      ghost var k := blockByteIndex;
      ghost var tail := block[..k];
      block[blockByteIndex] := byte;
      blockByteIndex := blockByteIndex + 1;
      byteCount := byteCount + 1;
      message := message + [byte];
      assert block[..k + 1] == tail + [byte];
      assert message[64 * blocks..] == tail + [byte];
    }

    /** However a message is split into calls, the bytes come one after the other. */
    method ProcessBytes(buffer: seq<Expr>)
      requires Valid() && Standard()
      modifies this, h, block
      ensures Valid() && message == old(message) + buffer
    {
      for i := 0 to |buffer|
        invariant Valid() && message == old(message) + buffer[..i]
      {
        ProcessByte(buffer[i]);
      }
      assert buffer[..|buffer|] == buffer;
    }

    /** The array w: 16 words of the message and 64 words made from them. */
    method Schedule() returns (w: seq<Expr>)
      requires block.Length == 64
      ensures |w| == 80
              && forall n {:trigger ScheduleExprs(block[..], n)} :: 0 <= n <= 80 ==>
                 w[..n] == ScheduleExprs(block[..], n)
    {
      ghost var bytes := block[..];
      w := [];
      for i := 0 to 16
        invariant |w| == i && Built(bytes, w)
      {
        BuiltNext(bytes, w);
        w := w + [MessageWord(block[4 * i], block[4 * i + 1], block[4 * i + 2], block[4 * i + 3])];
      }
      for i := 16 to 80
        invariant |w| == i && Built(bytes, w)
      {
        BuiltNext(bytes, w);
        w := w + [ScheduleWord(w[i - 3], w[i - 8], w[i - 14], w[i - 16])];
      }
    }

    method ProcessBlock()
      requires rounds <= 80 && h.Length == 5 && block.Length == 64 && h != block && Standard()
      modifies h
      ensures Hashed() == step(old(Hashed()), block[..])
    {
      var w := Schedule();
      ghost var w' := ScheduleExprs(block[..], rounds);
      var start := Regs(h[0], h[1], h[2], h[3], h[4]);
      var r := start;
      for i := 0 to rounds
        invariant r == Iterate(NextRegs, start, w', i) && h[..] == old(h[..])
      {
        assert w[i] == w'[i];
        r := NextRegs(r, i, w[i]);
      }
      h[0] := Add(h[0], r.a);
      h[1] := Add(h[1], r.b);
      h[2] := Add(h[2], r.c);
      h[3] := Add(h[3], r.d);
      h[4] := Add(h[4], r.e);
      assert Hashed() == StepExprs(rounds)(start, block[..]);
    }

    /** Zero bytes up to position 56 of a block, of the next one if this one has less room. */
    method PadZeros() returns (ghost k: nat)
      requires Valid() && Standard()
      modifies this, h, block
      ensures Valid() && message == old(message) + ZeroBytes(k) && blockByteIndex == 56 && k < 64
    {
      k := 0;
      if blockByteIndex > 56 {
        while blockByteIndex != 0
          invariant Valid() && message == old(message) + ZeroBytes(k)
          invariant (blockByteIndex == 0 && k <= 7)
                    || (blockByteIndex > 56 && k == blockByteIndex - old(blockByteIndex))
          decreases if blockByteIndex == 0 then 0 else 64 - blockByteIndex
        {
          k := ZeroByteAt(old(message), k);
        }
        while blockByteIndex < 56
          invariant Valid() && message == old(message) + ZeroBytes(k)
          invariant blockByteIndex <= 56 && k <= 7 + blockByteIndex
          decreases 56 - blockByteIndex
        {
          k := ZeroByteAt(old(message), k);
        }
      } else {
        while blockByteIndex < 56
          invariant Valid() && message == old(message) + ZeroBytes(k)
          invariant blockByteIndex <= 56 && k == blockByteIndex - old(blockByteIndex)
          decreases 56 - blockByteIndex
        {
          k := ZeroByteAt(old(message), k);
        }
      }
    }

    method ZeroByteAt(ghost m: seq<Expr>, ghost k: nat) returns (ghost k': nat)
      requires Valid() && Standard() && message == m + ZeroBytes(k)
      modifies this, h, block
      ensures Valid() && k' == k + 1 && message == m + ZeroBytes(k')
      ensures blockByteIndex == if old(blockByteIndex) == 63 then 0 else old(blockByteIndex) + 1
    {
      ProcessByte(Const(0, 8));
      k' := k + 1;
      assert ZeroBytes(k) + [Const(0, 8)] == ZeroBytes(k + 1);
    }

    /** Only the low 32 bits of the length are appended. */
    method GetDigest() returns (digest: Regs, ghost k: nat)
      requires Valid() && Standard()
      modifies this, h, block
      ensures Valid() && PaddingLength(|old(message)|, k) && message == old(message) + Padding(|old(message)|, k)
      ensures digest == Fold(step, initial, message, |message| / 64)
    {
      ghost var m := message;
      var bitCount := byteCount * 8;
      ProcessByte(Const(0x80, 8));
      k := PadZeros();
      Position(|message|, blocks, blockByteIndex);
      ProcessBytes(LengthBytes(bitCount));
      Position(|message|, blocks, blockByteIndex);
      Concat4(m, [Const(0x80, 8)], ZeroBytes(k), LengthBytes(bitCount));
      digest := Regs(h[0], h[1], h[2], h[3], h[4]);
    }
  }

  ghost function Joined(parts: seq<seq<Expr>>): seq<Expr> {
    if parts == [] then [] else Joined(parts[..|parts| - 1]) + parts[|parts| - 1]
  }

  lemma PaddingUnique(n: nat, k: nat, k': nat)
    requires PaddingLength(n, k) && PaddingLength(n, k')
    ensures k == k'
  {
  }

  /**
   A message given in parts, however it is split: the digest is that of the whole message,
   and its expressions denote the hash of the standard for all values of the variables.
   */
  method Encode(parts: seq<seq<Expr>>, rounds: nat) returns (digest: Regs)
    requires rounds <= 80
    ensures forall k: nat :: PaddingLength(|Joined(parts)|, k) ==> digest == DigestExprs(Joined(parts), k, rounds)
    ensures IsMessage(Joined(parts)) && |Joined(parts)| < 0x2000_0000 ==>
              digest.Ok() &&
              forall k: nat, env :: PaddingLength(|Joined(parts)|, k) ==>
                                      digest.Values(env) == Hash(Bytes(Joined(parts), env), k, rounds)
  {
    var s := new Sha1(rounds);
    for i := 0 to |parts|
      invariant fresh(s) && fresh(s.h) && fresh(s.block) && s.Valid() && s.message == Joined(parts[..i])
    {
      assert parts[..i + 1][..i] == parts[..i];
      s.ProcessBytes(parts[i]);
    }
    assert parts[..|parts|] == parts;
    ghost var n;
    digest, n := s.GetDigest();
    ghost var m := Joined(parts);
    forall k: nat | PaddingLength(|m|, k) ensures k == n { PaddingUnique(|m|, k, n); }
    if IsMessage(m) && |m| < 0x2000_0000 {
      forall env ensures digest.Ok() && digest.Values(env) == Hash(Bytes(m, env), n, rounds) {
        DigestDenotes(m, n, rounds, env);
      }
      DigestDenotes(m, n, rounds, _ => 0);
    }
  }
}
