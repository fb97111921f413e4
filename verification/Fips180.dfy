/**
 SHA-1 as FIPS 180-4 defines it, over words and bytes given as bits, the least
 significant one first.
 */
module Fips180 {
  import opened HashWord

  // ---------- section 4.1.1: the functions ----------

  ghost function Ch(x: Bits, y: Bits, z: Bits): (r: Bits)
    requires |x| == |y| == |z|
    ensures |r| == |x|
  {
    BitXor(BitAnd(x, y), BitAnd(BitNot(x), z))
  }

  ghost function Parity(x: Bits, y: Bits, z: Bits): (r: Bits)
    requires |x| == |y| == |z|
    ensures |r| == |x|
  {
    BitXor(BitXor(x, y), z)
  }

  ghost function Maj(x: Bits, y: Bits, z: Bits): (r: Bits)
    requires |x| == |y| == |z|
    ensures |r| == |x|
  {
    BitXor(BitXor(BitAnd(x, y), BitAnd(x, z)), BitAnd(y, z))
  }

  ghost function F(t: nat, x: Bits, y: Bits, z: Bits): (r: Bits)
    requires |x| == |y| == |z|
    ensures |r| == |x|
  {
    if t < 20 then Ch(x, y, z)
    else if t < 40 then Parity(x, y, z)
    else if t < 60 then Maj(x, y, z)
    else Parity(x, y, z)
  }

  // ---------- section 4.2.1: the constants ----------

  ghost function K(t: nat): (r: Bits)
    ensures |r| == 32
  {
    ToBits(if t < 20 then 0x5a827999 else if t < 40 then 0x6ed9eba1 else if t < 60 then 0x8f1bbcdc else 0xca62c1d6, 32)
  }

  // ---------- section 5.3.1: the initial hash value ----------

  datatype State = State(a: Bits, b: Bits, c: Bits, d: Bits, e: Bits) {
    ghost predicate Ok() {
      |a| == |b| == |c| == |d| == |e| == 32
    }
  }

  ghost function Initial(): (r: State)
    ensures r.Ok()
  {
    State(ToBits(0x67452301, 32), ToBits(0xefcdab89, 32), ToBits(0x98badcfe, 32), ToBits(0x10325476, 32),
      ToBits(0xc3d2e1f0, 32))
  }

  // ---------- section 6.1.2: the hash computation ----------

  /** A message block of 64 bytes. */
  ghost predicate IsBlock(m: seq<Bits>) {
    |m| == 64 && forall i :: 0 <= i < |m| ==> |m[i]| == 8
  }

  /** The message schedule; a word of the message has its first byte at the high end. */
  ghost function W(m: seq<Bits>, t: nat): (r: Bits)
    requires IsBlock(m)
    ensures |r| == 32
  {
    if t < 16 then m[4 * t + 3] + m[4 * t + 2] + m[4 * t + 1] + m[4 * t]
    else Rotl(1, BitXor(BitXor(BitXor(W(m, t - 3), W(m, t - 8)), W(m, t - 14)), W(m, t - 16)))
  }

  ghost function Round(s: State, t: nat, w: Bits): (r: State)
    requires s.Ok() && |w| == 32
    ensures r.Ok()
  {
    var T := BitAdd(BitAdd(BitAdd(BitAdd(Rotl(5, s.a), F(t, s.b, s.c, s.d)), s.e), K(t)), w);
    State(T, s.a, Rotl(30, s.b), s.c, s.d)
  }

  /** The working variables after n rounds. */
  ghost function Rounds(s: State, m: seq<Bits>, n: nat): (r: State)
    requires s.Ok() && IsBlock(m)
    ensures r.Ok()
  {
    if n == 0 then s else Round(Rounds(s, m, n - 1), n - 1, W(m, n - 1))
  }

  ghost function Compress(s: State, m: seq<Bits>, rounds: nat): (r: State)
    requires s.Ok() && IsBlock(m)
    ensures r.Ok()
  {
    var v := Rounds(s, m, rounds);
    State(BitAdd(s.a, v.a), BitAdd(s.b, v.b), BitAdd(s.c, v.c), BitAdd(s.d, v.d), BitAdd(s.e, v.e))
  }

  ghost predicate IsBytes(bytes: seq<Bits>) {
    forall i :: 0 <= i < |bytes| ==> |bytes[i]| == 8
  }

  ghost function BlockAt<B>(bytes: seq<B>, i: nat): (r: seq<B>)
    requires 64 * (i + 1) <= |bytes|
    ensures |r| == 64
  {
    bytes[64 * i..64 * (i + 1)]
  }

  /** The value after f has taken in the first n blocks, one after the other. */
  ghost function Fold<S, B>(f: (S, seq<B>) -> S, s: S, bytes: seq<B>, n: nat): S
    requires 64 * n <= |bytes|
  {
    if n == 0 then s else f(Fold(f, s, bytes, n - 1), BlockAt(bytes, n - 1))
  }

  ghost function Step(rounds: nat): (State, seq<Bits>) -> State {
    (s: State, m: seq<Bits>) => if s.Ok() && IsBlock(m) then Compress(s, m, rounds) else s
  }

  /** The hash value after the first n blocks. */
  ghost function AfterBlocks(bytes: seq<Bits>, n: nat, rounds: nat): State
    requires 64 * n <= |bytes|
  {
    Fold(Step(rounds), Initial(), bytes, n)
  }

  // ---------- section 5.1.1: the padding ----------

  /** The number of zero bytes: the least k for which |m| + 1 + k is 56 modulo 64. */
  ghost predicate PaddingLength(n: nat, k: nat) {
    (n + 1 + k) % 64 == 56 && k < 64
  }

  /** A number as `count` bytes, the most significant one first. */
  ghost function BigEndian(v: nat, count: nat): (r: seq<Bits>)
    ensures |r| == count && IsBytes(r)
  {
    if count == 0 then [] else BigEndian(v / 256, count - 1) + [ToBits(v, 8)]
  }

  /** The message, a one bit, k zero bytes less that bit, and the length in bits as 64 bits. */
  ghost function Padded(m: seq<Bits>, k: nat): (r: seq<Bits>)
    requires IsBytes(m)
    ensures IsBytes(r) && |r| == |m| + 1 + k + 8
  {
    m + [ToBits(0x80, 8)] + seq(k, _ => ToBits(0, 8)) + BigEndian(8 * |m|, 8)
  }

  /** The hash of a message, with the number of rounds as a parameter (80 in the standard). */
  ghost function Hash(m: seq<Bits>, k: nat, rounds: nat): (r: State)
    requires IsBytes(m) && PaddingLength(|m|, k)
  {
    AfterBlocks(Padded(m, k), |Padded(m, k)| / 64, rounds)
  }

  lemma {:induction false} FoldPrefix<S, B>(f: (S, seq<B>) -> S, s: S, bytes: seq<B>, more: seq<B>, n: nat)
    requires 64 * n <= |bytes|
    ensures Fold(f, s, bytes + more, n) == Fold(f, s, bytes, n)
  {
    if n > 0 {
      FoldPrefix(f, s, bytes, more, n - 1);
      assert BlockAt(bytes + more, n - 1) == BlockAt(bytes, n - 1);
    }
  }

  /** The code's form of the functions, with | in the place of the exclusive or. */
  lemma OrForms(x: Bits, y: Bits, z: Bits)
    requires |x| == |y| == |z|
    ensures Ch(x, y, z) == BitOr(BitAnd(x, y), BitAnd(BitNot(x), z))
    ensures Maj(x, y, z) == BitOr(BitOr(BitAnd(x, y), BitAnd(x, z)), BitAnd(y, z))
  {
  }
}
