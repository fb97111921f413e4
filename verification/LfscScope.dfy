/**
 Binding by overwriting: symbols are overwritten one after the other, and what
 was found in them is put back in the same order when the binding ends
 (run_code and check_code in proofs/lfsc_checker/code.cpp).
 */
module LfscScope {
  import opened Basics
  import opened LfscSyntax

  /** The symbols overwritten from the first on. */
  function Bound<K(==), V>(vals: map<K, V>, xs: seq<K>, vs: seq<V>): map<K, V>
    requires |xs| == |vs|
    decreases xs
  {
    if xs == [] then vals else Bound(vals[xs[0] := vs[0]], xs[1..], vs[1..])
  }

  function Put<K(==), V>(vals: map<K, V>, x: K, v: Option<V>): map<K, V> {
    if v.Some? then vals[x := v.value] else vals - {x}
  }

  function Get<K(==), V>(vals: map<K, V>, x: K): Option<V> {
    if x in vals then Some(vals[x]) else None
  }

  /** What is found in the symbols when they are overwritten one after the other. */
  function Olds<K(==), V>(vals: map<K, V>, xs: seq<K>, vs: seq<V>): (r: seq<Option<V>>)
    requires |xs| == |vs|
    ensures |r| == |xs|
    decreases xs
  {
    if xs == [] then [] else [Get(vals, xs[0])] + Olds(vals[xs[0] := vs[0]], xs[1..], vs[1..])
  }

  /** The contents put back one after the other, from the first symbol on. */
  function PutBack<K(==), V>(vals: map<K, V>, xs: seq<K>, olds: seq<Option<V>>): map<K, V>
    requires |xs| == |olds|
    decreases xs
  {
    if xs == [] then vals else PutBack(Put(vals, xs[0], olds[0]), xs[1..], olds[1..])
  }

  /** Putting back the contents of distinct symbols undoes the overwriting. */
  lemma {:induction false} PutBackBound<K, V>(vals: map<K, V>, xs: seq<K>, vs: seq<V>)
    requires |xs| == |vs| && Distinct(xs)
    ensures PutBack(Bound(vals, xs, vs), xs, Olds(vals, xs, vs)) == vals
    decreases xs
  {
    if xs != [] {
      var x, vals' := xs[0], vals[xs[0] := vs[0]];
      assert x !in xs[1..];
      PutBackBound(vals', xs[1..], vs[1..]);
      PutCommutes(Bound(vals', xs[1..], vs[1..]), x, Get(vals, x), xs[1..], Olds(vals', xs[1..], vs[1..]));
      assert Put(vals', x, Get(vals, x)) == vals;
    }
  }

  /** Putting back other symbols can be done before or after. */
  lemma {:induction false} PutCommutes<K, V>(vals: map<K, V>, x: K, v: Option<V>, xs: seq<K>, olds: seq<Option<V>>)
    requires |xs| == |olds| && x !in xs
    ensures PutBack(Put(vals, x, v), xs, olds) == Put(PutBack(vals, xs, olds), x, v)
    decreases xs
  {
    if xs != [] {
      assert Put(Put(vals, x, v), xs[0], olds[0]) == Put(Put(vals, xs[0], olds[0]), x, v);
      PutCommutes(Put(vals, xs[0], olds[0]), x, v, xs[1..], olds[1..]);
    }
  }

  lemma {:induction false} PutBackElsewhere<K, V>(vals: map<K, V>, x: K, xs: seq<K>, olds: seq<Option<V>>)
    requires |xs| == |olds| && x !in xs
    ensures Get(PutBack(vals, xs, olds), x) == Get(vals, x)
    decreases xs
  {
    if xs != [] {
      PutBackElsewhere(Put(vals, xs[0], olds[0]), x, xs[1..], olds[1..]);
    }
  }

  /** What is put back last into a symbol stays there. */
  lemma {:induction false} PutBackAt<K, V>(vals: map<K, V>, xs: seq<K>, olds: seq<Option<V>>, j: nat)
    requires |xs| == |olds| && j < |xs| && xs[j] !in xs[j + 1..]
    ensures Get(PutBack(vals, xs, olds), xs[j]) == olds[j]
    decreases xs
  {
    if j == 0 {
      PutBackElsewhere(Put(vals, xs[0], olds[0]), xs[0], xs[1..], olds[1..]);
    } else {
      assert xs[1..][j - 1 + 1..] == xs[j + 1..];
      PutBackAt(Put(vals, xs[0], olds[0]), xs[1..], olds[1..], j - 1);
    }
  }

  /** What is found in a symbol is what the bindings before it have made of it. */
  lemma {:induction false} OldsAt<K, V>(vals: map<K, V>, xs: seq<K>, vs: seq<V>, j: nat)
    requires |xs| == |vs| && j < |xs|
    ensures Olds(vals, xs, vs)[j] == Get(Bound(vals, xs[..j], vs[..j]), xs[j])
    decreases xs
  {
    if j > 0 {
      OldsAt(vals[xs[0] := vs[0]], xs[1..], vs[1..], j - 1);
      assert xs[1..][..j - 1] == xs[..j][1..] && vs[1..][..j - 1] == vs[..j][1..];
    }
  }

  lemma {:induction false} BoundElsewhere<K, V>(vals: map<K, V>, xs: seq<K>, vs: seq<V>, x: K)
    requires |xs| == |vs| && x !in xs
    ensures Get(Bound(vals, xs, vs), x) == Get(vals, x)
    decreases xs
  {
    if xs != [] {
      BoundElsewhere(vals[xs[0] := vs[0]], xs[1..], vs[1..], x);
    }
  }

  /** The last binding of a symbol counts. */
  lemma {:induction false} BoundAt<K, V>(vals: map<K, V>, xs: seq<K>, vs: seq<V>, i: nat)
    requires |xs| == |vs| && i < |xs| && xs[i] !in xs[i + 1..]
    ensures Get(Bound(vals, xs, vs), xs[i]) == Some(vs[i])
    decreases xs
  {
    if i == 0 {
      BoundElsewhere(vals[xs[0] := vs[0]], xs[1..], vs[1..], xs[0]);
    } else {
      assert xs[1..][i - 1 + 1..] == xs[i + 1..];
      BoundAt(vals[xs[0] := vs[0]], xs[1..], vs[1..], i - 1);
    }
  }

  /** i and j are the last two places of a symbol. */
  ghost predicate LastTwo<K>(xs: seq<K>, i: nat, j: nat) {
    i < j < |xs| && xs[i] == xs[j] && xs[j] !in xs[j + 1..] && xs[i] !in xs[i + 1..j]
  }

  /** A symbol that is bound more than once is left with the value of its last binding but one. */
  lemma DuplicateLeaks<K, V>(s: map<K, V>, vals: map<K, V>, xs: seq<K>, vs: seq<V>, i: nat, j: nat)
    requires |xs| == |vs| && LastTwo(xs, i, j)
    ensures Get(PutBack(s, xs, Olds(vals, xs, vs)), xs[j]) == Some(vs[i])
  {
    PutBackAt(s, xs, Olds(vals, xs, vs), j);
    OldsAt(vals, xs, vs, j);
    assert xs[..j][i + 1..] == xs[i + 1..j];
    BoundAt(vals, xs[..j], vs[..j], i);
  }

  lemma {:induction false} LastPlace<K>(xs: seq<K>, x: K) returns (j: nat)
    requires x in xs
    ensures j < |xs| && xs[j] == x && x !in xs[j + 1..]
    ensures forall i :: 0 <= i < |xs| && xs[i] == x ==> i <= j
  {
    var n := |xs| - 1;
    if xs[n] == x {
      j := n;
    } else {
      j := LastPlace(xs[..n], x);
      assert xs[j + 1..] == xs[..n][j + 1..] + [xs[n]];
    }
  }

  lemma Repeated<K>(xs: seq<K>) returns (i: nat, j: nat)
    requires !Distinct(xs)
    ensures LastTwo(xs, i, j)
  {
    var p, q :| 0 <= p < q < |xs| && xs[p] == xs[q];
    j := LastPlace(xs, xs[p]);
    assert xs[..j][p] == xs[p];
    i := LastPlace(xs[..j], xs[p]);
    assert xs[..j][i + 1..] == xs[i + 1..j];
  }

  ghost predicate Undoes<K, V>(vals: map<K, V>, xs: seq<K>, vs: seq<V>)
    requires |xs| == |vs|
  {
    PutBack(Bound(vals, xs, vs), xs, Olds(vals, xs, vs)) == vals
  }

  /** Overwriting and putting back in the same order is exact if and only if the symbols are distinct. */
  lemma PutBackExact<K(!new), V(!new)>(xs: seq<K>, v: V)
    ensures (forall vals: map<K, V>, vs: seq<V> :: |vs| == |xs| ==> Undoes(vals, xs, vs)) <==> Distinct(xs)
  {
    if Distinct(xs) {
      forall vals: map<K, V>, vs: seq<V> | |vs| == |xs| ensures Undoes(vals, xs, vs) { PutBackBound(vals, xs, vs); }
    } else {
      var i, j := Repeated(xs);
      var vs := seq(|xs|, k => v);
      DuplicateLeaks(Bound(map[], xs, vs), map[], xs, vs, i, j);
      assert !Undoes(map[], xs, vs);
    }
  }

  /** The binding loops. */
  method Overwrite<K(==), V>(vals0: map<K, V>, xs: seq<K>, vs: seq<V>) returns (vals: map<K, V>, olds: seq<Option<V>>)
    requires |xs| == |vs|
    ensures vals == Bound(vals0, xs, vs) && olds == Olds(vals0, xs, vs)
  {
    vals, olds := vals0, [];
    for j := 0 to |xs|
      invariant |olds| == j
      invariant Bound(vals, xs[j..], vs[j..]) == Bound(vals0, xs, vs)
      invariant olds + Olds(vals, xs[j..], vs[j..]) == Olds(vals0, xs, vs)
    {
      assert xs[j..][1..] == xs[j + 1..] && vs[j..][1..] == vs[j + 1..];
      olds := olds + [Get(vals, xs[j])];
      vals := vals[xs[j] := vs[j]];
    }
  }

  /** The loops that put back what was overwritten. */
  method Restore<K(==), V>(vals0: map<K, V>, xs: seq<K>, olds: seq<Option<V>>) returns (vals: map<K, V>)
    requires |xs| == |olds|
    ensures vals == PutBack(vals0, xs, olds)
  {
    vals := vals0;
    for j := 0 to |xs|
      invariant PutBack(vals, xs[j..], olds[j..]) == PutBack(vals0, xs, olds)
    {
      assert xs[j..][1..] == xs[j + 1..] && olds[j..][1..] == olds[j + 1..];
      vals := Put(vals, xs[j], olds[j]);
    }
  }
}
