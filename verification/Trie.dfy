/**
 The symbol table of the proof checker (proofs/lfsc_checker/trie.h): a trie that
 keeps a suffix unsplit in a node for as long as no other string passes through it.
 A C string is a sequence of character codes, without the final zero.
 */
module Trie {
  import opened Basics

  type Text = seq<nat>

  /** What a table returns for a string. */
  ghost function Value<D>(m: map<Text, D>, s: Text, dflt: D): D {
    if s in m then m[s] else dflt
  }

  class Trie<D> {
    /** The value of the default constructor of the data type. */
    const dflt: D
    var str: Option<Text>
    var d: D
    var using_next: bool
    var next: seq<Trie?<D>>
    /** The strings that are stored below this node. */
    ghost var kids: map<Text, D>
    ghost var Repr: set<Trie<D>>

    /** The strings that are stored here and below. */
    ghost function Contents(): map<Text, D>
      reads this
    {
      if str.Some? then kids[str.value := d] else kids
    }

    ghost predicate ChildOk(c: nat)
      requires c < |next| && this in Repr
      reads this`next, this`Repr, Repr - {this}
      decreases Repr, 0
    {
      var n := next[c];
      n != null ==>
        && n != this && n in Repr && n in n.Repr && n.Repr <= Repr - {this} && n.dflt == dflt
        && n.Valid()
    }

    /** The children are tries of their own, and `kids` is what they hold. */
    ghost predicate KidsOk()
      reads this`using_next, this`next, this`kids, this`Repr, Repr - {this}
      decreases Repr, 1
    {
      && this in Repr && (using_next <==> next != [])
      && (forall c {:trigger ChildOk(c)} :: 0 <= c < |next| ==> ChildOk(c))
      && (forall a, b {:trigger Apart(a, b)} :: 0 <= a < b < |next| ==> Apart(a, b))
      && (forall s {:trigger Below(s)} :: s in kids <==> Below(s))
      && (forall s {:trigger Below(s)} :: s in kids && Below(s) ==> kids[s] == next[s[0]].Contents()[s[1..]])
    }

    ghost predicate Apart(a: nat, b: nat)
      requires a < |next| && b < |next|
      reads this`next, this`Repr, Repr - {this}
    {
      next[a] != null && next[b] != null && {next[a], next[b]} <= Repr - {this} ==> next[a].Repr !! next[b].Repr
    }

    /** The string is stored in the child for its first character. */
    ghost predicate Below(s: Text)
      reads this`next, this`Repr, Repr - {this}
    {
      && s != [] && s[0] < |next| && next[s[0]] != null && next[s[0]] in Repr - {this}
      && s[1..] in next[s[0]].Contents()
    }

    ghost predicate Valid()
      reads this, Repr
      decreases Repr, 2
    {
      && KidsOk()
      && (str.Some? && str.value != [] ==> !using_next)
      && (str.None? ==> d == dflt)
    }

    constructor (dflt: D)
      ensures Valid() && fresh(Repr) && Repr == {this} && Contents() == map[] && this.dflt == dflt
      ensures str.None? && !using_next
    {
      this.dflt := dflt;
      str, d, using_next, next := None, dflt, false, [];
      kids, Repr := map[], {this};
    }

    method Get(s: Text) returns (x: D)
      requires Valid()
      ensures x == Value(Contents(), s, dflt)
      decreases |s|, 1
    {
      assert s in kids <==> Below(s);
      if s == [] && (str.None? || str.value == []) {
        return d;
      }
      if str == Some(s) {
        return d;
      }
      if using_next {
        x := GetNext(s);
      } else {
        x := dflt;
      }
    }

    method GetNext(s: Text) returns (x: D)
      requires KidsOk() && s != []
      ensures x == Value(kids, s, dflt)
      decreases |s|, 0
    {
      assert s in kids <==> Below(s);
      var c := s[0];
      if c >= |next| {
        return dflt;
      }
      assert ChildOk(c);
      var n := next[c];
      if n == null {
        return dflt;
      }
      x := n.Get(s[1..]);
    }
 
    /** The child for character c, made if there is none. */
    method Child(c: nat) returns (n: Trie<D>)
      requires KidsOk()
      modifies this`using_next, this`next, this`Repr
      ensures KidsOk() && c < |next| && next[c] == n && kids == old(kids) && fresh(Repr - old(Repr))
      ensures (n in old(Repr) && n.Repr <= old(Repr)) || (fresh(n) && n.Repr == {n} && n.str.None? && !n.using_next)
      ensures !old(using_next) ==> fresh(n)
    {
      if c >= |next| {
        Widen(c + 1);
      }
      assert ChildOk(c);
      if next[c] == null {
        n := AddChild(c);
      } else {
        n := next[c];
      }
    }

    method AddChild(c: nat) returns (n: Trie<D>)
      requires KidsOk() && c < |next| && next[c] == null
      modifies this`next, this`Repr
      ensures KidsOk() && next == old(next)[c := n] && Repr == old(Repr) + {n}
      ensures fresh(n) && n.Repr == {n} && n.str.None? && !n.using_next
    {
      n := new Trie<D>(dflt);
      next := next[c := n];
      Repr := Repr + {n};
      forall a | 0 <= a < |next| ensures ChildOk(a) {
        assert old(ChildOk(a));
      }
      forall a, b | 0 <= a < b < |next| ensures Apart(a, b) {
        assert old(Apart(a, b)) && old(ChildOk(a)) && old(ChildOk(b));
      }
      forall s: Text ensures Below(s) == old(Below(s)) {
        assert s != [] && s[0] < |next| ==> old(ChildOk(s[0]));
      }
    }

    method Widen(size: nat)
      requires KidsOk() && |next| < size
      modifies this`using_next, this`next
      ensures KidsOk() && |next| == size && old(next) <= next && forall i :: |old(next)| <= i < size ==> next[i] == null
    {
      using_next := true;
      next := next + seq(size - |next|, _ => null);
      forall a | 0 <= a < |next| ensures ChildOk(a) {
        assert a < |old(next)| ==> old(ChildOk(a));
      }
      forall a, b | 0 <= a < b < |next| ensures Apart(a, b) {
        assert b < |old(next)| ==> old(Apart(a, b));
      }
      forall s: Text ensures Below(s) == old(Below(s)) {
      }
    }

    method InsertNext(s: Text, x: D) returns (was: D)
      requires KidsOk() && s != []
      modifies Repr
      ensures KidsOk() && fresh(Repr - old(Repr)) && str == old(str) && d == old(d) && using_next
      ensures kids == old(kids)[s := x] && was == Value(old(kids), s, dflt)
      decreases if using_next then 2 else 1, |s|, 0
    {
      var c := s[0];
      var n := Child(c);
      assert ChildOk(c);
      was := InsertBelow(n, s, x);
    }

    method InsertBelow(n: Trie<D>, s: Text, x: D) returns (was: D)
      requires KidsOk() && s != [] && s[0] < |next| && next[s[0]] == n && n in Repr && n.Valid()
      modifies this`kids, this`Repr, n.Repr
      ensures KidsOk() && fresh(Repr - old(Repr)) && kids == old(kids)[s := x] && was == Value(old(kids), s, dflt)
      decreases if n.str.None? && !n.using_next then 0 else 2, |s| - 1, 2
    {
      var c := s[0];
      assert ChildOk(c) && (s in kids <==> Below(s));
      was := n.Insert(s[1..], x);
      assert this !in n.Repr;
      kids := kids[s := x];
      Repr := Repr + n.Repr;
      OtherChildren(c);
      forall a, b | 0 <= a < b < |next| ensures Apart(a, b) {
        assert old(Apart(a, b)) && ChildOk(a) && ChildOk(b);
      }
      forall t: Text ensures t in kids <==> Below(t) {
        assert t in old(kids) <==> old(Below(t));
        if t != [] && t[0] < |next| {
          assert ChildOk(t[0]);
          assert t[0] == c && t[1..] == s[1..] ==> t == s;
        }
      }
      forall t: Text | t in kids && Below(t) ensures kids[t] == next[t[0]].Contents()[t[1..]] {
        assert t in old(kids) <==> old(Below(t));
        assert ChildOk(t[0]);
        assert t[0] == c && t[1..] == s[1..] ==> t == s;
      }
    }

    /** A change within child c leaves the other children alone. */
    twostate lemma OtherChildren(c: nat)
      requires old(KidsOk()) && next == old(next) && c < |next| && next[c] != null && this in Repr
      requires old(Repr) <= Repr && next[c].Repr <= Repr - {this} && next[c].Valid()
               && fresh(next[c].Repr - old(next[c].Repr))
      requires forall x :: x in old(Repr) && x != this && x !in old(next[c].Repr) ==> unchanged(x)
      ensures forall a {:trigger ChildOk(a)} :: 0 <= a < |next| ==>
                && ChildOk(a)
                && (a != c && next[a] != null ==>
                      unchanged(next[a]) && next[a] in old(Repr) - {this} && next[a].Repr !! next[c].Repr)
    {
      forall a | 0 <= a < |next|
        ensures ChildOk(a)
        ensures a != c && next[a] != null ==>
                  unchanged(next[a]) && next[a] in old(Repr) - {this} && next[a].Repr !! next[c].Repr
      {
        assert old(ChildOk(a)) && old(ChildOk(c));
        if a < c {
          assert old(Apart(a, c));
        } else if c < a {
          assert old(Apart(c, a));
        }
        if next[a] != null && a != c {
          assert old(next[a].Valid()) && next[a] in old(next[a].Repr);
          assert unchanged(next[a]);
          assert forall x :: x in next[a].Repr ==> unchanged(x);
        }
      }
    }

    method Insert(s: Text, x: D) returns (was: D)
      requires Valid()
      modifies Repr
      ensures Valid() && fresh(Repr - old(Repr))
      ensures Contents() == old(Contents())[s := x] && was == Value(old(Contents()), s, dflt)
      decreases if str.None? && !using_next then 0 else 2, |s|, 1
    {
      assert s in kids <==> Below(s);
      if s == [] {
        if str.Some? {
          if str.value == [] {
            was := d;
            d := x;
            return;
          }
          var _ := InsertNext(str.value, d);
        }
        str := Some(s);
        d := x;
        return dflt;
      }
      if str.Some? {
        if str.value != [] {
          var _ := InsertNext(str.value, d);
          str := None;
          d := dflt;
        }
        was := InsertNext(s, x);
        return;
      }
      if using_next {
        was := InsertNext(s, x);
        return;
      }
      str := Some(s);
      d := x;
      return dflt;
    }
  }
}
