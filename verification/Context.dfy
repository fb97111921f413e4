/**
 The backtracking context: scopes, context objects and the intrusive chains
 that connect them (src/context/context.h and src/context/context.cpp).

 `ContextObj.data` is the part of an object that its save() copies and its
 restore() copies back.  A `prev` link is the address of the pointer that points
 at the object: the head of a scope's list or the `next` field of another object.
 */
module ContextKernel {
  import opened Basics
  import opened SaveStack
  import opened ContextModel
  import opened ContextStore

  datatype Link<!P> = Head(scope: Scope<P>) | After(node: ContextObj<P>)

  class Scope<P> {
    const level: nat
    var list: ContextObj?<P>

    constructor (level: nat)
      ensures this.level == level && list == null
    {
      this.level := level;
      list := null;
    }
  }

  class ContextObj<P> {
    var scope: Scope<P>
    var restore: ContextObj?<P>
    var next: ContextObj?<P>
    var prev: Link<P>
    var data: P

    constructor Fresh(scope: Scope<P>, data: P)
      ensures this.scope == scope && this.data == data && restore == null
    {
      this.scope, this.data, restore, next, prev := scope, data, null, null, Head(scope);
    }

    /** The copy constructor, as save() uses it. */
    constructor Copy(o: ContextObj<P>)
      ensures scope == o.scope && restore == o.restore && next == o.next && prev == o.prev && data == o.data
    {
      scope, restore, next, prev, data := o.scope, o.restore, o.next, o.prev, o.data;
    }
  }

  /** The chain of `s` is exactly `c`, doubly linked and without repetition. */
  ghost predicate Linked<P>(s: Scope<P>, c: seq<ContextObj<P>>)
    reads s`list, (set n | n in c)`scope, (set n | n in c)`next, (set n | n in c)`prev
  {
    && s.list == (if c == [] then null else c[0])
    && (forall i {:trigger c[i].scope} :: 0 <= i < |c| ==> c[i].scope == s)
    && (forall i {:trigger c[i].next} :: 0 <= i < |c| ==> c[i].next == if i + 1 < |c| then c[i + 1] else null)
    && (forall i {:trigger c[i].prev} :: 0 <= i < |c| ==> c[i].prev == if i == 0 then Head(s) else After(c[i - 1]))
    && forall i, j :: 0 <= i < j < |c| ==> c[i] != c[j]
  }

  /** `*prev() = x; next()->prev() = &x->next()`: x takes the place of c[i], whose links it has copied. */
  method Splice<P>(ghost s: Scope<P>, ghost c: seq<ContextObj<P>>, ghost i: nat, x: ContextObj<P>)
    requires Linked(s, c) && i < |c| && x !in c
    requires x.scope == s && x.next == c[i].next && x.prev == c[i].prev
    modifies s`list, (set n | n in c)`next, (set n | n in c)`prev
    ensures Linked(s, c[i := x])
  {
    assert i + 1 < |c| ==> c[i + 1] != c[i];
    if x.next != null {
      x.next.prev := After(x);
    }
    match x.prev {
      case Head(h) => h.list := x;
      case After(p) => p.next := x;
    }
  }

  /** Scope::addToChain */
  method AddToChain<P>(s: Scope<P>, ghost c: seq<ContextObj<P>>, x: ContextObj<P>)
    requires Linked(s, c) && x !in c && x.scope == s
    modifies s`list, x`next, x`prev, (set n | n in c)`prev
    ensures Linked(s, [x] + c)
  {
    if s.list != null {
      s.list.prev := After(x);
    }
    x.next := s.list;
    x.prev := Head(s);
    s.list := x;
  }

  /** The unlinking step of ContextObj::destroy. */
  method Unlink<P>(ghost s: Scope<P>, ghost c: seq<ContextObj<P>>, ghost i: nat, o: ContextObj<P>)
    requires Linked(s, c) && i < |c| && c[i] == o
    modifies s`list, (set n | n in c)`next, (set n | n in c)`prev
    ensures Linked(s, c[..i] + c[i + 1..])
  {
    if o.next != null {
      o.next.prev := o.prev;
    }
    match o.prev {
      case Head(h) => h.list := o.next;
      case After(p) => p.next := o.next;
    }
  }

  /** The scopes `ss` have the levels 0, 1, ... and the chains `cs`, all of whose members are in `ns`. */
  ghost predicate AllLinked<P>(ss: seq<Scope<P>>, cs: seq<seq<ContextObj<P>>>, ns: set<ContextObj<P>>)
    reads ss`list, ns`scope, ns`next, ns`prev
  {
    && |ss| == |cs|
    && (forall l, i {:trigger cs[l][i]} :: 0 <= l < |cs| && 0 <= i < |cs[l]| ==> cs[l][i] in ns)
    && (forall l {:trigger ss[l]} :: 0 <= l < |ss| ==> ss[l].level == l)
    && forall l {:trigger Linked(ss[l], cs[l])} :: 0 <= l < |ss| ==> Linked(ss[l], cs[l])
  }

  lemma PushLinked<P>(ss: seq<Scope<P>>, top: Scope<P>, cs: seq<seq<ContextObj<P>>>, ns: set<ContextObj<P>>)
    requires AllLinked(ss, cs, ns) && top.level == |ss| && top.list == null
    ensures AllLinked(ss + [top], cs + [[]], ns)
  {
    var ss', cs' := ss + [top], cs + [[]];
    forall l | 0 <= l < |ss'| ensures Linked(ss'[l], cs'[l]) { assert l < |ss| ==> Linked(ss[l], cs[l]); }
  }

  /** Chains of different scopes share no node. */
  lemma LinkedDisjoint<P>(ss: seq<Scope<P>>, cs: seq<seq<ContextObj<P>>>, ns: set<ContextObj<P>>, l: nat)
    requires AllLinked(ss, cs, ns) && l < |ss|
    ensures forall k, i :: 0 <= k < |ss| && k != l && 0 <= i < |cs[k]| ==> cs[k][i] !in cs[l]
  {
    assert Linked(ss[l], cs[l]) && ss[l].level == l;
    forall k, i | 0 <= k < |ss| && k != l && 0 <= i < |cs[k]| ensures cs[k][i] !in cs[l] {
      assert Linked(ss[k], cs[k]) && ss[k].level == k;
      assert cs[k][i].scope == ss[k];
      assert forall j :: 0 <= j < |cs[l]| ==> cs[l][j].scope == ss[l];
    }
  }

  /** addToChain on scope l: the other chains stay as they are. */
  method Enter<P>(ss: seq<Scope<P>>, ghost cs: seq<seq<ContextObj<P>>>, ghost ns: set<ContextObj<P>>, l: nat,
    x: ContextObj<P>)
    requires AllLinked(ss, cs, ns) && l < |ss| && x !in ns && x.scope == ss[l]
    modifies ss`list, x`next, x`prev, ns`prev
    ensures AllLinked(ss, cs[l := [x] + cs[l]], ns + {x})
  {
    LinkedDisjoint(ss, cs, ns, l);
    assert Linked(ss[l], cs[l]);
    AddToChain(ss[l], cs[l], x);
    forall k | 0 <= k < |ss| && k != l ensures Linked(ss[k], cs[k]) {
      assert old(Linked(ss[k], cs[k]));
      assert ss[k].level == k && ss[l].level == l;
    }
  }

  /** x takes the place of cs[l][i]: the other chains stay as they are. */
  method Replace<P>(ghost ss: seq<Scope<P>>, ghost cs: seq<seq<ContextObj<P>>>, ghost ns: set<ContextObj<P>>,
                    ghost l: nat, ghost i: nat, x: ContextObj<P>)
    requires AllLinked(ss, cs, ns) && l < |ss| && i < |cs[l]| && x !in ns
    requires x.scope == ss[l] && x.next == cs[l][i].next && x.prev == cs[l][i].prev
    modifies ss`list, ns`next, ns`prev
    ensures AllLinked(ss, cs[l := cs[l][i := x]], ns - {cs[l][i]} + {x})
  {
    LinkedDisjoint(ss, cs, ns, l);
    assert Linked(ss[l], cs[l]);
    Splice(ss[l], cs[l], i, x);
    forall k | 0 <= k < |ss| && k != l ensures Linked(ss[k], cs[k]) {
      assert old(Linked(ss[k], cs[k]));
      assert ss[k].level == k && ss[l].level == l;
    }
  }

  /** o leaves its place i in chain l: the other chains stay as they are. */
  method Leave<P>(ghost ss: seq<Scope<P>>, ghost cs: seq<seq<ContextObj<P>>>, ghost ns: set<ContextObj<P>>,
                  ghost l: nat, ghost i: nat, o: ContextObj<P>)
    requires AllLinked(ss, cs, ns) && l < |ss| && i < |cs[l]| && cs[l][i] == o
    modifies ss`list, ns`next, ns`prev
    ensures AllLinked(ss, cs[l := RemoveAt(cs[l], i)], ns - {o})
  {
    LinkedDisjoint(ss, cs, ns, l);
    assert Linked(ss[l], cs[l]);
    Unlink(ss[l], cs[l], i, o);
    forall k | 0 <= k < |ss| && k != l ensures Linked(ss[k], cs[k]) {
      assert old(Linked(ss[k], cs[k]));
      assert ss[k].level == k && ss[l].level == l;
    }
  }

  /** The relinking of update(): `saved` stands in for o at cs[l][i], and o moves to the top scope. */
  method MoveToTop<P>(ss: seq<Scope<P>>, ghost cs: seq<seq<ContextObj<P>>>, ghost ns: set<ContextObj<P>>,
                      ghost l: nat, ghost i: nat, o: ContextObj<P>, saved: ContextObj<P>)
    requires AllLinked(ss, cs, ns) && l < |ss| - 1 && i < |cs[l]| && cs[l][i] == o && saved !in ns
    requires saved.scope == o.scope && saved.next == o.next && saved.prev == o.prev
    modifies ss`list, ns`next, ns`prev, saved`prev, o`scope, o`restore
    ensures AllLinked(ss, Moved(cs, l, i, o, saved), ns + {saved})
    ensures o.restore == saved
  {
    assert Linked(ss[l], cs[l]);
    assert cs[l][i].scope == ss[l];
    Replace(ss, cs, ns, l, i, saved);
    o.scope := ss[|ss| - 1];
    o.restore := saved;
    Enter(ss, cs[l := cs[l][i := saved]], ns - {o} + {saved}, |ss| - 1, o);
    assert ns - {o} + {saved} + {o} == ns + {saved};
  }

  /** ContextObj::restoreAndContinue on an object with a saved copy: `o` takes the place of the copy. */
  method RestoreAndContinue<P>(ghost ss: seq<Scope<P>>, ghost cs: seq<seq<ContextObj<P>>>, ghost ns: set<ContextObj<P>>,
                               ghost l: nat, ghost i: nat, o: ContextObj<P>)
    returns (next: ContextObj?<P>)
    requires AllLinked(ss, cs, ns) && l < |ss| && i < |cs[l]| && o !in ns && o.restore == cs[l][i]
    modifies o, ss`list, ns`next, ns`prev
    ensures next == old(o.next)
    ensures o.data == cs[l][i].data && o.restore == cs[l][i].restore
    ensures AllLinked(ss, cs[l := cs[l][i := o]], ns - {cs[l][i]} + {o})
  {
    assert Linked(ss[l], cs[l]) && cs[l][i].scope == ss[l];
    var c := o.restore;
    o.data := c.data;
    next := o.next;
    o.scope, o.next, o.prev, o.restore := c.scope, c.next, c.prev, c.restore;
    assert AllLinked(ss, cs, ns);
    Replace(ss, cs, ns, l, i, o);
  }

  /** The objects of `c` can be walked from `head` along their next pointers. */
  ghost predicate Forward<P>(head: ContextObj?<P>, c: seq<ContextObj<P>>)
    reads (set n | n in c)`next
  {
    && head == (if c == [] then null else c[0])
    && forall i {:trigger c[i].next} :: 0 <= i < |c| ==> c[i].next == if i + 1 < |c| then c[i + 1] else null
  }

  lemma ForwardTail<P>(c: seq<ContextObj<P>>)
    requires c != [] && Forward(c[0], c)
    ensures Forward(c[0].next, c[1..])
  {
    forall i | 0 <= i < |c| - 1 ensures c[1..][i].next == if i + 1 < |c| - 1 then c[1..][i + 1] else null {
      assert c[1..][i] == c[i + 1];
      assert c[i + 1].next == if i + 2 < |c| then c[i + 2] else null;
    }
  }

  ghost predicate Points<P>(r: ContextObj?<P>, v: Option<ContextObj<P>>) {
    match v case None => r == null case Some(c) => r == c
  }

  /** The restore pointer of every node is the next older version of the same object. */
  ghost predicate Restoring<P>(m: Model<ContextObj<P>>)
    reads m.ids.Keys`restore
  {
    forall n :: n in m.ids ==> Points(n.restore, Older(m, n))
  }

  /** The rest of update(), once the copy `saved` is made. */
  method Relocate<P>(ss: seq<Scope<P>>, ghost m: Model<ContextObj<P>>, o: ContextObj<P>, ghost i: nat,
    saved: ContextObj<P>)
    requires CanUpdate(m, o, i, saved) && |ss| == |m.chains| && AllLinked(ss, m.chains, m.ids.Keys) && Restoring(m)
    requires saved.scope == o.scope && saved.next == o.next && saved.prev == o.prev && saved.restore == o.restore
    modifies ss`list, m.ids.Keys`next, m.ids.Keys`prev, saved`prev, o`scope, o`restore
    ensures o.restore == saved
    ensures AllLinked(ss, Updated(m, o, i, saved).chains, Updated(m, o, i, saved).ids.Keys)
    ensures Restoring(Updated(m, o, i, saved))
  {
    UpdatedOlder(m, o, i, saved);
    MoveToTop(ss, m.chains, m.ids.Keys, m.tracks[o].level, i, o, saved);
    assert Updated(m, o, i, saved).ids.Keys == m.ids.Keys + {saved};
  }

  /** restoreAndContinue on the first object of the top scope. */
  method RestoreHead<P>(ghost ss: seq<Scope<P>>, ghost m: Model<ContextObj<P>>, o: ContextObj<P>, ghost i: nat)
    returns (next: ContextObj?<P>)
    requires |m.chains| == |ss| + 1 && CanUnwind(m, o, 0, i) && m.tracks[o].level == |ss|
    requires Restoring(m) && AllLinked(ss, m.chains[..|ss|], Lower(m)) && Forward(o, m.chains[|ss|])
    modifies o, ss`list, Lower(m)`next, Lower(m)`prev
    ensures o.data == old(Newest(m.tracks[o]).data)
    ensures AllLinked(ss, Unwound(m, o, 0, i).chains[..|ss|], Lower(Unwound(m, o, 0, i)))
    ensures Restoring(Unwound(m, o, 0, i))
    ensures Forward(next, Unwound(m, o, 0, i).chains[|ss|])
  {
    ghost var k, c := |ss|, Newest(m.tracks[o]);
    UnwoundOlder(m, o, 0, i);
    UnwoundTop(m, o, i);
    ForwardTail(m.chains[k]);
    assert o !in m.chains[k][1..] by { assert Distinct(m.chains[k]); }
    assert forall n :: n in m.chains[k][1..] ==> n !in Lower(m);
    next := RestoreAndContinue(ss, m.chains[..k], Lower(m), m.tracks[o].Restored().level, i, o);
  }

  /** One round of the loop of destroy(): the unlinking, and restoreAndContinue. */
  method UnlinkAndRestore<P>(ghost ss: seq<Scope<P>>, ghost m: Model<ContextObj<P>>, o: ContextObj<P>, ghost j: nat,
    ghost i: nat)
    requires |m.chains| == |ss| && CanUnwind(m, o, j, i) && o in m.ids && o.restore == Newest(m.tracks[o])
    requires Restoring(m) && AllLinked(ss, m.chains, m.ids.Keys)
    modifies o, ss`list, m.ids.Keys`next, m.ids.Keys`prev
    ensures AllLinked(ss, Unwound(m, o, j, i).chains, Unwound(m, o, j, i).ids.Keys)
    ensures Restoring(Unwound(m, o, j, i))
  {
    ghost var t, ns := m.tracks[o], m.ids.Keys;
    ghost var cs := m.chains[t.level := RemoveAt(m.chains[t.level], j)];
    UnwoundOlder(m, o, j, i);
    Leave(ss, m.chains, ns, t.level, j, o);
    var _ := RestoreAndContinue(ss, cs, ns - {o}, t.Restored().level, i, o);
    assert ns - {o} - {Newest(t)} + {o} == Unwound(m, o, j, i).ids.Keys;
  }

  /** `WriteNew(i, v)` writes to the i-th object that the run has created. */
  /** Writes and destructions are of objects from before the run, or of those that it has created, by number. */
  datatype Op<!P> =
    | Push
    | Pop
    | New(v: P)
    | Write(o: ContextObj<P>, v: P)
    | WriteNew(i: nat, v: P)
    | Destroy(o: ContextObj<P>)
    | DestroyNew(i: nat)

  ghost function LevelAfter<P>(op: Op<P>, level: int): int {
    match op case Push => level + 1 case Pop => level - 1 case _ => level
  }

  /** The objects from before the run that are left. */
  ghost function LeftAfter<P>(op: Op<P>, live: set<ContextObj<P>>): set<ContextObj<P>> {
    if op.Destroy? then live - {op.o} else live
  }

  /** The number of objects created in the run that are left. */
  ghost function CountAfter<P>(op: Op<P>, n: int): int {
    match op case New(_) => n + 1 case DestroyNew(_) => n - 1 case _ => n
  }

  ghost predicate Enabled<P>(op: Op<P>, live: set<ContextObj<P>>, level: int, base: nat, n: int) {
    match op
    case Pop => level > base
    case Write(o, _) => o in live
    case Destroy(o) => o in live
    case WriteNew(i, _) => i < n
    case DestroyNew(i) => i < n
    case _ => true
  }

  /** The operations are on live objects and never pop level `base - 1`. */
  ghost predicate Legal<P>(ops: seq<Op<P>>, live: set<ContextObj<P>>, level: int, base: nat, n: int) {
    ops == [] ||
    (Enabled(ops[0], live, level, base, n) &&
     Legal(ops[1..], LeftAfter(ops[0], live), LevelAfter(ops[0], level), base, CountAfter(ops[0], n)))
  }

  /** The objects from before that are left after the operations. */
  ghost function LeftAll<P>(ops: seq<Op<P>>, live: set<ContextObj<P>>): set<ContextObj<P>> {
    if ops == [] then live else LeftAll(ops[1..], LeftAfter(ops[0], live))
  }

  /** What an operation does to the values of all objects at all levels. */
  ghost function StoreAfter<P>(op: Op<P>, s: Store<ContextObj<P>, P>): Store<ContextObj<P>, P> {
    if !s.Ok() then s
    else
      match op
      case Push => s.Pushed()
      case Pop => s.Popped(s.height - 1)
      case New(v) => s.Created(v)
      case Write(o, v) => if o in s.olds then s.Written(o, v) else s
      case WriteNew(i, v) => if i < |s.news| then s.NewWritten(i, v) else s
      case Destroy(o) => s.Destroyed(o)
      case DestroyNew(i) => if i < |s.news| then s.NewDestroyed(i) else s
  }

  ghost function StoreAfterAll<P>(ops: seq<Op<P>>, s: Store<ContextObj<P>, P>): Store<ContextObj<P>, P> {
    if ops == [] then s else StoreAfterAll(ops[1..], StoreAfter(ops[0], s))
  }

  lemma {:induction false} LeftLess<P>(ops: seq<Op<P>>, live: set<ContextObj<P>>)
    ensures LeftAll(ops, live) <= live
    decreases |ops|
  {
    if ops != [] {
      LeftLess(ops[1..], LeftAfter(ops[0], live));
    }
  }

  lemma LessOne<O>(c: seq<O>, i: nat)
    requires Distinct(c) && i < |c|
    ensures var c' := c[..i] + c[i + 1..]; Distinct(c') && Elems(c') == Elems(c) - {c[i]}
  {
    var c' := c[..i] + c[i + 1..];
    forall n | n in c && n != c[i] ensures n in c' {
      var k :| 0 <= k < |c| && c[k] == n;
      assert c'[if k < i then k else k - 1] == n;
    }
    forall n | n in c' ensures n in c && n != c[i] {
      var k :| 0 <= k < |c'| && c'[k] == n;
      assert n == c[if k < i then k else k + 1];
    }
  }

  lemma WithoutOne<P>(op: Op<P>, live: set<ContextObj<P>>, created: seq<ContextObj<P>>, o: ContextObj<P>,
                      created': seq<ContextObj<P>>)
    requires Distinct(created) && live !! Elems(created) && Enabled(op, live, 1, 0, |created|)
    requires if op.Destroy? then o == op.o && created' == created
             else op.DestroyNew? && o == created[op.i] && created' == created[..op.i] + created[op.i + 1..]
    ensures o in live + Elems(created) && LeftAfter(op, live) + Elems(created') == live + Elems(created) - {o}
    ensures Elems(created') <= Elems(created) && Distinct(created') && LeftAfter(op, live) !! Elems(created')
  {
    if op.DestroyNew? {
      assert o in Elems(created);
      LessOne(created, op.i);
    }
  }

  lemma StoreLeft<P>(op: Op<P>, s: Store<ContextObj<P>, P>)
    requires s.Ok()
    ensures StoreAfter(op, s).olds.Keys == LeftAfter(op, s.olds.Keys)
  {
  }

  /** The store after the destruction of an object. */
  lemma MirrorsRemove<P>(op: Op<P>, s: Store<ContextObj<P>, P>, m: Model<ContextObj<P>>, d: map<ContextObj<P>, P>,
                         m': Model<ContextObj<P>>, d': map<ContextObj<P>, P>, created: seq<ContextObj<P>>,
                         o: ContextObj<P>)
    requires Mirrors(s, m, d, created) && s.Ok() && Distinct(created) && s.olds.Keys !! Elems(created)
    requires KeptBelow(m, d, m', d', |m.chains|) && |m'.chains| == |m.chains| && m'.tracks.Keys == m.tracks.Keys - {o}
    requires match op
             case Destroy(x) => o == x && o in s.olds
             case DestroyNew(i) => i < |created| && o == created[i]
             case _ => false
    ensures Mirrors(StoreAfter(op, s), m', d',
                    if op.Destroy? then created else created[..op.i] + created[op.i + 1..])
  {
    if op.Destroy? {
      assert o !in Elems(created);
      MirrorsDestroy(s, m, d, m', d', created, o);
    } else {
      assert created[op.i] in Elems(created);
      MirrorsNewDestroy(s, m, d, m', d', created, op.i);
    }
  }

  /** The store after a write. */
  lemma MirrorsChange<P>(op: Op<P>, s: Store<ContextObj<P>, P>, m: Model<ContextObj<P>>, d: map<ContextObj<P>, P>,
                         m': Model<ContextObj<P>>, d': map<ContextObj<P>, P>, created: seq<ContextObj<P>>,
                         o: ContextObj<P>)
    requires Mirrors(s, m, d, created) && s.Ok() && Distinct(created) && s.olds.Keys !! Elems(created)
    requires OneChange(m, d, m', d', o) && o in d'
    requires match op
             case Write(x, v) => o == x && o in s.olds && d'[o] == v
             case WriteNew(i, v) => i < |created| && o == created[i] && d'[o] == v
             case _ => false
    ensures Mirrors(StoreAfter(op, s), m', d', created)
  {
    if op.Write? {
      assert o !in Elems(created);
      MirrorsWrite(s, m, d, m', d', created, o);
    } else {
      assert created[op.i] in Elems(created);
      MirrorsNewWrite(s, m, d, m', d', created, op.i);
    }
  }

  class Context<P> {
    var scopes: seq<Scope<P>>
    ghost var m: Model<ContextObj<P>>

    ghost predicate Valid()
      reads this, scopes`list, m.ids.Keys`scope, m.ids.Keys`next, m.ids.Keys`prev, m.ids.Keys`restore
    {
      && Inv(m) && scopes != []
      && AllLinked(scopes, m.chains, m.ids.Keys)
      && Restoring(m)
    }

    function Level(): nat
      requires scopes != []
      reads this
    {
      |scopes| - 1
    }

    constructor ()
      ensures Valid() && fresh(scopes) && m == Model([[]], map[], map[])
    {
      var bottom := new Scope<P>(0);
      scopes, m := [bottom], Model([[]], map[], map[]);
    }

    /** What every node holds. */
    ghost function Data(): (d: map<ContextObj<P>, P>)
      ensures d.Keys == m.ids.Keys
      reads this`m, m.ids.Keys`data
    {
      map n | n in m.ids :: n.data
    }

    /** Context::push */
    method Push()
      requires Valid()
      modifies this
      ensures Valid() && m == Pushed(old(m)) && Data() == old(Data())
      ensures fresh(scopes[Level()]) && scopes[..Level()] == old(scopes)
      ensures SameBelow(old(m), old(Data()), m, Data(), Level())
    {
      PushedViews(m, Data());
      ghost var m0 := m;
      m := Pushed(m0);
      var top := new Scope<P>(|scopes|);
      PushLinked(scopes, top, m0.chains, m0.ids.Keys);
      scopes := scopes + [top];
      assert Data() == old(Data());
    }

    /** The statements of ContextObj::ContextObj. */
    method Create(data: P) returns (o: ContextObj<P>)
      requires Valid()
      modifies this`m, scopes`list, m.ids.Keys`prev
      ensures Valid() && fresh(o) && o.data == data && m == Created(old(m), o)
    {
      o := new ContextObj<P>.Fresh(scopes[0], data);
      ghost var m0 := m;
      CreatedInv(m0, o);
      CreatedOlder(m0, o);
      m := Created(m0, o);
      assert m.ids.Keys == m0.ids.Keys + {o};
      Enter(scopes, m0.chains, m0.ids.Keys, 0, o);
    }

    /** ContextObj::ContextObj: a new object enters the bottom scope; the others are as they were, at every level. */
    method New(data: P) returns (o: ContextObj<P>)
      requires Valid()
      modifies this`m, scopes`list, m.ids.Keys`prev
      ensures Valid() && fresh(o) && o.data == data && m == Created(old(m), o)
      ensures KeptBelow(old(m), old(Data()), m, Data(), |scopes|)
    {
      ghost var d0 := Data();
      o := Create(data);
      CreatedViews(old(m), d0, o, Data());
    }

    /** The statements of ContextObj::update; i is the place that `o` had in its chain. */
    method Relink(o: ContextObj<P>) returns (ghost i: nat)
      requires Valid() && o in m.tracks && m.tracks[o].level != Level()
      modifies this`m, scopes`list, m.ids.Keys`prev, m.ids.Keys`next, o`scope, o`restore
      ensures Valid()
      ensures o.restore != null && fresh(o.restore) && o.restore.data == o.data
      ensures CanUpdate(old(m), o, i, o.restore) && m == Updated(old(m), o, i, o.restore)
    {
      i := FindPlace(m, o);
      var saved := new ContextObj<P>.Copy(o);
      ghost var m0 := m;
      UpdatedInv(m0, o, i, saved);
      m := Updated(m0, o, i, saved);
      Relocate(scopes, m0, o, i, saved);
    }

    /** ContextObj::update */
    method Update(o: ContextObj<P>)
      requires Valid() && o in m.tracks && m.tracks[o].level != Level()
      modifies this`m, scopes`list, m.ids.Keys`prev, m.ids.Keys`next, o`scope, o`restore
      ensures Valid() && o in m.tracks && m.tracks[o].level == Level()
      ensures o.restore != null && fresh(o.restore) && m.ids.Keys == old(m.ids.Keys) + {o.restore}
      ensures CopiesSame(old(m), m) && OneSaved(old(m), m, o)
      ensures SameBelow(old(m), old(Data()), m, Data(), Level())
    {
      ghost var m0, d0 := m, Data();
      ghost var i := Relink(o);
      UpdatedKeys(m0, o, i, o.restore);
      UpdatedViews(m0, d0, o, i, o.restore, Data());
    }

    /** The pointer test of isCurrent() compares levels. */
    lemma ScopeLevel(o: ContextObj<P>)
      requires Valid() && o in m.tracks
      ensures o in m.ids && m.tracks[o].level <= Level() && o.scope == scopes[m.tracks[o].level]
      ensures o.scope == scopes[Level()] <==> m.tracks[o].level == Level()
    {
      var i := FindPlace(m, o);
      var l := m.tracks[o].level;
      assert Linked(scopes[l], m.chains[l]);
      assert m.chains[l][i].scope == scopes[l];
      assert scopes[l].level == l && scopes[Level()].level == Level();
    }

    /** ContextObj::makeCurrent */
    method MakeCurrent(o: ContextObj<P>)
      requires Valid() && o in m.tracks
      modifies this`m, scopes`list, m.ids.Keys`prev, m.ids.Keys`next, o`scope, o`restore
      ensures Valid() && o in m.tracks && m.tracks[o].level == Level()
      ensures m.ids.Keys >= old(m.ids.Keys) && fresh(m.ids.Keys - old(m.ids.Keys))
      ensures CopiesSame(old(m), m) && OneSaved(old(m), m, o)
      ensures SameBelow(old(m), old(Data()), m, Data(), Level())
    {
      ScopeLevel(o);
      if o.scope != scopes[|scopes| - 1] {
        Update(o);
      } else {
        WrittenViews(m, Data(), o, Data());
      }
    }

    /** The assignment to the data of an object that is current. */
    method Write(o: ContextObj<P>, v: P)
      requires Valid() && o in m.tracks && m.tracks[o].level == Level()
      modifies o`data
      ensures Valid() && o.data == v
      ensures SameBelow(m, old(Data()), m, Data(), Level())
    {
      o.data := v;
      WrittenViews(m, old(Data()), o, Data());
    }

    /** CDO::set: the write of a context object. */
    method Set(o: ContextObj<P>, v: P)
      requires Valid() && o in m.tracks
      modifies this`m, scopes`list, m.ids.Keys`prev, m.ids.Keys`next, o`scope, o`restore, o`data
      ensures Valid() && o in m.tracks && m.tracks[o].level == Level() && o.data == v
      ensures m.ids.Keys >= old(m.ids.Keys) && fresh(m.ids.Keys - old(m.ids.Keys))
      ensures CopiesSame(old(m), m) && OneSaved(old(m), m, o)
      ensures SameBelow(old(m), old(Data()), m, Data(), Level())
    {
      MakeCurrent(o);
      ghost var d := Data();
      Write(o, v);
      SameBelowTransitive(old(m), old(Data()), m, d, m, Data(), Level(), Level());
    }

    /** The state of ~Scope() for the former top scope, whose objects from `head` on are still to be restored. */
    ghost predicate Popping(head: ContextObj?<P>)
      reads this, scopes`list, m.ids.Keys`scope, m.ids.Keys`next, m.ids.Keys`prev, m.ids.Keys`restore
    {
      && Inv(m) && scopes != [] && |m.chains| == |scopes| + 1
      && Restoring(m)
      && AllLinked(scopes, m.chains[..|scopes|], Lower(m))
      && Elems(m.chains[|scopes|]) <= m.ids.Keys && Forward(head, m.chains[|scopes|])
    }

    /** At the start of ~Scope() all objects of the scope are still to be restored. */
    lemma StartPopping(top: Scope<P>)
      requires Inv(m) && scopes != [] && |m.chains| == |scopes| + 1
      requires Restoring(m) && AllLinked(scopes + [top], m.chains, m.ids.Keys)
      ensures Popping(top.list) && top !in scopes
    {
      var k, ss := |scopes|, scopes + [top];
      assert Linked(ss[k], m.chains[k]) && ss[k].level == k;
      forall l, i | 0 <= l < k && 0 <= i < |m.chains[l]| ensures m.chains[..k][l][i] in Lower(m) {
        LowerChains(m, l, i);
      }
      forall l | 0 <= l < k ensures Linked(scopes[l], m.chains[..k][l]) && scopes[l].level == l {
        assert Linked(ss[l], m.chains[l]) && ss[l].level == l;
      }
    }

    /** The statements of one round of the loop of ~Scope(). */
    method RestoreFirst(o: ContextObj<P>, ghost i: nat) returns (next: ContextObj?<P>)
      requires Popping(o) && CanUnwind(m, o, 0, i) && m.tracks[o].level == |scopes|
      modifies this`m, scopes`list, m.ids.Keys
      ensures Popping(next) && m == Unwound(old(m), o, 0, i)
      ensures o in Data() && Newest(old(m).tracks[o]) in old(Data())
              && Data()[o] == old(Data())[Newest(old(m).tracks[o])]
      ensures forall n :: n in Data() && n != o ==> n in old(Data()) && Data()[n] == old(Data())[n]
    {
      ghost var m0 := m;
      UnwoundInv(m0, o, 0, i);
      UnwoundMembers(m0, o, i);
      UnwoundOlder(m0, o, 0, i);
      m := Unwound(m0, o, 0, i);
      next := RestoreHead(scopes, m0, o, i);
    }

    /** One round of the loop of ~Scope(). */
    method PopOne(o: ContextObj<P>) returns (next: ContextObj?<P>)
      requires Popping(o)
      modifies this`m, scopes`list, m.ids.Keys
      ensures Popping(next)
      ensures |m.chains[|scopes|]| < |old(m.chains)[|scopes|]|
      ensures m.ids.Keys <= old(m.ids.Keys) && CopiesSame(old(m), m)
      ensures SameBelow(old(m), old(Data()), m, Data(), |scopes|)
    {
      ghost var m0, d0 := m, Data();
      ghost var i := MemberOfTop(m, 0);
      next := RestoreFirst(o, i);
      UnwoundMembers(m0, o, i);
      UnwoundViews(m0, d0, o, 0, i, Data());
    }

    /** The assignment of the loop of ~Scope(). */
    method Advance(top: Scope<P>, next: ContextObj?<P>)
      requires Popping(next) && top !in scopes
      modifies top`list
      ensures Popping(top.list) && top.list == next && Data() == old(Data())
    {
      top.list := next;
    }

    /** Scope::~Scope */
    method RestoreAll(top: Scope<P>)
      requires Popping(top.list) && top !in scopes
      modifies this`m, scopes`list, m.ids.Keys, top
      ensures Popping(null) && m.ids.Keys <= old(m.ids.Keys) && CopiesSame(old(m), m)
      ensures SameBelow(old(m), old(Data()), m, Data(), |scopes|)
    {
      ghost var m0, d0, d, k := m, Data(), Data(), |scopes|;
      SameBelowReflexive(m0, d0, k);
      while top.list != null
        invariant Popping(top.list) && m.ids.Keys <= m0.ids.Keys && CopiesSame(m0, m)
        invariant d == Data() && SameBelow(m0, d0, m, d, k)
        decreases |m.chains[k]|
      {
        ghost var m1, d1 := m, d;
        var next := PopOne(top.list);
        d := Data();
        SameBelowTransitive(m0, d0, m1, d1, m, d, k, k);
        Advance(top, next);
      }
    }

    /** With all its objects restored, the popped scope is forgotten. */
    ghost method Forget()
      requires Popping(null)
      modifies this`m
      ensures Valid() && m.ids == old(m.ids) && m.tracks == old(m.tracks)
      ensures SameBelow(old(m), old(Data()), m, Data(), |scopes|)
    {
      ghost var m1, d1 := m, Data();
      PoppedViews(m1, d1);
      assert Lower(m1) == m1.ids.Keys;
      m := Popped(m1);
      assert Data() == d1;
    }

    /** `delete pScope`: the destructor walks the chain, and then the scope is gone. */
    method Release(top: Scope<P>)
      requires Popping(top.list) && top !in scopes
      modifies this`m, scopes`list, m.ids.Keys, top
      ensures Valid() && m.ids.Keys <= old(m.ids.Keys) && CopiesSame(old(m), m)
      ensures SameBelow(old(m), old(Data()), m, Data(), |scopes|)
    {
      RestoreAll(top);
      ghost var m1, d1 := m, Data();
      Forget();
      SameBelowTransitive(old(m), old(Data()), m1, d1, m, Data(), |scopes|, |scopes|);
    }

    /** Context::pop: every object of the top scope gets back what it was when the scope was pushed. */
    method Pop()
      requires Valid() && Level() > 0
      modifies this, scopes, m.ids.Keys
      ensures Valid() && scopes == old(scopes)[..old(Level())]
      ensures m.ids.Keys <= old(m.ids.Keys) && CopiesSame(old(m), m)
      ensures SameBelow(old(m), old(Data()), m, Data(), |scopes|)
    {
      var top := scopes[|scopes| - 1];
      scopes := scopes[..|scopes| - 1];
      assert scopes + [top] == old(scopes);
      StartPopping(top);
      assert Data() == old(Data());
      Release(top);
    }

    /** Context::popto */
    method PopTo(toLevel: int)
      requires Valid()
      modifies this, scopes, m.ids.Keys
      ensures Valid() && m.ids.Keys <= old(m.ids.Keys)
      ensures scopes ==
              if toLevel < 0 then old(scopes)[..1]
              else if toLevel < |old(scopes)| then old(scopes)[..toLevel + 1]
              else old(scopes)
      ensures SameBelow(old(m), old(Data()), m, Data(), |scopes|)
    {
      var to := if toLevel < 0 then 0 else toLevel;
      ghost var m0, d0 := m, Data();
      SameBelowReflexive(m0, d0, |scopes|);
      while to < |scopes| - 1
        invariant Valid() && m.ids.Keys <= m0.ids.Keys
        invariant |scopes| <= |old(scopes)| && scopes == old(scopes)[..|scopes|]
        invariant |scopes| == |old(scopes)| || to < |scopes|
        invariant SameBelow(m0, d0, m, Data(), |scopes|)
      {
        ghost var m1, d1, k := m, Data(), |scopes|;
        Pop();
        SameBelowShrink(m0, d0, m1, d1, k, |scopes|);
        SameBelowTransitive(m0, d0, m1, d1, m, Data(), |scopes|, |scopes|);
      }
    }

    /** The objects are those in `live` and, apart from them, those in `created`. */
    ghost predicate Objects(live: set<ContextObj<P>>, created: seq<ContextObj<P>>)
      reads this`m
    {
      m.tracks.Keys == live + Elems(created) && Distinct(created) && live !! Elems(created)
    }

    /** The objects and their values at all levels are those of the store. */
    ghost predicate Stored(s: Store<ContextObj<P>, P>, created: seq<ContextObj<P>>)
      reads this`m, m.ids.Keys`data
    {
      Mirrors(s, m, Data(), created) && Objects(s.olds.Keys, created)
    }

    /** One operation of a run that keeps the levels below `base`. */
    method Step(op: Op<P>, ghost base: nat, ghost s: Store<ContextObj<P>, P>, created: seq<ContextObj<P>>)
      returns (created': seq<ContextObj<P>>)
      requires Valid() && base <= Level() && Stored(s, created) && Enabled(op, s.olds.Keys, Level(), base, |created|)
      modifies this, scopes, m.ids.Keys
      ensures Valid() && Level() == LevelAfter(op, old(Level())) && scopes[..base] == old(scopes)[..base]
      ensures fresh(m.ids.Keys - old(m.ids.Keys)) && fresh(Elems(scopes) - Elems(old(scopes)))
      ensures fresh(m.tracks.Keys - old(m.tracks.Keys))
      ensures KeptBelow(old(m), old(Data()), m, Data(), base)
      ensures |created'| == CountAfter(op, |created|) && Stored(StoreAfter(op, s), created')
      ensures fresh(Elems(created') - Elems(created))
      ensures StoreAfter(op, s).olds.Keys == LeftAfter(op, s.olds.Keys)
    {
      created' := created;
      MirrorsOk(s, m, Data(), created);
      StoreLeft(op, s);
      if op.New? {
        created' := Add(op.v, base, s, created);
      } else if op.Destroy? || op.DestroyNew? {
        created' := Remove(op, base, s, created);
      } else if op.Push? || op.Pop? {
        Shift(op, base, s, created);
      } else {
        Change(op, base, s, created);
      }
    }

    /** The same for what an earlier state has in common with this one. */
    method StepFrom(ghost m0: Model<ContextObj<P>>, ghost d0: map<ContextObj<P>, P>, op: Op<P>, ghost base: nat,
                    ghost s: Store<ContextObj<P>, P>, created: seq<ContextObj<P>>)
      returns (created': seq<ContextObj<P>>)
      requires Valid() && base <= Level() && Stored(s, created) && Enabled(op, s.olds.Keys, Level(), base, |created|)
      requires KeptBelow(m0, d0, m, Data(), base)
      modifies this, scopes, m.ids.Keys
      ensures Valid() && Level() == LevelAfter(op, old(Level())) && scopes[..base] == old(scopes)[..base]
      ensures fresh(m.ids.Keys - old(m.ids.Keys)) && fresh(Elems(scopes) - Elems(old(scopes)))
      ensures KeptBelow(m0, d0, m, Data(), base)
      ensures |created'| == CountAfter(op, |created|) && Stored(StoreAfter(op, s), created')
      ensures fresh(Elems(created') - Elems(created))
      ensures StoreAfter(op, s).olds.Keys == LeftAfter(op, s.olds.Keys)
    {
      ghost var m1, d1 := m, Data();
      created' := Step(op, base, s, created);
      KeptBelowTransitive(m0, d0, m1, d1, m, Data(), base);
    }

    method Remove(op: Op<P>, ghost base: nat, ghost s: Store<ContextObj<P>, P>, created: seq<ContextObj<P>>)
      returns (created': seq<ContextObj<P>>)
      requires Valid() && base <= Level() && Stored(s, created) && Enabled(op, s.olds.Keys, Level(), base, |created|)
      requires op.Destroy? || op.DestroyNew?
      modifies this`m, scopes, m.ids.Keys
      ensures Valid() && m.ids.Keys <= old(m.ids.Keys) && m.tracks.Keys <= old(m.tracks.Keys)
      ensures KeptBelow(old(m), old(Data()), m, Data(), base)
      ensures |created'| == CountAfter(op, |created|) && Stored(StoreAfter(op, s), created')
      ensures Elems(created') <= Elems(created)
    {
      ghost var m0, d0 := m, Data();
      MirrorsOk(s, m, d0, created);
      LiveIsNode(m);
      var o := if op.Destroy? then op.o else created[op.i];
      created' := if op.Destroy? then created else created[..op.i] + created[op.i + 1..];
      WithoutOne(op, s.olds.Keys, created, o, created');
      DestroyKept(o);
      MirrorsRemove(op, s, m0, d0, m, Data(), created, o);
      KeptBelowShrink(m0, d0, m, Data(), |scopes|, base);
    }

    method Add(v: P, ghost base: nat, ghost s: Store<ContextObj<P>, P>, created: seq<ContextObj<P>>)
      returns (created': seq<ContextObj<P>>)
      requires Valid() && base <= Level() && Stored(s, created)
      modifies this, scopes, m.ids.Keys
      ensures Valid() && scopes == old(scopes)
      ensures fresh(m.ids.Keys - old(m.ids.Keys)) && fresh(m.tracks.Keys - old(m.tracks.Keys))
      ensures KeptBelow(old(m), old(Data()), m, Data(), base)
      ensures |created'| == |created| + 1 && Stored(s.Created(v), created') && fresh(Elems(created') - Elems(created))
    {
      ghost var m0, d0 := m, Data();
      var o := New(v);
      created' := created + [o];
      MirrorsCreate(s, m0, d0, Data(), created, o);
      KeptBelowShrink(m0, d0, m, Data(), |scopes|, base);
    }

    /** A push or a pop. */
    method Shift(op: Op<P>, ghost base: nat, ghost s: Store<ContextObj<P>, P>, created: seq<ContextObj<P>>)
      requires Valid() && base <= Level() && Stored(s, created) && Enabled(op, s.olds.Keys, Level(), base, |created|)
      requires op.Push? || op.Pop?
      modifies this, scopes, m.ids.Keys
      ensures Valid() && Level() == LevelAfter(op, old(Level())) && scopes[..base] == old(scopes)[..base]
      ensures fresh(m.ids.Keys - old(m.ids.Keys)) && fresh(Elems(scopes) - Elems(old(scopes)))
      ensures fresh(m.tracks.Keys - old(m.tracks.Keys))
      ensures KeptBelow(old(m), old(Data()), m, Data(), base)
      ensures Stored(StoreAfter(op, s), created)
    {
      ghost var m0, d0 := m, Data();
      MirrorsOk(s, m, d0, created);
      if op.Push? {
        MirrorsPush(s, m, d0, created);
        Push();
      } else {
        Pop();
        MirrorsPop(s, m0, d0, m, Data(), created);
      }
      SameIsKept(m0, d0, m, Data(), base);
    }

    /** A write. */
    method Change(op: Op<P>, ghost base: nat, ghost s: Store<ContextObj<P>, P>, created: seq<ContextObj<P>>)
      requires Valid() && base <= Level() && Stored(s, created) && Enabled(op, s.olds.Keys, Level(), base, |created|)
      requires op.Write? || op.WriteNew?
      modifies this`m, scopes`list, m.ids.Keys
      ensures Valid() && m.tracks.Keys == old(m.tracks.Keys) && fresh(m.ids.Keys - old(m.ids.Keys))
      ensures KeptBelow(old(m), old(Data()), m, Data(), base) && Stored(StoreAfter(op, s), created)
    {
      assert op.WriteNew? ==> created[op.i] in Elems(created);
      ChangeObject(if op.Write? then op.o else created[op.i], op, base, s, created);
    }

    method ChangeObject(o: ContextObj<P>, op: Op<P>, ghost base: nat, ghost s: Store<ContextObj<P>, P>,
                        ghost created: seq<ContextObj<P>>)
      requires Valid() && base <= Level() && Stored(s, created) && o in m.tracks
      requires match op
               case Write(x, v) => o == x && o in s.olds
               case WriteNew(i, v) => i < |created| && o == created[i]
               case _ => false
      modifies this`m, scopes`list, m.ids.Keys
      ensures Valid() && m.tracks.Keys == old(m.tracks.Keys) && fresh(m.ids.Keys - old(m.ids.Keys))
      ensures KeptBelow(old(m), old(Data()), m, Data(), base)
      ensures Mirrors(StoreAfter(op, s), m, Data(), created) && StoreAfter(op, s).olds.Keys == s.olds.Keys
    {
      ghost var m0, d0 := m, Data();
      MirrorsOk(s, m, d0, created);
      StoreLeft(op, s);
      LiveIsNode(m0);
      Assign(o, op.v);
      ghost var m1, d1 := m, Data();
      MirrorsChange(op, s, m0, d0, m1, d1, created, o);
      OneChangeKept(m0, d0, m1, d1, o, base);
    }

    /** CDO::set: no other object changes in any respect. */
    method Assign(o: ContextObj<P>, v: P)
      requires Valid() && o in m.tracks
      modifies this`m, scopes`list, m.ids.Keys`prev, m.ids.Keys`next, o`scope, o`restore, o`data
      ensures Valid() && m.tracks.Keys == old(m.tracks.Keys)
      ensures m.ids.Keys >= old(m.ids.Keys) && fresh(m.ids.Keys - old(m.ids.Keys))
      ensures OneChange(old(m), old(Data()), m, Data(), o) && o in Data() && Data()[o] == v
    {
      ghost var m0, d0 := m, Data();
      LiveIsNode(m0);
      Set(o, v);
      LiveIsNode(m);
      ghost var d := Data();
      assert forall x {:trigger d[x]} :: x in d0 && x != o ==> x in d && d[x] == d0[x];
    }

    /** A destruction changes nothing for the other objects. */
    method DestroyKept(o: ContextObj<P>)
      requires Valid() && o in m.tracks
      modifies this`m, scopes`list, m.ids.Keys`next, m.ids.Keys`prev, o
      ensures Valid() && m.tracks.Keys == old(m.tracks.Keys) - {o} && m.ids.Keys <= old(m.ids.Keys)
      ensures KeptBelow(old(m), old(Data()), m, Data(), |scopes|)
    {
      Destroy(o);
      DestroyedViews(old(m), old(Data()), o, m, Data());
    }

    /**
     Any interleaving of pushes, pops, writes, creations and destructions that stays at or above level `base`
     leaves the levels below as they are, and acts on the values of all objects as the same operations on
     stacks of values.
     */
    method Run(ops: seq<Op<P>>, ghost base: nat) returns (created: seq<ContextObj<P>>)
      requires Valid() && base <= Level() && Legal(ops, m.tracks.Keys, Level(), base, 0)
      modifies this, scopes, m.ids.Keys
      ensures Valid() && base <= Level() && scopes[..base] == old(scopes)[..base]
      ensures fresh(m.ids.Keys - old(m.ids.Keys)) && fresh(Elems(scopes) - Elems(old(scopes)))
      ensures KeptBelow(old(m), old(Data()), m, Data(), base)
      ensures Stored(StoreAfterAll(ops, old(StoreOf(m, Data()))), created) && fresh(Elems(created))
      ensures Objects(LeftAll(ops, old(m.tracks.Keys)), created)
    {
      SameBelowReflexive(m, Data(), base);
      SameIsKept(m, Data(), m, Data(), base);
      created := RunFrom(ops, base, m, Data(), StoreOf(m, Data()), []);
    }

    method RunFrom(ops: seq<Op<P>>, ghost base: nat, ghost m0: Model<ContextObj<P>>, ghost d0: map<ContextObj<P>, P>,
                   ghost s: Store<ContextObj<P>, P>, created: seq<ContextObj<P>>) returns (created': seq<ContextObj<P>>)
      requires Valid() && base <= Level() && Stored(s, created) && Legal(ops, s.olds.Keys, Level(), base, |created|)
      requires KeptBelow(m0, d0, m, Data(), base)
      modifies this, scopes, m.ids.Keys
      ensures Valid() && base <= Level() && scopes[..base] == old(scopes)[..base]
      ensures fresh(m.ids.Keys - old(m.ids.Keys)) && fresh(Elems(scopes) - Elems(old(scopes)))
      ensures KeptBelow(m0, d0, m, Data(), base)
      ensures Stored(StoreAfterAll(ops, s), created') && fresh(Elems(created') - Elems(created))
      ensures StoreAfterAll(ops, s).olds.Keys == LeftAll(ops, s.olds.Keys)
      decreases |ops|
    {
      created' := created;
      if ops != [] {
        created' := StepFrom(m0, d0, ops[0], base, s, created);
        created' := RunFrom(ops[1..], base, m0, d0, StoreAfter(ops[0], s), created');
      }
    }

    /** The fields of the live objects, in terms of the model. */
    lemma LiveFields()
      requires Valid()
      ensures forall o {:trigger o in m.tracks} :: o in m.tracks ==>
                && o in m.ids && m.tracks[o].level < |scopes| && o in Data()
                && o.data == Data()[o] && o.scope == scopes[m.tracks[o].level] && Points(o.restore, Older(m, o))
    {
      forall o | o in m.tracks
        ensures o in m.ids && m.tracks[o].level < |scopes| && o.scope == scopes[m.tracks[o].level]
      {
        ScopeLevel(o);
      }
    }

    /** The levels below and the objects that are left after a run. */
    method RunAbove(ops: seq<Op<P>>, ghost base: nat) returns (created: seq<ContextObj<P>>)
      requires Valid() && base <= Level() && Legal(ops, m.tracks.Keys, Level(), base, 0)
      modifies this, scopes, m.ids.Keys
      ensures Valid() && base <= Level() && scopes[..base] == old(scopes)[..base]
      ensures fresh(m.ids.Keys - old(m.ids.Keys)) && fresh(Elems(scopes) - Elems(old(scopes)))
      ensures KeptBelow(old(m), old(Data()), m, Data(), base)
      ensures Objects(LeftAll(ops, old(m.tracks.Keys)), created) && fresh(Elems(created))
    {
      created := Run(ops, base);
    }

    /** A push, any run above it, and pops back to the starting level. */
    method PushRunPop(ops: seq<Op<P>>) returns (created: seq<ContextObj<P>>)
      requires Valid() && Legal(ops, m.tracks.Keys, Level() + 1, Level() + 1, 0)
      modifies this, scopes, m.ids.Keys
      ensures Valid() && scopes == old(scopes)
      ensures KeptBelow(old(m), old(Data()), m, Data(), |scopes|)
      ensures Objects(LeftAll(ops, old(m.tracks.Keys)), created) && fresh(Elems(created))
      ensures Survivors(old(m), m) == LeftAll(ops, old(m.tracks.Keys))
      ensures m.tracks.Keys - old(m.tracks.Keys) == Elems(created)
    {
      var n := |scopes|;
      ghost var m0, d0 := m, Data();
      Push();
      ghost var m1, d1 := m, Data();
      SameIsKept(m0, d0, m1, d1, n);
      created := RunAbove(ops, n);
      ghost var m2, d2 := m, Data();
      LeftLess(ops, m0.tracks.Keys);
      KeptBelowTransitive(m0, d0, m1, d1, m2, d2, n);
      PopTo(n - 1);
      SameIsKept(m2, d2, m, Data(), n);
      KeptBelowTransitive(m0, d0, m2, d2, m, Data(), n);
    }

    /**
     Context::ScopedPush: whatever is done inside, afterwards every object that was live, and has not been
     destroyed, is as it was before.
     */
    method Speculate(ops: seq<Op<P>>) returns (created: seq<ContextObj<P>>)
      requires Valid() && Legal(ops, m.tracks.Keys, Level() + 1, Level() + 1, 0)
      modifies this, scopes, m.ids.Keys
      ensures Valid() && scopes == old(scopes) && |m.chains| == |old(m).chains|
      ensures var left := LeftAll(ops, old(m.tracks.Keys));
              && Objects(left, created) && fresh(Elems(created))
              && GrownChain(m.chains[0], Those(old(m).chains[0], old(m).ids, left), Elems(created))
              && (forall j :: 0 < j < |m.chains| ==> m.chains[j] == Those(old(m).chains[j], old(m).ids, left))
              && forall o :: o in old(m.tracks) && o in left ==>
                   o.data == old(o.data) && o.scope == old(o.scope) && o.restore == old(o.restore)
    {
      LiveFields();
      created := PushRunPop(ops);
      KeptTop(old(m), old(Data()), m, Data());
      LiveFields();
    }

    /** The restore pointer of an object is null exactly when it is in its initial version, in the bottom scope. */
    lemma RestorePointer(o: ContextObj<P>)
      requires Valid() && o in m.tracks
      ensures o in m.ids && (o.restore == null <==> m.tracks[o].saved == [])
      ensures m.tracks[o].saved == [] ==> m.tracks[o].level == 0
      ensures m.tracks[o].saved != [] ==> o.restore == Newest(m.tracks[o])
    {
      LiveIsNode(m);
      assert Tracked(m, o);
      assert Points(o.restore, Older(m, o));
    }

    /** One round of destroy(): `o` leaves its chain and takes the place of its newest saved copy. */
    method DestroyOne(o: ContextObj<P>)
      requires Valid() && o in m.tracks && o.restore != null
      modifies this`m, scopes`list, m.ids.Keys`next, m.ids.Keys`prev, o
      ensures Valid() && o in m.tracks && |m.tracks[o].saved| < |old(m.tracks[o]).saved|
      ensures OnlyTouches(old(m), m, o)
    {
      RestorePointer(o);
      ghost var m0 := m;
      ghost var j := FindPlace(m, o);
      ghost var i := CopyPlace(m, o);
      UnwoundInv(m0, o, j, i);
      UnwoundTouches(m0, o, j, i);
      m := Unwound(m0, o, j, i);
      UnlinkAndRestore(scopes, m0, o, j, i);
    }

    /** The last round of destroy(): `o` leaves the bottom scope. */
    method DestroyLast(o: ContextObj<P>)
      requires Valid() && o in m.tracks && o.restore == null
      modifies this`m, scopes`list, m.ids.Keys`next, m.ids.Keys`prev, o
      ensures Valid() && m.tracks == old(m.tracks) - {o}
      ensures OnlyTouches(old(m), m, o)
      ensures forall l :: 0 <= l < |m.chains| ==> m.chains[l] == Others(old(m).chains[l], old(m).ids, o)
    {
      RestorePointer(o);
      ghost var m0 := m;
      ghost var i := FindPlace(m, o);
      DroppedInv(m0, o, i);
      DroppedOlder(m0, o, i);
      DroppedTouches(m0, o, i);
      m := Dropped(m0, o, i);
      Leave(scopes, m0.chains, m0.ids.Keys, 0, i, o);
    }

    /** ContextObj::destroy: `o` and its copies leave every chain; every other object stays as it is. */
    method Destroy(o: ContextObj<P>)
      requires Valid() && o in m.tracks
      modifies this`m, scopes`list, m.ids.Keys`next, m.ids.Keys`prev, o
      ensures Valid() && m.tracks == old(m.tracks) - {o}
      ensures OnlyTouches(old(m), m, o)
      ensures forall l :: 0 <= l < |m.chains| ==> m.chains[l] == Others(old(m).chains[l], old(m).ids, o)
    {
      ghost var m0 := m;
      while o.restore != null
        invariant Valid() && o in m.tracks && OnlyTouches(m0, m, o)
        decreases |m.tracks[o].saved|
      {
        ghost var m1 := m;
        DestroyOne(o);
        OnlyTouchesTransitive(m0, m1, m, o);
      }
      ghost var m1 := m;
      DestroyLast(o);
      OnlyTouchesTransitive(m0, m1, m, o);
    }
  }
}
