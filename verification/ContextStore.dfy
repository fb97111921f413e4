/**
 What a context is for its users: every object has a stack of values, one for each level.  Objects that
 are created in a run are known by number, in the order of their creation.
 */
module ContextStore {
  import opened Basics
  import opened ContextModel

  datatype Store<!O, D> = Store(height: nat, olds: map<O, seq<D>>, news: seq<seq<D>>) {

    /** All stacks have the same height. */
    ghost predicate Ok() {
      && height > 0
      && (forall o :: o in olds ==> |olds[o]| == height)
      && (forall i :: 0 <= i < |news| ==> |news[i]| == height)
    }

    /** A push duplicates the value at the top of every stack. */
    ghost function Pushed(): Store<O, D>
      requires Ok()
    {
      Store(height + 1, map o | o in olds :: olds[o] + [olds[o][height - 1]],
            seq(|news|, i requires 0 <= i < |news| => news[i] + [news[i][height - 1]]))
    }

    /** Pops drop what is above the lowest n values. */
    ghost function Popped(n: nat): Store<O, D>
      requires Ok() && n <= height
    {
      Store(n, map o | o in olds :: olds[o][..n], seq(|news|, i requires 0 <= i < |news| => news[i][..n]))
    }

    /** A new object has its value at every level. */
    ghost function Created(v: D): Store<O, D> {
      Store(height, olds, news + [seq(height, _ => v)])
    }

    /** A write replaces the value at the top. */
    ghost function Written(o: O, v: D): Store<O, D>
      requires Ok() && o in olds
    {
      Store(height, olds[o := olds[o][height - 1 := v]], news)
    }

    ghost function NewWritten(i: nat, v: D): Store<O, D>
      requires Ok() && i < |news|
    {
      Store(height, olds, news[i := news[i][height - 1 := v]])
    }

    ghost function Destroyed(o: O): Store<O, D> {
      Store(height, olds - {o}, news)
    }

    ghost function NewDestroyed(i: nat): Store<O, D>
      requires i < |news|
    {
      Store(height, olds, news[..i] + news[i + 1..])
    }
  }

  /** The store says what every object holds at every level. */
  ghost predicate Mirrors<O, D>(s: Store<O, D>, m: Model<O>, d: map<O, D>, created: seq<O>) {
    && Inv(m) && m.ids.Keys == d.Keys && s.height == |m.chains| && |s.news| == |created|
    && (forall o {:trigger Shows(s.olds[o], m, d, o)} :: o in s.olds ==> Shows(s.olds[o], m, d, o))
    && (forall i {:trigger Shows(s.news[i], m, d, created[i])} :: 0 <= i < |created| ==>
          Shows(s.news[i], m, d, created[i]))
  }

  /** The stack has the values of the object at all levels. */
  ghost predicate Shows<O, D>(vs: seq<D>, m: Model<O>, d: map<O, D>, o: O)
    requires Inv(m) && m.ids.Keys == d.Keys
  {
    o in m.tracks && vs == ValuesOf(m, d, o)
  }

  /** The store at the start of a run. */
  ghost function StoreOf<O, D>(m: Model<O>, d: map<O, D>): (s: Store<O, D>)
    requires Inv(m) && m.ids.Keys == d.Keys
    ensures Mirrors(s, m, d, []) && s.olds.Keys == m.tracks.Keys && s.Ok()
  {
    Store(|m.chains|, map o | o in m.tracks :: ValuesOf(m, d, o), [])
  }

  lemma MirrorsOk<O, D>(s: Store<O, D>, m: Model<O>, d: map<O, D>, created: seq<O>)
    requires Mirrors(s, m, d, created)
    ensures s.Ok()
  {
    forall o | o in s.olds ensures |s.olds[o]| == s.height { assert Shows(s.olds[o], m, d, o); }
    forall i | 0 <= i < |s.news| ensures |s.news[i]| == s.height { assert Shows(s.news[i], m, d, created[i]); }
  }

  lemma MirrorsPush<O, D>(s: Store<O, D>, m: Model<O>, d: map<O, D>, created: seq<O>)
    requires Mirrors(s, m, d, created)
    ensures s.Ok() && Mirrors(s.Pushed(), ContextModel.Pushed(m), d, created)
  {
    MirrorsOk(s, m, d, created);
    PushedInv(m);
    var s', m' := s.Pushed(), ContextModel.Pushed(m);
    forall o | o in s'.olds ensures Shows(s'.olds[o], m', d, o) {
      assert Shows(s.olds[o], m, d, o);
      PushedValues(m, d, o);
    }
    forall i | 0 <= i < |created| ensures Shows(s'.news[i], m', d, created[i]) {
      assert Shows(s.news[i], m, d, created[i]);
      PushedValues(m, d, created[i]);
    }
  }

  lemma StoreOfPush<O, D>(m: Model<O>, d: map<O, D>)
    requires Inv(m) && m.ids.Keys == d.Keys
    ensures Inv(ContextModel.Pushed(m)) && StoreOf(ContextModel.Pushed(m), d) == StoreOf(m, d).Pushed()
  {
    PushedInv(m);
    forall o | o in m.tracks
      ensures ValuesOf(ContextModel.Pushed(m), d, o) == StoreOf(m, d).Pushed().olds[o]
    {
      PushedValues(m, d, o);
    }
  }

  lemma MirrorsPop<O, D>(s: Store<O, D>, m: Model<O>, d: map<O, D>, m': Model<O>, d': map<O, D>, created: seq<O>)
    requires Mirrors(s, m, d, created) && |m'.chains| <= |m.chains| && SameBelow(m, d, m', d', |m'.chains|)
    ensures s.Ok() && Mirrors(s.Popped(|m'.chains|), m', d', created)
  {
    MirrorsOk(s, m, d, created);
    var n := |m'.chains|;
    var s' := s.Popped(n);
    forall o | o in s'.olds ensures Shows(s'.olds[o], m', d', o) {
      assert Shows(s.olds[o], m, d, o);
      SameValues(m, d, m', d', n, o);
      assert ValuesOf(m', d', o)[..n] == ValuesOf(m', d', o);
    }
    forall i | 0 <= i < |created| ensures Shows(s'.news[i], m', d', created[i]) {
      assert Shows(s.news[i], m, d, created[i]);
      SameValues(m, d, m', d', n, created[i]);
      assert ValuesOf(m', d', created[i])[..n] == ValuesOf(m', d', created[i]);
    }
  }

  /** Nothing but the data of `x` has changed at the top level, and nothing below it. */
  ghost predicate OneChange<O, D>(m: Model<O>, d: map<O, D>, m': Model<O>, d': map<O, D>, x: O) {
    && m.chains != [] && |m'.chains| == |m.chains| && SameBelow(m, d, m', d', |m.chains| - 1)
    && forall o :: o in m.tracks && o != x ==> o in d && o in d' && d'[o] == d[o]
  }

  lemma OneChangeKept<O, D>(m: Model<O>, d: map<O, D>, m': Model<O>, d': map<O, D>, x: O, base: nat)
    requires OneChange(m, d, m', d', x) && base <= |m.chains| - 1
    ensures KeptBelow(m, d, m', d', base)
  {
    SameBelowShrink(m, d, m', d', |m.chains| - 1, base);
    SameIsKept(m, d, m', d', base);
  }

  lemma OtherValues<O, D>(m: Model<O>, d: map<O, D>, m': Model<O>, d': map<O, D>, x: O, o: O)
    requires OneChange(m, d, m', d', x) && o in m.tracks && o != x
    ensures ValuesOf(m', d', o) == ValuesOf(m, d, o)
  {
    TopValue(m, d, o);
    WrittenValues(m, d, m', d', o);
  }

  lemma MirrorsWrite<O, D>(s: Store<O, D>, m: Model<O>, d: map<O, D>, m': Model<O>, d': map<O, D>,
                           created: seq<O>, x: O)
    requires Mirrors(s, m, d, created) && OneChange(m, d, m', d', x) && x in s.olds && x !in created
    ensures s.Ok() && x in d' && Mirrors(s.Written(x, d'[x]), m', d', created)
  {
    MirrorsOk(s, m, d, created);
    assert Shows(s.olds[x], m, d, x);
    WrittenValues(m, d, m', d', x);
    var s' := s.Written(x, d'[x]);
    forall o | o in s'.olds ensures Shows(s'.olds[o], m', d', o) {
      assert Shows(s.olds[o], m, d, o);
      if o != x {
        OtherValues(m, d, m', d', x, o);
      }
    }
    forall i | 0 <= i < |created| ensures Shows(s'.news[i], m', d', created[i]) {
      assert Shows(s.news[i], m, d, created[i]);
      OtherValues(m, d, m', d', x, created[i]);
    }
  }

  lemma MirrorsNewWrite<O, D>(s: Store<O, D>, m: Model<O>, d: map<O, D>, m': Model<O>, d': map<O, D>,
                              created: seq<O>, k: nat)
    requires Mirrors(s, m, d, created) && k < |created| && OneChange(m, d, m', d', created[k])
    requires Distinct(created) && created[k] !in s.olds
    ensures s.Ok() && created[k] in d' && Mirrors(s.NewWritten(k, d'[created[k]]), m', d', created)
  {
    MirrorsOk(s, m, d, created);
    var x := created[k];
    assert Shows(s.news[k], m, d, x);
    WrittenValues(m, d, m', d', x);
    var s' := s.NewWritten(k, d'[x]);
    forall o | o in s'.olds ensures Shows(s'.olds[o], m', d', o) {
      assert Shows(s.olds[o], m, d, o);
      OtherValues(m, d, m', d', x, o);
    }
    forall i | 0 <= i < |created| ensures Shows(s'.news[i], m', d', created[i]) {
      assert Shows(s.news[i], m, d, created[i]);
      if i != k {
        OtherValues(m, d, m', d', x, created[i]);
      }
    }
  }

  lemma MirrorsCreate<O, D>(s: Store<O, D>, m: Model<O>, d: map<O, D>, d': map<O, D>, created: seq<O>, x: O)
    requires Mirrors(s, m, d, created) && x !in m.ids && ContextModel.Created(m, x).ids.Keys == d'.Keys
    requires KeptBelow(m, d, ContextModel.Created(m, x), d', |m.chains|)
    ensures x in d' && Mirrors(s.Created(d'[x]), ContextModel.Created(m, x), d', created + [x])
  {
    var m' := ContextModel.Created(m, x);
    CreatedValues(m, x, d');
    var s', created' := s.Created(d'[x]), created + [x];
    forall o | o in s'.olds ensures Shows(s'.olds[o], m', d', o) {
      assert Shows(s.olds[o], m, d, o);
      KeptValues(m, d, m', d', o);
    }
    forall i | 0 <= i < |created'| ensures Shows(s'.news[i], m', d', created'[i]) {
      if i < |created| {
        assert Shows(s.news[i], m, d, created[i]);
        KeptValues(m, d, m', d', created[i]);
      }
    }
  }

  lemma MirrorsDestroy<O, D>(s: Store<O, D>, m: Model<O>, d: map<O, D>, m': Model<O>, d': map<O, D>,
                             created: seq<O>, x: O)
    requires Mirrors(s, m, d, created) && KeptBelow(m, d, m', d', |m.chains|) && |m'.chains| == |m.chains|
    requires m'.tracks.Keys == m.tracks.Keys - {x} && x !in created
    ensures Mirrors(s.Destroyed(x), m', d', created)
  {
    var s' := s.Destroyed(x);
    forall o | o in s'.olds ensures Shows(s'.olds[o], m', d', o) {
      assert Shows(s.olds[o], m, d, o);
      KeptValues(m, d, m', d', o);
    }
    forall i | 0 <= i < |created| ensures Shows(s'.news[i], m', d', created[i]) {
      assert Shows(s.news[i], m, d, created[i]);
      KeptValues(m, d, m', d', created[i]);
    }
  }

  lemma MirrorsNewDestroy<O, D>(s: Store<O, D>, m: Model<O>, d: map<O, D>, m': Model<O>, d': map<O, D>,
                                created: seq<O>, k: nat)
    requires Mirrors(s, m, d, created) && KeptBelow(m, d, m', d', |m.chains|) && |m'.chains| == |m.chains|
    requires k < |created| && Distinct(created) && created[k] !in s.olds
    requires m'.tracks.Keys == m.tracks.Keys - {created[k]}
    ensures Mirrors(s.NewDestroyed(k), m', d', created[..k] + created[k + 1..])
  {
    var s', created' := s.NewDestroyed(k), created[..k] + created[k + 1..];
    forall o | o in s'.olds ensures Shows(s'.olds[o], m', d', o) {
      assert Shows(s.olds[o], m, d, o);
      KeptValues(m, d, m', d', o);
    }
    forall i | 0 <= i < |created'| ensures Shows(s'.news[i], m', d', created'[i]) {
      var j := if i < k then i else i + 1;
      assert created'[i] == created[j] && s'.news[i] == s.news[j] && Shows(s.news[j], m, d, created[j]);
      KeptValues(m, d, m', d', created[j]);
    }
  }
}
