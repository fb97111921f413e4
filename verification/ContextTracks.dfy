/**
 What the context does to one of its objects, as the object sees it: its level and the saved copies
 of its data follow the protocol of module SaveStack.  In particular a pop restores an object exactly
 when it is current in the level that is popped.
 */
module ContextTracks {
  import opened SaveStack
  import opened ContextModel

  /** The level of the version in force at level i. */
  ghost function LevelAt<S>(t: Track<S>, i: nat): nat
    decreases |t.saved|
  {
    if t.saved == [] || t.level <= i then t.level else LevelAt(t.Restored(), i)
  }

  lemma RestoredValid<S>(t: Track<S>)
    requires t.Valid() && t.saved != []
    ensures t.Restored().Valid() && t.Restored().level < t.level
  {
  }

  /** The versions in force at level l have the same level and the same value. */
  ghost predicate AgreeAt<S>(t: Track<S>, v: S, t': Track<S>, v': S, l: nat) {
    LevelAt(t, l) == LevelAt(t', l) && t.At(v, l) == t'.At(v', l)
  }

  /** A track is determined by the level and the value of the version in force at every level. */
  lemma {:induction false} Determined<S>(t: Track<S>, v: S, t': Track<S>, v': S, top: nat)
    requires t.Valid() && t'.Valid() && t.level <= top && t'.level <= top
    requires forall l :: 0 <= l <= top ==> AgreeAt(t, v, t', v', l)
    ensures t == t' && v == v'
    decreases |t.saved|
  {
    assert AgreeAt(t, v, t', v', top);
    if t.level > 0 {
      RestoredValid(t);
      RestoredValid(t');
      var n, n' := |t.saved| - 1, |t'.saved| - 1;
      forall l | 0 <= l <= t.level - 1
        ensures AgreeAt(t.Restored(), t.saved[n].copy, t'.Restored(), t'.saved[n'].copy, l)
      {
        assert AgreeAt(t, v, t', v', l);
      }
      Determined(t.Restored(), t.saved[n].copy, t'.Restored(), t'.saved[n'].copy, t.level - 1);
      assert t.saved == t.Restored().saved + [Saved(t.Restored().level, t.saved[n].copy)];
      assert t'.saved == t'.Restored().saved + [Saved(t'.Restored().level, t'.saved[n'].copy)];
    }
  }

  /** The same track with other copies. */
  ghost function Mapped<S, D>(t: Track<S>, d: map<S, D>): (r: Track<D>)
    requires forall k :: 0 <= k < |t.saved| ==> t.saved[k].copy in d
    ensures r.level == t.level && |r.saved| == |t.saved|
    ensures forall k :: 0 <= k < |t.saved| ==> r.saved[k] == Saved(t.saved[k].level, d[t.saved[k].copy])
  {
    Track(t.level, seq(|t.saved|, k requires 0 <= k < |t.saved| => Saved(t.saved[k].level, d[t.saved[k].copy])))
  }

  lemma {:induction false} MappedAt<S, D>(t: Track<S>, d: map<S, D>, o: S, l: nat)
    requires t.Valid() && o in d && forall k :: 0 <= k < |t.saved| ==> t.saved[k].copy in d
    ensures t.At(o, l) in d && Mapped(t, d).At(d[o], l) == d[t.At(o, l)] && LevelAt(Mapped(t, d), l) == LevelAt(t, l)
    decreases |t.saved|
  {
    if t.saved != [] && t.level > l {
      var n := |t.saved| - 1;
      RestoredValid(t);
      assert Mapped(t, d).Restored() == Mapped(t.Restored(), d);
      MappedAt(t.Restored(), d, t.saved[n].copy, l);
    }
  }

  /** The level of an object and the saved copies of its data. */
  ghost function TrackOf<O, D>(m: Model<O>, d: map<O, D>, o: O): (t: Track<D>)
    requires Inv(m) && o in m.tracks && m.ids.Keys == d.Keys
    ensures t.Valid() && t.level == m.tracks[o].level < |m.chains|
  {
    CopiesKnown(m, d, o);
    Mapped(m.tracks[o], d)
  }

  lemma CopiesKnown<O, D>(m: Model<O>, d: map<O, D>, o: O)
    requires Inv(m) && o in m.tracks && m.ids.Keys == d.Keys
    ensures m.tracks[o].Valid() && m.tracks[o].level < |m.chains| && o in d
    ensures forall k :: 0 <= k < |m.tracks[o].saved| ==> m.tracks[o].saved[k].copy in d
  {
    var t := m.tracks[o];
    assert Tracked(m, o);
    LiveIsNode(m);
    forall k | 0 <= k < |t.saved| ensures t.saved[k].copy in d {
      assert VersionNode(t, o, k) == t.saved[k].copy;
    }
  }

  /** The levels of the model are those of the track. */
  lemma TrackLevels<O, D>(m: Model<O>, d: map<O, D>, o: O, l: nat)
    requires Inv(m) && o in m.tracks && m.ids.Keys == d.Keys
    ensures o in d && TrackOf(m, d, o).At(d[o], l) == ValueAt(m, d, o, l)
    ensures LevelAt(TrackOf(m, d, o), l) == PlaceAt(m, o, l).0
  {
    CopiesKnown(m, d, o);
    MappedAt(m.tracks[o], d, o, l);
    VersionLevels(m, o, m.tracks[o], o, l);
  }

  /** The version in force is at the level that the track says. */
  lemma {:induction false} VersionLevels<O>(m: Model<O>, o: O, t: Track<O>, n: O, l: nat)
    requires Inv(m) && o in m.tracks && t.Valid() && |t.saved| <= |m.tracks[o].saved|
    requires t.saved == m.tracks[o].saved[..|t.saved|]
    requires n == VersionNode(m.tracks[o], o, |t.saved|) && t.level == VersionLevel(m.tracks[o], |t.saved|)
    ensures var x := t.At(n, l);
            && x in m.ids && m.ids[x].version <= |m.tracks[o].saved|
            && LevelAt(t, l) == VersionLevel(m.tracks[o], m.ids[x].version)
    decreases |t.saved|
  {
    assert Tracked(m, o);
    if t.saved != [] && t.level > l {
      var k := |t.saved| - 1;
      RestoredValid(t);
      assert VersionNode(m.tracks[o], o, k) == t.saved[k].copy;
      VersionLevels(m, o, t.Restored(), t.saved[k].copy, l);
    }
  }

  // ---------- the operations ----------

  /** A push leaves every object as it is. */
  lemma PushTrack<O, D>(m: Model<O>, d: map<O, D>, o: O)
    requires Inv(m) && o in m.tracks && m.ids.Keys == d.Keys
    ensures Inv(Pushed(m)) && TrackOf(Pushed(m), d, o) == TrackOf(m, d, o)
  {
    PushedInv(m);
  }

  /** A write saves the object if it is not current, and makes it current. */
  lemma SetTrack<O, D>(m: Model<O>, d: map<O, D>, m': Model<O>, d': map<O, D>, o: O)
    requires m.chains != [] && SameBelow(m, d, m', d', |m.chains| - 1) && |m'.chains| == |m.chains| && o in m.tracks
    requires m'.tracks[o].level == |m.chains| - 1
    ensures o in d && TrackOf(m', d', o) == TrackOf(m, d, o).MakeCurrent(|m.chains| - 1, d[o])
  {
    var top, t, t' := |m.chains| - 1, TrackOf(m, d, o), TrackOf(m', d', o);
    CopiesKnown(m, d, o);
    CopiesKnown(m', d', o);
    var u := t.MakeCurrent(top, d[o]);
    WriteLevels(t, d[o], d'[o], top);
    forall l | 0 <= l <= top ensures AgreeAt(t', d'[o], u, d'[o], l) {
      if l < top {
        assert SameLevel(m, d, m', d', l);
        assert PlaceAt(m, o, l) == PlaceAt(m', o, l);
        TrackLevels(m, d, o, l);
        TrackLevels(m', d', o, l);
        assert Levels(u, d'[o], top)[l] == Levels(t, d[o], top)[l];
        assert t.level != top ==> u.Restored() == t;
      }
    }
    Determined(t', d'[o], u, d'[o], top);
  }

  /** An operation on other objects leaves the object as it is. */
  lemma OtherTrack<O, D>(m: Model<O>, d: map<O, D>, m': Model<O>, d': map<O, D>, o: O)
    requires m.chains != [] && SameBelow(m, d, m', d', |m.chains| - 1) && |m'.chains| == |m.chains|
    requires o in m.tracks && o in d && o in d'
    requires m'.tracks[o].level == m.tracks[o].level && d'[o] == d[o]
    ensures TrackOf(m', d', o) == TrackOf(m, d, o)
  {
    var top, t, t' := |m.chains| - 1, TrackOf(m, d, o), TrackOf(m', d', o);
    forall l | 0 <= l <= top ensures AgreeAt(t', d'[o], t, d[o], l) {
      if l < top {
        SameTrackLevel(m, d, m', d', o, l);
      }
    }
    Determined(t', d'[o], t, d[o], top);
  }

  lemma SameTrackLevel<O, D>(m: Model<O>, d: map<O, D>, m': Model<O>, d': map<O, D>, o: O, l: nat)
    requires Inv(m) && Inv(m') && m.ids.Keys == d.Keys && m'.ids.Keys == d'.Keys && o in m.tracks
    requires SameLevel(m, d, m', d', l)
    ensures o in d && o in d' && AgreeAt(TrackOf(m', d', o), d'[o], TrackOf(m, d, o), d[o], l)
  {
    assert PlaceAt(m, o, l) == PlaceAt(m', o, l);
    TrackLevels(m, d, o, l);
    TrackLevels(m', d', o, l);
  }

  /** A pop restores the object exactly if it is current in the level that goes. */
  lemma PopTrack<O, D>(m: Model<O>, d: map<O, D>, m': Model<O>, d': map<O, D>, o: O)
    requires |m.chains| > 1 && SameBelow(m, d, m', d', |m.chains| - 1) && |m'.chains| == |m.chains| - 1 && o in m.tracks
    ensures var t, top := TrackOf(m, d, o), |m.chains| - 1;
            && o in d && o in d'
            && TrackOf(m', d', o) == (if t.level == top then t.Restored() else t)
            && d'[o] == (if t.level == top then t.saved[|t.saved| - 1].copy else d[o])
  {
    var top, t, t' := |m.chains| - 1, TrackOf(m, d, o), TrackOf(m', d', o);
    CopiesKnown(m, d, o);
    CopiesKnown(m', d', o);
    var u := if t.level == top then t.Restored() else t;
    var v := if t.level == top then t.saved[|t.saved| - 1].copy else d[o];
    if t.level == top {
      RestoredValid(t);
    }
    forall l | 0 <= l <= top - 1 ensures AgreeAt(t', d'[o], u, v, l) {
      SameTrackLevel(m, d, m', d', o, l);
    }
    Determined(t', d'[o], u, v, top - 1);
  }
}
