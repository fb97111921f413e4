/**
 CDHashMap: a hash map whose elements are context objects of their own, threaded
 on a circular list in the order of insertion (src/context/cdhashmap.h).
 */
module HashMap {
  import opened Basics
  import opened SaveStack
  import opened StackRuns

  /** What a saved copy of an element keeps: its data, and whether its map pointer is set. */
  datatype Copy<D> = Copy(data: D, inMap: bool)

  /** An element as a value: its key, what it holds now and its saved copies. */
  datatype Row<K, D> = Row(key: K, live: Copy<D>, track: Track<Copy<D>>) {

    /** Only the copy of level zero may have a null map pointer, which marks a key inserted later. */
    ghost predicate Ok(top: nat) {
      && track.Valid() && track.level <= top && live.inMap
      && forall j :: 0 < j < |track.saved| ==> track.saved[j].copy.inMap
    }

    /** What level i sees of the element. */
    ghost function At(i: nat): seq<(K, D)> {
      var c := track.At(live, i);
      if c.inMap then [(key, c.data)] else []
    }

    /** CDOhash_map::set */
    ghost function Set(top: nat, d: D): Row<K, D> {
      Row(key, Copy(d, true), track.MakeCurrent(top, live))
    }

    /** CDOhash_map::restore for an element that stays in the map. */
    ghost function Restored(): Row<K, D>
      requires track.saved != []
    {
      Row(key, live.(data := track.saved[|track.saved| - 1].copy.data), track.Restored())
    }
  }

  /** The map that level i sees, in the order of insertion. */
  ghost function Entries<K, D>(rows: seq<Row<K, D>>, i: nat): seq<(K, D)> {
    if rows == [] then [] else Entries(rows[..|rows| - 1], i) + rows[|rows| - 1].At(i)
  }

  ghost predicate RowsOk<K, D>(rows: seq<Row<K, D>>, top: nat) {
    && (forall j :: 0 <= j < |rows| ==> rows[j].Ok(top))
    && (forall j, l :: 0 <= j < l < |rows| ==> rows[j].key != rows[l].key)
  }

  /** The map with key k set to d: replaced where it is, or added at the end. */
  ghost function Put<K, D>(m: seq<(K, D)>, k: K, d: D): seq<(K, D)> {
    if m == [] then [(k, d)]
    else if m[0].0 == k then [(k, d)] + m[1..]
    else [m[0]] + Put(m[1..], k, d)
  }

  lemma {:induction false} EntriesConcat<K, D>(a: seq<Row<K, D>>, b: seq<Row<K, D>>, i: nat)
    ensures Entries(a + b, i) == Entries(a, i) + Entries(b, i)
  {
    if b == [] {
      assert a + b == a;
    } else {
      var n := |b| - 1;
      assert (a + b)[..|a + b| - 1] == a + b[..n];
      EntriesConcat(a, b[..n], i);
    }
  }

  lemma EntriesSplit<K, D>(rows: seq<Row<K, D>>, j: nat, i: nat)
    requires j < |rows|
    ensures Entries(rows, i) == Entries(rows[..j], i) + rows[j].At(i) + Entries(rows[j + 1..], i)
  {
    assert rows == rows[..j] + ([rows[j]] + rows[j + 1..]);
    var one := [rows[j]];
    assert one[..0] == [];
    assert Entries(one, i) == rows[j].At(i);
    EntriesConcat(rows[..j], one + rows[j + 1..], i);
    EntriesConcat(one, rows[j + 1..], i);
  }

  lemma EntriesReplace<K, D>(rows: seq<Row<K, D>>, j: nat, r: Row<K, D>, i: nat)
    requires j < |rows|
    ensures Entries(rows[j := r], i) == Entries(rows[..j], i) + r.At(i) + Entries(rows[j + 1..], i)
  {
    EntriesSplit(rows[j := r], j, i);
    assert rows[j := r][..j] == rows[..j] && rows[j := r][j + 1..] == rows[j + 1..];
  }

  /** At the top level every row is present. */
  lemma {:induction false} EntriesTop<K, D>(rows: seq<Row<K, D>>, top: nat)
    requires forall j :: 0 <= j < |rows| ==> rows[j].Ok(top)
    ensures |Entries(rows, top)| == |rows|
    ensures forall j :: 0 <= j < |rows| ==> Entries(rows, top)[j] == (rows[j].key, rows[j].live.data)
  {
    if rows != [] {
      EntriesTop(rows[..|rows| - 1], top);
    }
  }

  /** Every level sees part of the rows. */
  lemma {:induction false} EntriesHas<K, D>(rows: seq<Row<K, D>>, i: nat, k: K)
    requires forall j :: 0 <= j < |rows| ==> rows[j].key != k
    ensures !Has(Entries(rows, i), k)
  {
    if rows != [] {
      EntriesHas(rows[..|rows| - 1], i, k);
    }
  }

  lemma {:induction false} PutConcat<K, D>(a: seq<(K, D)>, b: seq<(K, D)>, k: K, d: D)
    requires !Has(a, k)
    ensures Put(a + b, k, d) == a + Put(b, k, d)
  {
    if a == [] {
      assert a + b == b;
    } else {
      assert (a + b)[0] == a[0] && (a + b)[1..] == a[1..] + b;
      forall j | 0 <= j < |a[1..]| ensures a[1..][j].0 != k { assert a[1..][j] == a[j + 1]; }
      PutConcat(a[1..], b, k, d);
    }
  }

  lemma PutMiddle<K, D>(a: seq<(K, D)>, b: seq<(K, D)>, k: K, d: D, d': D)
    requires !Has(a, k)
    ensures Put(a + [(k, d)] + b, k, d') == a + [(k, d')] + b
  {
    var m := [(k, d)] + b;
    assert a + [(k, d)] + b == a + m && m[1..] == b;
    PutConcat(a, m, k, d');
  }

  lemma PutNew<K, D>(m: seq<(K, D)>, k: K, d: D)
    requires !Has(m, k)
    ensures Put(m, k, d) == m + [(k, d)]
  {
    assert m + [] == m;
    PutConcat(m, [], k, d);
  }

  // ---------- the operations on rows ----------

  /** The row that the constructor of an element makes at level `top`. */
  ghost function NewRow<K, D>(k: K, d: D, dflt: D, top: nat, atLevelZero: bool): (r: Row<K, D>)
    ensures r.Ok(top)
    ensures forall i :: 0 <= i <= top ==> r.At(i) == if i == top || atLevelZero then [(k, d)] else []
  {
    var t: Track<Copy<D>> := Track(0, []);
    var r := Row(k, Copy(d, true), if atLevelZero then t else t.MakeCurrent(top, Copy(dflt, false)));
    assert top != 0 && !atLevelZero ==> r.track.saved[..0] == [];
    r
  }

  lemma EntriesNew<K, D>(rows: seq<Row<K, D>>, r: Row<K, D>, i: nat)
    ensures Entries(rows + [r], i) == Entries(rows, i) + r.At(i)
  {
    assert (rows + [r])[..|rows|] == rows;
  }

  lemma SetRow<K, D>(row: Row<K, D>, top: nat, d: D)
    requires row.Ok(top)
    ensures row.Set(top, d).Ok(top)
    ensures forall i :: 0 <= i < top ==> row.Set(top, d).At(i) == row.At(i)
    ensures row.Set(top, d).At(top) == [(row.key, d)] && row.At(top) == [(row.key, row.live.data)]
  {
    var r := row.Set(top, d);
    WriteLevels(row.track, row.live, r.live, top);
    forall i | 0 <= i < top ensures r.At(i) == row.At(i) {
      assert Levels(r.track, r.live, top)[i] == Levels(row.track, row.live, top)[i];
    }
  }

  lemma RestoreRow<K, D>(row: Row<K, D>, top: nat)
    requires row.Ok(top) && row.track.level == top > 0
    requires row.track.saved[|row.track.saved| - 1].copy.inMap
    ensures row.Restored().Ok(top - 1)
    ensures forall i :: 0 <= i < top ==> row.Restored().At(i) == row.At(i)
  {
    var r := row.Restored();
    PopLevels(row.track, row.live, top);
    forall i | 0 <= i < top ensures r.At(i) == row.At(i) {
      assert Levels(r.track, r.live, top - 1)[i] == Levels(row.track, row.live, top)[i];
    }
  }

  /** An element whose newest copy has a null map pointer was inserted in the level of the copy's successor. */
  lemma RemoveRow<K, D>(row: Row<K, D>, top: nat)
    requires row.Ok(top) && row.track.level == top > 0
    requires !row.track.saved[|row.track.saved| - 1].copy.inMap
    ensures row.track.Restored() == Track(0, [])
    ensures forall i :: 0 <= i < top ==> row.At(i) == []
  {
    assert row.track.saved[..0] == [];
  }

  lemma EntriesPutAt<K, D>(rows: seq<Row<K, D>>, j: nat, top: nat, d: D)
    requires RowsOk(rows, top) && j < |rows|
    ensures Entries(rows[j := rows[j].Set(top, d)], top) == Put(Entries(rows, top), rows[j].key, d)
  {
    var k := rows[j].key;
    SetRow(rows[j], top, d);
    EntriesReplace(rows, j, rows[j].Set(top, d), top);
    EntriesSplit(rows, j, top);
    EntriesHas(rows[..j], top, k);
    PutMiddle(Entries(rows[..j], top), Entries(rows[j + 1..], top), k, rows[j].live.data, d);
  }

  lemma EntriesSame<K, D>(rows: seq<Row<K, D>>, j: nat, r: Row<K, D>, top: nat)
    requires j < |rows| && forall i :: 0 <= i < top ==> r.At(i) == rows[j].At(i)
    ensures forall i :: 0 <= i < top ==> Entries(rows[j := r], i) == Entries(rows, i)
  {
    forall i | 0 <= i < top ensures Entries(rows[j := r], i) == Entries(rows, i) {
      EntriesReplace(rows, j, r, i);
      EntriesSplit(rows, j, i);
    }
  }

  /** CDOhash_map::set changes the top level only. */
  lemma EntriesSet<K, D>(rows: seq<Row<K, D>>, j: nat, top: nat, d: D)
    requires RowsOk(rows, top) && j < |rows|
    ensures RowsOk(rows[j := rows[j].Set(top, d)], top)
    ensures forall i :: 0 <= i < top ==> Entries(rows[j := rows[j].Set(top, d)], i) == Entries(rows, i)
    ensures Entries(rows[j := rows[j].Set(top, d)], top) == Put(Entries(rows, top), rows[j].key, d)
  {
    SetRow(rows[j], top, d);
    EntriesSame(rows, j, rows[j].Set(top, d), top);
    EntriesPutAt(rows, j, top, d);
  }

  /** Restoring one element changes no lower level. */
  lemma EntriesRestore<K, D>(rows: seq<Row<K, D>>, j: nat, top: nat)
    requires RowsOk(rows, top) && j < |rows| && rows[j].track.level == top > 0
    requires rows[j].track.saved[|rows[j].track.saved| - 1].copy.inMap
    ensures RowsOk(rows[j := rows[j].Restored()], top) && rows[j].Restored().track.level < top
    ensures forall i :: 0 <= i < top ==> Entries(rows[j := rows[j].Restored()], i) == Entries(rows, i)
  {
    RestoreRow(rows[j], top);
    EntriesSame(rows, j, rows[j].Restored(), top);
  }

  ghost function Without<T>(s: seq<T>, j: nat): (r: seq<T>)
    requires j < |s|
    ensures |r| == |s| - 1
    ensures forall i :: 0 <= i < |r| ==> r[i] == if i < j then s[i] else s[i + 1]
  {
    s[..j] + s[j + 1..]
  }

  lemma EntriesWithout<K, D>(rows: seq<Row<K, D>>, j: nat, i: nat)
    requires j < |rows| && rows[j].At(i) == []
    ensures Entries(Without(rows, j), i) == Entries(rows, i)
  {
    EntriesSplit(rows, j, i);
    EntriesConcat(rows[..j], rows[j + 1..], i);
  }

  lemma RowsOkWithout<K, D>(rows: seq<Row<K, D>>, j: nat, top: nat)
    requires RowsOk(rows, top) && j < |rows|
    ensures RowsOk(Without(rows, j), top)
  {
  }

  /** No lower level sees an element whose newest copy has a null map pointer. */
  lemma EntriesRemove<K, D>(rows: seq<Row<K, D>>, j: nat, top: nat)
    requires RowsOk(rows, top) && j < |rows| && rows[j].track.level == top > 0
    requires !rows[j].track.saved[|rows[j].track.saved| - 1].copy.inMap
    ensures rows[j].track.Restored() == Track(0, [])
    ensures RowsOk(Without(rows, j), top)
    ensures forall i :: 0 <= i < top ==> Entries(Without(rows, j), i) == Entries(rows, i)
  {
    RemoveRow(rows[j], top);
    RowsOkWithout(rows, j, top);
    forall i | 0 <= i < top ensures Entries(Without(rows, j), i) == Entries(rows, i) {
      EntriesWithout(rows, j, i);
    }
  }

  /** A push: the new level sees what the top level sees. */
  lemma {:induction false} EntriesPush<K, D>(rows: seq<Row<K, D>>, top: nat)
    requires forall j :: 0 <= j < |rows| ==> rows[j].Ok(top)
    ensures Entries(rows, top + 1) == Entries(rows, top)
  {
    if rows != [] {
      EntriesPush(rows[..|rows| - 1], top);
    }
  }

  /** The maps of the levels 0, 1, ..., `top`. */
  ghost function StackOf<K, D>(rows: seq<Row<K, D>>, top: nat): (r: seq<seq<(K, D)>>)
    ensures |r| == top + 1
    ensures forall i :: 0 <= i <= top ==> r[i] == Entries(rows, i)
  {
    seq(top + 1, i requires 0 <= i => Entries(rows, i))
  }

  lemma StackNew<K, D>(rows: seq<Row<K, D>>, k: K, d: D, dflt: D, top: nat)
    requires !Has(Entries(rows, top), k)
    ensures StackOf(rows + [NewRow(k, d, dflt, top, false)], top) ==
            StackOf(rows, top)[top := Put(Entries(rows, top), k, d)]
  {
    var r := NewRow(k, d, dflt, top, false);
    PutNew(Entries(rows, top), k, d);
    forall i | 0 <= i <= top
      ensures Entries(rows + [r], i) == if i == top then Put(Entries(rows, top), k, d) else Entries(rows, i)
    {
      EntriesNew(rows, r, i);
    }
  }

  /** An insertion at level zero is seen by every level. */
  lemma StackZero<K, D>(rows: seq<Row<K, D>>, k: K, d: D, dflt: D, top: nat)
    ensures StackOf(rows + [NewRow(k, d, dflt, top, true)], top) ==
            Everywhere(AtLevelZero, StackOf(rows, top), Op.InsertAtLevelZero(k, d))
  {
    var r := NewRow(k, d, dflt, top, true);
    forall i | 0 <= i <= top ensures Entries(rows + [r], i) == Entries(rows, i) + [(k, d)] {
      EntriesNew(rows, r, i);
    }
  }

  lemma StackSet<K, D>(rows: seq<Row<K, D>>, j: nat, top: nat, d: D)
    requires RowsOk(rows, top) && j < |rows|
    ensures StackOf(rows[j := rows[j].Set(top, d)], top) ==
            StackOf(rows, top)[top := Put(Entries(rows, top), rows[j].key, d)]
  {
    EntriesSet(rows, j, top, d);
  }

  // ---------- elements and the circular list ----------

  class Element<K, D> {
    const key: K
    var data: D
    /** d_map != NULL */
    var inMap: bool
    var track: Track<Copy<D>>
    var prev: Element?<K, D>
    var next: Element?<K, D>

    ghost function Value(): Row<K, D>
      reads this`data, this`inMap, this`track
    {
      Row(key, Copy(data, inMap), track)
    }

    /**
     A context object starts at level zero.  Its data is set before its map pointer, so
     that the copy made on the way to level `top` has a null map pointer.
     */
    constructor (k: K, d: D, dflt: D, top: nat, atLevelZero: bool)
      ensures Value() == NewRow(k, d, dflt, top, atLevelZero)
    {
      key, data, inMap := k, dflt, false;
      track := Track(0, []);
      prev, next := null, null;
      new;
      if atLevelZero {
        data := d;
      } else {
        Set(top, d);
      }
      inMap := true;
    }

    method Set(top: nat, d: D)
      modifies this`data, this`track
      ensures data == d && track == old(track).MakeCurrent(top, Copy(old(data), inMap))
    {
      track := track.MakeCurrent(top, Copy(data, inMap));
      data := d;
    }
  }

  function Succ(i: nat, n: nat): (r: nat)
    requires i < n
    ensures r < n
  {
    if i + 1 < n then i + 1 else 0
  }

  ghost predicate LinkOk<K, D>(list: seq<Element<K, D>>, i: nat)
    requires i < |list|
    reads list`next, list`prev
  {
    list[i].next == list[Succ(i, |list|)] && list[Succ(i, |list|)].prev == list[i]
  }

  /** The elements form one circle in the order of the list, entered at `first`. */
  ghost predicate Ring<K, D>(list: seq<Element<K, D>>, first: Element?<K, D>)
    reads list`next, list`prev
  {
    && first == (if list == [] then null else list[0])
    && (forall i, j :: 0 <= i < j < |list| ==> list[i] != list[j])
    && (forall i {:trigger LinkOk(list, i)} :: 0 <= i < |list| ==> LinkOk(list, i))
  }

  /** The new element goes before the first one, that is, to the end. */
  method LinkLast<K, D>(first: Element?<K, D>, e: Element<K, D>, ghost list: seq<Element<K, D>>)
    returns (first': Element<K, D>)
    requires Ring(list, first) && e !in list
    modifies list`next, list`prev, e`next, e`prev
    ensures Ring(list + [e], first')
  {
    ghost var n := |list|;
    if first == null {
      first', e.next, e.prev := e, e, e;
      assert LinkOk([e], 0);
    } else {
      assert LinkOk(list, n - 1);
      first' := first;
      var last := first.prev;
      e.prev, e.next := last, first;
      last.next := e;
      first.prev := e;
      forall i | 0 <= i < n + 1 ensures LinkOk(list + [e], i) {
        assert i < n ==> old(LinkOk(list, i));
      }
    }
    assert list == [] ==> list + [e] == [e];
  }

  method Unlink<K, D>(first: Element<K, D>, e: Element<K, D>, ghost list: seq<Element<K, D>>, ghost j: nat)
    returns (first': Element?<K, D>)
    requires Ring(list, first) && j < |list| && list[j] == e
    modifies list`next, list`prev
    ensures Ring(Without(list, j), first')
  {
    ghost var n, rest := |list|, Without(list, j);
    assert LinkOk(list, j);
    ghost var p := if j == 0 then n - 1 else j - 1;
    assert LinkOk(list, p);
    assert e.next == list[Succ(j, n)] && (e.next == e <==> n == 1) && (first == e <==> j == 0);
    assert n > 1 ==> rest[0] == if j == 0 then list[1] else list[0];
    if first == e {
      first' := if e.next == e then null else e.next;
    } else {
      first' := first;
    }
    assert first' == if rest == [] then null else rest[0];
    e.next.prev := e.prev;
    e.prev.next := e.next;
    forall i | 0 <= i < n - 1 ensures LinkOk(rest, i) {
      assert old(LinkOk(list, i)) && old(LinkOk(list, i + 1));
    }
  }

  // ---------- the map ----------

  ghost predicate Is<K, D>(e: Element<K, D>, r: Row<K, D>)
    reads e`data, e`inMap, e`track
  {
    e.Value() == r
  }

  ghost predicate Values<K, D>(list: seq<Element<K, D>>, rows: seq<Row<K, D>>)
    reads list`data, list`inMap, list`track
  {
    |rows| == |list| && forall j {:trigger Is(list[j], rows[j])} :: 0 <= j < |list| ==> Is(list[j], rows[j])
  }

  ghost predicate Found<K, D>(table: map<K, Element<K, D>>, e: Element<K, D>) {
    e.key in table && table[e.key] == e
  }

  /** The hash table finds exactly the elements of the list. */
  ghost predicate Tabled<K, D>(table: map<K, Element<K, D>>, list: seq<Element<K, D>>) {
    && (forall e {:trigger Found(table, e)} :: e in list ==> Found(table, e))
    && (forall k {:trigger Known(table, list, k)} :: k in table ==> Known(table, list, k))
  }

  ghost predicate Known<K, D>(table: map<K, Element<K, D>>, list: seq<Element<K, D>>, k: K) {
    k in table && table[k] in list && table[k].key == k
  }

  /** Elements in the trash are out of the list and have nothing left to restore. */
  ghost predicate Trashed<K, D>(trash: seq<Element<K, D>>, list: seq<Element<K, D>>)
    reads trash`track
  {
    && (forall j {:trigger Gone(trash[j], list)} :: 0 <= j < |trash| ==> Gone(trash[j], list))
    && (forall i, j :: 0 <= i < j < |trash| ==> trash[i] != trash[j])
  }

  /** No element is deleted twice, or is still in use when it has been deleted. */
  ghost predicate Logged<K, D>(deleted: seq<Element<K, D>>, trash: seq<Element<K, D>>, list: seq<Element<K, D>>) {
    && (forall i, j :: 0 <= i < j < |deleted| ==> deleted[i] != deleted[j])
    && (forall e {:trigger e in deleted} :: e in deleted ==> e !in list && e !in trash)
  }

  lemma LoggedRemove<K, D>(deleted: seq<Element<K, D>>, trash: seq<Element<K, D>>, list: seq<Element<K, D>>, j: nat)
    requires Logged(deleted, trash, list) && j < |list|
    ensures Logged(deleted, trash + [list[j]], Without(list, j))
  {
  }

  ghost predicate Gone<K, D>(e: Element<K, D>, list: seq<Element<K, D>>)
    reads e`track
  {
    e !in list && e.track == Track(0, [])
  }

  lemma TabledAdd<K, D>(table: map<K, Element<K, D>>, list: seq<Element<K, D>>, e: Element<K, D>)
    requires Tabled(table, list) && e.key !in table
    ensures Tabled(table[e.key := e], list + [e])
  {
    var table', list' := table[e.key := e], list + [e];
    forall x | x in list' ensures Found(table', x) { assert x in list ==> Found(table, x); }
    forall k | k in table' ensures Known(table', list', k) { assert k in table ==> Known(table, list, k); }
  }

  lemma TabledRemove<K, D>(table: map<K, Element<K, D>>, list: seq<Element<K, D>>, j: nat)
    requires Tabled(table, list) && j < |list| && forall i, l :: 0 <= i < l < |list| ==> list[i] != list[l]
    ensures Tabled(table - {list[j].key}, Without(list, j)) && list[j] !in Without(list, j)
    ensures forall e :: e in list && e != list[j] ==> e in Without(list, j)
  {
    var e, list' := list[j], Without(list, j);
    var table' := table - {e.key};
    assert Found(table, e);
    forall x | x in list && x != e ensures x in list' {
      var i :| 0 <= i < |list| && list[i] == x;
      assert list'[if i < j then i else i - 1] == x;
    }
    forall x | x in list' ensures x in list && x != e && Found(table', x) {
      var i :| 0 <= i < |list'| && list'[i] == x;
      assert x == list[if i < j then i else i + 1];
      assert Found(table, x);
    }
    forall k | k in table' ensures Known(table', list', k) { assert Known(table, list, k); }
  }

  lemma RowsOkNew<K, D>(table: map<K, Element<K, D>>, list: seq<Element<K, D>>,
                        rows: seq<Row<K, D>>, r: Row<K, D>, top: nat)
    requires RowsOk(rows, top) && Values(list, rows) && Tabled(table, list) && r.Ok(top) && r.key !in table
    ensures RowsOk(rows + [r], top)
  {
    forall j | 0 <= j < |rows| ensures rows[j].key != r.key {
      assert Is(list[j], rows[j]) && Found(table, list[j]);
    }
  }

  class CDHashMap<K(==), D> {
    /** The value of the default constructor of the data type. */
    const dflt: D
    var table: map<K, Element<K, D>>
    var first: Element?<K, D>
    var trash: seq<Element<K, D>>
    /** The elements on which deleteSelf() was called. */
    var deleted: seq<Element<K, D>>
    /** The level of the context. */
    var top: nat
    ghost var list: seq<Element<K, D>>
    ghost var rows: seq<Row<K, D>>

    ghost predicate Valid()
      reads this, list, trash
    {
      && Ring(list, first) && Values(list, rows) && RowsOk(rows, top)
      && Tabled(table, list) && Trashed(trash, list) && Logged(deleted, trash, list)
    }

    /** The insertion-ordered map at every level of the context. */
    ghost function Stack(): (r: seq<seq<(K, D)>>)
      reads this`rows, this`top
      ensures |r| == top + 1
    {
      StackOf(rows, top)
    }

    constructor (dflt: D)
      ensures Valid() && top == 0 && Stack() == [[]] && this.dflt == dflt && list == [] && trash == [] && deleted == []
    {
      this.dflt := dflt;
      table, first, trash, deleted, top := map[], null, [], [], 0;
      list, rows := [], [];
    }

    /** The elements of the trash are deleted, each once, and each with nothing left to restore. */
    method EmptyTrash()
      requires Valid()
      modifies this`trash, this`deleted
      ensures Valid() && trash == [] && deleted == old(deleted) + old(trash)
    {
      ghost var n := 0;
      ghost var all := trash;
      while trash != []
        invariant n <= |all| && trash == all[n..] && deleted == old(deleted) + all[..n]
        invariant Valid()
      {
        assert all[..n + 1] == all[..n] + [trash[0]];
        DeleteFirst();
        n := n + 1;
      }
      assert all[..n] == all;
    }

    /** deleteSelf() of the first element in the trash: destroy() finds it outside the list and in its first version. */
    method DeleteFirst()
      requires Valid() && trash != []
      modifies this`trash, this`deleted
      ensures Valid() && trash == old(trash)[1..] && deleted == old(deleted) + [old(trash)[0]]
      ensures Gone(old(trash)[0], list)
    {
      assert Gone(trash[0], list);
      assert forall j :: 0 <= j < |trash| - 1 ==> trash[1..][j] == trash[j + 1];
      forall j | 0 <= j < |trash| - 1 ensures Gone(trash[1..][j], list) { assert Gone(trash[j + 1], list); }
      assert forall i :: 0 <= i < |deleted| ==> deleted[i] in deleted && trash[0] in trash;
      deleted := deleted + [trash[0]];
      trash := trash[1..];
    }

    method Create(k: K, d: D, atLevelZero: bool) returns (e: Element<K, D>)
      requires Valid() && k !in table && trash == []
      modifies this`table, this`first, this`list, this`rows, list`next, list`prev
      ensures Valid() && fresh(e) && e.key == k && list == old(list) + [e]
      ensures rows == old(rows) + [NewRow(k, d, dflt, top, atLevelZero)]
    {
      e := new Element(k, d, dflt, top, atLevelZero);
      Enter(e);
    }

    method Enter(e: Element<K, D>)
      requires Valid() && e.key !in table && trash == [] && e !in list && e !in deleted && e.Value().Ok(top)
      modifies this`table, this`first, this`list, this`rows, list`next, list`prev, e`next, e`prev
      ensures Valid() && list == old(list) + [e] && rows == old(rows) + [e.Value()]
    {
      RowsOkNew(table, list, rows, e.Value(), top);
      TabledAdd(table, list, e);
      first := LinkLast(first, e, list);
      table := table[e.key := e];
      list, rows := list + [e], rows + [e.Value()];
      forall j | 0 <= j < |list| ensures Is(list[j], rows[j]) {
        assert j < |list| - 1 ==> old(Is(list[j], rows[j]));
      }
    }

    method SetElement(e: Element<K, D>, d: D, ghost j: nat)
      requires Valid() && j < |list| && list[j] == e
      modifies this`rows, e`data, e`track
      ensures Valid() && rows == old(rows)[j := old(rows)[j].Set(top, d)]
    {
      assert Is(e, rows[j]);
      EntriesSet(rows, j, top, d);
      e.Set(top, d);
      rows := rows[j := rows[j].Set(top, d)];
      OneChanged(j);
    }

    /** Only element j has changed, and the trash is as it was. */
    twostate lemma OneChanged(j: nat)
      requires old(Values(list, rows)) && Ring(list, first) && |rows| == |list|
      requires list == old(list) && j < |list| && Is(list[j], rows[j])
      requires forall i :: 0 <= i < |list| && i != j ==>
                 rows[i] == old(rows[i]) && old(list[i].Value()) == list[i].Value()
      requires trash == old(trash) && old(Trashed(trash, list))
      requires forall e :: e in trash && e != list[j] ==> e.track == old(e.track)
      ensures Values(list, rows) && Trashed(trash, list)
    {
      forall i | 0 <= i < |list| ensures Is(list[i], rows[i]) {
        assert i != j ==> old(Is(list[i], rows[i]));
      }
      forall i | 0 <= i < |trash| ensures Gone(trash[i], list) {
        assert old(Gone(trash[i], list)) && trash[i] in trash;
      }
    }

    /** restore(), for an element that is in the map in the level it goes back to. */
    method RestoreElement(e: Element<K, D>, ghost j: nat)
      requires Valid() && j < |list| && list[j] == e && rows[j].track.level == top > 0
      requires rows[j].track.saved[|rows[j].track.saved| - 1].copy.inMap
      modifies this`rows, e`data, e`track
      ensures Valid() && rows == old(rows)[j := old(rows)[j].Restored()] && e.track.level < top
    {
      assert Is(e, rows[j]);
      EntriesRestore(rows, j, top);
      e.data := e.track.saved[|e.track.saved| - 1].copy.data;
      e.track := e.track.Restored();
      rows := rows[j := rows[j].Restored()];
      OneChanged(j);
    }

    /** restore(), for an element that was inserted in the popped level. */
    method RemoveElement(e: Element<K, D>, ghost j: nat)
      requires Valid() && j < |list| && list[j] == e && rows[j].track.level == top > 0
      requires !rows[j].track.saved[|rows[j].track.saved| - 1].copy.inMap
      modifies this`table, this`first, this`trash, this`list, this`rows, list`next, list`prev, e`track
      ensures Valid() && list == Without(old(list), j) && rows == Without(old(rows), j)
      ensures trash == old(trash) + [e] && e.track.level == 0
      ensures forall x :: x in old(list) && x != e ==> x in list
    {
      assert Is(e, rows[j]);
      EntriesRemove(rows, j, top);
      TabledRemove(table, list, j);
      LoggedRemove(deleted, trash, list, j);
      table := table - {e.key};
      first := Unlink(first, e, list, j);
      trash := trash + [e];
      e.track := e.track.Restored();
      list, rows := Without(list, j), Without(rows, j);
      OneRemoved(j);
    }

    /** Element j has moved to the trash. */
    twostate lemma OneRemoved(j: nat)
      requires old(Values(list, rows)) && j < |old(list)| && old(list[j]) !in list
      requires list == Without(old(list), j) && rows == Without(old(rows), j)
      requires forall x :: x in old(list) && x != old(list[j]) ==> x.Value() == old(x.Value())
      requires old(Trashed(trash, list)) && trash == old(trash) + [old(list[j])] && old(list[j]).track == Track(0, [])
      requires forall x :: x in old(trash) && x != old(list[j]) ==> x.track == old(x.track)
      ensures Values(list, rows) && Trashed(trash, list)
    {
      forall i | 0 <= i < |list| ensures Is(list[i], rows[i]) {
        var l := if i < j then i else i + 1;
        assert old(Is(list[l], rows[l]));
        assert list[i] == old(list[l]) && list[i] in list;
      }
      forall i | 0 <= i < |trash| ensures Gone(trash[i], list) && (i < |trash| - 1 ==> trash[i] != old(list[j])) {
        if i < |trash| - 1 {
          assert old(Gone(trash[i], list)) && trash[i] in old(trash);
        }
      }
    }
 
    // ---------- the public operations ----------

    /** What the top level sees is what the elements hold now. */
    lemma TopEntries()
      requires Valid()
      ensures |Stack()[top]| == |list|
      ensures forall j :: 0 <= j < |list| ==> Stack()[top][j] == (list[j].key, list[j].data)
      ensures forall i, j :: 0 <= i < j < |list| ==> list[i].key != list[j].key
    {
      EntriesTop(rows, top);
      assert forall j :: 0 <= j < |list| ==> Is(list[j], rows[j]);
    }

    /** The table has the keys that the top level sees. */
    lemma TableKeys(k: K)
      requires Valid()
      ensures k in table <==> Has(Stack()[top], k)
    {
      TopEntries();
      if k in table {
        assert Known(table, list, k);
        var j :| 0 <= j < |list| && list[j] == table[k];
        assert Stack()[top][j].0 == k;
      }
      if Has(Stack()[top], k) {
        var j :| 0 <= j < |list| && Stack()[top][j].0 == k;
        assert Found(table, list[j]);
      }
    }

    method Insert(k: K, d: D) returns (isNew: bool)
      requires Valid()
      modifies this, list
      ensures Valid() && top == old(top) && isNew == !Has(old(Stack()[top]), k)
      ensures Stack() == old(Stack())[top := Put(old(Stack()[top]), k, d)]
      ensures forall e :: e in list && e !in old(list) ==> fresh(e)
    {
      EmptyTrash();
      TableKeys(k);
      isNew := k !in table;
      if isNew {
        StackNew(rows, k, d, dflt, top);
        var _ := Create(k, d, false);
      } else {
        Overwrite(k, d);
      }
    }

    method Overwrite(k: K, d: D)
      requires Valid() && k in table
      modifies this`rows, list`data, list`track
      ensures Valid() && Stack() == old(Stack())[top := Put(old(Stack()[top]), k, d)]
    {
      assert Known(table, list, k);
      ghost var j :| 0 <= j < |list| && list[j] == table[k];
      assert Is(list[j], rows[j]);
      StackSet(rows, j, top, d);
      SetElement(table[k], d, j);
    }

    /** operator[]: a missing key is inserted with the default value. */
    method Access(k: K) returns (e: Element<K, D>)
      requires Valid()
      modifies this, list
      ensures Valid() && top == old(top) && e in list && e.key == k
      ensures Stack() ==
              if Has(old(Stack()[top]), k) then old(Stack()) else old(Stack())[top := Put(old(Stack()[top]), k, dflt)]
      ensures forall e :: e in list && e !in old(list) ==> fresh(e)
    {
      EmptyTrash();
      TableKeys(k);
      if k !in table {
        StackNew(rows, k, dflt, dflt, top);
        e := Create(k, dflt, false);
      } else {
        assert Known(table, list, k);
        e := table[k];
      }
    }

    /** A key that is in the map already is an error, and nothing is inserted. */
    method InsertAtContextLevelZero(k: K, d: D) returns (ok: bool)
      requires Valid()
      modifies this, list
      ensures Valid() && top == old(top) && ok == !Has(old(Stack()[top]), k)
      ensures Stack() == if ok then Everywhere(AtLevelZero, old(Stack()), Op.InsertAtLevelZero(k, d)) else old(Stack())
      ensures forall e :: e in list && e !in old(list) ==> fresh(e)
    {
      EmptyTrash();
      TableKeys(k);
      ok := k !in table;
      if ok {
        StackZero(rows, k, d, dflt, top);
        var _ := Create(k, d, true);
      }
    }

    method ContextPush()
      requires Valid()
      modifies this`top
      ensures Valid() && top == old(top) + 1 && Stack() == old(Stack()) + [old(Stack()[top])]
    {
      EntriesPush(rows, top);
      top := top + 1;
    }

    method Count(k: K) returns (n: nat)
      requires Valid()
      ensures n == if Has(Stack()[top], k) then 1 else 0
    {
      TableKeys(k);
      n := if k in table then 1 else 0;
    }

    method Size() returns (n: nat)
      requires Valid()
      ensures n == |Stack()[top]|
    {
      TopEntries();
      TableSize(table, list);
      n := |table|;
    }

    /** Iteration gives the map of the current level, every key once, in the order of insertion. */
    method Iterate() returns (r: seq<(K, D)>)
      requires Valid()
      ensures r == Stack()[top]
      ensures forall i, j :: 0 <= i < j < |r| ==> r[i].0 != r[j].0
    {
      TopEntries();
      r := [];
      var it := first;
      while it != null
        invariant |r| <= |list| && forall j :: 0 <= j < |r| ==> r[j] == (list[j].key, list[j].data)
        invariant it == if |r| < |list| then list[|r|] else null
        decreases |list| - |r|
      {
        assert LinkOk(list, |r|);
        r := r + [(it.key, it.data)];
        it := if it.next == first then null else it.next;
      }
    }
    /** CDOhash_map::restore, as the pop of level `top` calls it for one element of that level. */
    method Restore(e: Element<K, D>)
      requires Valid() && e in list && e.track.level == top > 0
      modifies this`table, this`first, this`trash, this`list, this`rows, list
      ensures Valid() && forall x :: x in list ==> x in old(list)
      ensures forall x :: x in old(list) && x != e ==> x in list && x.track == old(x.track)
      ensures e.track.level < top
      ensures forall i :: 0 <= i < top ==> Entries(rows, i) == old(Entries(rows, i))
    {
      ghost var j :| 0 <= j < |list| && list[j] == e;
      assert Is(e, rows[j]) && rows[j].Ok(top);
      if e.track.saved[|e.track.saved| - 1].copy.inMap {
        EntriesRestore(rows, j, top);
        RestoreElement(e, j);
      } else {
        EntriesRemove(rows, j, top);
        RemoveElement(e, j);
      }
    }

    /**
     The context pops its top level, restoring the elements that are current in it, in whatever
     order the chain of the level has them.  Keys that came in the level go, values go back.
     */
    method ContextPop(chain: seq<Element<K, D>>)
      requires Valid() && top > 0
      requires forall i, j :: 0 <= i < j < |chain| ==> chain[i] != chain[j]
      requires forall e :: e in chain <==> e in list && e.track.level == top
      modifies this, list
      ensures Valid() && top == old(top) - 1 && Stack() == old(Stack())[..top + 1]
      ensures forall e :: e in list ==> e in old(list)
    {
      RestoreAll(chain);
      forall j | 0 <= j < |rows| ensures rows[j].Ok(top - 1) {
        assert Is(list[j], rows[j]) && rows[j].Ok(top) && list[j] in list;
      }
      top := top - 1;
    }

    method RestoreAll(chain: seq<Element<K, D>>)
      requires Valid() && top > 0
      requires forall i, j :: 0 <= i < j < |chain| ==> chain[i] != chain[j]
      requires forall e :: e in chain <==> e in list && e.track.level == top
      modifies this`table, this`first, this`trash, this`list, this`rows, list
      ensures Valid() && forall e :: e in list ==> e in old(list) && e.track.level != top
      ensures forall i :: 0 <= i < top ==> Entries(rows, i) == old(Entries(rows, i))
    {
      for n := 0 to |chain|
        invariant Valid()
        invariant forall e :: e in list ==> e in old(list)
        invariant forall j :: n <= j < |chain| ==> chain[j] in list && chain[j].track.level == top
        invariant forall e :: e in list && e.track.level == top ==> e in chain[n..]
        invariant forall i :: 0 <= i < top ==> Entries(rows, i) == old(Entries(rows, i))
      {
        assert forall j :: 0 <= j < |list| ==> list[j] in old(list);
        Restore(chain[n]);
      }
    }

    /** The elements that are current in the top level. */
    method Current() returns (chain: seq<Element<K, D>>)
      requires Valid()
      ensures forall i, j :: 0 <= i < j < |chain| ==> chain[i] != chain[j]
      ensures forall e :: e in chain <==> e in list && e.track.level == top
    {
      chain := [];
      var it := first;
      ghost var n := 0;
      while it != null
        invariant n <= |list| && it == if n < |list| then list[n] else null
        invariant forall i, j :: 0 <= i < j < |chain| ==> chain[i] != chain[j]
        invariant forall e :: e in chain <==> e in list[..n] && e.track.level == top
        decreases |list| - n
      {
        assert LinkOk(list, n) && list[..n + 1] == list[..n] + [it];
        if it.track.level == top {
          chain := chain + [it];
        }
        it := if it.next == first then null else it.next;
        n := n + 1;
      }
    }
    /** Any run of operations, pushes and pops acts as the same run on a stack of insertion-ordered maps. */
    method Run(steps: seq<Step<Op<K, D>>>)
      requires Valid() && Legal(top + 1, steps)
      modifies this, list
      ensures Valid() && Stack() == AfterAll(MapEffects(dflt), old(Stack()), steps)
      ensures forall e :: e in list && e !in old(list) ==> fresh(e)
      decreases |steps|
    {
      if steps != [] {
        RunOne(steps[0]);
        assert forall j :: 0 <= j < |list| ==> list[j] in list;
        Run(steps[1..]);
      }
    }

    /**
     A push, any run above it and a pop: every level is as before but for the later level-zero insertions,
     at the end.
     */
    method PushRunPop(steps: seq<Step<Op<K, D>>>)
      requires Valid() && Legal(1, steps) && Depth(1, steps) == 1
      modifies this, list
      ensures Valid() && top == old(top) && Legal(top + 2, steps)
      ensures var added := Fold(AtLevelZero, [], Escaped(MapEffects(dflt), old(Stack() + [Stack()[top]]), steps));
              forall i :: 0 <= i <= top ==> Stack()[i] == old(Stack())[i] + added
    {
      ghost var stack := Stack();
      ContextPush();
      assert |stack| == top && Stack() == stack + [stack[|stack| - 1]];
      PushRunPopMaps(stack, steps, dflt);
      RunAndPop(steps);
      assert |stack| == top + 1;
    }

    method RunAndPop(steps: seq<Step<Op<K, D>>>)
      requires Valid() && Legal(top + 1, steps) && Depth(top + 1, steps) > 1
      modifies this, list
      ensures Valid() && top == Depth(old(top) + 1, steps) - 2
      ensures Stack() == AfterAll(MapEffects(dflt), old(Stack()), steps)[..top + 1]
    {
      Run(steps);
      assert forall j :: 0 <= j < |list| ==> list[j] in list;
      PopTop();
    }

    method RunOne(step: Step<Op<K, D>>)
      requires Valid() && top + 1 + Change(step) > 0
      modifies this, list
      ensures Valid() && Stack() == ApplyAll(MapEffects(dflt), old(Stack()), step)
      ensures forall e :: e in list && e !in old(list) ==> fresh(e)
    {
      ghost var after := ApplyAll(MapEffects(dflt), Stack(), step);
      match step {
        case Push =>
          ContextPush();
          assert Stack() == after;
        case Pop =>
          PopTop();
          assert Stack() == after;
        case Act(op) =>
          Perform(op);
          assert Stack() == after;
      }
    }

    method PopTop()
      requires Valid() && top > 0
      modifies this, list
      ensures Valid() && top == old(top) - 1 && Stack() == old(Stack())[..top + 1]
      ensures forall e :: e in list ==> e in old(list)
    {
      var chain := Current();
      ContextPop(chain);
    }

    method Perform(op: Op<K, D>)
      requires Valid()
      modifies this, list
      ensures Valid() && Stack() == ApplyAll(MapEffects(dflt), old(Stack()), Act(op))
      ensures forall e :: e in list && e !in old(list) ==> fresh(e)
    {
      match op {
        case Insert(_, _) => PerformInsert(op);
        case InsertAtLevelZero(_, _) => PerformAtLevelZero(op);
        case Access(_) => PerformAccess(op);
      }
    }

    method PerformInsert(op: Op<K, D>)
      requires Valid() && op.Insert?
      modifies this, list
      ensures Valid() && Stack() == ApplyAll(MapEffects(dflt), old(Stack()), Act(op))
      ensures forall e :: e in list && e !in old(list) ==> fresh(e)
    {
      OpEffect(Stack(), op, dflt);
      var _ := Insert(op.key, op.data);
    }

    method PerformAtLevelZero(op: Op<K, D>)
      requires Valid() && op.InsertAtLevelZero?
      modifies this, list
      ensures Valid() && Stack() == ApplyAll(MapEffects(dflt), old(Stack()), Act(op))
      ensures forall e :: e in list && e !in old(list) ==> fresh(e)
    {
      OpEffect(Stack(), op, dflt);
      var _ := InsertAtContextLevelZero(op.key, op.data);
    }

    method PerformAccess(op: Op<K, D>)
      requires Valid() && op.Access?
      modifies this, list
      ensures Valid() && Stack() == ApplyAll(MapEffects(dflt), old(Stack()), Act(op))
      ensures forall e :: e in list && e !in old(list) ==> fresh(e)
    {
      OpEffect(Stack(), op, dflt);
      var _ := Access(op.key);
    }
  }

  // ---------- the effects of the operations ----------

  datatype Op<K, D> = Insert(key: K, data: D) | InsertAtLevelZero(key: K, data: D) | Access(key: K)

  /** The effect of an operation on the map of the current level. */
  ghost function Local<K, D>(dflt: D): (seq<(K, D)>, Op<K, D>) -> seq<(K, D)> {
    (m: seq<(K, D)>, op: Op<K, D>) =>
      match op
      case Insert(k, d) => Put(m, k, d)
      case InsertAtLevelZero(k, d) => m
      case Access(k) => if Has(m, k) then m else Put(m, k, dflt)
  }

  /** An insertion at level zero goes to the end of the map of every level. */
  ghost function AtLevelZero<K, D>(m: seq<(K, D)>, op: Op<K, D>): seq<(K, D)> {
    if op.InsertAtLevelZero? then m + [(op.key, op.data)] else m
  }

  /** Level-zero insertions add the same keys behind any map. */
  lemma {:induction false} FoldBack<K, D>(m: seq<(K, D)>, ops: seq<Op<K, D>>)
    ensures Fold(AtLevelZero, m, ops) == m + Fold(AtLevelZero, [], ops)
    decreases |ops|
  {
    if ops != [] {
      var one := AtLevelZero([], ops[0]);
      FoldBack(AtLevelZero(m, ops[0]), ops[1..]);
      FoldBack(one, ops[1..]);
      assert AtLevelZero(m, ops[0]) == m + one;
      assert (m + one) + Fold(AtLevelZero, [], ops[1..]) == m + (one + Fold(AtLevelZero, [], ops[1..]));
    }
  }

  /** It is refused when the key is in the map already. */
  ghost predicate Accepted<K, D>(m: seq<(K, D)>, op: Op<K, D>) {
    op.InsertAtLevelZero? && !Has(m, op.key)
  }

  ghost function MapEffects<K, D>(dflt: D): Effects<seq<(K, D)>, Op<K, D>> {
    Effects(Local(dflt), AtLevelZero, Accepted)
  }

  lemma PushRunPopMaps<K, D>(stack: seq<seq<(K, D)>>, steps: seq<Step<Op<K, D>>>, dflt: D)
    requires stack != [] && Legal(1, steps) && Depth(1, steps) == 1
    ensures var pushed := stack + [stack[|stack| - 1]];
            && Legal(|pushed|, steps) && Depth(|pushed|, steps) == |pushed|
            && var added := Fold(AtLevelZero, [], Escaped(MapEffects(dflt), pushed, steps));
               forall i :: 0 <= i < |stack| ==>
                 AfterAll(MapEffects(dflt), pushed, steps)[..|stack|][i] == stack[i] + added
  {
    PushRunPopAll(MapEffects(dflt), stack, steps);
    var ops := Escaped(MapEffects(dflt), stack + [stack[|stack| - 1]], steps);
    forall i | 0 <= i < |stack| ensures Fold(AtLevelZero, stack[i], ops) == stack[i] + Fold(AtLevelZero, [], ops) {
      FoldBack(stack[i], ops);
    }
  }

  /** What a step with an operation does to the stack. */
  lemma OpEffect<K, D>(stack: seq<seq<(K, D)>>, op: Op<K, D>, dflt: D)
    requires stack != []
    ensures var n := |stack| - 1;
            ApplyAll(MapEffects(dflt), stack, Act(op)) ==
            match op {
              case Insert(k, d) => stack[n := Put(stack[n], k, d)]
              case InsertAtLevelZero(k, d) => if Has(stack[n], k) then stack else Everywhere(AtLevelZero, stack, op)
              case Access(k) => if Has(stack[n], k) then stack else stack[n := Put(stack[n], k, dflt)]
            }
  {
    var n := |stack| - 1;
    assert stack[n := stack[n]] == stack;
  }

  lemma {:induction false} TableSize<K, D>(table: map<K, Element<K, D>>, list: seq<Element<K, D>>)
    requires Tabled(table, list) && forall i, j :: 0 <= i < j < |list| ==> list[i] != list[j]
    ensures |table| == |list|
    decreases |list|
  {
    if list == [] {
      assert forall k :: k in table ==> Known(table, list, k);
      assert table == map[];
    } else {
      TabledRemove(table, list, 0);
      assert Found(table, list[0]);
      TableSize(table - {list[0].key}, Without(list, 0));
    }
  }
}
