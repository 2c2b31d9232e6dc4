/**
 ClickHouse's ReplacingMergeTree(version) as the fact tables use it: an insert adds a part,
 background merges replace any parts by one part that keeps the newest row of every key, and a
 FINAL read sees, per key, the row with the highest version (the last inserted one on a tie).

 Every physical row carries the stamp it got when it was inserted, so "last inserted" is a
 property of the row and survives any merge.
 */
module ReplacingMergeTree {

  datatype Row<+K, +D> = Row(key: K, version: nat, stamp: nat, data: D)

  /** What a client hands to an insert: a row without its insertion stamp. */
  datatype Fact<+K, +D> = Fact(key: K, version: nat, data: D)

  datatype Store<K(==), D(==)> = Store(parts: set<set<Row<K, D>>>, nextStamp: nat)

  datatype Event<K(==), D(==)> =
    | Insert(block: seq<Fact<K, D>>)
    | Merge(sources: set<set<Row<K, D>>>)

  /** The newest fact of a key, as a reader of the deduplicated table sees it. */
  datatype Latest<+D> = Latest(version: nat, data: D)

  predicate Newer<K(==), D>(a: Row<K, D>, b: Row<K, D>) {
    a.key == b.key && (a.version > b.version || (a.version == b.version && a.stamp > b.stamp))
  }

  /** SELECT ... FINAL: the rows that no row of the same key supersedes. */
  function FinalRows<K(==), D(==)>(rows: set<Row<K, D>>): set<Row<K, D>> {
    set r | r in rows && forall o | o in rows :: !Newer(o, r)
  }

  function Union<K(==), D(==)>(parts: set<set<Row<K, D>>>): set<Row<K, D>> {
    set p, r | p in parts && r in p :: r
  }

  function Rows<K(==), D(==)>(s: Store<K, D>): set<Row<K, D>> {
    Union(s.parts)
  }

  function Stamped<K(==), D(==)>(block: seq<Fact<K, D>>, from: nat): set<Row<K, D>> {
    set i | 0 <= i < |block| :: Row(block[i].key, block[i].version, from + i, block[i].data)
  }

  const EMPTY_STAMP: nat := 0

  function Empty<K(==), D(==)>(): Store<K, D> {
    Store({}, EMPTY_STAMP)
  }

  predicate Enabled<K(==), D(==)>(s: Store<K, D>, e: Event<K, D>) {
    e.Merge? ==> e.sources <= s.parts
  }

  function Apply<K(==), D(==)>(s: Store<K, D>, e: Event<K, D>): Store<K, D>
    requires Enabled(s, e)
  {
    match e
    case Insert(block) => Store(s.parts + {Stamped(block, s.nextStamp)}, s.nextStamp + |block|)
    case Merge(sources) => Store(s.parts - sources + {FinalRows(Union(sources))}, s.nextStamp)
  }

  /** A history, oldest first, in which every merge takes parts that exist at that moment. */
  predicate Legal<K(==), D(==)>(events: seq<Event<K, D>>)
    decreases |events|, 0
  {
    events == [] ||
    (Legal(events[..|events| - 1]) && Enabled(After(events[..|events| - 1]), events[|events| - 1]))
  }

  function After<K(==), D(==)>(events: seq<Event<K, D>>): Store<K, D>
    requires Legal(events)
    decreases |events|, 1
  {
    if events == [] then Empty() else Apply(After(events[..|events| - 1]), events[|events| - 1])
  }

  // ----- the specification: one register per key --------------------------------------------

  /** A write wins unless the key already holds a strictly higher version. */
  function Absorb<K(==), D>(view: map<K, Latest<D>>, f: Fact<K, D>): map<K, Latest<D>> {
    if f.key in view && view[f.key].version > f.version then view
    else view[f.key := Latest(f.version, f.data)]
  }

  function AbsorbAll<K(==), D>(view: map<K, Latest<D>>, block: seq<Fact<K, D>>): map<K, Latest<D>>
    decreases |block|
  {
    if block == [] then view
    else Absorb(AbsorbAll(view, block[..|block| - 1]), block[|block| - 1])
  }

  /** Everything ever inserted, oldest first; merges leave no trace. */
  function Inserted<K(==), D(==)>(events: seq<Event<K, D>>): seq<Fact<K, D>>
    decreases |events|
  {
    if events == [] then []
    else
      var last := events[|events| - 1];
      Inserted(events[..|events| - 1]) + (if last.Insert? then last.block else [])
  }

  /** view is exactly what a FINAL read of rows returns: one row per key, and that row. */
  ghost predicate Represents<K, D>(rows: set<Row<K, D>>, view: map<K, Latest<D>>) {
    && (forall r | r in FinalRows(rows) :: r.key in view && view[r.key] == Latest(r.version, r.data))
    && (forall k | k in view :: exists r :: r in FinalRows(rows) && r.key == k)
  }

  ghost predicate StampsBelow<K, D>(rows: set<Row<K, D>>, bound: nat) {
    forall r | r in rows :: r.stamp < bound
  }

  // ----- FINAL is insensitive to merging ------------------------------------------------------

  ghost function NewerRows<K, D>(rows: set<Row<K, D>>, r: Row<K, D>): set<Row<K, D>> {
    set o | o in rows && Newer(o, r)
  }

  /** Every row is superseded by, or is, a row of the FINAL read. */
  lemma {:induction false} Superseded<K, D>(rows: set<Row<K, D>>, r: Row<K, D>) returns (w: Row<K, D>)
    requires r in rows
    ensures w in FinalRows(rows) && (w == r || Newer(w, r))
    decreases NewerRows(rows, r)
  {
    if r in FinalRows(rows) {
      w := r;
    } else {
      var o :| o in rows && Newer(o, r);
      assert o in NewerRows(rows, r) && o !in NewerRows(rows, o);
      w := Superseded(rows, o);
    }
  }

  /** Deduplicating some of the rows early changes nothing for the final read. */
  lemma FinalAbsorbsPartialFinal<K, D>(others: set<Row<K, D>>, some: set<Row<K, D>>)
    ensures FinalRows(others + FinalRows(some)) == FinalRows(others + some)
  {
    forall r | r in FinalRows(others + FinalRows(some))
      ensures r in FinalRows(others + some)
    {
      forall o | o in others + some ensures !Newer(o, r) {
        if o in some {
          var w := Superseded(some, o);
          assert w in others + FinalRows(some) && !Newer(w, r);
        }
      }
    }
    forall r | r in FinalRows(others + some)
      ensures r in FinalRows(others + FinalRows(some))
    {
      if r in some { assert r in FinalRows(some); }
    }
  }

  lemma FinalIdempotent<K, D>(rows: set<Row<K, D>>)
    ensures FinalRows(FinalRows(rows)) == FinalRows(rows)
  {
    FinalAbsorbsPartialFinal({}, rows);
    assert {} + FinalRows(rows) == FinalRows(rows) && {} + rows == rows;
  }

  /** A background merge of any parts is invisible to FINAL reads. */
  lemma MergeKeepsFinal<K, D>(s: Store<K, D>, sources: set<set<Row<K, D>>>)
    requires sources <= s.parts
    ensures FinalRows(Rows(Apply(s, Merge(sources)))) == FinalRows(Rows(s))
  {
    var others, some := Union(s.parts - sources), Union(sources);
    assert Rows(s) == others + some;
    assert Rows(Apply(s, Merge(sources))) == others + FinalRows(some);
    FinalAbsorbsPartialFinal(others, some);
  }

  // ----- the store refines the register -------------------------------------------------------

  lemma AbsorbRow<K, D>(rows: set<Row<K, D>>, view: map<K, Latest<D>>, r: Row<K, D>)
    requires Represents(rows, view) && StampsBelow(rows, r.stamp)
    ensures Represents(rows + {r}, Absorb(view, Fact(r.key, r.version, r.data)))
  {
    var all, after := rows + {r}, Absorb(view, Fact(r.key, r.version, r.data));
    forall x | x in FinalRows(all) ensures x.key in after && after[x.key] == Latest(x.version, x.data) {
      if x != r {
        assert x in FinalRows(rows);
      } else if r.key in view {
        var w :| w in FinalRows(rows) && w.key == r.key;
        assert !Newer(w, r);
      }
    }
    forall k | k in after ensures exists x :: x in FinalRows(all) && x.key == k {
      var x: Row<K, D>;
      if k == r.key {
        x := Superseded(all, r);
      } else {
        var w :| w in FinalRows(rows) && w.key == k;
        x := Superseded(all, w);
      }
      assert x in FinalRows(all) && x.key == k;
    }
  }

  lemma StampedSnoc<K, D>(block: seq<Fact<K, D>>, from: nat)
    requires block != []
    ensures var n := |block| - 1;
            Stamped(block, from) ==
              Stamped(block[..n], from) + {Row(block[n].key, block[n].version, from + n, block[n].data)}
  {
    var n := |block| - 1;
    var init := block[..n];
    forall i | 0 <= i < |block|
      ensures Row(block[i].key, block[i].version, from + i, block[i].data)
              in Stamped(init, from) + {Row(block[n].key, block[n].version, from + n, block[n].data)}
    {
      if i < n { assert init[i] == block[i]; }
    }
    forall i | 0 <= i < n
      ensures Row(init[i].key, init[i].version, from + i, init[i].data) in Stamped(block, from)
    {
      assert init[i] == block[i];
    }
  }

  lemma {:induction false} AbsorbBlock<K, D>(rows: set<Row<K, D>>, view: map<K, Latest<D>>, block: seq<Fact<K, D>>,
                                             from: nat)
    requires Represents(rows, view) && StampsBelow(rows, from)
    ensures Represents(rows + Stamped(block, from), AbsorbAll(view, block))
    ensures StampsBelow(rows + Stamped(block, from), from + |block|)
    decreases |block|
  {
    if block == [] {
      assert rows + Stamped(block, from) == rows;
    } else {
      hide Represents, FinalRows, Stamped, Absorb;
      var n := |block| - 1;
      var init, r := block[..n], Row(block[n].key, block[n].version, from + n, block[n].data);
      AbsorbBlock(rows, view, init, from);
      var before := rows + Stamped(init, from);
      AbsorbRow(before, AbsorbAll(view, init), r);
      StampedSnoc(block, from);
      assert rows + Stamped(block, from) == before + {r};
    }
  }

  /** One event moves the FINAL read exactly as the registers move. */
  lemma ApplyRefines<K, D>(s: Store<K, D>, view: map<K, Latest<D>>, e: Event<K, D>)
    requires Enabled(s, e) && Represents(Rows(s), view) && StampsBelow(Rows(s), s.nextStamp)
    ensures Represents(Rows(Apply(s, e)), if e.Insert? then AbsorbAll(view, e.block) else view)
    ensures StampsBelow(Rows(Apply(s, e)), Apply(s, e).nextStamp)
  {
    match e
    case Insert(block) =>
      AbsorbBlock(Rows(s), view, block, s.nextStamp);
      assert Rows(Apply(s, e)) == Rows(s) + Stamped(block, s.nextStamp);
    case Merge(sources) =>
      MergeKeepsFinal(s, sources);
  }

  lemma {:induction false} AbsorbAllAppend<K, D>(view: map<K, Latest<D>>, a: seq<Fact<K, D>>, b: seq<Fact<K, D>>)
    ensures AbsorbAll(view, a + b) == AbsorbAll(AbsorbAll(view, a), b)
    decreases |b|
  {
    if b == [] {
      assert a + b == a;
    } else {
      var n := |b| - 1;
      assert (a + b)[..|a + b| - 1] == a + b[..n];
      AbsorbAllAppend(view, a, b[..n]);
    }
  }

  /**
   For every history of inserts and every schedule of merges, a FINAL read returns exactly what
   the registers hold after the inserts alone.
   */
  lemma {:induction false} FinalReadIsMergeFree<K, D>(events: seq<Event<K, D>>)
    requires Legal(events)
    ensures Represents(Rows(After(events)), AbsorbAll(map[], Inserted(events)))
    ensures StampsBelow(Rows(After(events)), After(events).nextStamp)
    decreases |events|
  {
    if events != [] {
      var init, last := events[..|events| - 1], events[|events| - 1];
      FinalReadIsMergeFree(init);
      ApplyRefines(After(init), AbsorbAll(map[], Inserted(init)), last);
      AbsorbAllAppend(map[], Inserted(init), if last.Insert? then last.block else []);
    }
  }

  /** The same history with no merge ever taking place. */
  function InsertsOnly<K(==), D(==)>(events: seq<Event<K, D>>): seq<Event<K, D>>
    decreases |events|
  {
    if events == [] then []
    else
      var last := events[|events| - 1];
      InsertsOnly(events[..|events| - 1]) + (if last.Insert? then [last] else [])
  }

  /** The FINAL rows after an insert depend on the FINAL rows before it alone. */
  lemma InsertFinal<K, D>(s: Store<K, D>, t: Store<K, D>, block: seq<Fact<K, D>>)
    requires FinalRows(Rows(s)) == FinalRows(Rows(t)) && s.nextStamp == t.nextStamp
    ensures FinalRows(Rows(Apply(s, Insert(block)))) == FinalRows(Rows(Apply(t, Insert(block))))
  {
    var added := Stamped(block, s.nextStamp);
    assert Rows(Apply(s, Insert(block))) == added + Rows(s) && Rows(Apply(t, Insert(block))) == added + Rows(t);
    hide FinalRows, Rows, Stamped, Apply;
    FinalAbsorbsPartialFinal(added, Rows(s));
    FinalAbsorbsPartialFinal(added, Rows(t));
  }

  /** Merged at any time or never, the table gives the same FINAL rows. */
  lemma {:induction false} MergesNeverShow<K, D>(events: seq<Event<K, D>>)
    requires Legal(events)
    ensures Legal(InsertsOnly(events)) && After(InsertsOnly(events)).nextStamp == After(events).nextStamp
    ensures FinalRows(Rows(After(InsertsOnly(events)))) == FinalRows(Rows(After(events)))
    decreases |events|
  {
    hide FinalRows, Rows;
    if events != [] {
      var init, last := events[..|events| - 1], events[|events| - 1];
      MergesNeverShow(init);
      match last {
        case Insert(block) =>
          var out := InsertsOnly(events);
          assert out[..|out| - 1] == InsertsOnly(init) && out[|out| - 1] == last;
          InsertFinal(After(InsertsOnly(init)), After(init), block);
        case Merge(sources) =>
          MergeKeepsFinal(After(init), sources);
          assert InsertsOnly(events) == InsertsOnly(init);
      }
    }
  }

  // ----- what redelivery can and cannot do ----------------------------------------------------

  /** No insert, old or new, ever takes a key back to a lower version, or loses a key. */
  lemma {:induction false} NeverBackwards<K, D>(view: map<K, Latest<D>>, block: seq<Fact<K, D>>)
    ensures forall k | k in view :: k in AbsorbAll(view, block) && AbsorbAll(view, block)[k].version >= view[k].version
    decreases |block|
  {
    if block != [] { NeverBackwards(view, block[..|block| - 1]); }
  }

  /** Redelivering a block of superseded versions leaves the FINAL read exactly as it was. */
  lemma {:induction false} OlderBlockIsInvisible<K, D>(view: map<K, Latest<D>>, block: seq<Fact<K, D>>)
    requires forall i | 0 <= i < |block| :: block[i].key in view && block[i].version < view[block[i].key].version
    ensures AbsorbAll(view, block) == view
    decreases |block|
  {
    if block != [] {
      var init := block[..|block| - 1];
      forall i | 0 <= i < |init| ensures init[i].key in view && init[i].version < view[init[i].key].version {
        assert init[i] == block[i];
      }
      OlderBlockIsInvisible(view, init);
    }
  }
}
