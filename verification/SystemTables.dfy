/** The catalog's system tables as what their logs of deltas, and so the store, hold. */
module SystemTables {
  import opened Bytes
  import opened Varint
  import opened Datums
  import opened Rows
  import opened TableKeys
  import opened Mvcc
  import opened DeltaLog
  import opened TableScan
  import opened Catalog

  /** Rows laid out as tuples: two of them share a row of the store exactly when they share a key. */
  ghost predicate Keyed<K(!new), V(!new)>(table: Table, layout: (K, V) -> Tuple) {
    forall k, v, k', v' {:trigger layout(k, v), layout(k', v')} ::
      ValidTupleOf(table, layout(k, v)) && ValidTupleOf(table, layout(k', v')) ==>
        (Base(table, layout(k, v)) == Base(table, layout(k', v')) <==> k == k')
  }

  /** The log says of `k` what the system table's entry `e` says. */
  ghost predicate Holds<K(!new), V(!new)>(table: Table, log: seq<Write>, layout: (K, V) -> Tuple, k: K, e: (V, int))
    requires ValidLog(table, log)
  {
    ValidTupleOf(table, layout(k, e.0)) &&
    var row := RowLog(table, log, Base(table, layout(k, e.0)));
    row != [] && row[|row| - 1].tuple == layout(k, e.0) && Total(row) == e.1
  }

  /** Some entry of the system table is stored under `base`. */
  ghost predicate HasEntry<K(!new), V(!new)>(table: Table, layout: (K, V) -> Tuple, t: SysTable<K, V>,
                                             base: seq<byte>) {
    exists k :: k in t && ValidTupleOf(table, layout(k, t[k].0)) && Base(table, layout(k, t[k].0)) == base
  }

  /** The log of a table is that of a system table. */
  ghost predicate Represents<K(!new), V(!new)>(table: Table, log: seq<Write>, layout: (K, V) -> Tuple,
                                               t: SysTable<K, V>) {
    && ValidLog(table, log)
    && (forall k :: k in t ==> Holds(table, log, layout, k, t[k]))
    && (forall base :: RowLog(table, log, base) != [] ==> HasEntry(table, layout, t, base))
  }

  lemma NoRows<K(!new), V(!new)>(table: Table, layout: (K, V) -> Tuple)
    requires table.Valid()
    ensures Represents(table, [], layout, map[])
  {
  }

  lemma WriteLast(table: Table, log: seq<Write>, w: Write, base: seq<byte>)
    requires forall v :: v in log + [w] ==> ValidTupleOf(table, v.tuple)
    requires forall v :: v in log ==> ValidTupleOf(table, v.tuple)
    ensures w in log + [w]
    ensures RowLog(table, log + [w], base) ==
      RowLog(table, log, base) + if Base(table, w.tuple) == base then [w] else []
  {
    hide Base;
    assert (log + [w])[..|log|] == log && (log + [w])[|log|] == w;
  }

  /** The row of `k` holds nothing before its first write, and else the entry's sum. */
  lemma RowOfKey<K(!new), V(!new)>(table: Table, log: seq<Write>, layout: (K, V) -> Tuple, t: SysTable<K, V>, k: K,
                                   v: V)
    requires Keyed(table, layout) && Represents(table, log, layout, t) && ValidTupleOf(table, layout(k, v))
    ensures
      var row := RowLog(table, log, Base(table, layout(k, v)));
      && (row == [] <==> k !in t) && Total(row) == FreqOf(t, k)
      && (k in t ==> row[|row| - 1].tuple == layout(k, t[k].0))
  {
    hide Base, ValidTupleOf, RowLog, Chronological;
    var base := Base(table, layout(k, v));
    if k in t {
      assert Holds(table, log, layout, k, t[k]);
    }
  }

  /** Entries of other keys are untouched by a write. */
  lemma HoldsStill<K(!new), V(!new)>(table: Table, log: seq<Write>, layout: (K, V) -> Tuple, w: Write, k: K,
                                     e: (V, int))
    requires ValidLog(table, log) && ValidLog(table, log + [w]) && Holds(table, log, layout, k, e)
    requires w in log + [w] && Base(table, w.tuple) != Base(table, layout(k, e.0))
    ensures Holds(table, log + [w], layout, k, e)
  {
    hide Base, ValidTupleOf, RowLog, Chronological, Total;
    var base := Base(table, layout(k, e.0));
    WriteLast(table, log, w, base);
    assert RowLog(table, log, base) + [] == RowLog(table, log, base);
  }

  /** Writing a delta for a key is the step of the system table. */
  lemma WriteStep<K(!new), V(!new)>(table: Table, log: seq<Write>, layout: (K, V) -> Tuple, t: SysTable<K, V>,
                                    k: K, v: V, ts: nat, delta: int)
    requires Keyed(table, layout) && Represents(table, log, layout, t)
    requires ValidLog(table, log + [Write(layout(k, v), ts, delta)])
    ensures Represents(table, log + [Write(layout(k, v), ts, delta)], layout, Written(t, k, v, delta))
  {
    hide Base, ValidTupleOf, RowLog, Chronological, Total, Holds;
    var w, t' := Write(layout(k, v), ts, delta), Written(t, k, v, delta);
    var log' := log + [w];
    assert w in log';
    forall k' | k' in t' ensures Holds(table, log', layout, k', t'[k']) {
      if k' == k {
        HoldsNow(table, log, layout, t, k, v, ts, delta);
      } else {
        HoldsValid(table, log, layout, k', t[k']);
        HoldsStill(table, log, layout, w, k', t[k']);
      }
    }
    forall b | RowLog(table, log', b) != [] ensures HasEntry(table, layout, t', b) {
      if b == Base(table, w.tuple) {
        assert k in t' && t'[k].0 == v;
      } else {
        WriteLast(table, log, w, b);
        assert HasEntry(table, layout, t, b);
        var k' :| k' in t && ValidTupleOf(table, layout(k', t[k'].0)) && Base(table, layout(k', t[k'].0)) == b;
        assert k' in t' && t'[k'].0 == t[k'].0;
      }
    }
  }

  lemma HoldsValid<K(!new), V(!new)>(table: Table, log: seq<Write>, layout: (K, V) -> Tuple, k: K, e: (V, int))
    requires ValidLog(table, log) && Holds(table, log, layout, k, e)
    ensures ValidTupleOf(table, layout(k, e.0))
  {
  }

  lemma HoldsNow<K(!new), V(!new)>(table: Table, log: seq<Write>, layout: (K, V) -> Tuple, t: SysTable<K, V>,
                                   k: K, v: V, ts: nat, delta: int)
    requires Keyed(table, layout) && Represents(table, log, layout, t)
    requires ValidLog(table, log + [Write(layout(k, v), ts, delta)])
    ensures Holds(table, log + [Write(layout(k, v), ts, delta)], layout, k, Written(t, k, v, delta)[k])
  {
    hide Base, ValidTupleOf, RowLog, Chronological, Total, Keyed, Represents;
    var w := Write(layout(k, v), ts, delta);
    assert w in log + [w];
    assert ValidLog(table, log) by { RepresentsValid(table, log, layout, t); }
    RowOfKey(table, log, layout, t, k, v);
    WriteLast(table, log, w, Base(table, w.tuple));
    TotalPush(RowLog(table, log, Base(table, w.tuple)), w);
  }

  lemma RepresentsValid<K(!new), V(!new)>(table: Table, log: seq<Write>, layout: (K, V) -> Tuple, t: SysTable<K, V>)
    requires Represents(table, log, layout, t)
    ensures ValidLog(table, log)
  {
  }

  lemma TotalPush(row: seq<Write>, w: Write)
    ensures Total(row + [w]) == Total(row) + w.freq
  {
    assert (row + [w])[..|row|] == row;
  }

  /** What a scan at the end of time shows of a key: its row if it is live and within bounds. */
  lemma LiveKey<K(!new), V(!new)>(table: Table, log: seq<Write>, layout: (K, V) -> Tuple, t: SysTable<K, V>, k: K,
                                  from: Option<Tuple>, to: Option<Tuple>)
    requires Keyed(table, layout) && Represents(table, log, layout, t) && k in t && ValidBound(from) && ValidBound(to)
    ensures ValidTupleOf(table, layout(k, t[k].0))
    ensures TableScan.LiveRow(table, RowLog(table, log, Base(table, layout(k, t[k].0))), from, to, TS_MAX) ==
      if Live(t, k) && InBounds(table, layout(k, t[k].0), from, to) then [(layout(k, t[k].0), t[k].1)] else []
  {
    hide Base, ValidTupleOf, RowLog, InBounds;
    assert Holds(table, log, layout, k, t[k]);
    var base := Base(table, layout(k, t[k].0));
    var row := RowLog(table, log, base);
    RowTuples(table, log, base, |row| - 1);
    AllBefore(row, TS_MAX);
  }

  /** A row of the scan is the row of one of the identities. */
  lemma {:induction false} ScannedRow(table: Table, log: seq<Write>, rows: seq<seq<byte>>, r: Row,
                                      from: Option<Tuple>, to: Option<Tuple>)
    requires ValidLog(table, log) && ValidBound(from) && ValidBound(to)
    ensures r in TableScan.LiveRows(table, log, rows, from, to, TS_MAX) <==>
      exists b :: b in rows && TableScan.LiveRow(table, RowLog(table, log, b), from, to, TS_MAX) == [r]
  {
    hide RowLog, InBounds, ValidTupleOf, Chronological, Total;
    if rows != [] {
      ScannedRow(table, log, rows[1..], r, from, to);
      assert rows == [rows[0]] + rows[1..];
      if r in TableScan.LiveRow(table, RowLog(table, log, rows[0]), from, to, TS_MAX) {
        assert TableScan.LiveRow(table, RowLog(table, log, rows[0]), from, to, TS_MAX) == [r];
      }
    }
  }

  /** A scan of the stored table returns the rows of the live keys within bounds with their sums,
      and no others. */
  lemma ScanShowsLive<K(!new), V(!new)>(table: Table, log: seq<Write>, layout: (K, V) -> Tuple, t: SysTable<K, V>,
                                        r: Row, from: Option<Tuple>, to: Option<Tuple>)
    requires Keyed(table, layout) && Represents(table, log, layout, t) && ValidBound(from) && ValidBound(to)
    ensures forall k :: k in t ==> ValidTupleOf(table, layout(k, t[k].0))
    ensures r in TableScan.LiveRows(table, log, RowsOf(table, log), from, to, TS_MAX) <==>
      exists k :: Live(t, k) && r == (layout(k, t[k].0), t[k].1) && InBounds(table, layout(k, t[k].0), from, to)
  {
    hide Base, ValidTupleOf, RowLog, Chronological, Total, TableScan.LiveRow, TableScan.LiveRows, RowsOf, InBounds;
    hide ValidBound;
    forall k | k in t ensures ValidTupleOf(table, layout(k, t[k].0)) { assert Holds(table, log, layout, k, t[k]); }
    ScannedRow(table, log, RowsOf(table, log), r, from, to);
    if r in TableScan.LiveRows(table, log, RowsOf(table, log), from, to, TS_MAX) {
      var b :| b in RowsOf(table, log) && TableScan.LiveRow(table, RowLog(table, log, b), from, to, TS_MAX) == [r];
      IsRow(table, log, b);
      assert HasEntry(table, layout, t, b);
      var k :| k in t && ValidTupleOf(table, layout(k, t[k].0)) && Base(table, layout(k, t[k].0)) == b;
      LiveKey(table, log, layout, t, k, from, to);
      assert Live(t, k) && r == (layout(k, t[k].0), t[k].1);
    }
    if k :| Live(t, k) && r == (layout(k, t[k].0), t[k].1) && InBounds(table, layout(k, t[k].0), from, to) {
      assert Holds(table, log, layout, k, t[k]);
      LiveKey(table, log, layout, t, k, from, to);
      IsRow(table, log, Base(table, layout(k, t[k].0)));
    }
  }

  /** A scan from a key prefix to the same prefix is over the rows whose key starts with it. */
  lemma PrefixBounds(table: Table, tuple: Tuple, prefix: Tuple)
    requires ValidTupleOf(table, tuple) && ValidTuple(prefix) && |prefix| <= |table.pk|
    ensures InBounds(table, tuple, Some(prefix), Some(prefix)) <==>
      CanonTuple(Cols(table, tuple)[..|prefix|]) == CanonTuple(prefix)
  {
    hide TupleCmp, KeyPrefix, Cmp;
    var cols := Cols(table, tuple)[..|prefix|];
    PrefixOrder(table, prefix, cols, [], []);
    PrefixOrder(table, cols, prefix, [], []);
    CmpSelf([]);
    CmpAntisymmetric(KeyPrefix(table, cols) + [], KeyPrefix(table, prefix) + []);
    TupleCanonical(cols, prefix, table.pk[..|prefix|]);
  }

  lemma IsRow(table: Table, log: seq<Write>, base: seq<byte>)
    requires ValidLog(table, log)
    ensures base in RowsOf(table, log) <==> RowLog(table, log, base) != []
  {
    hide Base, RowLog;
    VersionsAreFolds(table, log, base);
    SortedKeysAscending(VersionsOf(table, log).Keys);
  }

  /** A point lookup finds the sum of a key's deltas, and nothing exactly when it was never written. */
  lemma LookupShowsKey<K(!new), V(!new)>(table: Table, db: Db, log: seq<Write>, layout: (K, V) -> Tuple,
                                         t: SysTable<K, V>, k: K, v: V)
    requires StoredLog(table, db, log) && Keyed(table, layout) && Represents(table, log, layout, t)
    requires ValidTupleOf(table, layout(k, v))
    ensures
      var r := PointLookup(table, db, layout(k, v));
      r.Some? && (r.value.Some? <==> k in t) && (k in t ==> r.value.value.0 == FreqOf(t, k))
  {
    hide Base, ValidTupleOf, RowLog, PointLookup, Stored, VersionsOf;
    RowOfKey(table, log, layout, t, k, v);
    LookupMeansLog(table, db, log, layout(k, v));
    var row := RowLog(table, log, Base(table, layout(k, v)));
    if row != [] {
      RowTuples(table, log, Base(table, layout(k, v)), |row| - 1);
      AllBefore(row, TS_MAX);
    }
  }

  /** Dropping one table leaves what every other table stores. */
  lemma DropKeepsLog(table: Table, db: Db, log: seq<Write>, id: nat)
    requires StoredLog(table, db, log) && id % 2 == 0 && id != table.id && id + 2 < U32
    ensures StoredLog(table, DropData(db, id), log)
  {
    hide InTable, RecValue, DropData, VersionsOf, Own, Base, RowLog, Chronological, Total;
    var vers, db' := VersionsOf(table, log), DropData(db, id);
    forall base, j | base in vers && 0 <= j < |vers[base]|
      ensures RecKey(base, vers[base], j) in db' && db'[RecKey(base, vers[base], j)] == db[RecKey(base, vers[base], j)]
    {
      RecKeyInTable(table, base, vers[base], j);
      DropKeepsOthers(db, id, table.id, RecKey(base, vers[base], j));
    }
    forall k | k in db' ensures k in db { DropOnlyRemoves(db, id, k); }
  }

  lemma RecKeyInTable(table: Table, base: seq<byte>, vs: seq<Version>, j: nat)
    requires VersionsOk(table, base, vs) && j < |vs|
    ensures InTable(table.id, RecKey(base, vs, j))
  {
    hide InTable;
    var cols := Cols(table, vs[0].tuple);
    RecKeyParts(base, vs, j);
    PrefixInTable(table, cols, Suffix(vs, j));
  }

  lemma DropOnlyRemoves(db: Db, id: nat, k: seq<byte>)
    requires k in DropData(db, id)
    ensures k in db
  {
  }

  // ----- The databases table

  const DATABASES_TABLE := Table(2, 1, [Asc])

  function DatabaseTuple(name: seq<byte>, v: ()): (r: Tuple) {
    [ByteA(name)]
  }

  lemma DatabasesKeyed()
    ensures Keyed(DATABASES_TABLE, DatabaseTuple)
    ensures forall name, v :: ValidTupleOf(DATABASES_TABLE, DatabaseTuple(name, v))
  {
    hide Base, KeyPrefix;
    forall k: seq<byte>, v, k', v'
      ensures ValidTupleOf(DATABASES_TABLE, DatabaseTuple(k, v)) && ValidTupleOf(DATABASES_TABLE, DatabaseTuple(k', v'))
      ensures Base(DATABASES_TABLE, DatabaseTuple(k, v)) == Base(DATABASES_TABLE, DatabaseTuple(k', v')) <==> k == k'
    {
      var a, b := DatabaseTuple(k, v), DatabaseTuple(k', v');
      SameRow(DATABASES_TABLE, a, b);
      assert CanonTuple(Cols(DATABASES_TABLE, a))[0] == ByteA(k)
        && CanonTuple(Cols(DATABASES_TABLE, b))[0] == ByteA(k');
    }
  }

  // ----- The tables and prefix_tables tables

  const TABLES_TABLE := Table(4, 8, [Asc, Asc])
  const PREFIX_TABLE := Table(0, 3, [Asc])

  /** A table or view: its database and name, then the six other columns. */
  function TableTuple(key: (seq<byte>, seq<byte>), rest: Tuple): (r: Tuple) {
    [ByteA(key.0), ByteA(key.1)] + rest
  }

  /** A key layout: the table's id, then the two other columns. */
  function PrefixTuple(id: int, rest: Tuple): (r: Tuple) {
    [BigInt(id)] + rest
  }

  lemma TablesKeyed()
    ensures Keyed(TABLES_TABLE, TableTuple)
    ensures forall key, rest :: |rest| == 6 && ValidTuple(rest) ==> ValidTupleOf(TABLES_TABLE, TableTuple(key, rest))
  {
    hide Base, KeyPrefix;
    forall k, v, k', v' | ValidTupleOf(TABLES_TABLE, TableTuple(k, v)) && ValidTupleOf(TABLES_TABLE, TableTuple(k', v'))
      ensures Base(TABLES_TABLE, TableTuple(k, v)) == Base(TABLES_TABLE, TableTuple(k', v')) <==> k == k'
    {
      var a, b := Cols(TABLES_TABLE, TableTuple(k, v)), Cols(TABLES_TABLE, TableTuple(k', v'));
      SameRow(TABLES_TABLE, TableTuple(k, v), TableTuple(k', v'));
      assert a == [ByteA(k.0), ByteA(k.1)] && b == [ByteA(k'.0), ByteA(k'.1)];
      assert CanonTuple(a) == a && CanonTuple(b) == b;
      assert a == b ==> a[0].bytes == k'.0 && a[1].bytes == k'.1;
    }
  }

  lemma PrefixesKeyed()
    ensures Keyed(PREFIX_TABLE, PrefixTuple)
    ensures forall id, rest :: IsI64(id) && |rest| == 2 && ValidTuple(rest) ==>
      ValidTupleOf(PREFIX_TABLE, PrefixTuple(id, rest))
  {
    hide Base, KeyPrefix;
    forall k, v, k', v' |
      ValidTupleOf(PREFIX_TABLE, PrefixTuple(k, v)) && ValidTupleOf(PREFIX_TABLE, PrefixTuple(k', v'))
      ensures Base(PREFIX_TABLE, PrefixTuple(k, v)) == Base(PREFIX_TABLE, PrefixTuple(k', v')) <==> k == k'
    {
      var a, b := Cols(PREFIX_TABLE, PrefixTuple(k, v)), Cols(PREFIX_TABLE, PrefixTuple(k', v'));
      SameRow(PREFIX_TABLE, PrefixTuple(k, v), PrefixTuple(k', v'));
      assert a == [BigInt(k)] && b == [BigInt(k')];
      assert CanonTuple(a) == a && CanonTuple(b) == b;
      assert a == b ==> a[0].i == k';
    }
  }

  // ----- Key layouts in the catalog

  /** The table that a key layout describes. */
  function TableOf(id: nat, row: MetaRow): (r: Table) {
    Table(id, row.columnLen, row.pk)
  }

  /** What the boot leaves in the catalog are the system tables' own layouts, of as many columns as listed. */
  lemma BootLayouts()
    ensures BootMeta().Keys == {0, 2, 4} && BootTables().Keys == {PREFIX_TABLES, DATABASES, TABLES}
    ensures TableOf(0, BootMeta()[0]) == PREFIX_TABLE
    ensures TableOf(2, BootMeta()[2]) == DATABASES_TABLE
    ensures TableOf(4, BootMeta()[4]) == TABLES_TABLE
    ensures forall key :: key in BootTables() ==>
      var row := BootTables()[key];
      && row.system && row.kind.TableKind? && row.kind.id in BootMeta()
      && BootMeta()[row.kind.id].columnLen == |row.columns|
  {
    BootNames();
  }

  /** In a table a user created, two rows are one exactly when they are equal in every column. */
  lemma CreatedKey(v: View, key: TableKey, id: nat, columns: seq<Col>, a: Tuple, b: Tuple)
    requires
      var table := TableOf(id, WithTable(v, key, id, columns).meta[id]);
      ValidTupleOf(table, a) && ValidTupleOf(table, b)
    ensures
      var table := TableOf(id, WithTable(v, key, id, columns).meta[id]);
      && table.length == |columns|
      && (Base(table, a) == Base(table, b) <==> CanonTuple(a) == CanonTuple(b))
  {
    hide KeyPrefix, CanonTuple;
    var table := TableOf(id, WithTable(v, key, id, columns).meta[id]);
    SameRow(table, a, b);
    assert Cols(table, a) == a && Cols(table, b) == b;
  }

  /** So no two rows of different values ever share their history. */
  method CreatedApart(catalog: Catalog, database: Name, name: Name, columns: seq<Col>, hash: nat, a: Tuple, b: Tuple)
    returns (r: Outcome, table: Table)
    requires catalog.Valid() && hash < U32 && |columns| == |a| == |b| < U64 && ValidTuple(a) && ValidTuple(b)
    modifies catalog
    ensures r.Done? ==>
      && table.Valid() && table.id in catalog.Shown().meta && table == TableOf(table.id, catalog.Shown().meta[table.id])
      && ValidTupleOf(table, a) && ValidTupleOf(table, b)
      && (Base(table, a) == Base(table, b) <==> CanonTuple(a) == CanonTuple(b))
  {
    hide KeyPrefix, CanonTuple, Coherent, Unit, Seen, Bootstrapped;
    ghost var v := catalog.Shown();
    ghost var id;
    r, id := catalog.CreateTable(database, name, columns, hash);
    table := Table(0, 0, []);
    if r.Done? {
      var item := catalog.Item(database, name);
      assert item.Some? && item.value.0.kind == TableKind(id);
      var row, layout := item.value.0, item.value.1.value;
      table := TableOf(row.kind.id, layout);
      CreatedKey(v, (database, name), id, columns, a, b);
    }
  }
}
