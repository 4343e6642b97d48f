/** The catalog: databases, tables and views as frequency rows in three system tables, and their lifecycles. */
module Catalog {
  import opened Bytes
  import opened Varint
  import opened Exprs
  import opened TableKeys
  import opened Mvcc

  type Name = string

  datatype Col = Col(name: string, ty: DataType)

  datatype Kind = TableKind(id: nat) | ViewKind(sql: string, context: string)

  /** A row of the `tables` system table, without its key. */
  datatype TableRow = TableRow(kind: Kind, columns: seq<Col>, system: bool)

  /** A row of the `prefix_tables` system table, without its key. */
  datatype MetaRow = MetaRow(columnLen: nat, pk: seq<SortOrder>)

  // ----- System tables

  /** Each key's last row and the sum of its deltas, which is what a scan at the end of time sees. */
  type SysTable<K, V> = map<K, (V, int)>

  function FreqOf<K, V>(t: SysTable<K, V>, k: K): (r: int) {
    if k in t then t[k].1 else 0
  }

  predicate Live<K, V>(t: SysTable<K, V>, k: K) {
    FreqOf(t, k) != 0
  }

  function Written<K, V>(t: SysTable<K, V>, k: K, v: V, delta: int): (r: SysTable<K, V>) {
    t[k := (v, FreqOf(t, k) + delta)]
  }

  /** What the table says: its live rows. */
  ghost function LiveRows<K, V>(t: SysTable<K, V>): (r: map<K, V>) {
    map k | k in t && t[k].1 != 0 :: t[k].0
  }

  /** Every frequency is zero or one. */
  ghost predicate Unit<K, V>(t: SysTable<K, V>) {
    forall k :: k in t ==> t[k].1 == 0 || t[k].1 == 1
  }

  lemma WriteNew<K, V>(t: SysTable<K, V>, k: K, v: V)
    requires Unit(t) && !Live(t, k)
    ensures Unit(Written(t, k, v, 1)) && LiveRows(Written(t, k, v, 1)) == LiveRows(t)[k := v]
  {
  }

  lemma WriteGone<K, V>(t: SysTable<K, V>, k: K)
    requires Unit(t) && Live(t, k)
    ensures Unit(Written(t, k, t[k].0, -t[k].1)) && LiveRows(Written(t, k, t[k].0, -t[k].1)) == LiveRows(t) - {k}
    ensures Written(t, k, t[k].0, -t[k].1) == Written(t, k, t[k].0, -1)
  {
  }

  // ----- Dropping a key range

  predicate InRange(k: seq<byte>, lo: seq<byte>, hi: seq<byte>) {
    Cmp(lo, k) <= 0 && Cmp(k, hi) < 0
  }

  function DeleteRange(db: Db, lo: seq<byte>, hi: seq<byte>): (r: Db) {
    map k | k in db && !InRange(k, lo, hi) :: db[k]
  }

  /** A `u32` addition that wraps. */
  function TableEnd(id: nat): (r: nat) { (id + 2) % U32 }

  function DropData(db: Db, id: nat): (r: Db) { DeleteRange(db, Be(4, id), Be(4, TableEnd(id))) }

  /** Away from the very last id, the range covers the table's two sections and nothing else. */
  lemma DropRange(id: nat, k: seq<byte>)
    requires id + 2 < U32
    ensures InRange(k, Be(4, id), Be(4, TableEnd(id))) <==> InTable(id, k) || InTable(id + 1, k)
  {
    hide Cmp, Be;
    BeLess(id, id + 1);
    BeLess(id + 1, id + 2);
    if InTable(id, k) {
      CmpTransitive(k, Be(4, id + 1), Be(4, id + 2));
    }
    if InTable(id + 1, k) { CmpTransitive(Be(4, id), Be(4, id + 1), k); }
    CmpAntisymmetric(k, Be(4, id + 1));
  }

  lemma BeLess(a: nat, b: nat)
    requires a < b < U32
    ensures Cmp(Be(4, a), Be(4, b)) < 0
  {
    PowConstants();
    BeOrder(4, a, b, [], []);
    assert Be(4, a) + [] == Be(4, a) && Be(4, b) + [] == Be(4, b);
  }

  /** Dropping a table leaves the records of every other table alone. */
  lemma DropKeepsOthers(db: Db, id: nat, other: nat, k: seq<byte>)
    requires id % 2 == 0 && other % 2 == 0 && id != other && id + 2 < U32 && other + 1 < U32 && k in db
    requires InTable(other, k) || (other + 2 < U32 && InTable(other + 1, k))
    ensures k in DropData(db, id) && DropData(db, id)[k] == db[k]
  {
    hide Cmp, Be, InTable;
    DropRange(id, k);
    var s := if InTable(other, k) then other else other + 1;
    if InTable(id, k) { Apart(id, s, k); }
    if InTable(id + 1, k) { Apart(id + 1, s, k); }
  }

  lemma Apart(a: nat, b: nat, k: seq<byte>)
    requires a != b && a + 1 < U32 && b + 1 < U32 && InTable(a, k)
    ensures !InTable(b, k)
  {
    if a < b { TablesDisjoint(a, b, k); }
    else if InTable(b, k) { TablesDisjoint(b, a, k); }
  }

  /** All of a table's records go, whatever they are, exactly when the end of its range does not wrap. */
  lemma DropComplete(id: nat)
    requires id % 2 == 0 && id + 1 < U32
    ensures (forall db: Db, k :: k in DropData(db, id) ==> !InTable(id, k)) <==> id + 2 < U32
  {
    if id + 2 < U32 {
      forall db: Db, k | k in DropData(db, id) ensures !InTable(id, k) { DropRange(id, k); }
    } else {
      PowConstants();
      var k := Be(4, id);
      var db: Db := map[k := []];
      BeLess(id, id + 1);
      CmpSelf(k);
      BeLess(0, id);
      CmpAntisymmetric(k, Be(4, 0));
      assert TableEnd(id) == 0;
      assert k in DropData(db, id) && InTable(id, k);
    }
  }

  // ----- The catalog

  datatype Error =
    | DatabaseNotFound(database: Name) | DatabaseAlreadyExists(database: Name) | DatabaseNotEmpty(database: Name)
    | TableNotFound(database: Name, table: Name) | TableAlreadyExists(database: Name, table: Name)
    | IdsExhausted

  datatype Outcome = Done | Failed(error: Error)

  type TableKey = (Name, Name)

  const SYSTEM_DB: Name := "incresql"
  const PREFIX_TABLES: TableKey := (SYSTEM_DB, "prefix_tables")
  const DATABASES: TableKey := (SYSTEM_DB, "databases")
  const TABLES: TableKey := (SYSTEM_DB, "tables")

  function PrefixColumns(): (r: seq<Col>) {
    [Col("table_id", BigIntType), Col("column_len", IntegerType), Col("pk_sort", JsonType)]
  }

  function DatabaseColumns(): (r: seq<Col>) {
    [Col("name", TextType)]
  }

  function TableColumns(): (r: seq<Col>) {
    [ Col("database_name", TextType), Col("name", TextType), Col("type", TextType), Col("sql", TextType),
      Col("sql_context", TextType), Col("table_id", BigIntType), Col("columns", JsonType), Col("system", BooleanType) ]
  }

  lemma ColumnCounts()
    ensures |PrefixColumns()| == 3 && |DatabaseColumns()| == 1 && |TableColumns()| == 8
  {
  }

  /** The tables after the first boot: the system tables describe themselves. */
  function BootTables(): (r: map<TableKey, TableRow>) {
    map[PREFIX_TABLES := TableRow(TableKind(0), PrefixColumns(), true)]
       [DATABASES := TableRow(TableKind(2), DatabaseColumns(), true)]
       [TABLES := TableRow(TableKind(4), TableColumns(), true)]
  }

  /** Their key layouts: names are keys of one column, tables of two. */
  function BootMeta(): (r: map<nat, MetaRow>) {
    map[0 := MetaRow(3, [Asc]), 2 := MetaRow(1, [Asc]), 4 := MetaRow(8, [Asc, Asc])]
  }

  predicate IsSystem(key: TableKey) {
    key == PREFIX_TABLES || key == DATABASES || key == TABLES
  }

  datatype CatalogState = CatalogState(databases: SysTable<Name, ()>, tables: SysTable<TableKey, TableRow>,
                                       meta: SysTable<nat, MetaRow>)

  /** What the three tables say: their live rows. */
  datatype View = View(databases: map<Name, ()>, tables: map<TableKey, TableRow>, meta: map<nat, MetaRow>)

  ghost function Seen(s: CatalogState): (r: View) {
    View(LiveRows(s.databases), LiveRows(s.tables), LiveRows(s.meta))
  }

  predicate Owns(v: View, key: TableKey, id: nat) {
    key in v.tables && v.tables[key].kind == TableKind(id)
  }

  /** A table or view lies in a live database; a table has a metadata row for as many columns as it has. */
  predicate Placed(v: View, key: TableKey)
    requires key in v.tables
  {
    var row := v.tables[key];
    && key.0 in v.databases
    && (row.kind.TableKind? ==> row.kind.id in v.meta && v.meta[row.kind.id].columnLen == |row.columns|)
  }

  /** Tables and metadata rows correspond one to one, under even ids. */
  ghost predicate Coherent(v: View) {
    && (forall key :: key in v.tables ==> Placed(v, key))
    && (forall id :: id in v.meta ==> id % 2 == 0 && id < U32)
    && (forall key, key', id :: Owns(v, key, id) && Owns(v, key', id) ==> key == key')
    && (forall id :: id in v.meta ==> exists key :: Owns(v, key, id))
  }

  /** The bootstrap tables are there, under the ids the program knows them by. */
  ghost predicate Bootstrapped(v: View) {
    Owns(v, PREFIX_TABLES, 0) && Owns(v, DATABASES, 2) && Owns(v, TABLES, 4)
  }

  /** What holds between any two operations. */
  ghost predicate Consistent(s: CatalogState) {
    Unit(s.databases) && Unit(s.tables) && Unit(s.meta) && Coherent(Seen(s))
  }

  lemma AddTable(v: View, key: TableKey, row: TableRow, metaRow: MetaRow)
    requires Coherent(v) && key.0 in v.databases && key !in v.tables
    requires row.kind.TableKind? && row.kind.id !in v.meta && row.kind.id % 2 == 0 && row.kind.id < U32
    requires metaRow.columnLen == |row.columns|
    ensures Coherent(View(v.databases, v.tables[key := row], v.meta[row.kind.id := metaRow]))
  {
    var r := View(v.databases, v.tables[key := row], v.meta[row.kind.id := metaRow]);
    forall k | k in r.tables ensures Placed(r, k) {
      if k != key { assert Placed(v, k); }
    }
    forall k, k', id | Owns(r, k, id) && Owns(r, k', id) ensures k == k' {
      if k != key && k' != key { assert Owns(v, k, id) && Owns(v, k', id); }
    }
    forall id | id in r.meta ensures exists k :: Owns(r, k, id) {
      if id == row.kind.id {
        assert Owns(r, key, id);
      } else {
        var k :| Owns(v, k, id);
        assert Owns(r, k, id);
      }
    }
  }

  lemma AddView(v: View, key: TableKey, row: TableRow)
    requires Coherent(v) && key.0 in v.databases && key !in v.tables && row.kind.ViewKind?
    ensures Coherent(v.(tables := v.tables[key := row]))
  {
    var r := v.(tables := v.tables[key := row]);
    forall k | k in r.tables ensures Placed(r, k) {
      if k != key { assert Placed(v, k); }
    }
    forall k, k', id | Owns(r, k, id) && Owns(r, k', id) ensures k == k' {
      assert Owns(v, k, id) && Owns(v, k', id);
    }
    forall id | id in r.meta ensures exists k :: Owns(r, k, id) {
      var k :| Owns(v, k, id);
      assert Owns(r, k, id);
    }
  }

  /** A table created by a user: every column is part of its ascending primary key. */
  function WithTable(v: View, key: TableKey, id: nat, columns: seq<Col>): (r: View) {
    View(v.databases, v.tables[key := TableRow(TableKind(id), columns, false)],
         v.meta[id := MetaRow(|columns|, seq(|columns|, _ => Asc))])
  }

  function WithoutTable(v: View, key: TableKey): (r: View)
    requires key in v.tables
  {
    var kind := v.tables[key].kind;
    View(v.databases, v.tables - {key}, if kind.TableKind? then v.meta - {kind.id} else v.meta)
  }

  lemma RemoveTable(v: View, key: TableKey)
    requires Coherent(v) && key in v.tables
    ensures Coherent(WithoutTable(v, key))
  {
    var r, row := WithoutTable(v, key), v.tables[key];
    forall k | k in r.tables ensures Placed(r, k) {
      assert Placed(v, k);
      if v.tables[k].kind.TableKind? { assert Owns(v, k, v.tables[k].kind.id); }
      if row.kind.TableKind? { assert Owns(v, key, row.kind.id); }
    }
    forall k, k', id | Owns(r, k, id) && Owns(r, k', id) ensures k == k' {
      assert Owns(v, k, id) && Owns(v, k', id);
    }
    forall id | id in r.meta ensures exists k :: Owns(r, k, id) {
      var k :| Owns(v, k, id);
      assert Owns(r, k, id);
    }
  }

  lemma ChangeDatabases(v: View, databases: map<Name, ()>)
    requires Coherent(v) && forall key :: key in v.tables ==> key.0 in databases
    ensures Coherent(v.(databases := databases))
  {
    var r := v.(databases := databases);
    forall k | k in r.tables ensures Placed(r, k) { assert Placed(v, k); }
    forall k, k', id | Owns(r, k, id) && Owns(r, k', id) ensures k == k' { assert Owns(v, k, id) && Owns(v, k', id); }
    forall id | id in r.meta ensures exists k :: Owns(r, k, id) {
      var k :| Owns(v, k, id);
      assert Owns(r, k, id);
    }
  }

  lemma LiveRow<K, V>(t: SysTable<K, V>, k: K)
    ensures Live(t, k) <==> k in LiveRows(t)
    ensures k in LiveRows(t) ==> k in t && LiveRows(t)[k] == t[k].0
  {
  }

  // ----- Operations

  class Catalog {
    var databases: SysTable<Name, ()>
    var tables: SysTable<TableKey, TableRow>
    var meta: SysTable<nat, MetaRow>
    /** Everything in the ordered store that is not a system table. */
    var data: Db

    ghost function State(): (r: CatalogState)
      reads this
    {
      CatalogState(databases, tables, meta)
    }

    ghost function Shown(): (r: View)
      reads this
    {
      Seen(State())
    }

    /** The consistency every operation keeps. */
    ghost predicate Valid()
      reads this
    {
      Consistent(State()) && Bootstrapped(Shown())
    }

    method CreateDatabase(name: Name) returns (r: Outcome)
      requires Valid()
      modifies this
      ensures Valid() && data == old(data)
      ensures r == if name in old(Shown()).databases then Failed(DatabaseAlreadyExists(name)) else Done
      ensures Shown() ==
        if r.Done? then old(Shown()).(databases := old(Shown()).databases[name := ()]) else old(Shown())
    {
      hide Coherent, Unit, LiveRows, Live, Written;
      LiveRow(databases, name);
      if Live(databases, name) { return Failed(DatabaseAlreadyExists(name)); }
      WriteNew(databases, name, ());
      PlacedDatabases(Shown());
      ChangeDatabases(Shown(), Shown().databases[name := ()]);
      databases := Written(databases, name, (), 1);
      return Done;
    }

    method DropDatabase(name: Name) returns (r: Outcome)
      requires Valid()
      modifies this
      ensures Valid() && data == old(data)
      ensures
        var v := old(Shown());
        r == if name !in v.databases then Failed(DatabaseNotFound(name))
             else if exists key :: key in v.tables && key.0 == name then Failed(DatabaseNotEmpty(name))
             else Done
      ensures Shown() == if r.Done? then old(Shown()).(databases := old(Shown()).databases - {name}) else old(Shown())
    {
      hide Coherent, Unit, LiveRows, Live, Written;
      LiveRow(databases, name);
      if !Live(databases, name) { return Failed(DatabaseNotFound(name)); }
      forall key ensures Live(tables, key) <==> key in LiveRows(tables) { LiveRow(tables, key); }
      if exists key :: key in tables && key.0 == name && Live(tables, key) {
        return Failed(DatabaseNotEmpty(name));
      }
      forall key | key in LiveRows(tables) ensures key.0 != name { LiveRow(tables, key); }
      WriteGone(databases, name);
      assert databases[name].0 == ();
      PlacedDatabases(Shown());
      ChangeDatabases(Shown(), Shown().databases - {name});
      databases := Written(databases, name, (), -1);
      return Done;
    }

    /** First boot: three databases, then the three system tables describe themselves. */
    constructor ()
      ensures Valid() && data == map[]
      ensures Shown().databases == map["incresql" := (), "default" := (), "information_schema" := ()]
      ensures Shown().tables == BootTables() && Shown().meta == BootMeta()
    {
      databases, tables, meta, data := map[], map[], map[], map[];
      new;
      hide Coherent, Unit, LiveRows, Live, Written, Consistent;
      Nothing();
      BootNames();
      CreateSystemDatabase("incresql");
      CreateSystemDatabase("default");
      CreateSystemDatabase("information_schema");
      CreateSystemTables();
    }

    method CreateSystemTables()
      requires Consistent(State()) && "incresql" in Shown().databases && Shown().tables == map[]
        && Shown().meta == map[]
      modifies this
      ensures Valid() && data == old(data) && Shown().databases == old(Shown()).databases
      ensures Shown().tables == BootTables() && Shown().meta == BootMeta()
    {
      hide Coherent, Unit, LiveRows, Live, Written, Consistent, PrefixColumns, DatabaseColumns, TableColumns;
      BootNames();
      ColumnCounts();
      CreateSystemTable(PREFIX_TABLES, 0, PrefixColumns(), [Asc]);
      CreateSystemTable(DATABASES, 2, DatabaseColumns(), [Asc]);
      CreateSystemTable(TABLES, 4, TableColumns(), [Asc, Asc]);
    }

    method CreateSystemDatabase(name: Name)
      requires Consistent(State()) && name !in Shown().databases
      modifies this
      ensures Consistent(State()) && data == old(data)
        && Shown() == old(Shown()).(databases := old(Shown()).databases[name := ()])
    {
      hide Coherent, Unit, LiveRows, Live, Written;
      LiveRow(databases, name);
      WriteNew(databases, name, ());
      PlacedDatabases(Shown());
      ChangeDatabases(Shown(), Shown().databases[name := ()]);
      databases := Written(databases, name, (), 1);
    }

    method CreateSystemTable(key: TableKey, id: nat, columns: seq<Col>, pk: seq<SortOrder>)
      requires Consistent(State()) && key.0 in Shown().databases && key !in Shown().tables
      requires id !in Shown().meta && id % 2 == 0 && id < U32
      modifies this
      ensures Consistent(State()) && data == old(data)
      ensures
        var v := old(Shown());
        Shown() == View(v.databases, v.tables[key := TableRow(TableKind(id), columns, true)],
                        v.meta[id := MetaRow(|columns|, pk)])
    {
      hide Coherent, Unit, LiveRows, Live, Written;
      LiveRow(tables, key);
      LiveRow(meta, id);
      WriteNew(tables, key, TableRow(TableKind(id), columns, true));
      WriteNew(meta, id, MetaRow(|columns|, pk));
      AddTable(Shown(), key, TableRow(TableKind(id), columns, true), MetaRow(|columns|, pk));
      CreateTableImpl(key, id, columns, pk, true);
    }

    /** Probes upwards from the hash of the name for an even id without a live metadata row. */
    method GenerateTableId(hash: nat) returns (r: Option<nat>)
      requires Valid() && hash < U32
      ensures r.Some? ==> r.value % 2 == 0 && hash - 1 <= r.value < U32 && r.value !in Shown().meta
      ensures r.Some? ==> forall id: nat :: hash - hash % 2 <= id < r.value && id % 2 == 0 ==> id in Shown().meta
      ensures r.None? ==> forall id: nat :: hash - hash % 2 <= id < U32 && id % 2 == 0 ==> id in Shown().meta
    {
      hide Coherent, Unit, LiveRows, Live;
      var id: nat := hash - hash % 2;
      while true
        invariant hash - hash % 2 <= id < U32 && id % 2 == 0
        invariant forall i: nat :: hash - hash % 2 <= i < id && i % 2 == 0 ==> i in Shown().meta
        decreases U32 - id
      {
        LiveRow(meta, id);
        if !Live(meta, id) { return Some(id); }
        if id + 2 >= U32 { return None; }
        id := id + 2;
      }
    }

    /** Writes the table's row and its metadata row in one batch. */
    method CreateTableImpl(key: TableKey, id: nat, columns: seq<Col>, pk: seq<SortOrder>, system: bool)
      modifies this
      ensures databases == old(databases) && data == old(data)
      ensures tables == Written(old(tables), key, TableRow(TableKind(id), columns, system), 1)
      ensures meta == Written(old(meta), id, MetaRow(|columns|, pk), 1)
    {
      tables := Written(tables, key, TableRow(TableKind(id), columns, system), 1);
      meta := Written(meta, id, MetaRow(|columns|, pk), 1);
    }

    method CreateTable(database: Name, table: Name, columns: seq<Col>, hash: nat) returns (r: Outcome, ghost id: nat)
      requires Valid() && hash < U32
      modifies this
      ensures Valid() && data == old(data)
      ensures
        var v := old(Shown());
        && (database !in v.databases <==> r == Failed(DatabaseNotFound(database)))
        && (database in v.databases && (database, table) in v.tables <==>
              r == Failed(TableAlreadyExists(database, table)))
        && (r.Failed? ==> Shown() == v)
        && (r.Done? ==> id !in v.meta && id % 2 == 0 && hash - 1 <= id < U32)
        && (r == Failed(IdsExhausted) ==> forall i: nat :: hash - hash % 2 <= i < U32 && i % 2 == 0 ==> i in v.meta)
        && (r.Done? ==> Shown() == WithTable(v, (database, table), id, columns))
        && (r.Done? ==>
              var layout := Shown().meta[id];
              layout.columnLen == |layout.pk| == |columns| && forall i :: 0 <= i < |columns| ==> layout.pk[i] == Asc)
    {
      hide Coherent, Unit, LiveRows, Live, Written;
      id := 0;
      ghost var v := Shown();
      LiveRow(databases, database);
      LiveRow(tables, (database, table));
      if !Live(databases, database) { return Failed(DatabaseNotFound(database)), id; }
      if Live(tables, (database, table)) { return Failed(TableAlreadyExists(database, table)), id; }
      var free := GenerateTableId(hash);
      if free.None? { return Failed(IdsExhausted), id; }
      id := free.value;
      LiveRow(meta, id);
      var pk := seq(|columns|, _ => Asc);
      ghost var row, metaRow := TableRow(TableKind(id), columns, false), MetaRow(|columns|, pk);
      WriteNew(tables, (database, table), row);
      WriteNew(meta, id, metaRow);
      AddTable(v, (database, table), row, metaRow);
      CreateTableImpl((database, table), free.value, columns, pk, false);
      return Done, id;
    }

    method CreateView(database: Name, table: Name, columns: seq<Col>, sql: string, context: string) returns (r: Outcome)
      requires Valid()
      modifies this
      ensures Valid() && data == old(data)
      ensures
        var v := old(Shown());
        && r == (if database !in v.databases then Failed(DatabaseNotFound(database))
                 else if (database, table) in v.tables then Failed(TableAlreadyExists(database, table)) else Done)
        && Shown() ==
          if r.Done? then v.(tables := v.tables[(database, table) := TableRow(ViewKind(sql, context), columns, false)])
          else v
    {
      hide Coherent, Unit, LiveRows, Live, Written;
      LiveRow(databases, database);
      LiveRow(tables, (database, table));
      if !Live(databases, database) { return Failed(DatabaseNotFound(database)); }
      if Live(tables, (database, table)) { return Failed(TableAlreadyExists(database, table)); }
      var row := TableRow(ViewKind(sql, context), columns, false);
      WriteNew(tables, (database, table), row);
      AddView(Shown(), (database, table), row);
      tables := Written(tables, (database, table), row, 1);
      return Done;
    }

    /** Drops a table with its data and metadata, or a view. Nothing stops it from dropping a system table. */
    method DropTable(database: Name, table: Name) returns (r: Outcome)
      requires Valid()
      modifies this
      ensures Consistent(State()) && (!IsSystem((database, table)) ==> Valid())
      ensures
        var v, key := old(Shown()), (database, table);
        if key in v.tables then
          && r == Done && Shown() == WithoutTable(v, key)
          && data == if v.tables[key].kind.TableKind? then DropData(old(data), v.tables[key].kind.id) else old(data)
        else r == Failed(TableNotFound(database, table)) && Shown() == v && data == old(data)
    {
      hide Coherent, Unit, LiveRows, Live, Written;
      var key := (database, table);
      ghost var v := Shown();
      LiveRow(tables, key);
      if !Live(tables, key) { return Failed(TableNotFound(database, table)); }
      var (row, freq) := tables[key];
      RemoveTable(v, key);
      WriteGone(tables, key);
      if row.kind.TableKind? {
        var id := row.kind.id;
        TableHasMeta(v, key);
        LiveRow(meta, id);
        data := DropData(data, id);
        var (metaRow, metaFreq) := meta[id];
        WriteGone(meta, id);
        meta := Written(meta, id, metaRow, -metaFreq);
      }
      tables := Written(tables, key, row, -freq);
      return Done;
    }

    /** Looks an item up: a table comes with the key layout its metadata row holds. */
    method Item(database: Name, table: Name) returns (r: Option<(TableRow, Option<MetaRow>)>)
      requires Valid()
      ensures
        var v, key := Shown(), (database, table);
        if key !in v.tables then r == None
        else if v.tables[key].kind.ViewKind? then r == Some((v.tables[key], None))
        else
          && r == Some((v.tables[key], Some(v.meta[v.tables[key].kind.id])))
          && r.value.1.value.columnLen == |r.value.0.columns|
    {
      hide Coherent, Unit, LiveRows, Live;
      var key := (database, table);
      LiveRow(tables, key);
      if !Live(tables, key) { return None; }
      var row := tables[key].0;
      if row.kind.ViewKind? { return Some((row, None)); }
      TableHasMeta(Shown(), key);
      LiveRow(meta, row.kind.id);
      return Some((row, Some(meta[row.kind.id].0)));
    }
  }

  lemma Nothing()
    ensures
      var s := CatalogState(map[], map[], map[]);
      Consistent(s) && Seen(s) == View(map[], map[], map[])
  {
  }

  lemma BootNames()
    ensures |"incresql"| == 8 && |"default"| == 7 && |"information_schema"| == 18
    ensures PREFIX_TABLES != DATABASES && DATABASES != TABLES && PREFIX_TABLES != TABLES
  {
    assert |"prefix_tables"| == 13 && |"databases"| == 9 && |"tables"| == 6;
  }

  lemma TableHasMeta(v: View, key: TableKey)
    requires Coherent(v) && key in v.tables && v.tables[key].kind.TableKind?
    ensures v.tables[key].kind.id in v.meta && v.meta[v.tables[key].kind.id].columnLen == |v.tables[key].columns|
  {
    assert Placed(v, key);
  }

  lemma PlacedDatabases(v: View)
    requires Coherent(v)
    ensures forall key :: key in v.tables ==> key.0 in v.databases
  {
    forall key | key in v.tables ensures key.0 in v.databases { assert Placed(v, key); }
  }

  // ----- Every run

  datatype Request =
    | CreateDatabaseReq(database: Name)
    | DropDatabaseReq(database: Name)
    | CreateTableReq(database: Name, table: Name, columns: seq<Col>, hash: nat)
    | CreateViewReq(database: Name, table: Name, columns: seq<Col>, sql: string, context: string)
    | DropTableReq(database: Name, table: Name)

  predicate Allowed(q: Request) {
    && (q.CreateTableReq? ==> q.hash < U32)
    && (q.DropTableReq? ==> !IsSystem((q.database, q.table)))
  }

  /** After any sequence of requests that drops no system table the catalog is consistent. */
  method Serve(requests: seq<Request>) returns (catalog: Catalog)
    requires forall i :: 0 <= i < |requests| ==> Allowed(requests[i])
    ensures fresh(catalog) && catalog.Valid()
  {
    catalog := new Catalog();
    for i := 0 to |requests|
      invariant fresh(catalog) && catalog.Valid()
    {
      var q := requests[i];
      match q {
        case CreateDatabaseReq(database) => var _ := catalog.CreateDatabase(database);
        case DropDatabaseReq(database) => var _ := catalog.DropDatabase(database);
        case CreateTableReq(database, table, columns, hash) =>
          var _, _ := catalog.CreateTable(database, table, columns, hash);
        case CreateViewReq(database, table, columns, sql, context) =>
          var _ := catalog.CreateView(database, table, columns, sql, context);
        case DropTableReq(database, table) => var _ := catalog.DropTable(database, table);
      }
    }
  }

  /** Creating a table and dropping it again leaves the catalog as it was, and the other tables' records alone. */
  method CreateThenDrop(catalog: Catalog, database: Name, table: Name, columns: seq<Col>, hash: nat)
    returns (r: Outcome, s: Outcome, ghost id: nat)
    requires catalog.Valid() && hash < U32 && !IsSystem((database, table))
    modifies catalog
    ensures catalog.Valid()
    ensures r.Done? ==>
      s == Done && catalog.Shown() == old(catalog.Shown()) && catalog.data == DropData(old(catalog.data), id)
    ensures r.Failed? ==> s == r && catalog.Shown() == old(catalog.Shown()) && catalog.data == old(catalog.data)
  {
    hide Coherent, Unit, LiveRows, Bootstrapped;
    ghost var v := catalog.Shown();
    r, id := catalog.CreateTable(database, table, columns, hash);
    if r.Failed? { return r, r, id; }
    s := catalog.DropTable(database, table);
    var key := (database, table);
    assert (v.tables[key := TableRow(TableKind(id), columns, false)]) - {key} == v.tables;
    assert (v.meta[id := MetaRow(|columns|, seq(|columns|, _ => Asc))]) - {id} == v.meta;
  }
}
