/** What scans and lookups of a table return, in terms of its log of deltas. */
module TableScan {
  import opened Bags
  import opened Bytes
  import opened Varint
  import opened Datums
  import opened Rows
  import opened TableKeys
  import opened Mvcc
  import opened DeltaLog
  import opened IndexScan
  import opened RangeScan

  /** `LogicalTimestamp::MAX`. */
  const TS_MAX := U64 - 1

  /** Below this, the first byte of an inverted timestamp is 255. */
  const TS_EARLY := 0x100_0000_0000_0000

  // ----- Which records a bound keeps

  lemma {:induction false} WriteTupleSplit(t: seq<Datum>, orders: seq<SortOrder>, j: nat)
    requires |t| == |orders| && ValidTuple(t) && j <= |t|
    ensures WriteTuple(t, orders) == WriteTuple(t[..j], orders[..j]) + WriteTuple(t[j..], orders[j..])
  {
    hide WriteDatum;
    if j == 0 {
      assert t[j..] == t && orders[j..] == orders && t[..j] == [];
    } else {
      WriteTupleSplit(t[1..], orders[1..], j - 1);
      assert t[..j][1..] == t[1..][..j - 1] && orders[..j][1..] == orders[1..][..j - 1];
      assert t[1..][j - 1..] == t[j..] && orders[1..][j - 1..] == orders[j..];
      assert WriteTuple(t[..j], orders[..j]) == WriteDatum(t[0], orders[0])
        + WriteTuple(t[1..][..j - 1], orders[1..][..j - 1]);
      Regroup(WriteDatum(t[0], orders[0]), WriteTuple(t[1..][..j - 1], orders[1..][..j - 1]),
              WriteTuple(t[j..], orders[j..]));
    }
  }

  /** A row key seen from a key prefix of `j` columns: the remaining columns, then the suffix. */
  lemma KeySplit(table: Table, cols: seq<Datum>, j: nat, x: seq<byte>)
    requires table.Valid() && |cols| == |table.pk| && ValidTuple(cols) && j <= |cols|
    ensures KeyPrefix(table, cols) + x ==
      KeyPrefix(table, cols[..j]) + (WriteTuple(cols[j..], table.pk[j..]) + x)
  {
    hide WriteTuple, WriteUnsigned, Be;
    WriteTupleSplit(cols, table.pk, j);
    assert table.pk[..|cols|] == table.pk;
    var p := Be(4, table.id) + WriteUnsigned(|table.pk|, Asc);
    var a, b := WriteTuple(cols[..j], table.pk[..j]), WriteTuple(cols[j..], table.pk[j..]);
    assert p + (a + b) + x == p + a + (b + x);
  }

  /** Neither 0 nor 255 starts a datum, so they bound everything below a key prefix. */
  lemma DatumBetween(t: seq<Datum>, orders: seq<SortOrder>, x: seq<byte>)
    requires t != [] && |t| == |orders| && ValidTuple(t)
    ensures Cmp([0], WriteTuple(t, orders) + x) < 0 && Cmp(WriteTuple(t, orders) + x, [255]) < 0
  {
    WriteTupleUnfold(t, orders, x);
    hide WriteTuple;
    var w := WriteDatum(t[0], orders[0]) + (WriteTuple(t[1..], orders[1..]) + x);
    assert w == [w[0]] + w[1..] && [0] + [] == [0] && [255] + [] == [255];
    CmpHead(0, w[0], [], w[1..]);
    CmpHead(w[0], 255, w[1..], []);
  }

  /** How `cols` compares with a bound on its leading columns. */
  function FromCmp(table: Table, bound: seq<Datum>, cols: seq<Datum>): (r: int)
    requires |bound| <= |cols| == |table.pk| && ValidTuple(bound) && ValidTuple(cols)
  {
    TupleCmp(bound, cols[..|bound|], table.pk[..|bound|])
  }

  function ToCmp(table: Table, cols: seq<Datum>, bound: seq<Datum>): (r: int)
    requires |bound| <= |cols| == |table.pk| && ValidTuple(bound) && ValidTuple(cols)
  {
    TupleCmp(cols[..|bound|], bound, table.pk[..|bound|])
  }

  lemma LowerBound(table: Table, from: seq<Datum>, cols: seq<Datum>, x: seq<byte>)
    requires table.Valid() && |from| <= |cols| == |table.pk| && ValidTuple(from) && ValidTuple(cols)
    requires Cmp([0], x) <= 0
    ensures Cmp(KeyPrefix(table, from) + [0], KeyPrefix(table, cols) + x) <= 0 <==> FromCmp(table, from, cols) <= 0
  {
    hide TupleCmp, KeyPrefix, WriteTuple;
    var j := |from|;
    var rest := WriteTuple(cols[j..], table.pk[j..]) + x;
    KeySplit(table, cols, j, x);
    PrefixOrder(table, from, cols[..j], [0], rest);
    if j < |cols| {
      DatumBetween(cols[j..], table.pk[j..], x);
    } else {
      EmptyTupleCode(cols[j..], table.pk[j..], x);
    }
  }

  lemma EmptyTupleCode(t: seq<Datum>, orders: seq<SortOrder>, x: seq<byte>)
    requires |t| == 0 == |orders|
    ensures WriteTuple(t, orders) + x == x
  {
  }

  lemma UpperBound(table: Table, cols: seq<Datum>, to: seq<Datum>, x: seq<byte>)
    requires table.Valid() && |to| <= |cols| == |table.pk| && ValidTuple(to) && ValidTuple(cols)
    ensures
      var c := ToCmp(table, cols, to);
      Cmp(KeyPrefix(table, cols) + x, KeyPrefix(table, to) + [255]) < 0 <==>
        c < 0 || (c == 0 && (|to| < |cols| || Cmp(x, [255]) < 0))
  {
    hide TupleCmp, KeyPrefix, WriteTuple;
    var j := |to|;
    var rest := WriteTuple(cols[j..], table.pk[j..]) + x;
    KeySplit(table, cols, j, x);
    PrefixOrder(table, cols[..j], to, rest, [255]);
    if j < |cols| {
      DatumBetween(cols[j..], table.pk[j..], x);
    } else {
      EmptyTupleCode(cols[j..], table.pk[j..], x);
    }
  }

  // ----- Scans

  /** The bounds of a scan, as `range_scan` computes them. */
  function Lo(table: Table, from: Option<seq<Datum>>): (r: seq<byte>)
    requires table.Valid() && (from.Some? ==> ValidTuple(from.value))
  {
    match from
    case None => Be(4, table.id)
    case Some(f) => RangeKey(table, f, false)
  }

  function Hi(table: Table, to: Option<seq<Datum>>): (r: seq<byte>)
    requires table.Valid() && (to.Some? ==> ValidTuple(to.value))
  {
    match to
    case None => Be(4, table.id + 1)
    case Some(f) => RangeKey(table, f, true)
  }

  predicate ValidBound(bound: Option<seq<Datum>>) {
    bound.Some? ==> ValidTuple(bound.value)
  }

  /** The row lies between the two key prefixes, both inclusive. */
  predicate InBounds(table: Table, tuple: seq<Datum>, from: Option<seq<Datum>>, to: Option<seq<Datum>>)
    requires ValidTupleOf(table, tuple) && ValidBound(from) && ValidBound(to)
  {
    var cols := Cols(table, tuple);
    && (from.Some? ==> FromCmp(table, Cols(table, from.value), cols) <= 0)
    && (to.Some? ==> ToCmp(table, cols, Cols(table, to.value)) <= 0)
  }

  /** `to` names this very row by its whole primary key. */
  predicate AtFullBound(table: Table, tuple: seq<Datum>, to: Option<seq<Datum>>)
    requires ValidTupleOf(table, tuple) && ValidBound(to)
  {
    to.Some? && |to.value| >= |table.pk| && ToCmp(table, Cols(table, tuple), Cols(table, to.value)) == 0
  }

  lemma BoundsInTable(table: Table, from: Option<seq<Datum>>, to: Option<seq<Datum>>)
    requires table.Valid() && ValidBound(from) && ValidBound(to)
    ensures Cmp(Be(4, table.id), Lo(table, from)) <= 0 && Cmp(Hi(table, to), Be(4, table.id + 1)) <= 0
  {
    if from.Some? { PrefixInTable(table, Cols(table, from.value), [0]); }
    if to.Some? { PrefixInTable(table, Cols(table, to.value), [255]); }
  }

  /** Which record keys of a row a scan visits. */
  lemma KeyVisited(table: Table, tuple: seq<Datum>, from: Option<seq<Datum>>, to: Option<seq<Datum>>, x: seq<byte>)
    requires ValidTupleOf(table, tuple) && ValidBound(from) && ValidBound(to) && Cmp([0], x) <= 0
    ensures
      var k := Base(table, tuple) + x;
      Cmp(Lo(table, from), k) <= 0 && Cmp(k, Hi(table, to)) < 0 <==>
        InBounds(table, tuple, from, to) && (AtFullBound(table, tuple, to) ==> Cmp(x, [255]) < 0)
  {
    hide FromCmp, ToCmp, KeyPrefix, Cmp, InTable;
    var cols := Cols(table, tuple);
    assert InTable(table.id, Base(table, tuple) + x) by { PrefixInTable(table, cols, x); }
    InTableBounds(table.id, Base(table, tuple) + x);
    if from.Some? { LowerBound(table, Cols(table, from.value), cols, x); }
    if to.Some? { UpperBound(table, cols, Cols(table, to.value), x); }
  }

  lemma InTableBounds(id: nat, k: seq<byte>)
    requires InTable(id, k)
    ensures Cmp(Be(4, id), k) <= 0 && Cmp(k, Be(4, id + 1)) < 0
  {
  }

  /** How many of a row's records a scan visits: all, none, or, when `to` is exactly the row's
      whole key, those whose inverted timestamp does not start with 255. */
  function Visited(table: Table, vs: seq<Version>, from: Option<seq<Datum>>, to: Option<seq<Datum>>): (r: nat)
    requires vs != [] && ValidTupleOf(table, vs[0].tuple) && ValidBound(from) && ValidBound(to)
    ensures r <= |vs|
  {
    if !InBounds(table, vs[0].tuple, from, to) then 0
    else if AtFullBound(table, vs[0].tuple, to) then 1 + Late(vs[..|vs| - 1])
    else |vs|
  }

  /** The number of trailing versions written at TS_EARLY or later. */
  function Late(vs: seq<Version>): (r: nat)
    ensures r <= |vs|
  {
    if vs == [] || vs[|vs| - 1].ts < TS_EARLY then 0 else 1 + Late(vs[..|vs| - 1])
  }

  lemma {:induction false} LateSpec(vs: seq<Version>, i: nat)
    requires i < |vs| && forall i, j :: 0 <= i < j < |vs| ==> vs[i].ts < vs[j].ts
    ensures i >= |vs| - Late(vs) <==> vs[i].ts >= TS_EARLY
  {
    var n := |vs| - 1;
    if vs[n].ts >= TS_EARLY && i < n {
      LateSpec(vs[..n], i);
    }
  }

  lemma SuffixBelow255(ts: nat)
    requires ts < TS_LIMIT
    ensures Cmp(Be(8, U64 - 1 - ts), [255]) < 0 <==> ts >= TS_EARLY
  {
    var u := U64 - 1 - ts;
    FirstOf8(u);
    var w := Be(8, u);
    assert w == [w[0]] + w[1..] && [255] + [] == [255];
    CmpHead(w[0], 255, w[1..], []);
  }

  lemma RecordVisited(table: Table, base: seq<byte>, vs: seq<Version>, from: Option<seq<Datum>>,
                      to: Option<seq<Datum>>, j: nat)
    requires VersionsOk(table, base, vs) && ValidBound(from) && ValidBound(to) && j < |vs|
    ensures
      var k := RecKey(base, vs, j);
      Cmp(Lo(table, from), k) <= 0 && Cmp(k, Hi(table, to)) < 0 <==> j < Visited(table, vs, from, to)
  {
    hide InBounds, AtFullBound, Lo, Hi, Base;
    var x := Suffix(vs, j);
    RecKeyParts(base, vs, j);
    assert [0] + [] == [0] && [255] + [] == [255];
    CmpHead(0, 255, [], []);
    if j > 0 {
      HistorySuffix(Nth(vs, j).ts);
      SuffixBelow255(Nth(vs, j).ts);
      LateSpec(vs[..|vs| - 1], |vs| - 1 - j);
    }
    KeyVisited(table, vs[0].tuple, from, to, x);
  }

  lemma {:induction false} BetweenPrefix(s: seq<seq<byte>>, lo: seq<byte>, hi: seq<byte>, n: nat)
    requires n <= |s|
    requires forall j :: 0 <= j < |s| ==> (Cmp(lo, s[j]) <= 0 && Cmp(s[j], hi) < 0 <==> j < n)
    ensures Between(s, lo, hi) == s[..n]
  {
    hide Cmp;
    if s != [] {
      BetweenPrefix(s[1..], lo, hi, if n == 0 then 0 else n - 1);
      if n > 0 { assert s[..n] == [s[0]] + s[1..][..n - 1]; }
    }
  }

  lemma RowCut(table: Table, base: seq<byte>, vs: seq<Version>, from: Option<seq<Datum>>, to: Option<seq<Datum>>)
    requires table.Valid() && VersionsOk(table, base, vs) && ValidBound(from) && ValidBound(to)
    ensures CutsTail(table, base, vs, Lo(table, from), Hi(table, to), Visited(table, vs, from, to))
  {
    hide Lo, Hi, Visited, Between, RecKey, Cmp;
    var keys := GroupKeys(table, base, vs);
    forall j | 0 <= j < |keys|
      ensures Cmp(Lo(table, from), keys[j]) <= 0 && Cmp(keys[j], Hi(table, to)) < 0 <==>
        j < Visited(table, vs, from, to)
    {
      RecordVisited(table, base, vs, from, to, j);
    }
    BetweenPrefix(keys, Lo(table, from), Hi(table, to), Visited(table, vs, from, to));
  }

  ghost function Cuts(table: Table, vers: Versions, from: Option<seq<Datum>>,
                      to: Option<seq<Datum>>): (r: map<seq<byte>, nat>)
    requires WellFormed(table, vers) && ValidBound(from) && ValidBound(to)
  {
    map b | b in vers :: Visited(table, vers[b], from, to)
  }

  /** `range_scan`: rows in key order, each with the newest visited version before `t`. */
  lemma RangeScanShows(table: Table, db: Db, vers: Versions, from: Option<seq<Datum>>, to: Option<seq<Datum>>, t: nat)
    requires Stored(table, db, vers) && ValidBound(from) && ValidBound(to)
    ensures
      var entries := RangeEntries(db, Lo(table, from), Hi(table, to));
      && (forall b :: b in SortedKeys(vers.Keys) ==> b in vers)
      && AllDecode(entries)
      && (forall i :: 0 <= i < |entries| ==> |RecsOf(entries)[i].tuple| == table.length)
      && SameRows(Scan(RecsOf(entries), t, true),
                  ShownRows(SortedKeys(vers.Keys), vers, Cuts(table, vers, from, to), t))
  {
    hide Lo, Hi, Visited, Between, Scan, Decode, SortedKeys, Layout, SameRows, InTable, Cmp;
    var lo, hi := Lo(table, from), Hi(table, to);
    BoundsInTable(table, from, to);
    KeysInOrder(table, db, vers, lo, hi);
    var rows, cut := SortedKeys(vers.Keys), Cuts(table, vers, from, to);
    forall b | b in rows ensures CutsTail(table, b, vers[b], lo, hi, cut[b]) {
      RowCut(table, b, vers[b], from, to);
    }
    ScanLayout(table, db, vers, rows, lo, hi, cut, t);
  }

  // ----- What the scan means

  /** One row of a table at time `t`, from its log: present when its deltas do not cancel. */
  function LiveRow(table: Table, row: seq<Write>, from: Option<seq<Datum>>, to: Option<seq<Datum>>,
                   t: nat): (r: seq<Row>)
    requires ValidBound(from) && ValidBound(to)
  {
    match LastBefore(row, t)
    case None => []
    case Some(tuple) =>
      if DeltaSum(row, t) != 0 && ValidTupleOf(table, tuple) && InBounds(table, tuple, from, to)
      then [(tuple, DeltaSum(row, t))] else []
  }

  /** The live rows between two bounds, in key order. */
  ghost function LiveRows(table: Table, log: seq<Write>, rows: seq<seq<byte>>,
                          from: Option<seq<Datum>>, to: Option<seq<Datum>>, t: nat): (r: seq<Row>)
    requires ValidLog(table, log) && ValidBound(from) && ValidBound(to)
  {
    if rows == [] then []
    else LiveRow(table, RowLog(table, log, rows[0]), from, to, t) + LiveRows(table, log, rows[1..], from, to, t)
  }

  /** The identities of all rows ever written, in key order. */
  ghost function RowsOf(table: Table, log: seq<Write>): (r: seq<seq<byte>>)
    requires ValidLog(table, log)
  {
    SortedKeys(VersionsOf(table, log).Keys)
  }

  lemma BoundsOfRow(table: Table, a: seq<Datum>, b: seq<Datum>, from: Option<seq<Datum>>, to: Option<seq<Datum>>)
    requires ValidTupleOf(table, a) && ValidTupleOf(table, b) && Base(table, a) == Base(table, b)
    requires ValidBound(from) && ValidBound(to)
    ensures InBounds(table, a, from, to) == InBounds(table, b, from, to)
  {
    hide FromCmp, ToCmp, KeyPrefix, Cmp;
    var p, q := Cols(table, a), Cols(table, b);
    assert Cmp([0], [0]) <= 0 by { CmpSelf([0]); }
    assert Cmp([0], [255]) < 0 by { ZeroBelow255(); }
    if from.Some? {
      LowerBound(table, Cols(table, from.value), p, [0]);
      LowerBound(table, Cols(table, from.value), q, [0]);
    }
    if to.Some? {
      UpperBound(table, p, Cols(table, to.value), [0]);
      UpperBound(table, q, Cols(table, to.value), [0]);
    }
  }

  lemma ZeroBelow255()
    ensures Cmp([0], [255]) < 0
  {
  }

  lemma {:induction false} RowTuples(table: Table, log: seq<Write>, base: seq<byte>, i: nat)
    requires (forall w :: w in log ==> ValidTupleOf(table, w.tuple)) && i < |RowLog(table, log, base)|
    ensures
      var w := RowLog(table, log, base)[i];
      w in log && Base(table, w.tuple) == base
  {
    hide Base;
    var before := log[..|log| - 1];
    if i < |RowLog(table, before, base)| { RowTuples(table, before, base, i); }
  }

  lemma {:induction false} LastBeforeIn(row: seq<Write>, t: nat)
    requires LastBefore(row, t).Some?
    ensures exists i :: 0 <= i < |row| && row[i].tuple == LastBefore(row, t).value && row[i].ts < t
  {
    var n := |row| - 1;
    if row[n].ts >= t {
      LastBeforeIn(row[..n], t);
      var i :| 0 <= i < n && row[..n][i].tuple == LastBefore(row, t).value && row[..n][i].ts < t;
      assert row[i].ts < t;
    } else {
      assert row[n].ts < t;
    }
  }

  lemma LiveTuple(table: Table, log: seq<Write>, base: seq<byte>, t: nat)
    requires ValidLog(table, log) && LastBefore(RowLog(table, log, base), t).Some?
    ensures
      var tuple := LastBefore(RowLog(table, log, base), t).value;
      ValidTupleOf(table, tuple) && Base(table, tuple) == base
  {
    hide Base;
    var row := RowLog(table, log, base);
    LastBeforeIn(row, t);
    var i :| 0 <= i < |row| && row[i].tuple == LastBefore(row, t).value && row[i].ts < t;
    RowTuples(table, log, base, i);
  }

  /** A row with all its records visited shows its deltas' sum and its last tuple. */
  lemma WholeRowShows(table: Table, log: seq<Write>, base: seq<byte>, from: Option<seq<Datum>>, to: Option<seq<Datum>>,
                      t: nat)
    requires ValidLog(table, log) && ValidBound(from) && ValidBound(to)
    requires base in VersionsOf(table, log) && VersionsOk(table, base, VersionsOf(table, log)[base])
    ensures
      var vs := VersionsOf(table, log)[base];
      LiveRow(table, RowLog(table, log, base), from, to, t) ==
        if InBounds(table, vs[0].tuple, from, to) then ShownAt(vs, t) else []
  {
    hide InBounds, Base;
    var row, vs := RowLog(table, log, base), VersionsOf(table, log)[base];
    VersionsAreFolds(table, log, base);
    FoldAsOf(row, t);
    if LastBefore(row, t).Some? {
      LiveTuple(table, log, base, t);
      BoundsOfRow(table, LastBefore(row, t).value, vs[0].tuple, from, to);
    }
  }

  /** The condition under which a scan at `t` is exact: now, or not ending on a whole key. */
  predicate Exact(table: Table, to: Option<seq<Datum>>, t: nat) {
    t == TS_MAX || to.None? || |to.value| < |table.pk|
  }

  lemma CutShows(table: Table, base: seq<byte>, vs: seq<Version>, from: Option<seq<Datum>>, to: Option<seq<Datum>>,
                 t: nat)
    requires VersionsOk(table, base, vs) && ValidBound(from) && ValidBound(to) && Exact(table, to, t)
    ensures ShownAt(Newest(vs, Visited(table, vs, from, to)), t) ==
      if InBounds(table, vs[0].tuple, from, to) then ShownAt(vs, t) else []
  {
    hide InBounds, Base, ToCmp;
    var n := Visited(table, vs, from, to);
    if n == |vs| {
      assert Newest(vs, n) == vs;
    } else if n > 0 {
      var last := vs[|vs| - 1];
      assert Newest(vs, n)[n - 1] == last && last.ts < TS_MAX;
    }
  }

  lemma {:induction false} ShownAreLive(table: Table, log: seq<Write>, rows: seq<seq<byte>>, from: Option<seq<Datum>>,
                                        to: Option<seq<Datum>>, t: nat)
    requires ValidLog(table, log) && ValidBound(from) && ValidBound(to) && Exact(table, to, t)
    requires WellFormed(table, VersionsOf(table, log)) && forall b :: b in rows ==> b in VersionsOf(table, log)
    ensures ShownRows(rows, VersionsOf(table, log), Cuts(table, VersionsOf(table, log), from, to), t) ==
      LiveRows(table, log, rows, from, to, t)
  {
    hide Visited, InBounds, LiveRow, ShownAt, Exact, RowLog;
    if rows != [] {
      var vers := VersionsOf(table, log);
      WholeRowShows(table, log, rows[0], from, to, t);
      CutShows(table, rows[0], vers[rows[0]], from, to, t);
      ShownAreLive(table, log, rows[1..], from, to, t);
    }
  }

  /** After any run of writes, scanning returns once each and in key order exactly the rows
      within bounds whose deltas before `t` do not cancel, with their sum and last tuple. */
  method RangeScanRows(table: Table, db: Db, from: Option<seq<Datum>>, to: Option<seq<Datum>>, t: nat,
                       entries: seq<Entry>, ghost log: seq<Write>) returns (rows: seq<Row>)
    requires StoredLog(table, db, log)
    requires ValidBound(from) && ValidBound(to) && Exact(table, to, t)
    requires entries == RangeEntries(db, Lo(table, from), Hi(table, to))
    ensures SameRows(rows, LiveRows(table, log, RowsOf(table, log), from, to, t))
  {
    hide Lo, Hi, Exact, RowLog, Scan, Decode, SameRows, ShownRows, LiveRows, SortedKeys, RangeEntries;
    ghost var vers := VersionsOf(table, log);
    assert WellFormed(table, vers) by { StoredVersions(table, db, vers); }
    RangeScanShows(table, db, vers, from, to, t);
    ShownAreLive(table, log, SortedKeys(vers.Keys), from, to, t);
    var iter := new IndexIter(entries, t, table.length);
    rows := Drain(iter);
  }

  /** A row is seen from just after its first write on: not yet at the write's own time. */
  lemma SeenAfter(table: Table, w: Write, t: nat)
    requires ValidTupleOf(table, w.tuple) && w.freq != 0
    ensures LiveRow(table, [w], None, None, t) == if t <= w.ts then [] else [(w.tuple, w.freq)]
  {
    hide ValidTupleOf;
    OneTotal(w, t);
  }

  /** A second write changes what is seen from just after it on, and until then nothing. */
  lemma SeenBetween(table: Table, v: Write, w: Write, t: nat)
    requires ValidTupleOf(table, v.tuple) && ValidTupleOf(table, w.tuple) && v.ts < w.ts
    ensures t <= w.ts ==>
      LiveRow(table, [v, w], None, None, t) == LiveRow(table, [v], None, None, t)
    ensures t > w.ts ==>
      LiveRow(table, [v, w], None, None, t) == if v.freq + w.freq == 0 then [] else [(w.tuple, v.freq + w.freq)]
  {
    hide ValidTupleOf;
    OneTotal(v, t);
    TwoTotal(v, w, t);
    var two := [v, w];
    assert two[..|two| - 1] == [v];
  }

  // ----- Ending on a whole key in the past

  /** The version a scan that visits the records from `k` on finds before `t`. */
  lemma {:induction false} AsOfTail(vs: seq<Version>, k: nat, t: nat)
    requires k <= |vs| && forall i, j :: 0 <= i < j < |vs| ==> vs[i].ts < vs[j].ts
    ensures AsOf(vs[k..], t) == if k < |vs| && vs[k].ts < t then AsOf(vs, t) else None
  {
    if k < |vs| && vs[|vs| - 1].ts >= t {
      var vs' := vs[..|vs| - 1];
      assert vs[k..][..|vs[k..]| - 1] == vs'[k..];
      AsOfTail(vs', k, t);
    }
  }

  /** Some write at TS_EARLY or later precedes `t`. */
  ghost predicate LateBefore(times: seq<nat>, t: nat) {
    exists i :: 0 <= i < |times| && TS_EARLY <= times[i] < t
  }

  function VersionTimes(vs: seq<Version>): (r: seq<nat>)
    ensures |r| == |vs| && forall i :: 0 <= i < |vs| ==> r[i] == vs[i].ts
  {
    seq(|vs|, i requires 0 <= i < |vs| => vs[i].ts)
  }

  function WriteTimes(row: seq<Write>): (r: seq<nat>)
    ensures |r| == |row| && forall i :: 0 <= i < |row| ==> r[i] == row[i].ts
  {
    seq(|row|, i requires 0 <= i < |row| => row[i].ts)
  }

  /** A scan ending on exactly this row's key sees its header and the history written at TS_EARLY or
      later. It is right about the past exactly when one of these is before `t` or nothing was there. */
  lemma FullBoundExact(table: Table, base: seq<byte>, vs: seq<Version>, from: Option<seq<Datum>>,
                       to: Option<seq<Datum>>, t: nat)
    requires VersionsOk(table, base, vs) && ValidBound(from) && ValidBound(to)
    requires InBounds(table, vs[0].tuple, from, to) && AtFullBound(table, vs[0].tuple, to)
    ensures
      var shown := ShownAt(Newest(vs, Visited(table, vs, from, to)), t);
      && (shown == ShownAt(vs, t) || (shown == [] && |ShownAt(vs, t)| == 1))
      && (shown == ShownAt(vs, t) <==>
            vs[|vs| - 1].ts < t || LateBefore(VersionTimes(vs), t) || ShownAt(vs, t) == [])
  {
    hide InBounds, AtFullBound, Base, AsOf, Late, LateBefore, ValidVersion;
    var last := |vs| - 1;
    var k := last - Late(vs[..last]);
    AsOfTail(vs, k, t);
    assert vs[k].ts < t <==> vs[last].ts < t || LateBefore(VersionTimes(vs), t) by { FirstVisited(vs, k, t); }
  }

  lemma FirstVisited(vs: seq<Version>, k: nat, t: nat)
    requires vs != [] && k == |vs| - 1 - Late(vs[..|vs| - 1])
    requires forall i, j :: 0 <= i < j < |vs| ==> vs[i].ts < vs[j].ts
    ensures vs[k].ts < t <==> vs[|vs| - 1].ts < t || LateBefore(VersionTimes(vs), t)
  {
    var last := |vs| - 1;
    if vs[k].ts < t && k < last {
      LateSpec(vs[..last], k);
      assert TS_EARLY <= VersionTimes(vs)[k] < t;
    }
    if LateBefore(VersionTimes(vs), t) {
      var i :| 0 <= i < |vs| && TS_EARLY <= VersionTimes(vs)[i] < t;
      if i < last { LateSpec(vs[..last], i); }
    }
  }

  /** Nothing is missed for this row: its last write is old enough, or a write before `t` is late
      enough for the bound to keep its record, or its deltas cancel. */
  ghost predicate NothingMissed(table: Table, log: seq<Write>, base: seq<byte>, from: Option<seq<Datum>>,
                                to: Option<seq<Datum>>, t: nat)
    requires ValidLog(table, log) && ValidBound(from) && ValidBound(to)
  {
    var row := RowLog(table, log, base);
    row != [] && ValidTupleOf(table, row[0].tuple)
      && InBounds(table, row[0].tuple, from, to) && AtFullBound(table, row[0].tuple, to) ==>
      row[|row| - 1].ts < t || LateBefore(WriteTimes(row), t) || DeltaSum(row, t) == 0
  }

  lemma RowExact(table: Table, log: seq<Write>, base: seq<byte>, from: Option<seq<Datum>>,
                 to: Option<seq<Datum>>, t: nat)
    requires ValidLog(table, log) && ValidBound(from) && ValidBound(to)
    requires base in VersionsOf(table, log) && VersionsOk(table, base, VersionsOf(table, log)[base])
    ensures
      var vs := VersionsOf(table, log)[base];
      var shown := ShownAt(Newest(vs, Visited(table, vs, from, to)), t);
      var live := LiveRow(table, RowLog(table, log, base), from, to, t);
      && (shown == live || (shown == [] && |live| == 1))
      && (shown == live <==> NothingMissed(table, log, base, from, to, t))
  {
    hide InBounds, Base, LiveRow, AtFullBound, ValidTupleOf, RowLog, ShownAt, Visited, DeltaSum, VersionsOf, LateBefore;
    var row, vs := RowLog(table, log, base), VersionsOf(table, log)[base];
    WholeRowShows(table, log, base, from, to, t);
    RowFacts(table, log, base, from, to, t);
    if InBounds(table, vs[0].tuple, from, to) && AtFullBound(table, vs[0].tuple, to) {
      FullBoundExact(table, base, vs, from, to, t);
    } else {
      WholeOrNothing(table, vs, from, to, t);
    }
  }

  lemma WholeOrNothing(table: Table, vs: seq<Version>, from: Option<seq<Datum>>, to: Option<seq<Datum>>, t: nat)
    requires vs != [] && ValidTupleOf(table, vs[0].tuple) && ValidBound(from) && ValidBound(to)
    requires !(InBounds(table, vs[0].tuple, from, to) && AtFullBound(table, vs[0].tuple, to))
    ensures ShownAt(Newest(vs, Visited(table, vs, from, to)), t) == if InBounds(table, vs[0].tuple, from, to)
      then ShownAt(vs, t) else []
  {
    hide InBounds, AtFullBound;
    assert Newest(vs, |vs|) == vs && Newest(vs, 0) == [];
  }

  /** The bounds and times of a row read off its log or off its versions agree. */
  lemma RowFacts(table: Table, log: seq<Write>, base: seq<byte>, from: Option<seq<Datum>>,
                 to: Option<seq<Datum>>, t: nat)
    requires ValidLog(table, log) && ValidBound(from) && ValidBound(to)
    requires base in VersionsOf(table, log) && VersionsOk(table, base, VersionsOf(table, log)[base])
    ensures
      var row, vs := RowLog(table, log, base), VersionsOf(table, log)[base];
      && row != [] && ValidTupleOf(table, row[0].tuple)
      && InBounds(table, row[0].tuple, from, to) == InBounds(table, vs[0].tuple, from, to)
      && AtFullBound(table, row[0].tuple, to) == AtFullBound(table, vs[0].tuple, to)
      && row[|row| - 1].ts == vs[|vs| - 1].ts
      && (ShownAt(vs, t) == [] <==> DeltaSum(row, t) == 0)
      && (LateBefore(WriteTimes(row), t) <==> LateBefore(VersionTimes(vs), t))
  {
    hide InBounds, Base, AtFullBound, ValidTupleOf, LateBefore;
    var row, vs := RowLog(table, log, base), VersionsOf(table, log)[base];
    VersionsAreFolds(table, log, base);
    FoldLast(row);
    FoldAsOf(row, t);
    RowTuples(table, log, base, 0);
    assert ValidTupleOf(table, row[0].tuple);
    BoundsOfRow(table, row[0].tuple, vs[0].tuple, from, to);
    FullBoundOfRow(table, row[0].tuple, vs[0].tuple, to);
    FoldTimes(row, t);
  }

  /** A row has a version at exactly the times it was written. */
  lemma {:induction false} FoldTimes(row: seq<Write>, t: nat)
    ensures LateBefore(WriteTimes(row), t) <==> LateBefore(VersionTimes(Fold(row)), t)
  {
    hide LateBefore, Push;
    if row == [] {
      assert WriteTimes(row) == VersionTimes(Fold(row));
    } else {
      var before, w := row[..|row| - 1], row[|row| - 1];
      FoldTimes(before, t);
      LatePush(WriteTimes(before), w.ts, t);
      assert WriteTimes(row) == WriteTimes(before) + [w.ts];
      PushTimes(Fold(before), w.tuple, w.ts, w.freq, t);
    }
  }

  lemma PushTimes(vs: seq<Version>, tuple: seq<Datum>, ts: nat, freq: int, t: nat)
    ensures LateBefore(VersionTimes(Push(vs, tuple, ts, freq)), t) <==>
      LateBefore(VersionTimes(vs), t) || TS_EARLY <= ts < t
  {
    hide LateBefore;
    if vs != [] && vs[|vs| - 1].ts == ts {
      var before := VersionTimes(vs[..|vs| - 1]);
      assert VersionTimes(Push(vs, tuple, ts, freq)) == before + [ts] && VersionTimes(vs) == before + [ts];
      LatePush(before, ts, t);
    } else {
      assert VersionTimes(Push(vs, tuple, ts, freq)) == VersionTimes(vs) + [ts];
      LatePush(VersionTimes(vs), ts, t);
    }
  }

  lemma LatePush(times: seq<nat>, ts: nat, t: nat)
    ensures LateBefore(times + [ts], t) <==> LateBefore(times, t) || TS_EARLY <= ts < t
  {
    var more := times + [ts];
    if LateBefore(times, t) {
      var i :| 0 <= i < |times| && TS_EARLY <= times[i] < t;
      assert more[i] == times[i];
    }
    assert more[|times|] == ts;
  }

  lemma FullBoundOfRow(table: Table, a: seq<Datum>, b: seq<Datum>, to: Option<seq<Datum>>)
    requires ValidTupleOf(table, a) && ValidTupleOf(table, b) && Base(table, a) == Base(table, b) && ValidBound(to)
    ensures AtFullBound(table, a, to) == AtFullBound(table, b, to)
  {
    if to.Some? && |to.value| >= |table.pk| {
      hide TupleCmp, KeyPrefix;
      var p, q, c := Cols(table, a), Cols(table, b), Cols(table, to.value);
      assert p[..|c|] == p && q[..|c|] == q;
      PrefixOrder(table, p, c, [], []);
      PrefixOrder(table, q, c, [], []);
    }
  }

  ghost predicate NothingMissedIn(table: Table, log: seq<Write>, rows: seq<seq<byte>>, from: Option<seq<Datum>>,
                                  to: Option<seq<Datum>>, t: nat)
    requires ValidLog(table, log) && ValidBound(from) && ValidBound(to)
  {
    forall b :: b in rows ==> NothingMissed(table, log, b, from, to, t)
  }

  lemma {:induction false} RowsExact(table: Table, log: seq<Write>, rows: seq<seq<byte>>, from: Option<seq<Datum>>,
                                     to: Option<seq<Datum>>, t: nat)
    requires ValidLog(table, log) && ValidBound(from) && ValidBound(to)
    requires WellFormed(table, VersionsOf(table, log)) && forall b :: b in rows ==> b in VersionsOf(table, log)
    ensures
      var shown := ShownRows(rows, VersionsOf(table, log), Cuts(table, VersionsOf(table, log), from, to), t);
      var live := LiveRows(table, log, rows, from, to, t);
      var all := NothingMissedIn(table, log, rows, from, to, t);
      |shown| <= |live| && (all ==> shown == live) && (!all ==> |shown| < |live|)
  {
    hide Visited, InBounds, LiveRow, ShownAt, RowLog, NothingMissed, NothingMissedIn, Base, Chronological, Total;
    NothingMissedSplit(table, log, rows, from, to, t);
    if rows != [] {
      var vers, first, rest := VersionsOf(table, log), rows[0], rows[1..];
      RowExact(table, log, first, from, to, t);
      RowsExact(table, log, rest, from, to, t);
      ExactConcat(ShownAt(Newest(vers[first], Visited(table, vers[first], from, to)), t),
                  LiveRow(table, RowLog(table, log, first), from, to, t),
                  ShownRows(rest, vers, Cuts(table, vers, from, to), t), LiveRows(table, log, rest, from, to, t),
                  NothingMissed(table, log, first, from, to, t), NothingMissedIn(table, log, rest, from, to, t));
    }
  }

  lemma NothingMissedSplit(table: Table, log: seq<Write>, rows: seq<seq<byte>>, from: Option<seq<Datum>>,
                           to: Option<seq<Datum>>, t: nat)
    requires ValidLog(table, log) && ValidBound(from) && ValidBound(to)
    ensures NothingMissedIn(table, log, rows, from, to, t) <==>
      rows == [] || (NothingMissed(table, log, rows[0], from, to, t)
                     && NothingMissedIn(table, log, rows[1..], from, to, t))
  {
    hide ValidLog, NothingMissed;
    if rows != [] { assert rows == [rows[0]] + rows[1..]; }
  }

  lemma ExactConcat(a: seq<Row>, b: seq<Row>, c: seq<Row>, d: seq<Row>, p: bool, q: bool)
    requires (a == b || (a == [] && |b| == 1)) && (a == b <==> p)
    requires |c| <= |d| && (q ==> c == d) && (!q ==> |c| < |d|)
    ensures |a + c| <= |b + d| && (p && q ==> a + c == b + d) && (!(p && q) ==> |a + c| < |b + d|)
  {
  }

  /** A scan of the past that may end on a whole key is exact if and only if the row with that
      key, should there be one, was last written before `t`, or was written between TS_EARLY and
      `t`, or cancels out at `t`. */
  lemma FullKeyScanExact(table: Table, db: Db, log: seq<Write>, from: Option<seq<Datum>>, to: Option<seq<Datum>>,
                         t: nat)
    requires StoredLog(table, db, log) && ValidBound(from) && ValidBound(to)
    ensures
      var entries := RangeEntries(db, Lo(table, from), Hi(table, to));
      AllDecode(entries) &&
      (SameRows(Scan(RecsOf(entries), t, true), LiveRows(table, log, RowsOf(table, log), from, to, t)) <==>
        NothingMissedIn(table, log, RowsOf(table, log), from, to, t))
  {
    hide Lo, Hi, Scan, Decode, ShownRows, LiveRows, SortedKeys, RangeEntries, NothingMissed, RowLog, SameRow1;
    var vers := VersionsOf(table, log);
    assert WellFormed(table, vers) by { StoredVersions(table, db, vers); }
    RangeScanShows(table, db, vers, from, to, t);
    RowsExact(table, log, RowsOf(table, log), from, to, t);
  }

  /** A table of one integer key column, and a row of it written at times 5 and 10. */
  const ONE := Table(2, 1, [Asc])

  function TwoWrites(): (r: seq<Write>) {
    [Write([Integer(1)], 5, 1), Write([Integer(1)], 10, 1)]
  }

  lemma TwoWritesRow(base: seq<byte>)
    ensures forall w :: w in TwoWrites() ==> ValidTupleOf(ONE, w.tuple) && w.ts < TS_LIMIT && IsI64(w.freq)
    ensures RowLog(ONE, TwoWrites(), base) == if base == Base(ONE, [Integer(1)]) then TwoWrites() else []
  {
    hide Base;
    var log := TwoWrites();
    assert log[..1] == [log[0]] && log[..1][..0] == [];
    assert RowLog(ONE, log[..1], base) == if base == Base(ONE, [Integer(1)]) then [log[0]] else [];
  }

  lemma TwoWritesValid()
    ensures ValidLog(ONE, TwoWrites())
  {
    hide Base, RowLog;
    TwoWritesRow([]);
    forall base
      ensures Chronological(RowLog(ONE, TwoWrites(), base))
      ensures forall n :: 0 <= n <= |RowLog(ONE, TwoWrites(), base)| ==>
        IsI64(Total(RowLog(ONE, TwoWrites(), base)[..n]))
    {
      TwoWritesRow(base);
      TwoWritesTotal();
      assert Total([][..0]) == 0;
    }
  }

  lemma OneTotal(w: Write, t: nat)
    ensures Total([w]) == w.freq && DeltaSum([w], t) == if w.ts < t then w.freq else 0
    ensures LastBefore([w], t) == if w.ts < t then Some(w.tuple) else None
  {
    var one := [w];
    assert one[..|one| - 1] == [] && one[|one| - 1] == w;
    assert Total(one) == Total([]) + w.freq;
    assert DeltaSum(one, t) == DeltaSum([], t) + if w.ts < t then w.freq else 0;
    assert LastBefore([], t) == None;
  }

  lemma TwoTotal(v: Write, w: Write, t: nat)
    ensures Total([v, w]) == v.freq + w.freq
    ensures w.ts >= t ==> DeltaSum([v, w], t) == DeltaSum([v], t) && LastBefore([v, w], t) == LastBefore([v], t)
  {
    var two := [v, w];
    assert two[..|two| - 1] == [v] && two[|two| - 1] == w;
    OneTotal(v, t);
    assert Total(two) == Total([v]) + w.freq;
  }

  lemma TwoWritesTotal()
    ensures Chronological(TwoWrites()) && forall n :: 0 <= n <= 2 ==> IsI64(Total(TwoWrites()[..n]))
    ensures DeltaSum(TwoWrites(), 7) == 1 && WriteTimes(TwoWrites()) == [5, 10]
    ensures LastBefore(TwoWrites(), 7) == Some([Integer(1)]) && TwoWrites()[0].tuple == [Integer(1)]
  {
    hide Total, DeltaSum, LastBefore;
    var log := TwoWrites();
    OneTotal(log[0], 7);
    TwoTotal(log[0], log[1], 7);
    assert log == [log[0], log[1]] && log[..1] == [log[0]] && log[..2] == log && log[..0] == [];
    NoTotal();
  }

  lemma NoTotal()
    ensures Total([]) == 0
  {
  }

  /** The only row of the table, at time 7: present, and in bounds. */
  lemma OnlyRow()
    requires ValidLog(ONE, TwoWrites())
    ensures
      var base := Base(ONE, [Integer(1)]);
      && RowsOf(ONE, TwoWrites()) == [base]
      && LiveRow(ONE, RowLog(ONE, TwoWrites(), base), None, Some([Integer(1)]), 7) == [([Integer(1)], 1)]
      && !NothingMissed(ONE, TwoWrites(), base, None, Some([Integer(1)]), 7)
  {
    hide Base, SortedKeys, VersionsOf, RowLog, ValidLog, TwoWrites, DeltaSum, LastBefore;
    var log, base, keys := TwoWrites(), Base(ONE, [Integer(1)]), RowsOf(ONE, TwoWrites());
    TwoWritesRow(base);
    TwoWritesTotal();
    var one := [Integer(1)];
    assert Cols(ONE, one) == one && one[..1] == one && [Asc][..1] == [Asc];
    assert TupleCmp(one, one, [Asc]) == 0;
    SortedKeysAscending(VersionsOf(ONE, log).Keys);
    forall b ensures b in keys <==> b == base {
      TwoWritesRow(b);
      VersionsAreFolds(ONE, log, b);
    }
    OnlyKey(keys, base);
  }

  lemma OnlyKey(keys: seq<seq<byte>>, key: seq<byte>)
    requires Ascending(keys) && forall k :: k in keys <==> k == key
    ensures keys == [key]
  {
    hide Cmp;
    assert |keys| > 1 ==> Cmp(keys[0], keys[1]) < 0;
    CmpSelf(key);
    assert key in keys;
    assert forall i :: 0 <= i < |keys| ==> keys[i] in keys;
  }

  lemma PastKeyLost(db: Db)
    requires StoredLog(ONE, db, TwoWrites())
    ensures LiveRows(ONE, TwoWrites(), RowsOf(ONE, TwoWrites()), None, Some([Integer(1)]), 7) == [([Integer(1)], 1)]
    ensures
      var entries := RangeEntries(db, Lo(ONE, None), Hi(ONE, Some([Integer(1)])));
      AllDecode(entries) && Scan(RecsOf(entries), 7, true) == []
  {
    hide Lo, Hi, Scan, Decode, ShownRows, SortedKeys, RangeEntries, NothingMissed, RowLog, SameRow1, LiveRow, Cuts;
    var log, to := TwoWrites(), Some([Integer(1)]);
    var vers := VersionsOf(ONE, log);
    assert WellFormed(ONE, vers) by { StoredVersions(ONE, db, vers); }
    OnlyRow();
    RangeScanShows(ONE, db, vers, None, to, 7);
    RowsExact(ONE, log, RowsOf(ONE, log), None, to, 7);
    assert RowsOf(ONE, log)[1..] == [] && RowsOf(ONE, log)[0] in RowsOf(ONE, log);
  }

  /** The scan of the past that loses a row: the row was there with frequency 1 at time 7, but a
      scan ending on its key returns nothing. */
  method PastKeyMissed() returns (db: Db)
    ensures StoredLog(ONE, db, TwoWrites())
    ensures LiveRows(ONE, TwoWrites(), RowsOf(ONE, TwoWrites()), None, Some([Integer(1)]), 7) == [([Integer(1)], 1)]
    ensures
      var entries := RangeEntries(db, Lo(ONE, None), Hi(ONE, Some([Integer(1)])));
      AllDecode(entries) && Scan(RecsOf(entries), 7, true) == []
  {
    TwoWritesValid();
    var store := new Store();
    Replay(store, ONE, TwoWrites());
    db := store.db;
    PastKeyLost(db);
  }

  // ----- Point lookups

  /** `system_point_lookup`: the header's frequency and non-key columns. */
  function PointLookup(table: Table, db: Db, pk: seq<Datum>): (r: Option<Option<(int, seq<Datum>)>>)
    requires table.Valid() && ValidTuple(pk) && |pk| >= |table.pk|
  {
    var key := RangeKey(table, pk, false);
    if key !in db then Some(None)
    else if |db[key]| < 8 then None
    else match DecodeBody(db[key][8..])
      case None => None
      case Some(r) => Some(Some(r))
  }

  /** A lookup never fails; it finds the sum of all deltas of the row, and nothing exactly when
      the row was never written. */
  lemma LookupMeansLog(table: Table, db: Db, log: seq<Write>, tuple: seq<Datum>)
    requires StoredLog(table, db, log) && ValidTupleOf(table, tuple)
    ensures
      var row := RowLog(table, log, Base(table, tuple));
      var r := PointLookup(table, db, tuple);
      r.Some? && (r.value.None? <==> row == []) &&
      (row != [] ==>
         && r.value.value.0 == DeltaSum(row, TS_MAX)
         && ValidTupleOf(table, row[|row| - 1].tuple)
         && CanonTuple(r.value.value.1) == CanonTuple(Rest(table, row[|row| - 1].tuple)))
  {
    hide InTable, DecodeBody, KeyPrefix, RowLog, Stored, Rest;
    var base, vers := Base(table, tuple), VersionsOf(table, log);
    var row := RowLog(table, log, base);
    assert WellFormed(table, vers) by { StoredVersions(table, db, vers); }
    VersionsAreFolds(table, log, base);
    HeaderPresent(table, db, vers, tuple);
    if row != [] {
      HeaderReads(table, db, vers, tuple);
      var last := Nth(vers[base], 0);
      DecodeBodyOf(table, last);
      FoldLast(row);
      RowTuples(table, log, base, |row| - 1);
      AllBefore(row, TS_MAX);
    }
  }
}
