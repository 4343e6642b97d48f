/** The plain meaning of a table: a log of frequency deltas, summed per row up to a time. */
module DeltaLog {
  import opened Bytes
  import opened Varint
  import opened Datums
  import opened TableKeys
  import opened Mvcc

  datatype Write = Write(tuple: seq<Datum>, ts: nat, freq: int)

  /** The writes of one row, in order. */
  function RowLog(table: Table, log: seq<Write>, base: seq<byte>): (r: seq<Write>)
    requires forall w :: w in log ==> ValidTupleOf(table, w.tuple)
  {
    if log == [] then []
    else
      var last := log[|log| - 1];
      RowLog(table, log[..|log| - 1], base) + if Base(table, last.tuple) == base then [last] else []
  }

  /** The sum of the deltas written before time `t`. */
  function DeltaSum(row: seq<Write>, t: nat): (r: int)
  {
    if row == [] then 0
    else DeltaSum(row[..|row| - 1], t) + if row[|row| - 1].ts < t then row[|row| - 1].freq else 0
  }

  /** The tuple of the last write before time `t`. */
  function LastBefore(row: seq<Write>, t: nat): (r: Option<seq<Datum>>)
  {
    if row == [] then None
    else if row[|row| - 1].ts < t then Some(row[|row| - 1].tuple)
    else LastBefore(row[..|row| - 1], t)
  }

  function Total(row: seq<Write>): (r: int) {
    if row == [] then 0 else Total(row[..|row| - 1]) + row[|row| - 1].freq
  }

  ghost predicate Chronological(row: seq<Write>) {
    forall i, j :: 0 <= i < j < |row| ==> row[i].ts <= row[j].ts
  }

  ghost predicate ValidLog(table: Table, log: seq<Write>) {
    && table.Valid()
    && (forall w :: w in log ==> ValidTupleOf(table, w.tuple) && w.ts < TS_LIMIT && IsI64(w.freq))
    && (forall base :: Chronological(RowLog(table, log, base)))
    && (forall base, n :: 0 <= n <= |RowLog(table, log, base)| ==> IsI64(Total(RowLog(table, log, base)[..n])))
  }

  // ----- Versions of a row from its log

  function Fold(row: seq<Write>): (r: seq<Version>)
    ensures r == [] <==> row == []
  {
    if row == [] then []
    else var w := row[|row| - 1]; Push(Fold(row[..|row| - 1]), w.tuple, w.ts, w.freq)
  }

  /** The newest version older than `t`. */
  function AsOf(vs: seq<Version>, t: nat): (r: Option<Version>)
  {
    if vs == [] then None
    else if vs[|vs| - 1].ts < t then Some(vs[|vs| - 1])
    else AsOf(vs[..|vs| - 1], t)
  }

  lemma {:induction false} FoldLast(row: seq<Write>)
    requires row != []
    ensures
      var v := Fold(row)[|Fold(row)| - 1];
      v.ts == row[|row| - 1].ts && v.freq == Total(row) && v.tuple == row[|row| - 1].tuple
  {
    var before := row[..|row| - 1];
    if before != [] { FoldLast(before); }
  }

  lemma {:induction false} AllBefore(row: seq<Write>, t: nat)
    requires row != [] && Chronological(row) && row[|row| - 1].ts < t
    ensures DeltaSum(row, t) == Total(row)
  {
    var before := row[..|row| - 1];
    if before != [] {
      assert before[|before| - 1] == row[|row| - 2];
      AllBefore(before, t);
    }
  }

  /** One version a timestamp, accumulated, agrees with the sum of deltas at every time. */
  lemma {:induction false} FoldAsOf(row: seq<Write>, t: nat)
    requires Chronological(row)
    ensures AsOf(Fold(row), t).Some? ==>
      AsOf(Fold(row), t).value.freq == DeltaSum(row, t) && LastBefore(row, t) == Some(AsOf(Fold(row), t).value.tuple)
    ensures AsOf(Fold(row), t).None? ==> DeltaSum(row, t) == 0 && LastBefore(row, t).None?
  {
    if row != [] {
      var before := row[..|row| - 1];
      FoldLast(row);
      FoldAsOf(before, t);
      if row[|row| - 1].ts < t {
        AllBefore(row, t);
      } else {
        var vs := Fold(before);
        if before != [] { FoldLast(before); }
        if vs != [] && vs[|vs| - 1].ts == row[|row| - 1].ts {
          assert Fold(row)[..|Fold(row)| - 1] == vs[..|vs| - 1];
        } else {
          assert Fold(row)[..|Fold(row)| - 1] == vs;
        }
      }
    }
  }

  // ----- Versions of a table from its log

  ghost function VersionsOf(table: Table, log: seq<Write>): (r: Versions)
    requires forall w :: w in log ==> ValidTupleOf(table, w.tuple)
  {
    if log == [] then map[]
    else
      var w := log[|log| - 1];
      var vers := VersionsOf(table, log[..|log| - 1]);
      var base := Base(table, w.tuple);
      vers[base := Push(VersionsAt(vers, base), w.tuple, w.ts, w.freq)]
  }

  lemma {:induction false} VersionsAreFolds(table: Table, log: seq<Write>, base: seq<byte>)
    requires forall w :: w in log ==> ValidTupleOf(table, w.tuple)
    ensures VersionsAt(VersionsOf(table, log), base) == Fold(RowLog(table, log, base))
    ensures base in VersionsOf(table, log) <==> RowLog(table, log, base) != []
  {
    hide Base;
    if log != [] {
      var before := log[..|log| - 1];
      VersionsAreFolds(table, before, base);
      var w := log[|log| - 1];
      if Base(table, w.tuple) == base {
        var row := RowLog(table, log, base);
        assert row[..|row| - 1] == RowLog(table, before, base);
      } else {
        assert RowLog(table, log, base) == RowLog(table, before, base);
      }
    }
  }

  lemma {:induction false} ValidPrefix(table: Table, log: seq<Write>)
    requires ValidLog(table, log) && log != []
    ensures ValidLog(table, log[..|log| - 1])
  {
    hide Base;
    var before := log[..|log| - 1];
    forall base
      ensures Chronological(RowLog(table, before, base))
      ensures forall n :: 0 <= n <= |RowLog(table, before, base)| ==> IsI64(Total(RowLog(table, before, base)[..n]))
    {
      var row, row' := RowLog(table, before, base), RowLog(table, log, base);
      assert row == row'[..|row|];
      forall n | 0 <= n <= |row| ensures IsI64(Total(row[..n])) {
        assert row[..n] == row'[..n];
      }
    }
  }

  /** The next write of a valid log meets what `write_tuple` relies on. */
  lemma ValidNext(table: Table, log: seq<Write>)
    requires ValidLog(table, log) && log != []
    ensures
      var w := log[|log| - 1];
      CanWrite(table, VersionsOf(table, log[..|log| - 1]), w.tuple, w.ts, w.freq)
  {
    hide Base, Fold, VersionsOf, ValidTuple;
    var before, w := log[..|log| - 1], log[|log| - 1];
    assert w in log;
    var base := Base(table, w.tuple);
    var row, row' := RowLog(table, before, base), RowLog(table, log, base);
    assert row' == row + [w];
    VersionsAreFolds(table, before, base);
    if row != [] {
      FoldLast(row);
      assert row'[|row| - 1].ts <= row'[|row|].ts;
      assert IsI64(Total(row'[..|row'|]));
      assert row'[..|row'|] == row' && row'[..|row|] == row;
    }
  }

  /** The store holds exactly what the log says about this table. */
  ghost predicate StoredLog(table: Table, db: Db, log: seq<Write>) {
    ValidLog(table, log) && Stored(table, db, VersionsOf(table, log))
  }

  /** Any run of writes leaves the store holding the versions of its log and nothing else. */
  method Replay(store: Store, table: Table, log: seq<Write>)
    requires ValidLog(table, log)
    requires forall k :: k in store.db ==> !InTable(table.id, k)
    modifies store
    ensures StoredLog(table, store.db, log)
    ensures forall k :: !InTable(table.id, k) ==>
      (k in store.db <==> k in old(store.db)) && (k in store.db ==> store.db[k] == old(store.db[k]))
    decreases |log|
  {
    if log == [] { return; }
    ValidPrefix(table, log);
    Replay(store, table, log[..|log| - 1]);
    ValidNext(table, log);
    var w := log[|log| - 1];
    store.WriteTuple(table, w.tuple, w.ts, w.freq, VersionsOf(table, log[..|log| - 1]));
  }
}
