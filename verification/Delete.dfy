/** DELETE FROM t WHERE p LIMIT n: the matching rows of a snapshot, limited, negated and inserted. */
module Delete {
  import opened Bytes
  import opened Varint
  import opened Datums
  import opened Rows
  import opened TableKeys
  import opened Mvcc
  import opened DeltaLog
  import opened IndexScan
  import opened RangeScan
  import opened TableScan
  import opened Limit
  import opened Insert

  /** The filter executor keeps a row when its predicate is exactly true. */
  function Filter(rows: seq<Row>, pred: Tuple -> bool): (r: seq<Row>) {
    if rows == [] then []
    else (if pred(rows[0].0) then [rows[0]] else []) + Filter(rows[1..], pred)
  }

  /** The rows a DELETE inserts. */
  function Deleted(rows: seq<Row>, pred: Tuple -> bool, n: int): (r: seq<Row>) {
    Negated(LimitRun(Filter(rows, pred), 0, n))
  }

  /** The frequency a row has now. */
  ghost function Freq(table: Table, log: seq<Write>, base: seq<byte>): (r: int)
    requires ValidLog(table, log)
  {
    DeltaSum(RowLog(table, log, base), TS_MAX)
  }

  // ----- Copies taken from each row

  /** How many copies of the i-th row a DELETE with LIMIT n takes. */
  function TakenAt(rows: seq<Row>, pred: Tuple -> bool, n: int, i: nat): (r: int)
    requires i < |rows|
  {
    var hit := pred(rows[0].0);
    if hit && (n <= 0 || rows[0].1 == 0) then 0
    else if i == 0 then if hit then Min(rows[0].1, n) else 0
    else TakenAt(rows[1..], pred, if hit then n - rows[0].1 else n, i - 1)
  }

  lemma {:induction false} TakenBounds(rows: seq<Row>, pred: Tuple -> bool, n: int, i: nat)
    requires i < |rows|
    ensures Positive(rows) ==> 0 <= TakenAt(rows, pred, n, i) <= rows[i].1
    ensures !pred(rows[i].0) ==> TakenAt(rows, pred, n, i) == 0
  {
    if i > 0 { TakenBounds(rows[1..], pred, if pred(rows[0].0) then n - rows[0].1 else n, i - 1); }
  }

  /** The same copies, counted per row identity. */
  function SumFor(rows: seq<Row>, ids: seq<seq<byte>>, pred: Tuple -> bool, n: int, id: seq<byte>): (r: int)
    requires |rows| == |ids|
  {
    if rows == [] then 0
    else if !pred(rows[0].0) then SumFor(rows[1..], ids[1..], pred, n, id)
    else if n <= 0 || rows[0].1 == 0 then 0
    else (if ids[0] == id then Min(rows[0].1, n) else 0) + SumFor(rows[1..], ids[1..], pred, n - rows[0].1, id)
  }

  lemma {:induction false} SumForAbsent(rows: seq<Row>, ids: seq<seq<byte>>, pred: Tuple -> bool, n: int, id: seq<byte>)
    requires |rows| == |ids| && id !in ids
    ensures SumFor(rows, ids, pred, n, id) == 0
  {
    if rows != [] {
      SumForAbsent(rows[1..], ids[1..], pred, if pred(rows[0].0) then n - rows[0].1 else n, id);
    }
  }

  lemma {:induction false} SumForIsTaken(rows: seq<Row>, ids: seq<seq<byte>>, pred: Tuple -> bool, n: int, i: nat)
    requires |rows| == |ids| && i < |rows| && Ascending(ids)
    ensures SumFor(rows, ids, pred, n, ids[i]) == TakenAt(rows, pred, n, i)
  {
    hide Cmp;
    var n' := if pred(rows[0].0) then n - rows[0].1 else n;
    if i == 0 {
      RestOf(ids, ids[0]);
      SumForAbsent(rows[1..], ids[1..], pred, n', ids[0]);
    } else {
      RestOf(ids, ids[i]);
      assert ids[1..][i - 1] == ids[i];
      SumForIsTaken(rows[1..], ids[1..], pred, n', i - 1);
    }
  }

  // ----- Effect on the log

  function RowSum(table: Table, rows: seq<Row>, base: seq<byte>): (r: int)
    requires forall i :: 0 <= i < |rows| ==> ValidTupleOf(table, rows[i].0)
  {
    if rows == [] then 0
    else (if Base(table, rows[0].0) == base then rows[0].1 else 0) + RowSum(table, rows[1..], base)
  }

  /** The identity of every row that might be deleted. */
  ghost predicate Identified(table: Table, rows: seq<Row>, ids: seq<seq<byte>>) {
    |rows| == |ids| && forall i :: 0 <= i < |rows| && ValidTupleOf(table, rows[i].0) ==>
      Base(table, rows[i].0) == ids[i]
  }

  lemma {:induction false} LimitedSum(table: Table, rows: seq<Row>, ids: seq<seq<byte>>, pred: Tuple -> bool, n: int,
                                      base: seq<byte>)
    requires Identified(table, rows, ids)
    requires forall i :: 0 <= i < |Limited(Filter(rows, pred), n)| ==>
      ValidTupleOf(table, Limited(Filter(rows, pred), n)[i].0)
    ensures RowSum(table, Limited(Filter(rows, pred), n), base) == SumFor(rows, ids, pred, n, base)
    decreases |rows|
  {
    hide Base, ValidTupleOf;
    if rows != [] {
      var rest := Filter(rows[1..], pred);
      if !pred(rows[0].0) {
        assert Filter(rows, pred) == rest;
        LimitedSum(table, rows[1..], ids[1..], pred, n, base);
      } else {
        assert Filter(rows, pred)[1..] == rest;
        if n > 0 && rows[0].1 != 0 {
          var l := Limited(Filter(rows, pred), n);
          assert l[1..] == Limited(rest, n - rows[0].1) && l[0].0 == rows[0].0;
          assert ValidTupleOf(table, l[0].0);
          forall i | 0 <= i < |l| - 1 ensures ValidTupleOf(table, l[1..][i].0) { assert l[1..][i] == l[i + 1]; }
          LimitedSum(table, rows[1..], ids[1..], pred, n - rows[0].1, base);
        }
      }
    }
  }

  lemma {:induction false} RowLogConcat(table: Table, a: seq<Write>, b: seq<Write>, base: seq<byte>)
    requires (forall w :: w in a ==> ValidTupleOf(table, w.tuple))
      && (forall w :: w in b ==> ValidTupleOf(table, w.tuple))
    requires forall w :: w in a + b ==> ValidTupleOf(table, w.tuple)
    ensures RowLog(table, a + b, base) == RowLog(table, a, base) + RowLog(table, b, base)
  {
    hide Base, ValidTupleOf;
    if b == [] {
      assert a + b == a;
    } else {
      var b' := b[..|b| - 1];
      assert (a + b)[..|a + b| - 1] == a + b';
      RowLogConcat(table, a, b', base);
    }
  }

  lemma {:induction false} DeltaSumConcat(a: seq<Write>, b: seq<Write>, t: nat)
    ensures DeltaSum(a + b, t) == DeltaSum(a, t) + DeltaSum(b, t)
  {
    if b == [] {
      assert a + b == a;
    } else {
      assert (a + b)[..|a + b| - 1] == a + b[..|b| - 1];
      DeltaSumConcat(a, b[..|b| - 1], t);
    }
  }

  /** The writes of negated rows take their frequencies off the row's sum. */
  lemma {:induction false} NegatedSum(table: Table, taken: seq<Row>, now: nat -> nat, base: seq<byte>)
    requires forall i :: 0 <= i < |taken| ==> ValidTupleOf(table, taken[i].0) && now(i) < TS_MAX
    requires forall w :: w in Writes(Negated(taken), now) ==> ValidTupleOf(table, w.tuple)
    ensures DeltaSum(RowLog(table, Writes(Negated(taken), now), base), TS_MAX) == -RowSum(table, taken, base)
  {
    hide Base, ValidTupleOf;
    if taken != [] {
      var n := |taken| - 1;
      var ws := Writes(Negated(taken), now);
      assert ws[..n] == Writes(Negated(taken[..n]), now);
      NegatedSum(table, taken[..n], now, base);
      RowSumPush(table, taken[..n], taken[n], base);
      assert taken == taken[..n] + [taken[n]];
      DeltaSumConcat(RowLog(table, ws[..n], base), if Base(table, ws[n].tuple) == base then [ws[n]] else [], TS_MAX);
      assert [ws[n]][..0] == [];
    }
  }

  lemma {:induction false} RowSumPush(table: Table, rows: seq<Row>, row: Row, base: seq<byte>)
    requires (forall i :: 0 <= i < |rows| ==> ValidTupleOf(table, rows[i].0)) && ValidTupleOf(table, row.0)
    ensures RowSum(table, rows + [row], base) ==
      RowSum(table, rows, base) + if Base(table, row.0) == base then row.1 else 0
  {
    hide Base, ValidTupleOf;
    if rows == [] {
      assert rows + [row] == [row] && [row][1..] == [];
    } else {
      assert (rows + [row])[1..] == rows[1..] + [row];
      RowSumPush(table, rows[1..], row, base);
    }
  }

  /** After the delete every row has exactly the copies taken from it fewer: rows that do not
      match lose none, rows not in the snapshot are untouched. */
  lemma DeleteEffect(table: Table, log: seq<Write>, rows: seq<Row>, ids: seq<seq<byte>>, pred: Tuple -> bool, n: int,
                     now: nat -> nat, base: seq<byte>)
    requires ValidLog(table, log) && ValidLog(table, log + Writes(Deleted(rows, pred, n), now))
    requires Identified(table, rows, ids) && Ascending(ids)
    ensures base !in ids ==> Freq(table, log + Writes(Deleted(rows, pred, n), now), base) == Freq(table, log, base)
    ensures forall i :: 0 <= i < |rows| && base == ids[i] ==>
      Freq(table, log + Writes(Deleted(rows, pred, n), now), base) == Freq(table, log, base) - TakenAt(rows, pred, n, i)
  {
    hide RowLog, DeltaSum, Ascending, Base;
    var taken := Limited(Filter(rows, pred), n);
    var ws := Writes(Negated(taken), now);
    assert Deleted(rows, pred, n) == Negated(taken);
    forall i | 0 <= i < |ws| ensures ValidTupleOf(table, ws[i].tuple) && ws[i].ts < TS_MAX { assert ws[i] in log + ws; }
    forall i | 0 <= i < |taken| ensures ValidTupleOf(table, taken[i].0) && now(i) < TS_MAX {
      assert ws[i] == Write(taken[i].0, now(i), -taken[i].1);
    }
    RowLogConcat(table, log, ws, base);
    DeltaSumConcat(RowLog(table, log, base), RowLog(table, ws, base), TS_MAX);
    NegatedSum(table, taken, now, base);
    LimitedSum(table, rows, ids, pred, n, base);
    if base !in ids { SumForAbsent(rows, ids, pred, n, base); }
    forall i | 0 <= i < |rows| && base == ids[i] ensures SumFor(rows, ids, pred, n, base) == TakenAt(rows, pred, n, i) {
      SumForIsTaken(rows, ids, pred, n, i);
    }
  }

  lemma {:induction false} FilterPositive(rows: seq<Row>, pred: Tuple -> bool)
    requires Positive(rows)
    ensures Positive(Filter(rows, pred))
  {
    if rows != [] { FilterPositive(rows[1..], pred); }
  }

  /** LIMIT n removes exactly min(n, matching copies) copies. */
  lemma DeleteTotal(rows: seq<Row>, pred: Tuple -> bool, n: nat)
    requires Positive(rows)
    ensures Copies(Deleted(rows, pred, n)) == -Min(n, Copies(Filter(rows, pred)))
  {
    FilterPositive(rows, pred);
    LimitedIsTake(Filter(rows, pred), n);
    TakeTotal(Filter(rows, pred), n);
    NegateTotal(Limited(Filter(rows, pred), n));
  }

  // ----- The snapshot a DELETE reads

  /** The identities of the rows a full scan returns. */
  ghost function LiveIds(table: Table, log: seq<Write>, rows: seq<seq<byte>>): (r: seq<seq<byte>>)
    requires ValidLog(table, log)
  {
    if rows == [] then []
    else (if LiveRow(table, RowLog(table, log, rows[0]), None, None, TS_MAX) == [] then [] else [rows[0]])
         + LiveIds(table, log, rows[1..])
  }

  lemma {:induction false} LiveIdsHas(table: Table, log: seq<Write>, rows: seq<seq<byte>>, id: seq<byte>)
    requires ValidLog(table, log)
    ensures id in LiveIds(table, log, rows) ==> id in rows
  {
    hide LiveRow, ValidLog;
    if rows != [] {
      LiveIdsHas(table, log, rows[1..], id);
      assert rows == [rows[0]] + rows[1..];
    }
  }

  lemma {:induction false} LiveIdsAscending(table: Table, log: seq<Write>, rows: seq<seq<byte>>)
    requires ValidLog(table, log) && Ascending(rows)
    ensures Ascending(LiveIds(table, log, rows))
  {
    hide LiveRow, Cmp;
    if rows != [] {
      LiveIdsAscending(table, log, rows[1..]);
      var ids := LiveIds(table, log, rows[1..]);
      forall j | 0 <= j < |ids| ensures Cmp(rows[0], ids[j]) < 0 {
        LiveIdsHas(table, log, rows[1..], ids[j]);
        var i :| 0 <= i < |rows| - 1 && rows[1..][i] == ids[j];
        assert rows[i + 1] == ids[j];
      }
    }
  }

  lemma {:induction false} LiveRowsIdentified(table: Table, log: seq<Write>, rows: seq<seq<byte>>)
    requires ValidLog(table, log)
    ensures
      var live, ids := LiveRows(table, log, rows, None, None, TS_MAX), LiveIds(table, log, rows);
      |live| == |ids| && forall i :: 0 <= i < |live| ==>
        ValidTupleOf(table, live[i].0) && Base(table, live[i].0) == ids[i]
  {
    hide Base, ValidTupleOf, InBounds, RowLog;
    if rows != [] {
      LiveRowsIdentified(table, log, rows[1..]);
      var row := RowLog(table, log, rows[0]);
      if LastBefore(row, TS_MAX).Some? { LiveTuple(table, log, rows[0], TS_MAX); }
    }
  }

  /** A full scan of the table identifies its rows, one row an identity, in key order. */
  lemma SnapshotIdentified(table: Table, log: seq<Write>, rows: seq<Row>)
    requires ValidLog(table, log) && SameRows(rows, LiveRows(table, log, RowsOf(table, log), None, None, TS_MAX))
    ensures Identified(table, rows, LiveIds(table, log, RowsOf(table, log)))
    ensures Ascending(LiveIds(table, log, RowsOf(table, log)))
  {
    hide LiveRows, LiveIds, Ascending, RowLog, ValidLog, KeyPrefix, CanonTuple;
    var all := RowsOf(table, log);
    var live := LiveRows(table, log, all, None, None, TS_MAX);
    LiveRowsIdentified(table, log, all);
    assert Ascending(all) by { SortedKeysAscending(AllIds(table, log)); }
    LiveIdsAscending(table, log, all);
    forall i | 0 <= i < |rows| && ValidTupleOf(table, rows[i].0)
      ensures Base(table, rows[i].0) == Base(table, live[i].0)
    {
      assert SameRow1(rows[i], live[i]);
      SameTuplesSameRow(table, rows[i].0, live[i].0);
    }
  }

  ghost function AllIds(table: Table, log: seq<Write>): (r: set<seq<byte>>)
    requires ValidLog(table, log)
  {
    VersionsOf(table, log).Keys
  }

  lemma SameTuplesSameRow(table: Table, a: Tuple, b: Tuple)
    requires ValidTupleOf(table, a) && ValidTupleOf(table, b) && CanonTuple(a) == CanonTuple(b)
    ensures Base(table, a) == Base(table, b)
  {
    var n := |table.pk|;
    assert CanonTuple(Cols(table, a)) == CanonTuple(a)[..n] && CanonTuple(Cols(table, b)) == CanonTuple(b)[..n];
    hide KeyPrefix;
    SameRow(table, a, b);
  }

  // ----- The log after a DELETE

  /** The identities of the rows that LIMIT n leaves of the matching ones. */
  function TakenIds(rows: seq<Row>, ids: seq<seq<byte>>, pred: Tuple -> bool, n: int): (r: seq<seq<byte>>)
    requires |rows| == |ids|
  {
    if rows == [] then []
    else if !pred(rows[0].0) then TakenIds(rows[1..], ids[1..], pred, n)
    else if n <= 0 || rows[0].1 == 0 then []
    else [ids[0]] + TakenIds(rows[1..], ids[1..], pred, n - rows[0].1)
  }

  /** `row` is what a DELETE takes from the j-th row: all its copies, or some of a positive number. */
  predicate TakenFrom(rows: seq<Row>, ids: seq<seq<byte>>, j: int, row: Row, id: seq<byte>)
    requires |rows| == |ids|
  {
    && 0 <= j < |rows| && ids[j] == id && rows[j].0 == row.0
    && (row.1 == rows[j].1 || 0 < row.1 < rows[j].1)
  }

  ghost predicate TakenFromOne(rows: seq<Row>, ids: seq<seq<byte>>, row: Row, id: seq<byte>)
    requires |rows| == |ids|
  {
    exists j :: TakenFrom(rows, ids, j, row, id)
  }

  ghost predicate AllTakenFrom(rows: seq<Row>, ids: seq<seq<byte>>, taken: seq<Row>, kept: seq<seq<byte>>)
    requires |rows| == |ids|
  {
    |taken| == |kept| && forall i :: 0 <= i < |taken| ==> TakenFromOne(rows, ids, taken[i], kept[i])
  }

  lemma TakenFromLater(rows: seq<Row>, ids: seq<seq<byte>>, taken: seq<Row>, kept: seq<seq<byte>>)
    requires |rows| == |ids| && rows != [] && AllTakenFrom(rows[1..], ids[1..], taken, kept)
    ensures AllTakenFrom(rows, ids, taken, kept)
  {
    forall i | 0 <= i < |taken| ensures TakenFromOne(rows, ids, taken[i], kept[i]) {
      assert TakenFromOne(rows[1..], ids[1..], taken[i], kept[i]);
      var j :| TakenFrom(rows[1..], ids[1..], j, taken[i], kept[i]);
      assert TakenFrom(rows, ids, j + 1, taken[i], kept[i]);
    }
  }

  lemma TakenFromFirst(rows: seq<Row>, ids: seq<seq<byte>>, row: Row, taken: seq<Row>, kept: seq<seq<byte>>)
    requires |rows| == |ids| && rows != [] && AllTakenFrom(rows, ids, taken, kept)
      && TakenFrom(rows, ids, 0, row, ids[0])
    ensures AllTakenFrom(rows, ids, [row] + taken, [ids[0]] + kept)
  {
    hide TakenFrom;
    var more, all := [row] + taken, [ids[0]] + kept;
    forall i | 0 <= i < |more| ensures TakenFromOne(rows, ids, more[i], all[i]) {
      if i == 0 {
        assert TakenFrom(rows, ids, 0, more[i], all[i]);
      } else {
        assert more[i] == taken[i - 1] && all[i] == kept[i - 1];
      }
    }
  }

  lemma {:induction false} LimitedFrom(rows: seq<Row>, ids: seq<seq<byte>>, pred: Tuple -> bool, n: int)
    requires |rows| == |ids|
    ensures AllTakenFrom(rows, ids, Limited(Filter(rows, pred), n), TakenIds(rows, ids, pred, n))
    decreases |rows|
  {
    hide AllTakenFrom;
    if rows == [] {
      assert AllTakenFrom([], [], [], []) by { NothingTaken(rows, ids); }
    } else {
      var hit := pred(rows[0].0);
      var rest, n' := Filter(rows[1..], pred), if hit then n - rows[0].1 else n;
      LimitedFrom(rows[1..], ids[1..], pred, n');
      TakenFromLater(rows, ids, Limited(rest, n'), TakenIds(rows[1..], ids[1..], pred, n'));
      if !hit {
        assert Filter(rows, pred) == rest;
      } else {
        assert Filter(rows, pred)[1..] == rest;
        if n <= 0 || rows[0].1 == 0 {
          NothingTaken(rows, ids);
        } else {
          var row: Row := (rows[0].0, Min(rows[0].1, n));
          TakenFromFirst(rows, ids, row, Limited(rest, n'), TakenIds(rows[1..], ids[1..], pred, n'));
        }
      }
    }
  }

  lemma NothingTaken(rows: seq<Row>, ids: seq<seq<byte>>)
    requires |rows| == |ids|
    ensures AllTakenFrom(rows, ids, [], [])
  {
  }

  lemma {:induction false} TakenIdsAscending(rows: seq<Row>, ids: seq<seq<byte>>, pred: Tuple -> bool, n: int)
    requires |rows| == |ids| && Ascending(ids)
    ensures Ascending(TakenIds(rows, ids, pred, n)) && forall id :: id in TakenIds(rows, ids, pred, n) ==> id in ids
  {
    hide Cmp;
    if rows != [] {
      var n' := if pred(rows[0].0) then n - rows[0].1 else n;
      TakenIdsAscending(rows[1..], ids[1..], pred, n');
      var kept := TakenIds(rows[1..], ids[1..], pred, n');
      forall i | 0 <= i < |kept| ensures Cmp(ids[0], kept[i]) < 0 {
        assert kept[i] in ids[1..];
        var j :| 0 <= j < |ids| - 1 && ids[1..][j] == kept[i];
        assert ids[j + 1] == kept[i];
      }
    }
  }

  /** Writes of different rows: each row's log is the one write it has. */
  lemma {:induction false} OneWrite(table: Table, ws: seq<Write>, kept: seq<seq<byte>>, base: seq<byte>)
    requires |ws| == |kept| && Ascending(kept) && forall w :: w in ws ==> ValidTupleOf(table, w.tuple)
    requires forall i :: 0 <= i < |ws| ==> Base(table, ws[i].tuple) == kept[i]
    ensures base !in kept ==> RowLog(table, ws, base) == []
    ensures forall i :: 0 <= i < |kept| && base == kept[i] ==> RowLog(table, ws, base) == [ws[i]]
  {
    hide Base, ValidTupleOf, Ascending, RowLog;
    if ws == [] {
      NoWrites(table, ws, base);
    } else {
      var n := |ws| - 1;
      var kept' := kept[..n];
      LastOnce(kept);
      OneWrite(table, ws[..n], kept', base);
      RowLogLast(table, ws, base);
      assert forall i :: 0 <= i < n ==> kept[i] in kept' && kept'[i] == kept[i];
    }
  }

  lemma NoWrites(table: Table, ws: seq<Write>, base: seq<byte>)
    requires ws == []
    ensures RowLog(table, ws, base) == []
  {
  }

  lemma RowLogLast(table: Table, ws: seq<Write>, base: seq<byte>)
    requires ws != [] && forall w :: w in ws ==> ValidTupleOf(table, w.tuple)
    ensures
      var last := ws[|ws| - 1];
      RowLog(table, ws, base) ==
        RowLog(table, ws[..|ws| - 1], base) + if Base(table, last.tuple) == base then [last] else []
  {
  }

  lemma LastOnce(ids: seq<seq<byte>>)
    requires Ascending(ids) && ids != []
    ensures Ascending(ids[..|ids| - 1]) && ids[|ids| - 1] !in ids[..|ids| - 1]
  {
    hide Cmp;
    CmpSelf(ids[|ids| - 1]);
  }

  /** No reading of the clock is behind the log or reaches TS_LIMIT. */
  ghost predicate Clock(log: seq<Write>, now: nat -> nat) {
    && (forall i: nat :: now(i) < TS_LIMIT)
    && (forall i: nat, w :: w in log ==> w.ts <= now(i))
  }

  /** One more write of a row keeps its log in order and its sums within 64 bits. */
  lemma RowExtends(row: seq<Write>, w: Write)
    requires Chronological(row) && forall n :: 0 <= n <= |row| ==> IsI64(Total(row[..n]))
    requires (row != [] ==> row[|row| - 1].ts <= w.ts) && IsI64(Total(row) + w.freq)
    ensures Chronological(row + [w])
    ensures forall n :: 0 <= n <= |row + [w]| ==> IsI64(Total((row + [w])[..n]))
  {
    var more := row + [w];
    forall n | 0 <= n <= |more| ensures IsI64(Total(more[..n])) {
      if n == |more| {
        assert more[..n] == more && more[..|row|] == row;
      } else {
        assert more[..n] == row[..n];
      }
    }
  }

  /** A write that the log of its row can take. */
  ghost predicate Takes(table: Table, log: seq<Write>, w: Write, id: seq<byte>)
    requires ValidLog(table, log)
  {
    && ValidTupleOf(table, w.tuple) && Base(table, w.tuple) == id && w.ts < TS_LIMIT
    && (forall v :: v in log ==> v.ts <= w.ts)
    && IsI64(w.freq) && IsI64(Freq(table, log, id) + w.freq)
  }

  lemma RowTakes(table: Table, log: seq<Write>, w: Write, base: seq<byte>)
    requires ValidLog(table, log) && Takes(table, log, w, base)
    ensures
      var row := RowLog(table, log, base) + [w];
      Chronological(row) && forall n :: 0 <= n <= |row| ==> IsI64(Total(row[..n]))
  {
    hide Base, ValidTupleOf, Total, RowLog, Freq;
    var row := RowLog(table, log, base);
    FreqTotal(table, log, base);
    if row != [] { RowTuples(table, log, base, |row| - 1); }
    RowExtends(row, w);
  }

  /** Writes of different rows that the log takes one by one extend it to a valid log. */
  lemma WritesExtend(table: Table, log: seq<Write>, ws: seq<Write>, kept: seq<seq<byte>>)
    requires ValidLog(table, log) && |ws| == |kept| && Ascending(kept)
    requires forall i :: 0 <= i < |ws| ==> Takes(table, log, ws[i], kept[i])
    ensures ValidLog(table, log + ws)
  {
    hide Base, ValidTupleOf, Total, Ascending, RowLog, Freq, Chronological;
    var full := log + ws;
    forall base
      ensures Chronological(RowLog(table, full, base))
      ensures forall n :: 0 <= n <= |RowLog(table, full, base)| ==> IsI64(Total(RowLog(table, full, base)[..n]))
    {
      RowLogConcat(table, log, ws, base);
      OneWrite(table, ws, kept, base);
      if base in kept {
        var i :| 0 <= i < |kept| && kept[i] == base;
        RowTakes(table, log, ws[i], base);
      } else {
        assert RowLog(table, log, base) + [] == RowLog(table, log, base);
      }
    }
  }

  lemma FreqTotal(table: Table, log: seq<Write>, base: seq<byte>)
    requires ValidLog(table, log)
    ensures Freq(table, log, base) == Total(RowLog(table, log, base)) && IsI64(Freq(table, log, base))
  {
    hide Base;
    var row := RowLog(table, log, base);
    if row != [] {
      RowTuples(table, log, base, |row| - 1);
      AllBefore(row, TS_MAX);
    }
    assert row[..|row|] == row;
  }

  /** The rows of the snapshot carry the frequencies of the log. */
  lemma {:induction false} LiveFreqs(table: Table, log: seq<Write>, rows: seq<seq<byte>>)
    requires ValidLog(table, log)
    ensures
      var live, ids := LiveRows(table, log, rows, None, None, TS_MAX), LiveIds(table, log, rows);
      |live| == |ids| && forall i :: 0 <= i < |live| ==> live[i].1 == Freq(table, log, ids[i])
  {
    hide ValidTupleOf, InBounds, RowLog, ValidLog;
    if rows != [] { LiveFreqs(table, log, rows[1..]); }
  }

  /** The snapshot a DELETE works on: the live rows, with valid tuples and the log's frequencies. */
  lemma SnapshotFreqs(table: Table, log: seq<Write>, rows: seq<Row>)
    requires ValidLog(table, log) && SameRows(rows, LiveRows(table, log, RowsOf(table, log), None, None, TS_MAX))
    ensures
      var ids := LiveIds(table, log, RowsOf(table, log));
      |rows| == |ids| &&
      forall i :: 0 <= i < |rows| ==> ValidTupleOf(table, rows[i].0) && rows[i].1 == Freq(table, log, ids[i])
  {
    hide LiveRows, LiveIds, RowLog, ValidLog, Freq, ValidTuple;
    var all := RowsOf(table, log);
    var live := LiveRows(table, log, all, None, None, TS_MAX);
    LiveRowsIdentified(table, log, all);
    LiveFreqs(table, log, all);
    forall i | 0 <= i < |rows| ensures ValidTupleOf(table, rows[i].0) && rows[i].1 == live[i].1 {
      assert SameRow1(rows[i], live[i]);
      assert |CanonTuple(rows[i].0)| == |CanonTuple(live[i].0)|;
    }
  }

  /** Negating what was taken keeps every row's sum between zero and what it was. */
  lemma DeleteValid(table: Table, log: seq<Write>, rows: seq<Row>, ids: seq<seq<byte>>, pred: Tuple -> bool, n: int,
                    now: nat -> nat)
    requires ValidLog(table, log) && Clock(log, now) && Identified(table, rows, ids) && Ascending(ids)
    requires forall i :: 0 <= i < |rows| ==> ValidTupleOf(table, rows[i].0) && rows[i].1 == Freq(table, log, ids[i])
    requires forall i :: 0 <= i < |rows| ==> rows[i].1 != I64_MIN
    ensures ValidLog(table, log + Writes(Deleted(rows, pred, n), now))
  {
    hide ValidLog, Ascending, Freq, Base, ValidTupleOf, Limited, Filter, TakenIds;
    var taken, kept := Limited(Filter(rows, pred), n), TakenIds(rows, ids, pred, n);
    var ws := Writes(Negated(taken), now);
    LimitedFrom(rows, ids, pred, n);
    TakenIdsAscending(rows, ids, pred, n);
    forall i | 0 <= i < |ws| ensures Takes(table, log, ws[i], kept[i]) {
      assert TakenFromOne(rows, ids, taken[i], kept[i]);
      var j :| TakenFrom(rows, ids, j, taken[i], kept[i]);
      FreqTotal(table, log, ids[j]);
    }
    WritesExtend(table, log, ws, kept);
  }

  // ----- How many copies go

  ghost function FreqSum(table: Table, log: seq<Write>, ids: seq<seq<byte>>): (r: int)
    requires ValidLog(table, log)
  {
    if ids == [] then 0 else Freq(table, log, ids[0]) + FreqSum(table, log, ids[1..])
  }

  lemma {:induction false} FreqSumFalls(table: Table, log: seq<Write>, log': seq<Write>, rows: seq<Row>,
                                        ids: seq<seq<byte>>, pred: Tuple -> bool, n: int)
    requires ValidLog(table, log) && ValidLog(table, log') && |rows| == |ids|
    requires forall i :: 0 <= i < |rows| ==>
      Freq(table, log', ids[i]) == Freq(table, log, ids[i]) - TakenAt(rows, pred, n, i)
    ensures FreqSum(table, log', ids) == FreqSum(table, log, ids) - Copies(Limited(Filter(rows, pred), n))
    decreases |rows|
  {
    hide Freq, ValidLog;
    if rows != [] {
      var hit := pred(rows[0].0);
      if hit && (n <= 0 || rows[0].1 == 0) {
        FreqSumSame(table, log, log', ids);
      } else {
        var n' := if hit then n - rows[0].1 else n;
        forall i | 0 <= i < |rows| - 1
          ensures Freq(table, log', ids[1..][i]) == Freq(table, log, ids[1..][i]) - TakenAt(rows[1..], pred, n', i)
        {
          assert ids[1..][i] == ids[i + 1] && TakenAt(rows, pred, n, i + 1) == TakenAt(rows[1..], pred, n', i);
        }
        FreqSumFalls(table, log, log', rows[1..], ids[1..], pred, n');
        if hit {
          assert Filter(rows, pred)[1..] == Filter(rows[1..], pred);
        } else {
          assert Filter(rows, pred) == Filter(rows[1..], pred);
        }
      }
    }
  }

  lemma {:induction false} FreqSumSame(table: Table, log: seq<Write>, log': seq<Write>, ids: seq<seq<byte>>)
    requires ValidLog(table, log) && ValidLog(table, log')
    requires forall i :: 0 <= i < |ids| ==> Freq(table, log', ids[i]) == Freq(table, log, ids[i])
    ensures FreqSum(table, log', ids) == FreqSum(table, log, ids)
  {
    hide Freq, ValidLog;
    if ids != [] { FreqSumSame(table, log, log', ids[1..]); }
  }

  /** A whole DELETE on the store: scan a snapshot, keep the matching rows up to the limit,
      negate and insert them. Afterwards every row has exactly the copies taken from it fewer, and
      min(n, matching copies) are gone in all. */
  method RunDelete(store: Store, table: Table, pred: Tuple -> bool, n: nat, now: nat -> nat, entries: seq<Entry>,
                   ghost log: seq<Write>)
    returns (rows: seq<Row>, ghost log': seq<Write>)
    requires StoredLog(table, store.db, log) && entries == RangeEntries(store.db, Lo(table, None), Hi(table, None))
    requires Clock(log, now) && forall base :: Freq(table, log, base) != I64_MIN
    modifies store
    ensures SameRows(rows, LiveRows(table, log, RowsOf(table, log), None, None, TS_MAX))
    ensures StoredLog(table, store.db, log')
    ensures
      var ids := LiveIds(table, log, RowsOf(table, log));
      |rows| == |ids|
      && (forall base :: base !in ids ==> Freq(table, log', base) == Freq(table, log, base))
      && (forall i :: 0 <= i < |rows| ==>
            Freq(table, log', ids[i]) == Freq(table, log, ids[i]) - TakenAt(rows, pred, n, i))
      && (Positive(rows) ==>
            FreqSum(table, log', ids) == FreqSum(table, log, ids) - Min(n, Copies(Filter(rows, pred))))
  {
    hide StoredLog, ValidLog, Lo, Hi, RangeEntries, LiveRows, SameRows, Freq, LiveIds, TakenAt, Limited, Filter;
    hide RowsOf, Writes, Negated;
    hide Clock, FreqSum, Copies, Ascending, Identified, Positive, ValidTupleOf;
    assert ValidLog(table, log) by { LogOfStored(table, store.db, log); }
    rows := RangeScanRows(table, store.db, None, None, TS_MAX, entries, log);
    ghost var ids := LiveIds(table, log, RowsOf(table, log));
    SnapshotIdentified(table, log, rows);
    SnapshotFreqs(table, log, rows);
    DeleteValid(table, log, rows, ids, pred, n, now);
    var deleted := Deleted(rows, pred, n);
    log' := log + Writes(deleted, now);
    var source := new RowSource(deleted);
    var iter := new PeekableIter(source);
    var _ := InsertAll(iter, store, table, now, log);
    forall base
      ensures base !in ids ==> Freq(table, log', base) == Freq(table, log, base)
      ensures forall i :: 0 <= i < |rows| && base == ids[i] ==>
        Freq(table, log', base) == Freq(table, log, base) - TakenAt(rows, pred, n, i)
    {
      DeleteEffect(table, log, rows, ids, pred, n, now, base);
    }
    FreqSumFalls(table, log, log', rows, ids, pred, n);
    if Positive(rows) { TakenTotal(rows, pred, n); }
  }

  lemma TakenTotal(rows: seq<Row>, pred: Tuple -> bool, n: nat)
    requires Positive(rows)
    ensures Copies(Limited(Filter(rows, pred), n)) == Min(n, Copies(Filter(rows, pred)))
  {
    DeleteTotal(rows, pred, n);
    NegateTotal(Limited(Filter(rows, pred), n));
  }

  lemma LogOfStored(table: Table, db: Db, log: seq<Write>)
    requires StoredLog(table, db, log)
    ensures ValidLog(table, log)
  {
  }
}
