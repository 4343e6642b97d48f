/** The sort executor: rows are serialised into one buffer and index pairs into it are sorted by their bytes. */
module SortExec {
  import opened Bags
  import opened Bytes
  import opened Varint
  import opened Datums
  import opened Rows
  import opened Exprs
  import opened Plans
  import opened PlanAlgebra

  // ----- A row as bytes

  function Keys(env: Env, ks: seq<SortKey>, t: Tuple): (r: Tuple)
    ensures |r| == |ks|
  {
    EvalAll(env, SortExprs(ks), t)
  }

  predicate ValidRow(env: Env, ks: seq<SortKey>, n: nat, row: Row) {
    |row.0| == n && ValidTuple(row.0) && IsI64(row.1) && ValidTuple(Keys(env, ks, row.0))
  }

  ghost predicate ValidRows(env: Env, ks: seq<SortKey>, n: nat, rows: seq<Row>) {
    forall i :: 0 <= i < |rows| ==> ValidRow(env, ks, n, rows[i])
  }

  /** The sort keys in their directions, then the whole row, then its frequency. */
  function Encode(env: Env, ks: seq<SortKey>, n: nat, row: Row): (r: seq<byte>)
    requires ValidRow(env, ks, n, row)
  {
    WriteTuple(Keys(env, ks, row.0), SortOrders(ks)) + (WriteTuple(row.0, Ascs(n)) + WriteSigned(row.1, Asc))
  }

  /** Skips the keys and reads the row back. */
  function Decode(k: nat, n: nat, slice: seq<byte>): (r: Option<Row>) {
    match ReadTuple(k, slice)
    case None => None
    case Some((_, rest)) =>
      match ReadTuple(n, rest)
      case None => None
      case Some((t, rest)) =>
        match ReadSigned(Asc, rest)
        case None => None
        case Some((freq, _)) => Some((t, freq))
  }

  /** Equal up to the representation of decimals. */
  ghost predicate SameRow(a: Row, b: Row) {
    a.1 == b.1 && CanonTuple(a.0) == CanonTuple(b.0)
  }

  lemma DecodeEncoded(env: Env, ks: seq<SortKey>, n: nat, row: Row)
    requires ValidRow(env, ks, n, row)
    ensures
      var r := Decode(|ks|, n, Encode(env, ks, n, row));
      r.Some? && |r.value.0| == n && SameRow(r.value, row)
  {
    hide WriteTuple, ReadTuple, WriteSigned, ReadSigned, CanonTuple, ValidTuple;
    var freq := WriteSigned(row.1, Asc);
    TupleRoundTrip(Keys(env, ks, row.0), SortOrders(ks), WriteTuple(row.0, Ascs(n)) + freq);
    TupleRoundTrip(row.0, Ascs(n), freq);
    SignedRoundTrip(row.1, Asc, []);
    assert freq + [] == freq;
  }

  // ----- Sorting byte strings

  ghost predicate SortedBytes(s: seq<seq<byte>>) {
    forall i, j :: 0 <= i < j < |s| ==> Cmp(s[i], s[j]) <= 0
  }

  lemma SortedTail(a: seq<seq<byte>>)
    requires SortedBytes(a) && a != []
    ensures SortedBytes(a[1..]) && a[..0] + a[0 + 1..] == a[1..] && a == [a[0]] + a[1..]
  {
    hide Cmp;
  }

  lemma HeadsEqual(a: seq<seq<byte>>, b: seq<seq<byte>>)
    requires SortedBytes(a) && SortedBytes(b) && a != [] && b != [] && multiset(a) == multiset(b)
    ensures a[0] == b[0]
  {
    hide Cmp;
    CutMultiset(a, 0);
    CutMultiset(b, 0);
    var i :| 0 <= i < |b| && b[i] == a[0];
    var j :| 0 <= j < |a| && a[j] == b[0];
    CmpAntisymmetric(a[0], b[0]);
    CmpSelf(a[0]);
    CmpSelf(b[0]);
    assert Cmp(b[0], b[i]) <= 0 && Cmp(a[0], a[j]) <= 0;
  }

  /** Sorted lists of the same byte strings are the same list. */
  lemma {:induction false} SortedUnique(a: seq<seq<byte>>, b: seq<seq<byte>>)
    requires SortedBytes(a) && SortedBytes(b) && multiset(a) == multiset(b)
    ensures a == b
  {
    hide *;
    SameSize(a, b);
    if a != [] {
      HeadsEqual(a, b);
      CutSame(a, 0, b, 0);
      SortedTail(a);
      SortedTail(b);
      SortedUnique(a[1..], b[1..]);
    }
  }

  // ----- What the executor returns

  ghost function EncodeAll(env: Env, ks: seq<SortKey>, n: nat, rows: seq<Row>): (r: seq<seq<byte>>)
    requires ValidRows(env, ks, n, rows)
    ensures |r| == |rows| && forall i :: 0 <= i < |rows| ==> r[i] == Encode(env, ks, n, rows[i])
  {
    seq(|rows|, i requires 0 <= i < |rows| => Encode(env, ks, n, rows[i]))
  }

  /** The environment of the plan semantics sorts by these bytes. */
  ghost predicate Encodes(env: Env, ks: seq<SortKey>, n: nat) {
    forall row :: ValidRow(env, ks, n, row) ==> SortBytes(env, ks, row) == Encode(env, ks, n, row)
  }

  /** The bytes the executor sorts by, as a function of the plan semantics. */
  function EncodedSort(keys: Tuple, orders: seq<SortOrder>, row: Row): (r: seq<byte>) {
    if |keys| == |orders| && ValidTuple(keys) && ValidTuple(row.0) && IsI64(row.1)
    then WriteTuple(keys, orders) + (WriteTuple(row.0, Ascs(|row.0|)) + WriteSigned(row.1, Asc)) else []
  }

  /** Every environment can be given these bytes to sort by. */
  lemma EncodesSome(env: Env, ks: seq<SortKey>, n: nat)
    ensures Encodes(env.(sortBytes := EncodedSort), ks, n)
  {
    hide WriteTuple, WriteSigned;
  }

  lemma {:induction false} InsertPermutes(env: Env, ks: seq<SortKey>, row: Row, rows: seq<Row>)
    ensures multiset(InsertRow(env, ks, row, rows)) == multiset(rows) + multiset{row}
  {
    hide SortBytes, Cmp;
    if !(rows == [] || Cmp(SortBytes(env, ks, row), SortBytes(env, ks, rows[0])) <= 0) {
      InsertPermutes(env, ks, row, rows[1..]);
      assert rows == [rows[0]] + rows[1..];
    }
  }

  /** Sorting only reorders. */
  lemma {:induction false} SortPermutes(env: Env, ks: seq<SortKey>, rows: seq<Row>)
    ensures multiset(SortRows(env, ks, rows)) == multiset(rows)
  {
    hide InsertRow;
    if rows != [] {
      SortPermutes(env, ks, rows[1..]);
      InsertPermutes(env, ks, rows[0], SortRows(env, ks, rows[1..]));
      assert rows == [rows[0]] + rows[1..];
    }
  }

  lemma ValidPermuted(env: Env, ks: seq<SortKey>, n: nat, a: seq<Row>, b: seq<Row>)
    requires ValidRows(env, ks, n, a) && multiset(a) == multiset(b)
    ensures ValidRows(env, ks, n, b)
  {
    hide ValidRow;
    forall i | 0 <= i < |b| ensures ValidRow(env, ks, n, b[i]) {
      assert b[i] in multiset(b);
      var j :| 0 <= j < |a| && a[j] == b[i];
    }
  }

  lemma {:induction false} EncodePermutes(env: Env, ks: seq<SortKey>, n: nat, a: seq<Row>, b: seq<Row>)
    requires ValidRows(env, ks, n, a) && ValidRows(env, ks, n, b) && multiset(a) == multiset(b)
    ensures multiset(EncodeAll(env, ks, n, a)) == multiset(EncodeAll(env, ks, n, b))
    decreases |a|
  {
    hide ValidRow, Encode, EncodeAll;
    SameSize(a, b);
    if a == [] {
      assert b == [];
    } else {
      CutMultiset(a, 0);
      var j :| 0 <= j < |b| && b[j] == a[0];
      CutSame(a, 0, b, j);
      EncodeCut(env, ks, n, a, 0);
      EncodeCut(env, ks, n, b, j);
      EncodePermutes(env, ks, n, a[..0] + a[0 + 1..], b[..j] + b[j + 1..]);
    }
  }

  lemma EncodeCut(env: Env, ks: seq<SortKey>, n: nat, rows: seq<Row>, j: nat)
    requires ValidRows(env, ks, n, rows) && j < |rows|
    ensures ValidRows(env, ks, n, rows[..j] + rows[j + 1..])
    ensures multiset(EncodeAll(env, ks, n, rows)) ==
      multiset(EncodeAll(env, ks, n, rows[..j] + rows[j + 1..])) + multiset{Encode(env, ks, n, rows[j])}
  {
    hide ValidRow, Encode;
    var rest := rows[..j] + rows[j + 1..];
    var all, cut := EncodeAll(env, ks, n, rows), EncodeAll(env, ks, n, rest);
    assert cut == all[..j] + all[j + 1..];
    CutMultiset(all, j);
  }

  /** Sorted, the rows' bytes are the one sorted list of those bytes. */
  lemma SortedEncodings(env: Env, ks: seq<SortKey>, n: nat, rows: seq<Row>)
    requires ValidRows(env, ks, n, rows) && Encodes(env, ks, n)
    ensures
      var s := SortRows(env, ks, rows);
      && multiset(s) == multiset(rows) && ValidRows(env, ks, n, s)
      && SortedBytes(EncodeAll(env, ks, n, s)) && multiset(EncodeAll(env, ks, n, s)) ==
        multiset(EncodeAll(env, ks, n, rows))
  {
    hide SortRows, ValidRow, Encode, Cmp, SortBytes;
    var s := SortRows(env, ks, rows);
    SortPermutes(env, ks, rows);
    ValidPermuted(env, ks, n, rows, s);
    SortSorted(env, ks, rows);
    EncodePermutes(env, ks, n, s, rows);
    var bs := EncodeAll(env, ks, n, s);
    forall i, j | 0 <= i < j < |bs| ensures Cmp(bs[i], bs[j]) <= 0 {
      assert ValidRow(env, ks, n, s[i]) && ValidRow(env, ks, n, s[j]);
    }
  }

  ghost predicate InBuffer(buffer: seq<byte>, idx: seq<(nat, nat)>) {
    forall i :: 0 <= i < |idx| ==> idx[i].0 <= idx[i].1 <= |buffer|
  }

  /** What the pairs delimit. */
  ghost function SlicesOf(buffer: seq<byte>, idx: seq<(nat, nat)>): (r: seq<seq<byte>>)
    requires InBuffer(buffer, idx)
    ensures |r| == |idx| && forall i :: 0 <= i < |idx| ==> r[i] == buffer[idx[i].0..idx[i].1]
  {
    seq(|idx|, i requires 0 <= i < |idx| => buffer[idx[i].0..idx[i].1])
  }

  ghost predicate Slices(buffer: seq<byte>, idx: seq<(nat, nat)>, bs: seq<seq<byte>>) {
    InBuffer(buffer, idx) && SlicesOf(buffer, idx) == bs
  }

  // ----- The executor

  /** Appends the codes of a tuple, datum by datum. */
  method AppendTuple(buffer: seq<byte>, t: Tuple, orders: seq<SortOrder>) returns (r: seq<byte>)
    requires |t| == |orders| && ValidTuple(t)
    ensures r == buffer + WriteTuple(t, orders)
  {
    hide WriteDatum;
    r := buffer;
    assert t[0..] == t && orders[0..] == orders;
    for i := 0 to |t|
      invariant r + WriteTuple(t[i..], orders[i..]) == buffer + WriteTuple(t, orders)
    {
      assert t[i..][0] == t[i] && orders[i..][0] == orders[i] && t[i..][1..] == t[i + 1..]
        && orders[i..][1..] == orders[i + 1..];
      ghost var before, rest := r, WriteTuple(t[i + 1..], orders[i + 1..]);
      assert WriteTuple(t[i..], orders[i..]) == WriteDatum(t[i], orders[i]) + rest;
      r := r + WriteDatum(t[i], orders[i]);
      assert before + (WriteDatum(t[i], orders[i]) + rest) == r + rest;
    }
    assert r + [] == r;
  }

  /** Serialises every row of the source and records where each one is. */
  method Ingest(env: Env, ks: seq<SortKey>, n: nat, rows: seq<Row>) returns (buffer: seq<byte>, idx: seq<(nat, nat)>)
    requires ValidRows(env, ks, n, rows)
    ensures Slices(buffer, idx, EncodeAll(env, ks, n, rows))
  {
    hide ValidTuple, WriteTuple, WriteSigned, EvalAll;
    buffer, idx := [], [];
    for i := 0 to |rows|
      invariant |idx| == i
      invariant forall j :: 0 <= j < i ==>
        idx[j].0 <= idx[j].1 <= |buffer| && buffer[idx[j].0..idx[j].1] == Encode(env, ks, n, rows[j])
    {
      ghost var before := buffer;
      var start := |buffer|;
      var (tuple, freq) := rows[i];
      assert ValidRow(env, ks, n, rows[i]);
      buffer := AppendTuple(buffer, Keys(env, ks, tuple), SortOrders(ks));
      buffer := AppendTuple(buffer, tuple, Ascs(n));
      buffer := buffer + WriteSigned(freq, Asc);
      idx := idx + [(start, |buffer|)];
      Appended(before, buffer, WriteTuple(Keys(env, ks, tuple), SortOrders(ks)), WriteTuple(tuple, Ascs(n)),
               WriteSigned(freq, Asc));
      forall j | 0 <= j < i ensures buffer[idx[j].0..idx[j].1] == before[idx[j].0..idx[j].1] {
        assert buffer[..|before|] == before;
      }
    }
  }

  lemma Appended(before: seq<byte>, after: seq<byte>, a: seq<byte>, b: seq<byte>, c: seq<byte>)
    requires after == before + a + b + c
    ensures after[..|before|] == before && after[|before|..|after|] == a + (b + c)
  {
  }

  /** Puts one pair before the first whose slice is larger. */
  method InsertPair(buffer: seq<byte>, idx: seq<(nat, nat)>, pair: (nat, nat)) returns (r: seq<(nat, nat)>)
    requires InBuffer(buffer, idx) && SortedBytes(SlicesOf(buffer, idx)) && pair.0 <= pair.1 <= |buffer|
    ensures InBuffer(buffer, r) && SortedBytes(SlicesOf(buffer, r))
    ensures multiset(SlicesOf(buffer, r)) == multiset(SlicesOf(buffer, idx)) + multiset{buffer[pair.0..pair.1]}
  {
    hide Cmp, SortedBytes;
    var slice := buffer[pair.0..pair.1];
    ghost var bs := SlicesOf(buffer, idx);
    var p := 0;
    while p < |idx| && Cmp(buffer[idx[p].0..idx[p].1], slice) <= 0
      invariant p <= |idx| && forall i :: 0 <= i < p ==> Cmp(bs[i], slice) <= 0
    {
      p := p + 1;
    }
    r := idx[..p] + [pair] + idx[p..];
    if p < |bs| { CmpAntisymmetric(bs[p], slice); }
    SortedInsert(bs, p, slice);
    SlicesInsert(buffer, idx, bs, p, pair);
    InsertMultiset(bs, p, slice);
  }

  lemma InsertMultiset(bs: seq<seq<byte>>, p: nat, x: seq<byte>)
    requires p <= |bs|
    ensures multiset(bs[..p] + [x] + bs[p..]) == multiset(bs) + multiset{x}
  {
    assert bs == bs[..p] + bs[p..];
  }

  lemma SortedConcat(a: seq<seq<byte>>, b: seq<seq<byte>>)
    requires SortedBytes(a) && SortedBytes(b)
    requires forall i, j :: 0 <= i < |a| && 0 <= j < |b| ==> Cmp(a[i], b[j]) <= 0
    ensures SortedBytes(a + b)
  {
    hide Cmp;
  }

  lemma SortedInsert(bs: seq<seq<byte>>, p: nat, x: seq<byte>)
    requires SortedBytes(bs) && p <= |bs| && (forall i :: 0 <= i < p ==> Cmp(bs[i], x) <= 0)
      && (p < |bs| ==> Cmp(x, bs[p]) <= 0)
    ensures SortedBytes(bs[..p] + [x] + bs[p..])
  {
    hide Cmp;
    var a, b := bs[..p], bs[p..];
    SortedConcat(a, [x]);
    var c := a + [x];
    forall i, j | 0 <= i < |c| && 0 <= j < |b| ensures Cmp(c[i], b[j]) <= 0 {
      assert b[j] == bs[p + j];
      if i < p {
        assert c[i] == bs[i];
      } else {
        assert c[i] == x;
        if j > 0 {
          assert Cmp(bs[p], bs[p + j]) <= 0;
          CmpTransitive(x, bs[p], bs[p + j]);
        }
      }
    }
    SortedConcat(c, b);
  }

  lemma SlicesInsert(buffer: seq<byte>, idx: seq<(nat, nat)>, bs: seq<seq<byte>>, p: nat, pair: (nat, nat))
    requires Slices(buffer, idx, bs) && p <= |idx| && pair.0 <= pair.1 <= |buffer|
    ensures Slices(buffer, idx[..p] + [pair] + idx[p..], bs[..p] + [buffer[pair.0..pair.1]] + bs[p..])
  {
  }

  /** Sorts the pairs by what they delimit. */
  method SortPairs(buffer: seq<byte>, idx: seq<(nat, nat)>) returns (r: seq<(nat, nat)>)
    requires InBuffer(buffer, idx)
    ensures InBuffer(buffer, r) && SortedBytes(SlicesOf(buffer, r))
    ensures multiset(SlicesOf(buffer, r)) == multiset(SlicesOf(buffer, idx))
  {
    hide Cmp;
    ghost var bs := SlicesOf(buffer, idx);
    r := [];
    for i := 0 to |idx|
      invariant InBuffer(buffer, r) && SortedBytes(SlicesOf(buffer, r))
        && multiset(SlicesOf(buffer, r)) == multiset(bs[..i])
    {
      assert bs[..i + 1] == bs[..i] + [bs[i]];
      r := InsertPair(buffer, r, idx[i]);
    }
    assert bs[..|idx|] == bs;
  }

  datatype Phase = Ready | Serving | Done

  class SortExecutor {
    const env: Env
    const sorts: seq<SortKey>
    const columns: nat
    /** Rows the child has not produced yet. */
    var source: seq<Row>
    var sortBuffer: seq<byte>
    var sortIndexes: seq<(nat, nat)>
    var phase: Phase
    var tupleBuffer: Tuple
    var freq: int
    /** The rows still to come, in their sorted order. */
    ghost var pending: seq<Row>

    ghost predicate Valid()
      reads this
    {
      && ValidRows(env, sorts, columns, pending) && Encodes(env, sorts, columns)
      && match phase
         case Ready => ValidRows(env, sorts, columns, source) && pending == SortRows(env, sorts, source)
         case Serving => Slices(sortBuffer, sortIndexes, EncodeAll(env, sorts, columns, pending))
         case Done => pending == []
    }

    constructor (env: Env, rows: seq<Row>, sorts: seq<SortKey>, columns: nat)
      requires ValidRows(env, sorts, columns, rows) && Encodes(env, sorts, columns)
      ensures Valid() && phase.Ready? && pending == SortRows(env, sorts, rows)
      ensures this.env == env && this.sorts == sorts && this.columns == columns
    {
      this.env, this.sorts, this.columns, source := env, sorts, columns, rows;
      sortBuffer, sortIndexes, phase, tupleBuffer, freq := [], [], Ready, [], 0;
      pending := SortRows(env, sorts, rows);
      SortedEncodings(env, sorts, columns, rows);
    }

    method Fill()
      requires Valid() && phase.Ready?
      modifies this
      ensures Valid() && phase.Serving? && pending == old(pending)
    {
      hide EncodeAll, ValidRows, SortRows, Encodes, SortedBytes, SlicesOf;
      var buffer, idx := Ingest(env, sorts, columns, source);
      idx := SortPairs(buffer, idx);
      SortedEncodings(env, sorts, columns, source);
      SortedUnique(SlicesOf(buffer, idx), EncodeAll(env, sorts, columns, pending));
      sortBuffer, sortIndexes, source, phase := buffer, idx, [], Serving;
    }

    /** Serves the next row, decoded from its slice. */
    method Advance()
      requires Valid() && !phase.Done?
      modifies this
      ensures Valid() && !phase.Ready? && (phase.Done? <==> old(pending) == [])
      ensures phase.Serving? ==>
        pending == old(pending)[1..] && Served(env, sorts, columns, old(pending)[0], (tupleBuffer, freq))
    {
      hide Encode, Decode, ValidRow, SortRows, Encodes, SameRow;
      if phase.Ready? { Fill(); }
      if sortIndexes != [] {
        var (start, end) := sortIndexes[0];
        sortIndexes := sortIndexes[1..];
        DecodeEncoded(env, sorts, columns, pending[0]);
        var row := Decode(|sorts|, columns, sortBuffer[start..end]);
        tupleBuffer, freq := row.value.0, row.value.1;
        pending := pending[1..];
      } else {
        sortBuffer, sortIndexes, phase := [], [], Done;
      }
    }
  }

  /** What is served for a row: an equal one, read back from the row's bytes. */
  ghost predicate Served(env: Env, ks: seq<SortKey>, n: nat, row: Row, out: Row) {
    ValidRow(env, ks, n, row) && SameRow(out, row) && Decode(|ks|, n, Encode(env, ks, n, row)) == Some(out)
  }

  /** Over a whole run: the rows sorted by their keys, and where those tie by the row itself. */
  method RunSort(env: Env, rows: seq<Row>, ks: seq<SortKey>, n: nat) returns (out: seq<Row>)
    requires ValidRows(env, ks, n, rows) && Encodes(env, ks, n)
    ensures
      var s := SortRows(env, ks, rows);
      && multiset(s) == multiset(rows) && |out| == |s|
      && forall i :: 0 <= i < |s| ==> Served(env, ks, n, s[i], out[i])
  {
    hide *;
    ghost var s := SortRows(env, ks, rows);
    SortPermutes(env, ks, rows);
    var exec := new SortExecutor(env, rows, ks, n);
    out := [];
    assert s[0..] == s;
    exec.Advance();
    while !exec.phase.Done?
      invariant exec.Valid() && !exec.phase.Ready? && exec.env == env && exec.sorts == ks && exec.columns == n
      invariant |out| <= |s|
      invariant if exec.phase.Done? then |out| == |s| else
        |out| < |s| && exec.pending == s[|out| + 1..] && Served(env, ks, n, s[|out|], (exec.tupleBuffer, exec.freq))
      invariant forall i :: 0 <= i < |out| ==> Served(env, ks, n, s[i], out[i])
      decreases |s| - |out|, !exec.phase.Done?
    {
      out := out + [(exec.tupleBuffer, exec.freq)];
      exec.Advance();
    }
  }

  /** The output depends only on the bag of encoded rows, not on the order they came in or how equal decimals were
      written. */
  lemma SortDeterministic(env: Env, ks: seq<SortKey>, n: nat, a: seq<Row>, b: seq<Row>)
    requires ValidRows(env, ks, n, a) && ValidRows(env, ks, n, b) && Encodes(env, ks, n)
    requires multiset(EncodeAll(env, ks, n, a)) == multiset(EncodeAll(env, ks, n, b))
    ensures
      var s, t := SortRows(env, ks, a), SortRows(env, ks, b);
      && |s| == |t| && ValidRows(env, ks, n, s) && ValidRows(env, ks, n, t)
      && forall i :: 0 <= i < |s| ==> Encode(env, ks, n, s[i]) == Encode(env, ks, n, t[i])
  {
    hide Encode, ValidRow, SortRows, Encodes, SortedBytes;
    SortedEncodings(env, ks, n, a);
    SortedEncodings(env, ks, n, b);
    var s, t := EncodeAll(env, ks, n, SortRows(env, ks, a)), EncodeAll(env, ks, n, SortRows(env, ks, b));
    SortedUnique(s, t);
    assert forall i :: 0 <= i < |s| ==> s[i] == t[i];
  }

  /** Sorted by bytes is sorted by the sort expressions, column by column and in their directions. */
  lemma SortedByKeys(env: Env, ks: seq<SortKey>, n: nat, rows: seq<Row>, i: nat, j: nat)
    requires ValidRows(env, ks, n, rows) && Encodes(env, ks, n) && i < j < |rows|
    ensures
      var s := SortRows(env, ks, rows);
      && |s| == |rows| && ValidRow(env, ks, n, s[i]) && ValidRow(env, ks, n, s[j])
      && TupleCmp(Keys(env, ks, s[i].0), Keys(env, ks, s[j].0), SortOrders(ks)) <= 0
  {
    hide SortRows, Encodes, WriteTuple, ValidTuple, TupleCmp, Cmp, EvalAll;
    var s := SortRows(env, ks, rows);
    SortedEncodings(env, ks, n, rows);
    SameSize(s, rows);
    assert Cmp(EncodeAll(env, ks, n, s)[i], EncodeAll(env, ks, n, s)[j]) <= 0;
    assert ValidRow(env, ks, n, s[i]) && ValidRow(env, ks, n, s[j]);
    TupleOrder(Keys(env, ks, s[i].0), Keys(env, ks, s[j].0), SortOrders(ks),
               WriteTuple(s[i].0, Ascs(n)) + WriteSigned(s[i].1, Asc),
               WriteTuple(s[j].0, Ascs(n)) + WriteSigned(s[j].1, Asc));
  }
}
