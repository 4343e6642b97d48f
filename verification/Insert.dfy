/** Peekable iteration and the chunked insert built on it. */
module Insert {
  import opened Bytes
  import opened Rows
  import opened TableKeys
  import opened Mvcc
  import opened DeltaLog
  import opened Limit

  class PeekableIter {
    const inner: RowSource
    var advanced: bool

    /** The inner iterator is advanced at most once past its last row, and then stays put. */
    ghost predicate Valid()
      reads this, inner
    {
      && inner.pos <= |inner.rows| + 1
      && (advanced ==> inner.pos >= 1)
      && (inner.pos == |inner.rows| + 1 ==> advanced)
    }

    /** The rows that `Next` has not returned yet. */
    ghost function Remaining(): (r: seq<Row>)
      requires Valid()
      reads this, inner
    {
      inner.rows[if advanced then inner.pos - 1 else inner.pos..]
    }

    constructor (inner: RowSource)
      requires inner.pos == 0
      ensures this.inner == inner && Valid() && Remaining() == inner.rows
    {
      this.inner := inner;
      advanced := false;
    }

    method Next() returns (r: Option<Row>)
      requires Valid()
      modifies this, inner
      ensures Valid()
      ensures r == if old(Remaining()) == [] then None else Some(old(Remaining())[0])
      ensures Remaining() == if old(Remaining()) == [] then [] else old(Remaining())[1..]
    {
      if !advanced { inner.Advance(); }
      r := inner.Get();
      advanced := r.None?;
    }

    method Peek() returns (r: Option<Row>)
      requires Valid()
      modifies this, inner
      ensures Valid() && advanced
      ensures r == if old(Remaining()) == [] then None else Some(old(Remaining())[0])
      ensures Remaining() == old(Remaining())
    {
      if !advanced {
        inner.Advance();
        advanced := true;
      }
      r := inner.Get();
    }

    /** After peeking at a row, behaves as if `Next` had returned it. */
    method LockIn()
      requires Valid() && advanced && Remaining() != []
      modifies this
      ensures Valid() && Remaining() == old(Remaining())[1..]
    {
      advanced := false;
    }
  }

  // ----- Inserting

  const CHUNK := 10000

  /** The writes that inserting `rows` makes, the clock reading `now(i)` at the i-th. */
  function Writes(rows: seq<Row>, now: nat -> nat): (r: seq<Write>)
    ensures |r| == |rows|
    ensures forall i :: 0 <= i < |rows| ==> r[i] == Write(rows[i].0, now(i), rows[i].1)
  {
    seq(|rows|, i requires 0 <= i < |rows| => Write(rows[i].0, now(i), rows[i].1))
  }

  lemma {:induction false} ValidPrefixes(table: Table, log: seq<Write>, n: nat)
    requires ValidLog(table, log) && n <= |log|
    ensures ValidLog(table, log[..n])
    decreases |log| - n
  {
    hide ValidLog;
    if n == |log| {
      assert log[..n] == log;
    } else {
      ValidPrefixes(table, log, n + 1);
      ValidPrefix(table, log[..n + 1]);
      assert log[..n + 1][..n] == log[..n];
    }
  }

  ghost function Sum(s: seq<nat>): (r: nat) {
    if s == [] then 0 else Sum(s[..|s| - 1]) + s[|s| - 1]
  }

  /** The next write of a log is one the store accepts, and extends its versions as specified. */
  lemma StepValid(table: Table, log: seq<Write>, k: nat)
    requires ValidLog(table, log) && k < |log|
    ensures ValidLog(table, log[..k]) && ValidLog(table, log[..k + 1])
    ensures CanWrite(table, VersionsOf(table, log[..k]), log[k].tuple, log[k].ts, log[k].freq)
    ensures
      var vers := VersionsOf(table, log[..k]);
      var base := Base(table, log[k].tuple);
      VersionsOf(table, log[..k + 1]) ==
        vers[base := Push(VersionsAt(vers, base), log[k].tuple, log[k].ts, log[k].freq)]
  {
    hide Base, Push, CanWrite;
    ValidPrefixes(table, log, k);
    ValidPrefixes(table, log, k + 1);
    assert log[..k + 1][..k] == log[..k];
    ValidNext(table, log[..k + 1]);
  }

  /** Writing the k-th entry of a log takes the store from its first k entries to k + 1. */
  method WriteNext(store: Store, table: Table, row: Row, ts: nat, ghost full: seq<Write>, ghost k: nat)
    requires ValidLog(table, full) && k < |full| && full[k] == Write(row.0, ts, row.1)
    requires StoredLog(table, store.db, full[..k])
    modifies store
    ensures StoredLog(table, store.db, full[..k + 1])
  {
    hide Stored, VersionsOf, CanWrite;
    StepValid(table, full, k);
    store.WriteTuple(table, row.0, ts, row.1, VersionsOf(table, full[..k]));
  }

  /** After its first `n` entries the log holds the writes of `rows`. */
  ghost predicate Continues(full: seq<Write>, n: nat, rows: seq<Row>, now: nat -> nat) {
    |full| == n + |rows| && forall i :: 0 <= i < |rows| ==> full[n + i] == Write(rows[i].0, now(i), rows[i].1)
  }

  lemma ContinuesAt(full: seq<Write>, n: nat, rows: seq<Row>, now: nat -> nat, i: nat)
    requires Continues(full, n, rows, now) && i < |rows|
    ensures n + i < |full| == n + |rows| && full[n + i] == Write(rows[i].0, now(i), rows[i].1)
  {
  }

  lemma SkipMore(rows: seq<Row>, k: nat)
    requires k <= |rows|
    ensures rows[k..] == [] <==> k == |rows|
    ensures k < |rows| ==> rows[k..][0] == rows[k] && rows[k..][1..] == rows[k + 1..]
  {
  }

  lemma ChunkSize()
    ensures CHUNK == 10000
  {
  }

  /** One batch: at most CHUNK rows, at least one when there are any. */
  method InsertChunk(iter: PeekableIter, store: Store, table: Table, now: nat -> nat, first: nat,
                     ghost rows: seq<Row>, ghost n: nat, ghost full: seq<Write>) returns (count: nat)
    requires iter.Valid() && first < |rows| && iter.Remaining() == rows[first..]
    requires ValidLog(table, full) && Continues(full, n, rows, now)
    requires StoredLog(table, store.db, full[..n + first])
    modifies iter, iter.inner, store
    ensures iter.Valid() && 0 < count <= CHUNK && first + count <= |rows| && iter.Remaining() == rows[first + count..]
    ensures StoredLog(table, store.db, full[..n + first + count])
  {
    hide *;
    ChunkSize();
    ContinuesAt(full, n, rows, now, first);
    var c := CHUNK;
    count := 0;
    while true
      invariant iter.Valid() && first + count <= |rows| && iter.Remaining() == rows[first + count..]
      invariant 0 < c <= CHUNK && count == CHUNK - c
      invariant StoredLog(table, store.db, full[..n + first + count])
      decreases c
    {
      SkipMore(rows, first + count);
      var next := iter.Next();
      if next.None? { break; }
      ContinuesAt(full, n, rows, now, first + count);
      WriteNext(store, table, next.value, now(first + count), full, n + first + count);
      count := count + 1;
      c := c - 1;
      if c == 0 { break; }
    }
  }

  /** `TableInsertExecutor::advance`: batches of at most CHUNK rows until the source is empty.
      Every row is written exactly once, in order, and the source is not advanced after its end. */
  method InsertAll(iter: PeekableIter, store: Store, table: Table, now: nat -> nat, ghost log: seq<Write>)
    returns (batches: seq<nat>)
    requires iter.Valid() && StoredLog(table, store.db, log)
    requires ValidLog(table, log + Writes(iter.Remaining(), now))
    modifies iter, iter.inner, store
    ensures iter.Valid() && iter.Remaining() == []
    ensures StoredLog(table, store.db, log + Writes(old(iter.Remaining()), now))
    ensures forall b :: 0 <= b < |batches| ==> 0 < batches[b] <= CHUNK
    ensures Sum(batches) == |old(iter.Remaining())|
  {
    hide *;
    ghost var rows := iter.Remaining();
    ghost var full, n := log + Writes(rows, now), |log|;
    batches := [];
    SumNothing();
    var i := 0;
    assert full[..n] == log;
    assert Continues(full, n, rows, now) by { LogContinues(log, rows, now); }
    while true
      invariant iter.Valid() && 0 <= i <= |rows| && iter.Remaining() == rows[i..] && Sum(batches) == i
      invariant StoredLog(table, store.db, full[..n + i])
      invariant forall b :: 0 <= b < |batches| ==> 0 < batches[b] <= CHUNK
      decreases |rows| - i
    {
      var peeked := iter.Peek();
      if peeked.None? { break; }
      var count := InsertChunk(iter, store, table, now, i, rows, n, full);
      SumPush(batches, count);
      batches := batches + [count];
      i := i + count;
    }
    assert i == |rows| && full[..n + i] == full;
  }

  lemma LogContinues(log: seq<Write>, rows: seq<Row>, now: nat -> nat)
    ensures Continues(log + Writes(rows, now), |log|, rows, now)
  {
  }

  lemma SumNothing()
    ensures Sum([]) == 0
  {
  }

  lemma SumPush(s: seq<nat>, x: nat)
    ensures Sum(s + [x]) == Sum(s) + x
  {
    assert (s + [x])[..|s|] == s;
  }
}
