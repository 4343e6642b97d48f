/** The limit executor, and exactly when it honours both its offset and its limit. */
module Limit {
  import opened Bytes
  import opened Rows

  /** A child executor: a fixed list of rows and how often it has been advanced. */
  class RowSource {
    const rows: seq<Row>
    var pos: nat

    constructor (rows: seq<Row>)
      ensures this.rows == rows && pos == 0
    {
      this.rows := rows;
      pos := 0;
    }

    method Advance()
      modifies this
      ensures pos == old(pos) + 1
      ensures Get() == if old(Rest()) == [] then None else Some(old(Rest())[0])
      ensures Rest() == if old(Rest()) == [] then [] else old(Rest())[1..]
    {
      pos := pos + 1;
    }

    function Get(): (r: Option<Row>)
      reads this
    {
      if 1 <= pos <= |rows| then Some(rows[pos - 1]) else None
    }

    /** The rows not yet advanced to. */
    ghost function Rest(): (r: seq<Row>)
      reads this
    {
      if pos <= |rows| then rows[pos..] else []
    }
  }

  // ----- What the code does

  function Min(a: int, b: int): (r: int) {
    if a < b then a else b
  }

  /** The part of the run that charges the limit; a frequency of zero ends it. */
  function Limited(rows: seq<Row>, limit: int): (r: seq<Row>)
    decreases |rows|
  {
    if limit <= 0 || rows == [] || rows[0].1 == 0 then []
    else [(rows[0].0, Min(rows[0].1, limit))] + Limited(rows[1..], limit - rows[0].1)
  }

  /** Everything the executor emits. */
  function LimitRun(rows: seq<Row>, offset: int, limit: int): (r: seq<Row>)
    decreases |rows|
  {
    if offset <= 0 then Limited(rows, limit)
    else if rows == [] then []
    else if offset - rows[0].1 < 0 then [(rows[0].0, rows[0].1 - offset)] + Limited(rows[1..], limit)
    else LimitRun(rows[1..], offset - rows[0].1, limit)
  }

  lemma LimitSteps(rows: seq<Row>, offset: int, limit: int)
    ensures offset <= 0 ==> LimitRun(rows, offset, limit) == Limited(rows, limit)
    ensures offset > 0 && rows == [] ==> LimitRun(rows, offset, limit) == []
    ensures offset > 0 && rows != [] && offset >= rows[0].1 ==>
      LimitRun(rows, offset, limit) == LimitRun(rows[1..], offset - rows[0].1, limit)
    ensures offset > 0 && rows != [] && offset < rows[0].1 ==>
      LimitRun(rows, offset, limit) == [(rows[0].0, rows[0].1 - offset)]
        + LimitRun(rows[1..], offset - rows[0].1, limit)
    ensures limit <= 0 || rows == [] || rows[0].1 == 0 ==> Limited(rows, limit) == []
    ensures !(limit <= 0 || rows == [] || rows[0].1 == 0) ==>
      Limited(rows, limit) == [(rows[0].0, Min(rows[0].1, limit))] + Limited(rows[1..], limit - rows[0].1)
  {
  }

  lemma PopFront(row: Row, rows: seq<Row>)
    ensures [row] + rows != [] && ([row] + rows)[0] == row && ([row] + rows)[1..] == rows
  {
  }

  class LimitExecutor {
    const source: RowSource
    var offsetRemaining: int
    var limitRemaining: int
    var currentFreq: int

    /** The rows still to come. */
    ghost function Pending(): (r: seq<Row>)
      reads this, source
    {
      LimitRun(source.Rest(), offsetRemaining, limitRemaining)
    }

    constructor (source: RowSource, offset: int, limit: int)
      requires source.pos == 0
      ensures this.source == source && Pending() == LimitRun(source.rows, offset, limit)
    {
      this.source := source;
      offsetRemaining, limitRemaining, currentFreq := offset, limit, 0;
    }

    method Advance()
      modifies this, source
      ensures old(Pending()) == [] ==> Get() == None
      ensures old(Pending()) != [] ==> Get() == Some(old(Pending())[0]) && Pending() == old(Pending())[1..]
    {
      hide LimitRun, Limited;
      var emitted := SkipOffset();
      if !emitted { TakeRow(); }
    }

    /** Uses up the offset. The copies of a row that reach beyond it are emitted at once. */
    method SkipOffset() returns (emitted: bool)
      modifies this, source
      ensures emitted ==> old(Pending()) != [] && Get() == Some(old(Pending())[0]) && Pending() == old(Pending())[1..]
      ensures !emitted ==> Pending() == old(Pending()) && (offsetRemaining <= 0 || source.Rest() == [])
    {
      hide LimitRun, Limited;
      while offsetRemaining > 0
        invariant Pending() == old(Pending())
        decreases |source.Rest()|
      {
        LimitSteps(source.Rest(), offsetRemaining, limitRemaining);
        source.Advance();
        var row := source.Get();
        if row.None? { break; }
        offsetRemaining := offsetRemaining - row.value.1;
        if offsetRemaining < 0 {
          currentFreq := -offsetRemaining;
          PopFront((row.value.0, currentFreq), Pending());
          return true;
        }
      }
      return false;
    }

    /** Takes one row and charges it to the limit. */
    method TakeRow()
      requires offsetRemaining <= 0 || source.Rest() == []
      modifies this, source
      ensures old(Pending()) == [] ==> Get() == None
      ensures old(Pending()) != [] ==> Get() == Some(old(Pending())[0]) && Pending() == old(Pending())[1..]
    {
      hide LimitRun, Limited;
      LimitSteps(source.Rest(), offsetRemaining, limitRemaining);
      if limitRemaining > 0 {
        source.Advance();
        var row := source.Get();
        if row.Some? {
          currentFreq := Min(row.value.1, limitRemaining);
          limitRemaining := limitRemaining - row.value.1;
          LimitSteps(source.Rest(), offsetRemaining, limitRemaining);
          PopFront((row.value.0, currentFreq), Pending());
          return;
        }
      }
      currentFreq := 0;
    }

    function Get(): (r: Option<Row>)
      reads this, source
    {
      if currentFreq != 0 && source.Get().Some? then Some((source.Get().value.0, currentFreq)) else None
    }
  }

  // ----- What OFFSET and LIMIT should do

  ghost predicate Positive(rows: seq<Row>) {
    forall i :: 0 <= i < |rows| ==> rows[i].1 > 0
  }

  /** All but the first `n` copies. */
  function Drop(rows: seq<Row>, n: int): (r: seq<Row>)
  {
    if n <= 0 || rows == [] then rows
    else if rows[0].1 <= n then Drop(rows[1..], n - rows[0].1)
    else [(rows[0].0, rows[0].1 - n)] + rows[1..]
  }

  /** The first `n` copies. */
  function Take(rows: seq<Row>, n: int): (r: seq<Row>)
    decreases |rows|
  {
    if n <= 0 || rows == [] then []
    else [(rows[0].0, Min(rows[0].1, n))] + Take(rows[1..], n - rows[0].1)
  }

  /** Skipping `n` copies ends between two tuples. */
  predicate OnBoundary(rows: seq<Row>, n: int)
  {
    n <= 0 || rows == [] || (rows[0].1 <= n && OnBoundary(rows[1..], n - rows[0].1))
  }

  lemma {:induction false} TotalPositive(rows: seq<Row>)
    requires Positive(rows)
    ensures Copies(rows) >= |rows|
  {
    if rows != [] { TotalPositive(rows[1..]); }
  }

  lemma {:induction false} LimitedIsTake(rows: seq<Row>, n: int)
    requires Positive(rows)
    ensures Limited(rows, n) == Take(rows, n)
  {
    if rows != [] { LimitedIsTake(rows[1..], n - rows[0].1); }
  }

  lemma {:induction false} TakeTotal(rows: seq<Row>, n: int)
    requires Positive(rows) && n >= 0
    ensures Copies(Take(rows, n)) == Min(n, Copies(rows)) && Positive(Take(rows, n))
  {
    TotalPositive(rows);
    if rows != [] && n > 0 {
      assert Take(rows, n)[1..] == Take(rows[1..], n - rows[0].1);
      if n - rows[0].1 >= 0 { TakeTotal(rows[1..], n - rows[0].1); } else { TotalPositive(rows[1..]); }
    }
  }

  lemma {:induction false} DropTotal(rows: seq<Row>, n: int)
    requires Positive(rows)
    ensures Positive(Drop(rows, n))
    ensures n >= 0 ==> Copies(Drop(rows, n)) == if Copies(rows) <= n then 0 else Copies(rows) - n
  {
    TotalPositive(rows);
    if rows != [] && n > 0 {
      if rows[0].1 <= n {
        DropTotal(rows[1..], n - rows[0].1);
      } else {
        TotalPositive(rows[1..]);
        assert Drop(rows, n)[1..] == rows[1..];
      }
    }
  }

  lemma {:induction false} DropInside(rows: seq<Row>, n: int)
    requires Positive(rows) && !OnBoundary(rows, n)
    ensures Drop(rows, n) != [] && Drop(rows, n)[0].1 > 0
  {
    if rows[0].1 <= n { DropInside(rows[1..], n - rows[0].1); }
  }

  lemma {:induction false} RunOnBoundary(rows: seq<Row>, offset: int, limit: int)
    requires Positive(rows) && OnBoundary(rows, offset)
    ensures LimitRun(rows, offset, limit) == Take(Drop(rows, offset), limit)
  {
    if offset <= 0 {
      LimitedIsTake(rows, limit);
    } else if rows != [] {
      RunOnBoundary(rows[1..], offset - rows[0].1, limit);
    }
  }

  /** A row split by the offset gets its leftover emitted free of charge. */
  lemma {:induction false} RunInside(rows: seq<Row>, offset: int, limit: int)
    requires Positive(rows) && !OnBoundary(rows, offset) && Drop(rows, offset) != []
    ensures LimitRun(rows, offset, limit) == [Drop(rows, offset)[0]] + Take(Drop(rows, offset)[1..], limit)
  {
    if rows[0].1 <= offset {
      RunInside(rows[1..], offset - rows[0].1, limit);
    } else {
      LimitedIsTake(rows[1..], limit);
      assert Drop(rows, offset)[1..] == rows[1..];
    }
  }

  /** OFFSET o LIMIT l returns copies o+1 to o+l if and only if the offset ends between two
      tuples or the limit does not bind. */
  lemma LimitExact(rows: seq<Row>, offset: int, limit: int)
    requires Positive(rows) && offset >= 0 && limit >= 0
    ensures LimitRun(rows, offset, limit) == Take(Drop(rows, offset), limit) <==>
      OnBoundary(rows, offset) || Copies(rows) <= offset + limit
  {
    if OnBoundary(rows, offset) {
      RunOnBoundary(rows, offset, limit);
    } else {
      var d := Drop(rows, offset);
      DropInside(rows, offset);
      RunInside(rows, offset, limit);
      DropTotal(rows, offset);
      FreeOfCharge(d, limit);
    }
  }

  lemma FreeOfCharge(d: seq<Row>, limit: int)
    requires Positive(d) && d != [] && limit >= 0
    ensures [d[0]] + Take(d[1..], limit) == Take(d, limit) <==> Copies(d) <= limit
  {
    hide Take;
    TotalPositive(d[1..]);
    if Copies(d) <= limit {
      TakeAll(d, limit);
      TakeAll(d[1..], limit);
      assert d == [d[0]] + d[1..];
    } else {
      TakeTotal(d, limit);
      TakeTotal(d[1..], limit);
      assert ([d[0]] + Take(d[1..], limit))[1..] == Take(d[1..], limit);
    }
  }

  lemma {:induction false} TakeAll(rows: seq<Row>, n: int)
    requires Positive(rows) && n >= Copies(rows)
    ensures Take(rows, n) == rows
  {
    TotalPositive(rows);
    if rows != [] {
      TotalPositive(rows[1..]);
      TakeAll(rows[1..], n - rows[0].1);
      assert rows == [rows[0]] + rows[1..];
    }
  }

  /** One tuple with frequency 3, OFFSET 1 LIMIT 1: two copies come back. */
  lemma LimitOvershoots(t: Tuple)
    ensures LimitRun([(t, 3)], 1, 1) == [(t, 2)] && Take(Drop([(t, 3)], 1), 1) == [(t, 1)]
  {
    assert [(t, 3)][1..] == [] && Drop([(t, 3)], 1) == [(t, 2)] && [(t, 2)][1..] == [];
  }
}
