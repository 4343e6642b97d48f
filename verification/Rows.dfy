/** Tuples with a frequency: what every executor consumes and produces. */
module Rows {
  import opened Datums

  type Tuple = seq<Datum>

  /** A tuple and how many times it occurs; negative for retractions. */
  type Row = (Tuple, int)

  ghost predicate Width(rows: seq<Row>, n: nat) {
    forall i :: 0 <= i < |rows| ==> |rows[i].0| == n
  }

  function Nulls(n: nat): (r: Tuple)
    ensures |r| == n
  {
    seq(n, _ => Null)
  }

  /** How many tuples the rows stand for. */
  function Copies(rows: seq<Row>): (r: int) {
    if rows == [] then 0 else rows[0].1 + Copies(rows[1..])
  }

  lemma NoCopies()
    ensures Copies([]) == 0
  {
  }

  lemma {:induction false} CopiesConcat(a: seq<Row>, b: seq<Row>)
    ensures Copies(a + b) == Copies(a) + Copies(b)
  {
    if a == [] {
      assert a + b == b;
    } else {
      assert (a + b)[1..] == a[1..] + b;
      CopiesConcat(a[1..], b);
    }
  }

  lemma CopiesPush(rows: seq<Row>, row: Row)
    ensures Copies(rows + [row]) == Copies(rows) + row.1
  {
    CopiesConcat(rows, [row]);
    assert [row][1..] == [];
  }

  /** The rows taken back. */
  function Negated(rows: seq<Row>): (r: seq<Row>)
    ensures |r| == |rows| && forall i :: 0 <= i < |rows| ==> r[i] == (rows[i].0, -rows[i].1)
  {
    seq(|rows|, i requires 0 <= i < |rows| => (rows[i].0, -rows[i].1))
  }

  lemma {:induction false} NegateTotal(rows: seq<Row>)
    ensures Copies(Negated(rows)) == -Copies(rows)
  {
    if rows != [] {
      assert Negated(rows)[1..] == Negated(rows[1..]);
      NegateTotal(rows[1..]);
    }
  }

  datatype JoinType = Inner | LeftOuter
}
