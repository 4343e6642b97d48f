/** What the operators of a plan do with rows and their frequencies, counted independently of how they run. */
module PlanLaws {
  import opened Bags
  import opened Rows
  import opened Exprs
  import opened Plans
  import opened PlanAlgebra
  import opened Limit
  import SortExec

  /** A filter keeps every occurrence of the rows that pass, and no other row. */
  lemma {:induction false} FilterBag(env: Env, rows: seq<Row>, preds: seq<Expr>, row: Row)
    ensures multiset(Keep(env, rows, preds))[row] == if AllPass(env, preds, row.0) then multiset(rows)[row] else 0
  {
    hide AllPass;
    if rows != [] {
      FilterBag(env, rows[1..], preds, row);
      assert rows == [rows[0]] + rows[1..];
    }
  }

  lemma {:induction false} ProjectCopies(env: Env, es: seq<Expr>, rows: seq<Row>)
    ensures Copies(ProjectRows(env, es, rows)) == Copies(rows)
  {
    hide EvalAll;
    if rows != [] {
      assert ProjectRows(env, es, rows)[1..] == ProjectRows(env, es, rows[1..]);
      ProjectCopies(env, es, rows[1..]);
    }
  }

  function SumOf(parts: seq<seq<Row>>): (r: int) {
    if parts == [] then 0 else Copies(parts[0]) + SumOf(parts[1..])
  }

  lemma {:induction false} ConcatCopies(parts: seq<seq<Row>>)
    ensures Copies(Concat(parts)) == SumOf(parts)
  {
    hide Copies;
    if parts == [] {
      NoCopies();
    } else {
      CopiesConcat(parts[0], Concat(parts[1..]));
      ConcatCopies(parts[1..]);
    }
  }

  /** A union serves its parts in order. */
  lemma {:induction false} ConcatOrder(a: seq<seq<Row>>, b: seq<seq<Row>>)
    ensures Concat(a + b) == Concat(a) + Concat(b)
    ensures |a| == 1 ==> Concat(a) == a[0]
  {
    if a == [] {
      assert a + b == b;
    } else {
      assert (a + b)[1..] == a[1..] + b;
      ConcatOrder(a[1..], b);
    }
  }

  // ----- Joins

  /** A left row is matched with the right rows in their order. */
  lemma {:induction false} MatchOrder(env: Env, l: Row, a: seq<Row>, b: seq<Row>, on: Expr)
    ensures MatchRows(env, l, a + b, on) == MatchRows(env, l, a, on) + MatchRows(env, l, b, on)
  {
    hide Passes;
    if a == [] {
      assert a + b == b;
    } else {
      assert (a + b)[1..] == a[1..] + b;
      MatchOrder(env, l, a[1..], b, on);
    }
  }

  /** The left rows come in their order, whatever they match. */
  lemma {:induction false} JoinOrder(env: Env, a: seq<Row>, b: seq<Row>, right: seq<Row>, on: Expr,
                                     join: JoinType, n: nat)
    ensures JoinRows(env, a + b, right, on, join, n) ==
      JoinRows(env, a, right, on, join, n) + JoinRows(env, b, right, on, join, n)
  {
    hide MatchRows;
    if a == [] {
      assert a + b == b;
    } else {
      assert (a + b)[1..] == a[1..] + b;
      JoinOrder(env, a[1..], b, right, on, join, n);
    }
  }

  lemma {:induction false} MatchCopies(env: Env, l: Row, right: seq<Row>)
    ensures Copies(MatchRows(env, l, right, TRUE)) == l.1 * Copies(right)
  {
    if right != [] {
      var t := l.0 + right[0].0;
      MatchCopies(env, l, right[1..]);
      assert MatchRows(env, l, right, TRUE)[1..] == MatchRows(env, l, right[1..], TRUE);
    }
  }

  /** A join without a condition stands for every pair of tuples. */
  lemma {:induction false} CrossCopies(env: Env, left: seq<Row>, right: seq<Row>, n: nat)
    ensures Copies(JoinRows(env, left, right, TRUE, Inner, n)) == Copies(left) * Copies(right)
  {
    hide MatchRows;
    if left != [] {
      MatchCopies(env, left[0], right);
      CrossCopies(env, left[1..], right, n);
      CopiesConcat(MatchRows(env, left[0], right, TRUE), JoinRows(env, left[1..], right, TRUE, Inner, n));
      Distribute(left[0].1, Copies(left[1..]), Copies(right));
    }
  }

  lemma Distribute(a: int, b: int, c: int)
    ensures a * c + b * c == (a + b) * c
  {
  }

  ghost predicate Unmatched(env: Env, l: Row, right: seq<Row>, on: Expr) {
    forall j :: 0 <= j < |right| ==> !Passes(env, on, l.0 + right[j].0)
  }

  lemma {:induction false} UnmatchedRows(env: Env, l: Row, right: seq<Row>, on: Expr)
    ensures MatchRows(env, l, right, on) == [] <==> Unmatched(env, l, right, on)
  {
    hide Passes;
    if right != [] {
      UnmatchedRows(env, l, right[1..], on);
      assert Unmatched(env, l, right, on) <==>
        !Passes(env, on, l.0 + right[0].0) && Unmatched(env, l, right[1..], on) by {
        assert forall j :: 1 <= j < |right| ==> right[j] == right[1..][j - 1];
      }
    }
  }

  /** The left rows without a match, each with nulls for the right and its own frequency. */
  ghost function Padding(env: Env, left: seq<Row>, right: seq<Row>, on: Expr, n: nat): (r: seq<Row>) {
    if left == [] then []
    else
      (if Unmatched(env, left[0], right, on) then [(left[0].0 + Nulls(n), left[0].1)] else [])
      + Padding(env, left[1..], right, on, n)
  }

  /** A left outer join is the inner join and the padded left rows that match nothing. */
  lemma {:induction false} OuterBag(env: Env, left: seq<Row>, right: seq<Row>, on: Expr, n: nat)
    ensures multiset(JoinRows(env, left, right, on, LeftOuter, n)) ==
      multiset(JoinRows(env, left, right, on, Inner, n)) + multiset(Padding(env, left, right, on, n))
  {
    hide MatchRows, Unmatched;
    if left != [] {
      UnmatchedRows(env, left[0], right, on);
      OuterBag(env, left[1..], right, on, n);
    }
  }

  // ----- Plans

  /** Projecting and sorting keep the copies, negating turns them round, a union adds them up, and a join
      without a condition multiplies them. */
  lemma CopiesOfPlan(env: Env, op: Op)
    ensures op.Project? ==> Copies(Run(env, op)) == Copies(Run(env, op.source))
    ensures op.Sort? ==> multiset(Run(env, op)) == multiset(Run(env, op.source))
    ensures op.NegateFreq? ==> Copies(Run(env, op)) == -Copies(Run(env, op.source))
    ensures op.UnionAll? ==>
      Copies(Run(env, op)) == SumOf(seq(|op.sources|, i requires 0 <= i < |op.sources| => Run(env, op.sources[i])))
    ensures op.Join? && op.on == TRUE && op.joinType.Inner? ==>
      Copies(Run(env, op)) == Copies(Run(env, op.left)) * Copies(Run(env, op.right))
  {
    hide Copies, JoinRows, Concat, SortRows, ProjectRows, Negated, SumOf;
    match op
    case Project(exprs, source) => ProjectCopies(env, ExprsOf(exprs), Run(env, source));
    case Sort(sorts, source) => SortExec.SortPermutes(env, sorts, Run(env, source));
    case NegateFreq(source) => NegateTotal(Run(env, source));
    case UnionAll(sources) =>
      ConcatCopies(seq(|sources|, i requires 0 <= i < |sources| => Run(env, sources[i])));
    case Join(left, right, _, _) => CrossCopies(env, Run(env, left), Run(env, right), Cols(right));
    case _ =>
  }

  /** OFFSET and LIMIT: the copies after the first ones, and no more than asked for. */
  lemma LimitOfPlan(env: Env, offset: nat, limit: nat, source: Op)
    requires Positive(Run(env, source)) && OnBoundary(Run(env, source), offset)
    ensures
      var rows, all := Run(env, Plans.Limit(offset, limit, source)), Copies(Run(env, source));
      && rows == Take(Drop(Run(env, source), offset), limit)
      && Copies(rows) == if all <= offset then 0 else Min(limit, all - offset)
  {
    hide Take, Drop, Copies;
    var rows := Run(env, source);
    RunOnBoundary(rows, offset, limit);
    DropTotal(rows, offset);
    TakeTotal(Drop(rows, offset), limit);
  }

  /** Grouping: one row, counted once, for all rows or for each distinct key. */
  lemma GroupOfPlan(env: Env, op: Op)
    requires op.GroupBy?
    ensures op.keys == [] ==> |Run(env, op)| == 1
    ensures op.keys != [] ==> |Run(env, op)| == |Distinct(RowKeys(env, op.keys, Run(env, op.source)))|
    ensures forall i :: 0 <= i < |Run(env, op)| ==> Run(env, op)[i].1 == 1
  {
    hide EvalGroupAll, Select, Distinct, RowKeys;
    if op.keys != [] {
      var ks := RowKeys(env, op.keys, Run(env, op.source));
      SameSize(DrainOrder(env, op.id, ks), Distinct(ks));
    }
  }
}
