/** Laws of the row-list semantics: how filters move through the other operators. */
module PlanAlgebra {
  import opened Bytes
  import opened Rows
  import opened Exprs
  import opened Plans

  lemma {:induction false} KeepConcat(env: Env, a: seq<Row>, b: seq<Row>, preds: seq<Expr>)
    ensures Keep(env, a + b, preds) == Keep(env, a, preds) + Keep(env, b, preds)
  {
    hide AllPass;
    if a == [] {
      assert a + b == b;
    } else {
      assert (a + b)[1..] == a[1..] + b;
      KeepConcat(env, a[1..], b, preds);
    }
  }

  /** Predicates that agree on every row keep the same rows. */
  lemma {:induction false} KeepSame(env: Env, rows: seq<Row>, ps: seq<Expr>, qs: seq<Expr>)
    requires forall i :: 0 <= i < |rows| ==> (AllPass(env, ps, rows[i].0) <==> AllPass(env, qs, rows[i].0))
    ensures Keep(env, rows, ps) == Keep(env, rows, qs)
  {
    hide AllPass;
    if rows != [] { KeepSame(env, rows[1..], ps, qs); }
  }

  lemma {:induction false} KeepNone(env: Env, rows: seq<Row>, ps: seq<Expr>)
    requires forall i :: 0 <= i < |rows| ==> !AllPass(env, ps, rows[i].0)
    ensures Keep(env, rows, ps) == []
  {
    hide AllPass;
    if rows != [] { KeepNone(env, rows[1..], ps); }
  }

  ghost predicate KeepsAll(env: Env, rows: seq<Row>, ps: seq<Expr>) {
    forall i :: 0 <= i < |rows| ==> AllPass(env, ps, rows[i].0)
  }

  /** A filter changes nothing exactly when every row passes. */
  lemma {:induction false} KeepAll(env: Env, rows: seq<Row>, ps: seq<Expr>)
    ensures |Keep(env, rows, ps)| <= |rows|
    ensures Keep(env, rows, ps) == rows <==> KeepsAll(env, rows, ps)
  {
    hide AllPass;
    if rows != [] {
      KeepAll(env, rows[1..], ps);
      assert rows == [rows[0]] + rows[1..];
      if AllPass(env, ps, rows[0].0) {
        assert KeepsAll(env, rows, ps) <==> KeepsAll(env, rows[1..], ps) by {
          if KeepsAll(env, rows[1..], ps) {
            forall i | 0 <= i < |rows| ensures AllPass(env, ps, rows[i].0) {
              if i > 0 { assert rows[i] == rows[1..][i - 1]; }
            }
          }
        }
        assert ([rows[0]] + Keep(env, rows[1..], ps))[1..] == Keep(env, rows[1..], ps);
      }
    }
  }

  lemma KeepNothing(env: Env, rows: seq<Row>)
    ensures Keep(env, rows, []) == rows
  {
    KeepAll(env, rows, []);
  }

  lemma KeepConjuncts(env: Env, rows: seq<Row>, cond: Expr, n: nat)
    requires Scalar(cond, n)
    ensures AllScalar(Conjuncts(cond), n)
    ensures Keep(env, rows, Conjuncts(cond)) == Keep(env, rows, [cond])
  {
    ConjunctsMeaning(env, cond, n, []);
    forall i | 0 <= i < |rows| ensures AllPass(env, Conjuncts(cond), rows[i].0) <==> AllPass(env, [cond], rows[i].0) {
      ConjunctsMeaning(env, cond, n, rows[i].0);
      AllPassOne(env, cond, rows[i].0);
    }
    KeepSame(env, rows, Conjuncts(cond), [cond]);
  }

  lemma KeepCombined(env: Env, rows: seq<Row>, preds: seq<Expr>, n: nat)
    requires AllScalar(preds, n)
    ensures Scalar(Combine(preds), n)
    ensures Keep(env, rows, [Combine(preds)]) == Keep(env, rows, preds)
  {
    CombineMeaning(env, preds, n, []);
    forall i | 0 <= i < |rows| ensures AllPass(env, [Combine(preds)], rows[i].0) <==> AllPass(env, preds, rows[i].0) {
      CombineMeaning(env, preds, n, rows[i].0);
      AllPassOne(env, Combine(preds), rows[i].0);
    }
    KeepSame(env, rows, [Combine(preds)], preds);
  }

  // ----- Through project, negation and union

  lemma AllPassInlined(env: Env, preds: seq<Expr>, es: seq<Expr>, n: nat, t: Tuple)
    requires AllScalar(preds, |es|) && AllScalar(es, n)
    ensures AllPass(env, InlineAll(preds, es), t) <==> AllPass(env, preds, EvalAll(env, es, t))
    ensures AllScalar(InlineAll(preds, es), n)
  {
    var u := EvalAll(env, es, t);
    forall i | 0 <= i < |preds|
      ensures Passes(env, InlineAll(preds, es)[i], t) <==> Passes(env, preds[i], u)
      ensures Scalar(InlineAll(preds, es)[i], n)
    {
      EvalInline(env, preds[i], es, n, t);
    }
  }

  lemma {:induction false} KeepProject(env: Env, rows: seq<Row>, preds: seq<Expr>, es: seq<Expr>, n: nat)
    requires AllScalar(preds, |es|) && AllScalar(es, n)
    ensures Keep(env, ProjectRows(env, es, rows), preds) == ProjectRows(env, es, Keep(env, rows, InlineAll(preds, es)))
  {
    hide AllPass, Eval, EvalAll, InlineAll;
    if rows != [] {
      var qs := InlineAll(preds, es);
      KeepProject(env, rows[1..], preds, es, n);
      AllPassInlined(env, preds, es, n, rows[0].0);
      assert ProjectRows(env, es, rows)[1..] == ProjectRows(env, es, rows[1..]);
      assert ProjectRows(env, es, [rows[0]] + Keep(env, rows[1..], qs))
          == ProjectRows(env, es, [rows[0]]) + ProjectRows(env, es, Keep(env, rows[1..], qs));
    }
  }

  lemma {:induction false} KeepNegated(env: Env, rows: seq<Row>, preds: seq<Expr>)
    ensures Keep(env, Negated(rows), preds) == Negated(Keep(env, rows, preds))
  {
    hide AllPass;
    if rows != [] {
      KeepNegated(env, rows[1..], preds);
      assert Negated(rows)[1..] == Negated(rows[1..]);
      assert Negated([rows[0]] + Keep(env, rows[1..], preds)) ==
        Negated([rows[0]]) + Negated(Keep(env, rows[1..], preds));
    }
  }

  lemma {:induction false} KeepUnion(env: Env, parts: seq<seq<Row>>, kept: seq<seq<Row>>, preds: seq<Expr>)
    requires |kept| == |parts| && forall i :: 0 <= i < |parts| ==> kept[i] == Keep(env, parts[i], preds)
    ensures Keep(env, Concat(parts), preds) == Concat(kept)
  {
    hide Keep;
    if parts == [] {
      EmptyKeep(env, preds);
    } else {
      KeepConcat(env, parts[0], Concat(parts[1..]), preds);
      KeepUnion(env, parts[1..], kept[1..], preds);
    }
  }

  lemma EmptyKeep(env: Env, preds: seq<Expr>)
    ensures Keep(env, [], preds) == []
  {
  }

  // ----- Through sort

  ghost predicate Above(env: Env, ks: seq<SortKey>, row: Row, rows: seq<Row>) {
    forall i :: 0 <= i < |rows| ==> Cmp(SortBytes(env, ks, row), SortBytes(env, ks, rows[i])) <= 0
  }

  ghost predicate Sorted(env: Env, ks: seq<SortKey>, rows: seq<Row>) {
    forall i, j :: 0 <= i < j < |rows| ==> Cmp(SortBytes(env, ks, rows[i]), SortBytes(env, ks, rows[j])) <= 0
  }

  lemma {:induction false} InsertAbove(env: Env, ks: seq<SortKey>, row: Row, rows: seq<Row>, low: Row)
    requires Above(env, ks, low, rows) && Cmp(SortBytes(env, ks, low), SortBytes(env, ks, row)) <= 0
    ensures Above(env, ks, low, InsertRow(env, ks, row, rows))
  {
    hide SortBytes, Cmp;
    if rows != [] { InsertAbove(env, ks, row, rows[1..], low); }
  }

  lemma AboveAll(env: Env, ks: seq<SortKey>, row: Row, rows: seq<Row>)
    requires Sorted(env, ks, rows)
    requires rows != [] ==> Cmp(SortBytes(env, ks, row), SortBytes(env, ks, rows[0])) <= 0
    ensures Above(env, ks, row, rows)
  {
    hide SortBytes, Cmp;
    forall i | 0 <= i < |rows| ensures Cmp(SortBytes(env, ks, row), SortBytes(env, ks, rows[i])) <= 0 {
      if i > 0 { CmpTransitive(SortBytes(env, ks, row), SortBytes(env, ks, rows[0]), SortBytes(env, ks, rows[i])); }
    }
  }

  lemma SortedCons(env: Env, ks: seq<SortKey>, row: Row, rows: seq<Row>)
    requires Sorted(env, ks, rows) && Above(env, ks, row, rows)
    ensures Sorted(env, ks, [row] + rows)
  {
    hide SortBytes, Cmp;
  }

  lemma {:induction false} InsertSorted(env: Env, ks: seq<SortKey>, row: Row, rows: seq<Row>)
    requires Sorted(env, ks, rows)
    ensures Sorted(env, ks, InsertRow(env, ks, row, rows))
  {
    hide SortBytes, Cmp;
    if rows == [] || Cmp(SortBytes(env, ks, row), SortBytes(env, ks, rows[0])) <= 0 {
      AboveAll(env, ks, row, rows);
      SortedCons(env, ks, row, rows);
    } else {
      CmpAntisymmetric(SortBytes(env, ks, row), SortBytes(env, ks, rows[0]));
      InsertSorted(env, ks, row, rows[1..]);
      assert Above(env, ks, rows[0], rows[1..]);
      InsertAbove(env, ks, row, rows[1..], rows[0]);
      SortedCons(env, ks, rows[0], InsertRow(env, ks, row, rows[1..]));
    }
  }

  lemma {:induction false} SortSorted(env: Env, ks: seq<SortKey>, rows: seq<Row>)
    ensures Sorted(env, ks, SortRows(env, ks, rows))
  {
    if rows != [] {
      SortSorted(env, ks, rows[1..]);
      InsertSorted(env, ks, rows[0], SortRows(env, ks, rows[1..]));
    }
  }

  lemma {:induction false} KeepAbove(env: Env, ks: seq<SortKey>, row: Row, rows: seq<Row>, preds: seq<Expr>)
    requires Above(env, ks, row, rows)
    ensures Above(env, ks, row, Keep(env, rows, preds))
  {
    hide SortBytes, Cmp, AllPass;
    if rows != [] { KeepAbove(env, ks, row, rows[1..], preds); }
  }

  lemma InsertFirst(env: Env, ks: seq<SortKey>, row: Row, rows: seq<Row>)
    requires Above(env, ks, row, rows)
    ensures InsertRow(env, ks, row, rows) == [row] + rows
  {
    hide SortBytes, Cmp;
  }

  lemma {:induction false} KeepInsert(env: Env, ks: seq<SortKey>, row: Row, rows: seq<Row>, preds: seq<Expr>)
    requires Sorted(env, ks, rows)
    ensures Keep(env, InsertRow(env, ks, row, rows), preds) ==
      if AllPass(env, preds, row.0) then InsertRow(env, ks, row, Keep(env, rows, preds)) else Keep(env, rows, preds)
  {
    hide SortBytes, Cmp, AllPass;
    if rows == [] || Cmp(SortBytes(env, ks, row), SortBytes(env, ks, rows[0])) <= 0 {
      AboveAll(env, ks, row, rows);
      KeepAbove(env, ks, row, rows, preds);
      InsertFirst(env, ks, row, Keep(env, rows, preds));
      KeepHead(env, row, rows, preds);
    } else {
      KeepInsert(env, ks, row, rows[1..], preds);
      KeepHead(env, rows[0], InsertRow(env, ks, row, rows[1..]), preds);
      var kept := Keep(env, rows[1..], preds);
      if AllPass(env, preds, rows[0].0) {
        assert ([rows[0]] + kept)[0] == rows[0] && ([rows[0]] + kept)[1..] == kept;
      }
    }
  }

  lemma KeepHead(env: Env, row: Row, rows: seq<Row>, preds: seq<Expr>)
    ensures Keep(env, [row] + rows, preds) ==
      if AllPass(env, preds, row.0) then [row] + Keep(env, rows, preds) else Keep(env, rows, preds)
  {
    hide AllPass;
    assert ([row] + rows)[1..] == rows;
  }

  /** Filtering before or after a sort is the same. */
  lemma {:induction false} KeepSort(env: Env, ks: seq<SortKey>, rows: seq<Row>, preds: seq<Expr>)
    ensures Keep(env, SortRows(env, ks, rows), preds) == SortRows(env, ks, Keep(env, rows, preds))
  {
    hide InsertRow, AllPass;
    if rows != [] {
      KeepSort(env, ks, rows[1..], preds);
      SortSorted(env, ks, rows[1..]);
      KeepInsert(env, ks, rows[0], SortRows(env, ks, rows[1..]), preds);
      if AllPass(env, preds, rows[0].0) {
        assert ([rows[0]] + Keep(env, rows[1..], preds))[1..] == Keep(env, rows[1..], preds);
      }
    }
  }

  // ----- Through joins

  /** Filtering an inner join and its condition is the same as filtering its sides and a smaller condition. */
  ghost predicate SplitsInner(env: Env, m: nat, n: nat, preds: seq<Expr>, on: Expr, left: seq<Expr>, right: seq<Expr>,
                              kept: Expr) {
    forall l: Tuple, r: Tuple :: |l| == m && |r| == n ==>
      (AllPass(env, preds, l + r) && Passes(env, on, l + r)
       <==> AllPass(env, left, l) && AllPass(env, right, r) && Passes(env, kept, l + r))
  }

  lemma {:induction false} MatchInner(env: Env, l: Row, rows: seq<Row>, preds: seq<Expr>, on: Expr,
                                      left: seq<Expr>, right: seq<Expr>, kept: Expr, n: nat)
    requires SplitsInner(env, |l.0|, n, preds, on, left, right, kept) && Width(rows, n)
    ensures Keep(env, MatchRows(env, l, rows, on), preds) ==
      if AllPass(env, left, l.0) then MatchRows(env, l, Keep(env, rows, right), kept) else []
  {
    hide AllPass, Passes;
    if rows != [] {
      MatchInner(env, l, rows[1..], preds, on, left, right, kept, n);
      var r, t := rows[0], l.0 + rows[0].0;
      KeepHead(env, (t, r.1 * l.1), MatchRows(env, l, rows[1..], on), preds);
      var later := Keep(env, rows[1..], right);
      if AllPass(env, right, r.0) { assert ([r] + later)[1..] == later; }
    }
  }

  lemma {:induction false} JoinInner(env: Env, lefts: seq<Row>, rights: seq<Row>, preds: seq<Expr>, on: Expr,
                                     left: seq<Expr>, right: seq<Expr>, kept: Expr, m: nat, n: nat)
    requires SplitsInner(env, m, n, preds, on, left, right, kept) && Width(lefts, m) && Width(rights, n)
    ensures Keep(env, JoinRows(env, lefts, rights, on, Inner, n), preds)
         == JoinRows(env, Keep(env, lefts, left), Keep(env, rights, right), kept, Inner, n)
  {
    hide AllPass, Passes, SplitsInner;
    if lefts != [] {
      var l := lefts[0];
      JoinInner(env, lefts[1..], rights, preds, on, left, right, kept, m, n);
      MatchInner(env, l, rights, preds, on, left, right, kept, n);
      KeepConcat(env, MatchRows(env, l, rights, on), JoinRows(env, lefts[1..], rights, on, Inner, n), preds);
      var later := Keep(env, lefts[1..], left);
      if AllPass(env, left, l.0) { assert ([l] + later)[1..] == later; }
    } else {
      EmptyKeep(env, preds);
    }
  }

  /**
   * For an outer join: a left row that fails a pushed predicate contributes nothing anyway, and for
   * the others the condition splits and only the wrapping predicates are left to check.
   */
  ghost predicate SplitsOuter(env: Env, m: nat, n: nat, preds: seq<Expr>, on: Expr, left: seq<Expr>, right: seq<Expr>,
                              kept: Expr, wrap: seq<Expr>) {
    forall l: Tuple, r: Tuple :: |l| == m && |r| == n ==>
      if AllPass(env, left, l) then
        && (AllPass(env, preds, l + r) <==> AllPass(env, wrap, l + r))
        && (Passes(env, on, l + r) <==> AllPass(env, right, r) && Passes(env, kept, l + r))
      else !AllPass(env, preds, l + r)
  }

  lemma {:induction false} MatchOuter(env: Env, l: Row, rows: seq<Row>, preds: seq<Expr>, on: Expr,
                                      left: seq<Expr>, right: seq<Expr>, kept: Expr, wrap: seq<Expr>, n: nat)
    requires SplitsOuter(env, |l.0|, n, preds, on, left, right, kept, wrap) && Width(rows, n) && AllPass(env, left, l.0)
    ensures MatchRows(env, l, rows, on) == MatchRows(env, l, Keep(env, rows, right), kept)
  {
    hide AllPass, Passes;
    if rows != [] {
      MatchOuter(env, l, rows[1..], preds, on, left, right, kept, wrap, n);
      var r := rows[0];
      assert Passes(env, on, l.0 + r.0) <==> AllPass(env, right, r.0) && Passes(env, kept, l.0 + r.0);
      var later := Keep(env, rows[1..], right);
      if AllPass(env, right, r.0) { assert ([r] + later)[1..] == later; }
    }
  }

  /** Rows that all start with the left tuple. */
  ghost predicate Extends(l: Tuple, rows: seq<Row>, n: nat) {
    forall i :: 0 <= i < |rows| ==> |rows[i].0| == |l| + n && rows[i].0 == l + rows[i].0[|l|..]
  }

  lemma {:induction false} MatchExtends(env: Env, l: Row, rows: seq<Row>, on: Expr, n: nat)
    requires Width(rows, n)
    ensures Extends(l.0, MatchRows(env, l, rows, on), n)
  {
    hide Passes;
    if rows != [] {
      MatchExtends(env, l, rows[1..], on, n);
      assert (l.0 + rows[0].0)[|l.0|..] == rows[0].0;
    }
  }

  lemma PadExtends(l: Row, rows: seq<Row>, join: JoinType, n: nat)
    requires Extends(l.0, rows, n)
    ensures Extends(l.0, Padded(l, rows, join, n), n)
  {
    assert (l.0 + Nulls(n))[|l.0|..] == Nulls(n);
  }

  /** What one left row contributes, before and after the split. */
  lemma RowOuter(env: Env, l: Row, rights: seq<Row>, preds: seq<Expr>, on: Expr,
                 left: seq<Expr>, right: seq<Expr>, kept: Expr, wrap: seq<Expr>, n: nat)
    requires SplitsOuter(env, |l.0|, n, preds, on, left, right, kept, wrap) && Width(rights, n)
    ensures Keep(env, Padded(l, MatchRows(env, l, rights, on), LeftOuter, n), preds) ==
      if AllPass(env, left, l.0)
      then Keep(env, Padded(l, MatchRows(env, l, Keep(env, rights, right), kept), LeftOuter, n), wrap) else []
  {
    hide AllPass, Passes, MatchRows, Padded;
    var matched := MatchRows(env, l, rights, on);
    var rows := Padded(l, matched, LeftOuter, n);
    MatchExtends(env, l, rights, on, n);
    PadExtends(l, matched, LeftOuter, n);
    if AllPass(env, left, l.0) {
      MatchOuter(env, l, rights, preds, on, left, right, kept, wrap, n);
      forall i | 0 <= i < |rows| ensures AllPass(env, preds, rows[i].0) <==> AllPass(env, wrap, rows[i].0) {
        assert rows[i].0 == l.0 + rows[i].0[|l.0|..];
      }
      KeepSame(env, rows, preds, wrap);
    } else {
      forall i | 0 <= i < |rows| ensures !AllPass(env, preds, rows[i].0) {
        assert rows[i].0 == l.0 + rows[i].0[|l.0|..];
      }
      KeepNone(env, rows, preds);
    }
  }

  lemma {:induction false} JoinOuter(env: Env, lefts: seq<Row>, rights: seq<Row>, preds: seq<Expr>, on: Expr,
                                     left: seq<Expr>, right: seq<Expr>, kept: Expr, wrap: seq<Expr>, m: nat, n: nat)
    requires SplitsOuter(env, m, n, preds, on, left, right, kept, wrap) && Width(lefts, m) && Width(rights, n)
    ensures Keep(env, JoinRows(env, lefts, rights, on, LeftOuter, n), preds)
         == Keep(env, JoinRows(env, Keep(env, lefts, left), Keep(env, rights, right), kept, LeftOuter, n), wrap)
  {
    hide AllPass, Passes, SplitsOuter, MatchRows, Padded;
    if lefts != [] {
      var l := lefts[0];
      JoinOuter(env, lefts[1..], rights, preds, on, left, right, kept, wrap, m, n);
      RowOuter(env, l, rights, preds, on, left, right, kept, wrap, n);
      KeepConcat(env, Padded(l, MatchRows(env, l, rights, on), LeftOuter, n),
                 JoinRows(env, lefts[1..], rights, on, LeftOuter, n), preds);
      var later, rs := Keep(env, lefts[1..], left), Keep(env, rights, right);
      if AllPass(env, left, l.0) {
        assert ([l] + later)[1..] == later;
        KeepConcat(env, Padded(l, MatchRows(env, l, rs, kept), LeftOuter, n),
                   JoinRows(env, later, rs, kept, LeftOuter, n), wrap);
      }
    } else {
      EmptyKeep(env, preds);
      EmptyKeep(env, wrap);
    }
  }

  // ----- Replacing parts of a plan

  /** A part with the same columns and the same rows can stand in for another. */
  ghost predicate Same(env: Env, a: Op, b: Op) {
    WellFormed(env, b) && Names(b) == Names(a) && Run(env, b) == Run(env, a)
  }

  /** The part is sound and has the same columns, whatever its rows. */
  ghost predicate Fits(env: Env, a: Op, b: Op) {
    WellFormed(env, b) && Names(b) == Names(a)
  }

  predicate OneSource(op: Op) {
    op.Project? || op.GroupBy? || op.Filter? || op.Sort? || op.Limit? || op.TableAlias? || op.NegateFreq?
  }

  function WithSource(op: Op, s: Op): (r: Op) {
    match op
    case Project(exprs, _) => Project(exprs, s)
    case GroupBy(id, exprs, keys, _) => GroupBy(id, exprs, keys, s)
    case Filter(cond, _) => Filter(cond, s)
    case Sort(sorts, _) => Sort(sorts, s)
    case Limit(offset, limit, _) => Limit(offset, limit, s)
    case TableAlias(alias, _) => TableAlias(alias, s)
    case NegateFreq(_) => NegateFreq(s)
    case _ => op
  }

  lemma ReplaceSource(env: Env, op: Op, s: Op)
    requires OneSource(op) && WellFormed(env, op) && Fits(env, op.source, s)
    ensures Fits(env, op, WithSource(op, s))
    ensures Run(env, s) == Run(env, op.source) ==> Run(env, WithSource(op, s)) == Run(env, op)
  {
    hide Scalar, AllScalar, AllAggregating, Run;
    RunSource(env, op, s);
  }

  lemma RunSource(env: Env, op: Op, s: Op)
    requires OneSource(op)
    ensures Run(env, s) == Run(env, op.source) ==> Run(env, WithSource(op, s)) == Run(env, op)
  {
    hide Keep, EvalGroupAll, GroupRows, RowKeys, EvalAll, SortRows, Negated, ProjectRows;
  }

  lemma SourceFormed(env: Env, op: Op)
    requires OneSource(op) && WellFormed(env, op)
    ensures WellFormed(env, op.source)
  {
  }

  lemma UnionParts(env: Env, op: Op)
    requires op.UnionAll? && WellFormed(env, op)
    ensures forall i :: 0 <= i < |op.sources| ==> WellFormed(env, op.sources[i]) && Cols(op.sources[i]) == Cols(op)
  {
  }

  lemma ReplaceSources(env: Env, op: Op, sources: seq<Op>)
    requires op.UnionAll? && WellFormed(env, op) && |sources| == |op.sources|
    requires forall i :: 0 <= i < |sources| ==> Fits(env, op.sources[i], sources[i])
    ensures Fits(env, op, UnionAll(sources))
    ensures (forall i :: 0 <= i < |sources| ==> Run(env, sources[i]) == Run(env, op.sources[i]))
            ==> Run(env, UnionAll(sources)) == Run(env, op)
  {
    hide Run, Concat;
    UnionParts(env, op);
    forall i | 0 <= i < |sources| ensures WellFormed(env, sources[i]) && Cols(sources[i]) == Cols(sources[0]) {
      assert Fits(env, op.sources[i], sources[i]) && Fits(env, op.sources[0], sources[0]);
    }
    assert Fits(env, op.sources[0], sources[0]);
    if forall i :: 0 <= i < |sources| ==> Run(env, sources[i]) == Run(env, op.sources[i]) {
      var parts := seq(|sources|, i requires 0 <= i < |sources| => Run(env, sources[i]));
      UnionRun(env, sources, parts);
      UnionRun(env, op.sources, parts);
    }
  }

  lemma UnionRun(env: Env, sources: seq<Op>, parts: seq<seq<Row>>)
    requires |parts| == |sources| && forall i :: 0 <= i < |parts| ==> parts[i] == Run(env, sources[i])
    ensures Run(env, UnionAll(sources)) == Concat(parts)
  {
    assert seq(|sources|, i requires 0 <= i < |sources| => Run(env, sources[i])) == parts;
  }

  lemma JoinRun(env: Env, op: Op)
    requires op.Join?
    ensures Run(env, op) == JoinRows(env, Run(env, op.left), Run(env, op.right), op.on, op.joinType, Cols(op.right))
  {
    hide JoinRows;
  }

  lemma ProjectRun(env: Env, op: Op)
    requires op.Project?
    ensures Run(env, op) == ProjectRows(env, ExprsOf(op.exprs), Run(env, op.source))
    ensures Cols(op) == |op.exprs|
  {
    hide ProjectRows, ExprsOf;
  }

  lemma SidesFormed(env: Env, op: Op)
    requires op.Join? && WellFormed(env, op)
    ensures WellFormed(env, op.left) && WellFormed(env, op.right)
  {
  }

  lemma JoinSame(env: Env, op: Op, left: Op, right: Op)
    requires op.Join? && WellFormed(env, op) && Same(env, op.left, left) && Same(env, op.right, right)
    ensures Same(env, op, Join(left, right, op.on, op.joinType))
  {
    hide JoinRows;
  }
}
