/** Normalising every join of a plan: what it computes, and exactly when that is what was asked for. */
module NormalizePlans {
  import opened Bytes
  import opened Datums
  import opened Rows
  import opened Exprs
  import opened Plans
  import opened PlanAlgebra
  import opened NormalizeJoins
  import opened Physical
  import opened Lowering
  import FoldConstants
  import CollapseProjects

  /** The plan with every join's condition replaced by the one its normal form tests. */
  function ShiftResiduals(op: Op): (r: Op) {
    if OneSource(op) then WithSource(op, ShiftResiduals(op.source))
    else match op
      case Join(left, right, on, join) => Shifted(Join(ShiftResiduals(left), ShiftResiduals(right), on, join))
      case UnionAll(sources) => UnionAll(seq(|sources|, i requires 0 <= i < |sources| => ShiftResiduals(sources[i])))
      case _ => op
  }

  lemma WithSourceTwice(op: Op, a: Op, b: Op)
    requires OneSource(op)
    ensures OneSource(WithSource(op, a)) && WithSource(op, a).source == a
      && WithSource(WithSource(op, a), b) == WithSource(op, b)
  {
  }

  lemma ReplaceSides(env: Env, op: Op, left: Op, right: Op)
    requires op.Join? && WellFormed(env, op) && Fits(env, op.left, left) && Fits(env, op.right, right)
    ensures Fits(env, op, Join(left, right, op.on, op.joinType))
    ensures Shifted(Join(left, right, op.on, op.joinType)) == Join(left, right, Shifted(op).on, op.joinType)
  {
    hide Run, Scalar, Effective, Conjuncts, Combine;
  }

  lemma RunSides(env: Env, op: Op, left: Op, right: Op)
    requires op.Join? && Names(right) == Names(op.right) && Run(env, left) == Run(env, op.left)
      && Run(env, right) == Run(env, op.right)
    ensures Run(env, Join(left, right, op.on, op.joinType)) == Run(env, op)
  {
    hide Run, JoinRows, Names;
    JoinRun(env, op);
    JoinRun(env, Join(left, right, op.on, op.joinType));
  }

  lemma {:induction false} ShiftFits(env: Env, op: Op)
    requires WellFormed(env, op)
    ensures Fits(env, op, ShiftResiduals(op))
  {
    hide Run, Shifted, WellFormed, Names;
    if OneSource(op) {
      SourceFormed(env, op);
      ShiftFits(env, op.source);
      ReplaceSource(env, op, ShiftResiduals(op.source));
    } else if op.Join? {
      SidesFormed(env, op);
      ShiftFits(env, op.left);
      ShiftFits(env, op.right);
      ReplaceSides(env, op, ShiftResiduals(op.left), ShiftResiduals(op.right));
      InputsFormed(env, Join(ShiftResiduals(op.left), ShiftResiduals(op.right), op.on, op.joinType));
    } else if op.UnionAll? {
      UnionParts(env, op);
      forall i | 0 <= i < |op.sources| ensures Fits(env, op.sources[i], ShiftResiduals(op.sources[i])) {
        ShiftFits(env, op.sources[i]);
      }
      ReplaceSources(env, op, ShiftResiduals(op).sources);
    }
  }

  // ----- The normal form can be lowered

  /** No residual conjunct is an equality of two columns, and none reads where the right keys will be. */
  predicate JoinClear(op: Op)
    requires op.Join?
  {
    var conds, n := Conjuncts(op.on), Cols(op.left);
    var res, k := Residual(conds, n), |Equis(conds, n)|;
    forall i :: 0 <= i < |res| ==> !ColumnsEqual(res[i]) && Avoids(res[i], n + k, n + 2 * k)
  }

  predicate Clear(op: Op) {
    if OneSource(op) then Clear(op.source)
    else match op
      case Join(left, right, _, _) => JoinClear(op) && Clear(left) && Clear(right)
      case UnionAll(sources) => forall i :: 0 <= i < |sources| ==> Clear(sources[i])
      case _ => true
  }

  lemma {:induction false} HashSplit(keys: seq<Expr>, others: seq<Expr>)
    requires forall i :: 0 <= i < |keys| ==> ColumnsEqual(keys[i])
    requires forall i :: 0 <= i < |others| ==> !ColumnsEqual(others[i])
    ensures HashConds(keys + others) == keys && OtherConds(keys + others) == others
    decreases |keys| + |others|
  {
    hide ColumnsEqual;
    var all, m := keys + others, |keys| + |others| - 1;
    if others != [] {
      var less, last := others[..|others| - 1], others[|others| - 1];
      HashSplit(keys, less);
      assert all[..m] == keys + less && all[m] == last && others == less + [last];
    } else if keys != [] {
      HashSplit(keys[..m], others);
      assert all == keys && all[..m] == keys[..m] + others && keys == keys[..m] + [keys[m]];
    }
  }

  /** The keyed condition's parts are just the keys and the residual. */
  lemma KeyedParts(env: Env, op: Op)
    requires op.Join? && Scalar(op.on, Cols(op.left) + Cols(op.right)) && JoinClear(op)
    ensures
      var conds, n := Conjuncts(op.on), Cols(op.left);
      var on := Combine(KeyConds(Equis(conds, n), n) + Residual(conds, n));
      && HashConds(Conjuncts(on)) == KeyConds(Equis(conds, n), n)
      && OtherConds(Conjuncts(on)) == Residual(conds, n)
  {
    hide Scalar, Conjuncts, Combine, Equis, Residual, HashConds, OtherConds, Avoids, Names, MinMax, AsEqui, EquiConds;
    hide Reads;
    var conds, n, m := Conjuncts(op.on), Cols(op.left), Cols(op.right);
    var qs, res := Equis(conds, n), Residual(conds, n);
    ConjunctsMeaning(env, op.on, n + m, []);
    ConjunctsAtomic(op.on);
    ResidualAtomic(conds, n);
    forall i | 0 <= i < |qs| ensures ColumnsEqual(KeyConds(qs, n)[i]) && Atomic(KeyConds(qs, n)[i]) {
      EquiSides(env, conds, n, m, i);
    }
    HashSplit(KeyConds(qs, n), res);
    AtomicConcat(KeyConds(qs, n), res);
    CombineRoundTrip(KeyConds(qs, n) + res);
  }

  lemma AtomicConcat(a: seq<Expr>, b: seq<Expr>)
    requires AllAtomic(a) && AllAtomic(b)
    ensures AllAtomic(a + b)
  {
    hide Atomic;
  }

  lemma {:induction false} ResidualAtomic(conds: seq<Expr>, n: nat)
    requires AllAtomic(conds)
    ensures AllAtomic(Residual(conds, n))
  {
    hide AsEqui, Atomic;
    if conds != [] { ResidualAtomic(conds[..|conds| - 1], n); }
  }

  lemma DropAvoids(es: seq<Expr>, n: nat, k: nat)
    requires n <= |es| && InOrder(es[..n], k) && InOrder(es[n..], 2 * k + n)
    ensures AllAvoid(es, n + k, n + 2 * k)
  {
    forall i | 0 <= i < |es| ensures Avoids(es[i], n + k, n + 2 * k) {
      if i < n { assert es[i] == es[..n][i]; } else { assert es[i] == es[n..][i - n]; }
    }
  }

  lemma KeyedHashable(env: Env, op: Op)
    requires op.Join? && Scalar(op.on, Cols(op.left) + Cols(op.right)) && JoinClear(op)
    ensures Hashable(KeyedJoin(op).on, Cols(LeftInput(op)), Cols(RightInput(op)))
    ensures HashLen(KeyedJoin(op).on) == KeyCount(op)
  {
    hide Scalar, Conjuncts, Combine, Equis, Residual, HashConds, OtherConds, Avoids, Names, LeftInput, RightInput;
    hide ColumnsEqual, AsEqui;
    KeyedParts(env, op);
    KeyedWidths(op);
  }

  lemma NormalFormReady(env: Env, op: Op)
    requires op.Join? && WellFormed(env, op) && JoinClear(op)
    requires Ready(env, op.left) && Ready(env, op.right) && !op.left.Join? && !op.right.Join?
    ensures Ready(env, NormalForm(op))
  {
    hide Run, Scalar, Hashable, HashAgrees, HashLen, AllAvoid, Conjuncts, Combine, Equis, Identity, KeyNamed, Dropped;
    hide InOrder, KeyCount, Names,
         MoveAll, KeyConds, Residual, JoinClear;
    var n, k := Cols(op.left), KeyCount(op);
    assert Scalar(op.on, Cols(op.left) + Cols(op.right));
    KeyedHashable(env, op);
    InputsFormed(env, op);
    HashableAgrees(env, KeyedJoin(op).on, Cols(LeftInput(op)), Cols(RightInput(op)));
    KeyedWidths(op);
    DropExprs(op);
    DropAvoids(ExprsOf(NormalForm(op).exprs), n, k);
    assert Ready(env, LeftInput(op)) && Ready(env, RightInput(op));
    assert Ready(env, KeyedJoin(op));
  }

  lemma NormalFormLiteral(op: Op)
    requires op.Join? && Literals(op)
    ensures Literals(NormalForm(op))
  {
    hide Conjuncts, Combine, Equis, Identity, KeyNamed, Dropped, KeyCount, Names, MoveAll, KeyConds, Residual;
    assert Literals(LeftInput(op)) && Literals(RightInput(op));
    assert Literals(KeyedJoin(op));
  }

  /** What normalising makes of a plan can be lowered, if its joins are clear. */
  ghost predicate Lowerable(env: Env, op: Op, r: Op) {
    !r.Join? && (Clear(op) ==> Ready(env, r)) && (Literals(op) ==> Literals(r))
  }

  lemma SourceLowerable(env: Env, op: Op, s: Op)
    requires OneSource(op) && Lowerable(env, op.source, s)
    ensures Lowerable(env, op, WithSource(op, s))
  {
    hide HashLen, HashAgrees, Names, AllAvoid, JoinClear;
    CollapseProjects.SourceShape(op, s);
  }

  lemma SidesLowerable(env: Env, op: Op, left: Op, right: Op)
    requires op.Join? && WellFormed(env, Join(left, right, op.on, op.joinType))
    requires Names(left) == Names(op.left) && Lowerable(env, op.left, left) && Lowerable(env, op.right, right)
    ensures Lowerable(env, op, NormalForm(Join(left, right, op.on, op.joinType)))
  {
    hide HashLen, HashAgrees, AllAvoid, NormalForm, WellFormed, Ready, ColumnsEqual, Avoids, Conjuncts, Residual;
    hide Equis, Names;
    var join := Join(left, right, op.on, op.joinType);
    if Clear(op) { NormalFormReady(env, join); }
    if Literals(op) { NormalFormLiteral(join); }
  }

  lemma UnionLowerable(env: Env, op: Op, sources: seq<Op>)
    requires op.UnionAll? && |sources| == |op.sources| && forall i :: 0 <= i < |sources| ==>
      Lowerable(env, op.sources[i], sources[i])
    ensures Lowerable(env, op, UnionAll(sources))
  {
    hide HashLen, HashAgrees, Names, JoinClear;
  }

  lemma LeafLowerable(env: Env, op: Op)
    requires !OneSource(op) && !op.Join? && !op.UnionAll?
    ensures Lowerable(env, op, op)
  {
  }

  /** The plan with every join in normal form, children first. */
  function Normal(op: Op): (r: Op) {
    if OneSource(op) then WithSource(op, Normal(op.source))
    else match op
      case Join(left, right, on, join) => NormalForm(Join(Normal(left), Normal(right), on, join))
      case UnionAll(sources) => UnionAll(seq(|sources|, i requires 0 <= i < |sources| => Normal(sources[i])))
      case _ => op
  }

  /** For every plan the pass computes the rows of the plan with shifted residuals. */
  ghost predicate Normalizes(env: Env, op: Op) {
    Fits(env, op, Normal(op)) && Run(env, Normal(op)) == Run(env, ShiftResiduals(op)) && Lowerable(env, op, Normal(op))
  }

  lemma {:induction false} NormalRun(env: Env, op: Op)
    requires WellFormed(env, op)
    ensures Normalizes(env, op)
    decreases op, 1
  {
    hide Run, Shifted, WellFormed, Names, NormalForm, Lowerable;
    if OneSource(op) {
      var s := Normal(op.source);
      SourceFormed(env, op);
      NormalRun(env, op.source);
      ReplaceSource(env, op, s);
      WithSourceTwice(op, ShiftResiduals(op.source), s);
      RunSource(env, WithSource(op, ShiftResiduals(op.source)), s);
      SourceLowerable(env, op, s);
    } else if op.Join? {
      NormalBoth(env, op);
    } else if op.UnionAll? {
      NormalUnion(env, op);
    } else {
      LeafLowerable(env, op);
    }
  }

  lemma {:induction false} NormalBoth(env: Env, op: Op)
    requires op.Join? && WellFormed(env, op)
    ensures Normalizes(env, op)
    decreases op, 0
  {
    hide Run, Shifted, WellFormed, Names, NormalForm, Lowerable;
    SidesFormed(env, op);
    NormalRun(env, op.left);
    NormalRun(env, op.right);
    var left, right := Normal(op.left), Normal(op.right);
    var join := Join(left, right, op.on, op.joinType);
    ReplaceSides(env, op, left, right);
    NormalFormFormed(env, join);
    NormalFormRun(env, join);
    SidesLowerable(env, op, left, right);

    ShiftFits(env, op.left);
    ShiftFits(env, op.right);
    var l, s := ShiftResiduals(op.left), ShiftResiduals(op.right);
    ReplaceSides(env, op, l, s);
    RunSides(env, Join(l, s, Shifted(op).on, op.joinType), left, right);
  }

  lemma {:induction false} NormalUnion(env: Env, op: Op)
    requires op.UnionAll? && WellFormed(env, op)
    ensures Normalizes(env, op)
    decreases op, 0
  {
    hide Run, WellFormed, Names, Concat, Lowerable;
    UnionParts(env, op);
    var sources := Normal(op).sources;
    forall i | 0 <= i < |op.sources| ensures Normalizes(env, op.sources[i]) { NormalRun(env, op.sources[i]); }
    forall i | 0 <= i < |sources|
      ensures Fits(env, op.sources[i], sources[i]) && Lowerable(env, op.sources[i], sources[i])
    {
      assert Normalizes(env, op.sources[i]);
    }
    ReplaceSources(env, op, sources);
    var parts := seq(|sources|, i requires 0 <= i < |sources| => Run(env, sources[i]));
    forall i | 0 <= i < |parts| ensures parts[i] == Run(env, ShiftResiduals(op).sources[i]) {
      assert Normalizes(env, op.sources[i]);
    }
    UnionRun(env, sources, parts);
    UnionRun(env, ShiftResiduals(op).sources, parts);
    UnionLowerable(env, op, sources);
  }

  /** The pass, children first. */
  method Normalize(op: Op) returns (r: Op)
    ensures r == Normal(op)
  {
    hide NormalForm;
    if OneSource(op) {
      var s := Normalize(op.source);
      r := WithSource(op, s);
    } else if op.Join? {
      var left := Normalize(op.left);
      var right := Normalize(op.right);
      r := NormalizeJoin(Join(left, right, op.on, op.joinType));
    } else if op.UnionAll? {
      var sources: seq<Op> := [];
      for i := 0 to |op.sources|
        invariant |sources| == i && forall j :: 0 <= j < i ==> sources[j] == Normal(op.sources[j])
      {
        var s := Normalize(op.sources[i]);
        sources := sources + [s];
      }
      r := UnionAll(sources);
      assert sources == Normal(op).sources;
    } else {
      r := op;
    }
  }

  // ----- When the residuals are not disturbed

  /** Every column the expression reads is, in the keyed layout, still that column. */
  predicate Unmoved(e: Expr, layout: seq<Expr>) {
    match e
    case Constant(_, _) => true
    case Call(_, args) => forall i :: 0 <= i < |args| ==> Unmoved(args[i], layout)
    case Aggregate(_, args) => forall i :: 0 <= i < |args| ==> Unmoved(args[i], layout)
    case Column(offset, _) => offset < |layout| && layout[offset].Column? && layout[offset].offset == offset
  }

  lemma {:induction false} EvalUnmoved(env: Env, e: Expr, layout: seq<Expr>, t: Tuple)
    requires Unmoved(e, layout)
    ensures Eval(env, Inline(e, layout), t) == Eval(env, e, t)
  {
    if e.Call? {
      var inlined := Inline(e, layout).args;
      forall i | 0 <= i < |e.args| ensures Eval(env, inlined[i], t) == Eval(env, e.args[i], t) {
        EvalUnmoved(env, e.args[i], layout, t);
      }
      EvalCall(env, e.sig, e.args, t);
      EvalCall(env, e.sig, inlined, t);
      assert EvalAll(env, inlined, t) == EvalAll(env, e.args, t);
    }
  }

  /** A join none of whose residual conjuncts reads a column that the keys displace. */
  predicate JoinAligned(op: Op)
    requires op.Join?
  {
    var conds, n, m := Conjuncts(op.on), Cols(op.left), Cols(op.right);
    var res := Residual(conds, n);
    forall i :: 0 <= i < |res| ==> Unmoved(res[i], Layout(Equis(conds, n), n, m))
  }

  predicate Aligned(op: Op) {
    if OneSource(op) then Aligned(op.source)
    else match op
      case Join(left, right, _, _) => JoinAligned(op) && Aligned(left) && Aligned(right)
      case UnionAll(sources) => forall i :: 0 <= i < |sources| ==> Aligned(sources[i])
      case _ => true
  }

  lemma EffectiveAligned(env: Env, op: Op, t: Tuple)
    requires op.Join? && Scalar(op.on, Cols(op.left) + Cols(op.right)) && JoinAligned(op)
    ensures Passes(env, Shifted(op).on, t) <==> Passes(env, op.on, t)
  {
    hide Scalar, Eval, AllScalar, AllPass, Combine, Conjuncts, Equis, EquiConds, Residual, Layout, Names, EvalAll;
    hide Columns, Unmoved;
    var n, m, conds := Cols(op.left), Cols(op.right), Conjuncts(op.on);
    var res, layout := Residual(conds, n), Layout(Equis(conds, n), n, m);
    ConjunctsMeaning(env, op.on, n + m, t);
    ResidualMeaning(env, conds, n, n + m, t);
    KeyedCondition(env, conds, Nulls(n), Nulls(m));
    CombineMeaning(env, Effective(conds, n, m), n + m, t);
    AllPassConcat(env, EquiConds(conds, n), InlineAll(res, layout), t);
    InlineUnmoved(env, res, layout, t);
  }

  lemma InlineUnmoved(env: Env, es: seq<Expr>, layout: seq<Expr>, t: Tuple)
    requires forall i :: 0 <= i < |es| ==> Unmoved(es[i], layout)
    ensures AllPass(env, InlineAll(es, layout), t) <==> AllPass(env, es, t)
  {
    hide Eval, Unmoved, Inline;
    forall i | 0 <= i < |es| ensures Passes(env, InlineAll(es, layout)[i], t) <==> Passes(env, es[i], t) {
      EvalUnmoved(env, es[i], layout, t);
    }
  }

  lemma ShiftedRun(env: Env, op: Op)
    requires op.Join? && WellFormed(env, op) && JoinAligned(op)
    ensures Run(env, Shifted(op)) == Run(env, op)
  {
    hide Run, JoinRows, Passes, Scalar, JoinAligned, Shifted;
    ShiftedSides(op);
    JoinRun(env, op);
    JoinRun(env, Shifted(op));
    forall t ensures Passes(env, op.on, t) == Passes(env, Shifted(op).on, t) { EffectiveAligned(env, op, t); }
    FoldConstants.EquivalentJoin(env, op.on, Shifted(op).on, Run(env, op.left), Run(env, op.right), op.joinType,
                                 Cols(op.right));
  }

  lemma ShiftedSides(op: Op)
    requires op.Join?
    ensures var r := Shifted(op); r.left == op.left && r.right == op.right && r.joinType == op.joinType
  {
  }

  /** With aligned residuals, normalising every join of a plan keeps its rows. */
  lemma {:induction false} AlignedRun(env: Env, op: Op)
    requires WellFormed(env, op) && Aligned(op)
    ensures Run(env, ShiftResiduals(op)) == Run(env, op)
  {
    hide Run, Shifted, WellFormed, Names, JoinAligned;
    if OneSource(op) {
      SourceFormed(env, op);
      AlignedRun(env, op.source);
      RunSource(env, op, ShiftResiduals(op.source));
    } else if op.Join? {
      SidesFormed(env, op);
      AlignedRun(env, op.left);
      AlignedRun(env, op.right);
      ShiftFits(env, op.left);
      ShiftFits(env, op.right);
      ReplaceSides(env, op, ShiftResiduals(op.left), ShiftResiduals(op.right));
      ShiftedSides(op);
      RunSides(env, Shifted(op), ShiftResiduals(op.left), ShiftResiduals(op.right));
      ShiftedRun(env, op);
    } else if op.UnionAll? {
      UnionParts(env, op);
      forall i | 0 <= i < |op.sources| ensures Run(env, ShiftResiduals(op.sources[i])) == Run(env, op.sources[i]) {
        AlignedRun(env, op.sources[i]);
      }
      forall i | 0 <= i < |op.sources| ensures Fits(env, op.sources[i], ShiftResiduals(op.sources[i])) {
        ShiftFits(env, op.sources[i]);
      }
      ReplaceSources(env, op, ShiftResiduals(op).sources);
    }
  }

  // ----- Exactly when, for inner joins

  /** The two conditions agree on every pair of rows. */
  ghost predicate Agree(env: Env, lefts: seq<Row>, rights: seq<Row>, a: Expr, b: Expr) {
    forall i, j :: 0 <= i < |lefts| && 0 <= j < |rights| ==>
      (Passes(env, a, lefts[i].0 + rights[j].0) <==> Passes(env, b, lefts[i].0 + rights[j].0))
  }

  ghost predicate HasTuple(rows: seq<Row>, t: Tuple) {
    exists i :: 0 <= i < |rows| && rows[i].0 == t
  }

  lemma HasConcat(a: seq<Row>, b: seq<Row>, t: Tuple)
    ensures HasTuple(a + b, t) <==> HasTuple(a, t) || HasTuple(b, t)
  {
    if HasTuple(a, t) {
      var i :| 0 <= i < |a| && a[i].0 == t;
      assert (a + b)[i].0 == t;
    }
    if HasTuple(b, t) {
      var i :| 0 <= i < |b| && b[i].0 == t;
      assert (a + b)[|a| + i].0 == t;
    }
  }

  /** Which tuples a left row contributes. */
  lemma {:induction false} MatchHas(env: Env, l: Row, rights: seq<Row>, on: Expr, t: Tuple)
    ensures HasTuple(MatchRows(env, l, rights, on), t) <==>
      exists j :: 0 <= j < |rights| && l.0 + rights[j].0 == t && Passes(env, on, t)
  {
    hide Passes;
    if rights != [] {
      MatchHas(env, l, rights[1..], on, t);
      var u := l.0 + rights[0].0;
      HasConcat([(u, rights[0].1 * l.1)], MatchRows(env, l, rights[1..], on), t);
      assert HasTuple([(u, rights[0].1 * l.1)], t) <==> u == t by { assert [(u, rights[0].1 * l.1)][0].0 == u; }
      if j :| 0 <= j < |rights| && l.0 + rights[j].0 == t && Passes(env, on, t) {
        if j > 0 { assert rights[1..][j - 1] == rights[j]; }
      }
    }
  }

  lemma {:induction false} JoinHas(env: Env, lefts: seq<Row>, rights: seq<Row>, on: Expr, n: nat, t: Tuple)
    ensures HasTuple(JoinRows(env, lefts, rights, on, Inner, n), t) <==>
      exists i, j :: 0 <= i < |lefts| && 0 <= j < |rights| && lefts[i].0 + rights[j].0 == t && Passes(env, on, t)
  {
    hide Passes, MatchRows;
    if lefts != [] {
      JoinHas(env, lefts[1..], rights, on, n, t);
      MatchHas(env, lefts[0], rights, on, t);
      HasConcat(MatchRows(env, lefts[0], rights, on), JoinRows(env, lefts[1..], rights, on, Inner, n), t);
      if i, j :| 0 <= i < |lefts| && 0 <= j < |rights| && lefts[i].0 + rights[j].0 == t && Passes(env, on, t) {
        if i > 0 { assert lefts[1..][i - 1] == lefts[i]; }
      }
    }
  }

  lemma {:induction false} AgreeMatch(env: Env, l: Row, rights: seq<Row>, a: Expr, b: Expr)
    requires forall j :: 0 <= j < |rights| ==>
      (Passes(env, a, l.0 + rights[j].0) <==> Passes(env, b, l.0 + rights[j].0))
    ensures MatchRows(env, l, rights, a) == MatchRows(env, l, rights, b)
  {
    hide Passes;
    if rights != [] { AgreeMatch(env, l, rights[1..], a, b); }
  }

  lemma {:induction false} AgreeJoin(env: Env, lefts: seq<Row>, rights: seq<Row>, a: Expr, b: Expr, join: JoinType,
                                     n: nat)
    requires Agree(env, lefts, rights, a, b)
    ensures JoinRows(env, lefts, rights, a, join, n) == JoinRows(env, lefts, rights, b, join, n)
  {
    hide Passes, MatchRows;
    if lefts != [] {
      AgreeMatch(env, lefts[0], rights, a, b);
      AgreeJoin(env, lefts[1..], rights, a, b, join, n);
    }
  }

  /** Two inner joins of the same rows are equal exactly when their conditions agree on every pair. */
  lemma JoinsEqual(env: Env, lefts: seq<Row>, rights: seq<Row>, a: Expr, b: Expr, n: nat)
    ensures JoinRows(env, lefts, rights, a, Inner, n) == JoinRows(env, lefts, rights, b, Inner, n) <==>
      Agree(env, lefts, rights, a, b)
  {
    hide Passes, JoinRows, HasTuple;
    if Agree(env, lefts, rights, a, b) {
      AgreeJoin(env, lefts, rights, a, b, Inner, n);
    } else {
      var i, j :| 0 <= i < |lefts| && 0 <= j < |rights| &&
        !(Passes(env, a, lefts[i].0 + rights[j].0) <==> Passes(env, b, lefts[i].0 + rights[j].0));
      var t := lefts[i].0 + rights[j].0;
      JoinHas(env, lefts, rights, a, n, t);
      JoinHas(env, lefts, rights, b, n, t);
    }
  }

  /**
   * An inner join is normalised correctly exactly when, on every pair of rows, its condition and the
   * effective one agree.
   */
  lemma InnerExact(env: Env, op: Op)
    requires op.Join? && op.joinType.Inner? && WellFormed(env, op)
    ensures Run(env, NormalForm(op)) == Run(env, op) <==>
      Agree(env, Run(env, op.left), Run(env, op.right), op.on, Shifted(op).on)
  {
    hide Run, JoinRows, Agree, Shifted, NormalForm;
    NormalFormRun(env, op);
    ShiftedSides(op);
    JoinRun(env, op);
    JoinRun(env, Shifted(op));
    JoinsEqual(env, Run(env, op.left), Run(env, op.right), op.on, Shifted(op).on, Cols(op.right));
  }

  // ----- Exactly when, for both join types and all tables

  ghost predicate AgreeAll(env: Env, a: Expr, b: Expr, n: nat, m: nat) {
    forall l: Tuple, r: Tuple :: |l| == n && |r| == m ==> (Passes(env, a, l + r) <==> Passes(env, b, l + r))
  }

  ghost predicate SameJoins(env: Env, a: Expr, b: Expr, join: JoinType, n: nat, m: nat) {
    forall lefts, rights :: Width(lefts, n) && Width(rights, m) ==> SameOn(env, a, b, join, lefts, rights, m)
  }

  ghost predicate SameOn(env: Env, a: Expr, b: Expr, join: JoinType, lefts: seq<Row>, rights: seq<Row>, m: nat) {
    JoinRows(env, lefts, rights, a, join, m) == JoinRows(env, lefts, rights, b, join, m)
  }

  /** One row on each side; a frequency other than one tells a match from a padded row, even one of nulls. */
  lemma OneRowEach(env: Env, on: Expr, join: JoinType, l: Tuple, r: Tuple, freq: int)
    ensures
      var rows := JoinRows(env, [(l, 1)], [(r, freq)], on, join, |r|);
      if Passes(env, on, l + r) then rows == [(l + r, freq)]
      else rows == if join.LeftOuter? then [(l + Nulls(|r|), 1)] else []
  {
    hide Passes;
    var left: Row, right: Row := (l, 1), (r, freq);
    assert [left][1..] == [] && [right][1..] == [];
    assert MatchRows(env, left, [], on) == [] && JoinRows(env, [], [right], on, join, |r|) == [];
    assert MatchRows(env, left, [right], on) == if Passes(env, on, l + r) then [(l + r, freq)] else [];
  }

  /** Two conditions give the same inner or left outer join of all tables exactly when they agree on every pair of
      tuples. */
  lemma ConditionsExact(env: Env, a: Expr, b: Expr, join: JoinType, n: nat, m: nat)
    ensures SameJoins(env, a, b, join, n, m) <==> AgreeAll(env, a, b, n, m)
  {
    hide Passes, JoinRows;
    if AgreeAll(env, a, b, n, m) {
      forall lefts, rights | Width(lefts, n) && Width(rights, m) ensures SameOn(env, a, b, join, lefts, rights, m) {
        AgreeJoin(env, lefts, rights, a, b, join, m);
      }
    }
    if SameJoins(env, a, b, join, n, m) {
      forall l: Tuple, r: Tuple | |l| == n && |r| == m ensures Passes(env, a, l + r) <==> Passes(env, b, l + r) {
        assert Width([(l, 1)], n) && Width([(r, 2)], m);
        assert SameOn(env, a, b, join, [(l, 1)], [(r, 2)], m);
        OneRowEach(env, a, join, l, r, 2);
        OneRowEach(env, b, join, l, r, 2);
      }
    }
  }

  /** The join of two inputs and its normal form have the same rows. */
  ghost predicate NormalKeeps(env: Env, on: Expr, join: JoinType, left: Op, right: Op) {
    Run(env, NormalForm(Join(left, right, on, join))) == Run(env, Join(left, right, on, join))
  }

  /** So it is for all inputs of `n` and `m` columns. */
  ghost predicate NormalKeepsAll(env: Env, on: Expr, join: JoinType, n: nat, m: nat) {
    forall left, right ::
      WellFormed(env, left) && WellFormed(env, right) && Cols(left) == n && Cols(right) == m ==>
        NormalKeeps(env, on, join, left, right)
  }

  lemma NormalKeepsOne(env: Env, on: Expr, join: JoinType, left: Op, right: Op)
    requires WellFormed(env, left) && WellFormed(env, right) && Scalar(on, Cols(left) + Cols(right))
    ensures
      NormalKeeps(env, on, join, left, right) <==>
        SameOn(env, on, ShiftedCond(on, Cols(left), Cols(right)), join, Run(env, left), Run(env, right), Cols(right))
  {
    hide Run, JoinRows, NormalForm, WellFormed, Scalar, Effective, Conjuncts, Combine, Names;
    var op := Join(left, right, on, join);
    JoinFormed(env, op);
    NormalFormRun(env, op);
    JoinRun(env, op);
    JoinRun(env, Shifted(op));
  }

  function Literal(t: Tuple): (r: seq<Expr>)
    ensures |r| == |t| && FoldConstants.AllConstant(r) && forall i :: 0 <= i < |t| ==> r[i].value == t[i]
  {
    seq(|t|, i requires 0 <= i < |t| => Constant(t[i], NullType))
  }

  /** A plan of this one row. */
  function RowPlan(t: Tuple): (r: Op) {
    Values(seq(|t|, _ => Field("", NullType)), [Literal(t)])
  }

  lemma RowPlanRun(env: Env, t: Tuple)
    ensures WellFormed(env, RowPlan(t)) && Run(env, RowPlan(t)) == [(t, 1)] && Cols(RowPlan(t)) == |t|
    ensures WellFormed(env, NegateFreq(RowPlan(t))) && Run(env, NegateFreq(RowPlan(t))) == [(t, -1)]
    ensures Cols(NegateFreq(RowPlan(t))) == |t|
  {
    OneRow(env, seq(|t|, _ => Field("", NullType)), Literal(t));
    assert EvalAll(env, Literal(t), []) == t;
  }

  /**
   * A join is normalised correctly whatever its inputs, inner or left outer, if and only if on every pair
   * of tuples its condition and the one left after normalisation agree.
   */
  lemma NormalExact(env: Env, on: Expr, join: JoinType, n: nat, m: nat)
    requires Scalar(on, n + m)
    ensures NormalKeepsAll(env, on, join, n, m) <==> AgreeAll(env, on, ShiftedCond(on, n, m), n, m)
  {
    hide Run, Passes, JoinRows, NormalKeeps, WellFormed, Names, Scalar, ShiftedCond, RowPlan;
    var cond := ShiftedCond(on, n, m);
    if AgreeAll(env, on, cond, n, m) {
      ConditionsExact(env, on, cond, join, n, m);
      forall left, right | WellFormed(env, left) && WellFormed(env, right) && Cols(left) == n && Cols(right) == m
        ensures NormalKeeps(env, on, join, left, right)
      {
        RunWidth(env, left);
        RunWidth(env, right);
        NormalKeepsOne(env, on, join, left, right);
      }
    }
    if NormalKeepsAll(env, on, join, n, m) {
      forall l: Tuple, r: Tuple | |l| == n && |r| == m ensures Passes(env, on, l + r) <==> Passes(env, cond, l + r) {
        var left, right := RowPlan(l), NegateFreq(RowPlan(r));
        RowPlanRun(env, l);
        RowPlanRun(env, r);
        assert NormalKeeps(env, on, join, left, right);
        NormalKeepsOne(env, on, join, left, right);
        OneRowEach(env, on, join, l, r, -1);
        OneRowEach(env, cond, join, l, r, -1);
      }
    }
  }

  // ----- Joins that are never disturbed

  /** The conjuncts are equalities between the sides and constants, or none is an equality of the sides or
      of two columns. */
  predicate PlainCond(on: Expr, n: nat) {
    var conds := Conjuncts(on);
    || (forall c :: c in conds ==> EquatesSides(c, n) || c.Constant?)
    || (forall c :: c in conds ==> !EquatesSides(c, n) && !ColumnsEqual(c))
  }

  predicate JoinPlain(op: Op)
    requires op.Join?
  {
    PlainCond(op.on, Cols(op.left))
  }

  predicate Plain(op: Op) {
    if OneSource(op) then Plain(op.source)
    else match op
      case Join(left, right, _, _) => JoinPlain(op) && Plain(left) && Plain(right)
      case UnionAll(sources) => forall i :: 0 <= i < |sources| ==> Plain(sources[i])
      case _ => true
  }

  lemma {:induction false} UnmovedScalar(e: Expr, layout: seq<Expr>)
    requires Scalar(e, |layout|) && InOrder(layout, 0)
    ensures Unmoved(e, layout)
  {
    hide InOrder;
    match e
    case Call(_, args) =>
      forall i | 0 <= i < |args| ensures Unmoved(args[i], layout) { UnmovedScalar(args[i], layout); }
    case Column(offset, _) => InOrderAt(layout, offset);
    case _ =>
  }

  lemma InOrderAt(es: seq<Expr>, i: nat)
    requires InOrder(es, 0) && i < |es|
    ensures es[i].Column? && es[i].offset == i
  {
  }

  lemma {:induction false} AvoidsNothing(e: Expr, lo: nat)
    ensures Avoids(e, lo, lo)
  {
    match e
    case Call(_, args) => forall i | 0 <= i < |args| ensures Avoids(args[i], lo, lo) { AvoidsNothing(args[i], lo); }
    case Aggregate(_, args) =>
      forall i | 0 <= i < |args| ensures Avoids(args[i], lo, lo) { AvoidsNothing(args[i], lo); }
    case _ =>
  }

  lemma PlainJoin(env: Env, op: Op)
    requires op.Join? && Scalar(op.on, Cols(op.left) + Cols(op.right)) && JoinPlain(op)
    ensures JoinAligned(op) && JoinClear(op)
  {
    hide Conjuncts, Residual, Equis, EquiConds, ColumnsEqual, Avoids, Unmoved, Scalar, Names, EquatesSides;
    var conds, n, m := Conjuncts(op.on), Cols(op.left), Cols(op.right);
    var res, qs := Residual(conds, n), Equis(conds, n);
    forall c | c in res ensures c in conds && !EquatesSides(c, n) { EquiCondsExact(conds, n, c); }
    if forall c :: c in conds ==> EquatesSides(c, n) || c.Constant? {
      forall i | 0 <= i < |res|
        ensures Unmoved(res[i], Layout(qs, n, m)) && !ColumnsEqual(res[i]) && Avoids(res[i], n + |qs|, n + 2 * |qs|)
      {
        assert res[i] in res;
        ConstantClear(res[i], Layout(qs, n, m), n + |qs|, n + 2 * |qs|);
      }
    } else {
      NoEquis(conds, n);
      ConjunctsMeaning(env, op.on, n + m, []);
      ResidualMeaning(env, conds, n, n + m, []);
      assert Layout(qs, n, m) == Columns(0, n) + Columns(n, n + m);
      assert InOrder(Layout(qs, n, m), 0);
      forall i | 0 <= i < |res|
        ensures Unmoved(res[i], Layout(qs, n, m)) && !ColumnsEqual(res[i]) && Avoids(res[i], n, n)
      {
        assert res[i] in res && Scalar(res[i], n + m);
        UnmovedScalar(res[i], Layout(qs, n, m));
        AvoidsNothing(res[i], n);
      }
    }
  }

  lemma {:induction false} NoEquis(conds: seq<Expr>, n: nat)
    requires forall c :: c in conds ==> !EquatesSides(c, n)
    ensures Equis(conds, n) == []
  {
    hide AsEqui, EquatesSides;
    if conds != [] {
      var k := |conds| - 1;
      NoEquis(conds[..k], n);
      EquiExact(conds[k], n);
      assert conds[k] in conds;
    }
  }

  lemma ConstantClear(e: Expr, layout: seq<Expr>, lo: nat, hi: nat)
    requires e.Constant?
    ensures Unmoved(e, layout) && !ColumnsEqual(e) && Avoids(e, lo, hi)
  {
  }

  /** Joins of equalities and constants only, and joins without equalities, are normalised and lowered correctly. */
  lemma {:induction false} PlainPlan(env: Env, op: Op)
    requires WellFormed(env, op) && Plain(op)
    ensures Aligned(op) && Clear(op)
  {
    hide JoinPlain, JoinAligned, JoinClear, Run, Names, Scalar;
    if OneSource(op) {
      SourceFormed(env, op);
      PlainPlan(env, op.source);
    } else if op.Join? {
      PlainPlan(env, op.left);
      PlainPlan(env, op.right);
      PlainJoin(env, op);
    } else if op.UnionAll? {
      UnionParts(env, op);
      forall i | 0 <= i < |op.sources| ensures Aligned(op.sources[i]) && Clear(op.sources[i]) {
        PlainPlan(env, op.sources[i]);
      }
    }
  }

  // ----- A residual that reads the wrong column

  const EQ: Signature := Signature("=", [IntegerType, IntegerType], BooleanType)
  const KEY_EQ: Expr := Call(EQ, [Column(0, IntegerType), Column(2, IntegerType)])
  const FLAG: Expr := Column(1, BooleanType)

  /** SELECT * FROM (VALUES (1, true)) l JOIN (VALUES (1)) r ON l.0 = r.0 AND l.1 */
  const FLAGGED: Op := Join(
    Values([Field("a", IntegerType), Field("b", BooleanType)], [[Constant(Integer(1), IntegerType), TRUE]]),
    Values([Field("c", IntegerType)], [[Constant(Integer(1), IntegerType)]]),
    Call(AND, [KEY_EQ, FLAG]), Inner)

  lemma FlaggedConds()
    ensures Conjuncts(FLAGGED.on) == [KEY_EQ, FLAG]
    ensures Cols(FLAGGED.left) == 2 && Cols(FLAGGED.right) == 1
    ensures EquiConds([KEY_EQ, FLAG], 2) == [KEY_EQ] && Residual([KEY_EQ, FLAG], 2) == [FLAG]
    ensures Equis([KEY_EQ, FLAG], 2) == [Equi(EQ, Column(0, IntegerType), Column(2, IntegerType))]
  {
    assert AllAtomic([KEY_EQ, FLAG]);
    assert [KEY_EQ, FLAG][..1] == [KEY_EQ];
    assert FLAGGED.on == Combine([KEY_EQ, FLAG]);
    CombineRoundTrip([KEY_EQ, FLAG]);
    assert AsEqui(KEY_EQ, 2) == Some(Equi(EQ, Column(0, IntegerType), Column(2, IntegerType)));
    assert AsEqui(FLAG, 2) == None;
    assert [KEY_EQ][..0] == [];
    assert EquiConds([KEY_EQ], 2) == [KEY_EQ] && Residual([KEY_EQ], 2) == [];
  }

  lemma FlaggedRows(env: Env)
    ensures WellFormed(env, FLAGGED)
    ensures Run(env, FLAGGED.left) == [([Integer(1), Boolean(true)], 1)]
      && Run(env, FLAGGED.right) == [([Integer(1)], 1)]
  {
    hide Run, Names, WellFormed;
    var left, right := [Constant(Integer(1), IntegerType), TRUE], [Constant(Integer(1), IntegerType)];
    assert EvalAll(env, left, []) == [Integer(1), Boolean(true)] && EvalAll(env, right, []) == [Integer(1)];
    OneRow(env, [Field("a", IntegerType), Field("b", BooleanType)], left);
    OneRow(env, [Field("c", IntegerType)], right);
    assert Scalar(KEY_EQ, 3) && Scalar(FLAG, 3);
    JoinFormed(env, FLAGGED);
  }

  lemma FlaggedPasses(env: Env, t: Tuple)
    requires t == [Integer(1), Boolean(true), Integer(1)]
    ensures Passes(env, FLAGGED.on, t)
  {
    EvalCall(env, EQ, KEY_EQ.args, t);
    assert EvalAll(env, KEY_EQ.args, t) == [Integer(1), Integer(1)];
    EvalCall(env, AND, [KEY_EQ, FLAG], t);
    assert EvalAll(env, [KEY_EQ, FLAG], t) == [Boolean(true), Boolean(true)];
  }

  /** The row is lost: after the key is inserted in front, column 1 is the number and no longer the flag. */
  lemma ResidualMisread(env: Env)
    ensures WellFormed(env, FLAGGED)
    ensures Run(env, NormalForm(FLAGGED)) != Run(env, FLAGGED)
  {
    hide Run, Agree, NormalForm, WellFormed, Eval, Conjuncts, Combine, Names;
    var t := [Integer(1), Boolean(true), Integer(1)];
    FlaggedRows(env);
    FlaggedPasses(env, t);
    FlaggedConds();
    InnerExact(env, FLAGGED);
    var effective := Effective([KEY_EQ, FLAG], 2, 1);
    FlaggedEffective(env, t);
    var lefts, rights := Run(env, FLAGGED.left), Run(env, FLAGGED.right);
    assert lefts[0].0 + rights[0].0 == t;
    Disagree(env, lefts, rights, FLAGGED.on, Shifted(FLAGGED).on);
  }

  lemma Disagree(env: Env, lefts: seq<Row>, rights: seq<Row>, a: Expr, b: Expr)
    requires |lefts| > 0 && |rights| > 0
    requires Passes(env, a, lefts[0].0 + rights[0].0) && !Passes(env, b, lefts[0].0 + rights[0].0)
    ensures !Agree(env, lefts, rights, a, b)
  {
  }

  lemma FlaggedEffective(env: Env, t: Tuple)
    requires t == [Integer(1), Boolean(true), Integer(1)]
    ensures !Passes(env, Combine(Effective([KEY_EQ, FLAG], 2, 1)), t)
  {
    hide Conjuncts, EquiConds, Residual, AsEqui, Combine, Equis;
    FlaggedConds();
    var layout := Layout(Equis([KEY_EQ, FLAG], 2), 2, 1);
    assert layout[1] == Column(0, NullType);
    var shifted := Column(0, NullType);
    assert InlineAll([FLAG], layout) == [shifted];
    assert Effective([KEY_EQ, FLAG], 2, 1) == [KEY_EQ, shifted];
    assert !Passes(env, shifted, t);
    assert !AllPass(env, [KEY_EQ, shifted], t) by { assert [KEY_EQ, shifted][1] == shifted; }
    assert Scalar(KEY_EQ, 3) && Scalar(shifted, 3);
    CombineMeaning(env, [KEY_EQ, shifted], 3, t);
  }
}
