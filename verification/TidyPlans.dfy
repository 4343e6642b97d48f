/** Queries whose joins stay as normalisation and lowering need them, whatever the passes before do to them. */
module TidyPlans {
  import opened Bytes
  import opened Rows
  import opened Exprs
  import opened Plans
  import opened PlanAlgebra
  import opened FoldConstants
  import opened Pushdown
  import opened CollapseProjects
  import opened NormalizeJoins
  import opened NormalizePlans
  import opened Physical

  /**
   * With the predicates gathered above them and its own conjuncts that stay, every join is left with
   * equalities between its sides and constants only, or with no equality of columns.
   */
  predicate Tidy(op: Op, preds: seq<Expr>)
    decreases op
  {
    match op
    case Filter(cond, source) => Tidy(source, Conjuncts(cond))
    case Sort(_, source) => Tidy(source, preds)
    case NegateFreq(source) => Tidy(source, preds)
    case Project(exprs, source) => Tidy(source, InlineAll(preds, ExprsOf(exprs)))
    case UnionAll(sources) => forall i :: 0 <= i < |sources| ==> Tidy(sources[i], preds)
    case Join(left, right, on, join) =>
      var conds, n := Conjuncts(on), Cols(left);
      && PlainCond(Combine(KeptPart(join, preds, conds, n)), n)
      && Tidy(left, LeftPart(join, preds, conds, n))
      && Tidy(right, MoveAll(RightPart(join, preds, conds, n), 0 - n))
    case GroupBy(_, _, _, source) => Tidy(source, [])
    case Limit(_, _, source) => Tidy(source, [])
    case TableAlias(_, source) => Tidy(source, [])
    case _ => true
  }

  // ----- Pushdown

  lemma {:induction false} PushedNames(op: Op, preds: seq<Expr>)
    ensures Names(Pushed(op, preds)) == Names(op)
    decreases op
  {
    hide Conjuncts, Combine, LeftPart, RightPart, KeptPart, WrapPart, MoveAll, InlineAll;
    match op
    case Filter(cond, source) => PushedNames(source, Conjuncts(cond));
    case Sort(_, source) => PushedNames(source, preds);
    case NegateFreq(source) => PushedNames(source, preds);
    case UnionAll(sources) => if sources != [] { PushedNames(sources[0], preds); }
    case Join(left, right, on, join) =>
      var conds := Conjuncts(on);
      var n: int := Cols(left);
      PushedNames(left, LeftPart(join, preds, conds, n));
      PushedNames(right, MoveAll(RightPart(join, preds, conds, n), 0 - n));
    case Limit(_, _, source) => PushedNames(source, []);
    case TableAlias(_, source) => PushedNames(source, []);
    case _ =>
  }

  lemma PlainWrapped(op: Op, preds: seq<Expr>)
    requires Plain(op)
    ensures Plain(Wrapped(op, preds))
  {
    hide JoinPlain;
  }

  lemma {:induction false} PushPlain(op: Op, preds: seq<Expr>)
    requires Tidy(op, preds)
    ensures Plain(Pushed(op, preds))
    decreases op
  {
    hide Conjuncts, Combine, LeftPart, RightPart, KeptPart, WrapPart, MoveAll, InlineAll, PlainCond, Names, Wrapped;
    match op
    case Filter(cond, source) => PushPlain(source, Conjuncts(cond));
    case Sort(_, source) => PushPlain(source, preds);
    case NegateFreq(source) => PushPlain(source, preds);
    case Project(exprs, source) => PushPlain(source, InlineAll(preds, ExprsOf(exprs)));
    case UnionAll(sources) =>
      forall i | 0 <= i < |sources| ensures Plain(Pushed(sources[i], preds)) { PushPlain(sources[i], preds); }
    case Join(left, right, on, join) =>
      var conds := Conjuncts(on);
      var n: int := Cols(left);
      PushPlain(left, LeftPart(join, preds, conds, n));
      PushPlain(right, MoveAll(RightPart(join, preds, conds, n), 0 - n));
      PushPlainSides(op, preds);
    case GroupBy(_, _, _, source) =>
      PushPlain(source, []);
      PushPlainBelow(op, preds);
    case Limit(_, _, source) =>
      PushPlain(source, []);
      PushPlainBelow(op, preds);
    case TableAlias(_, source) =>
      PushPlain(source, []);
      PushPlainBelow(op, preds);
    case _ => PlainWrapped(op, preds);
  }

  lemma PushPlainSides(op: Op, preds: seq<Expr>)
    requires op.Join? && Plain(PushedSides(op, preds).left) && Plain(PushedSides(op, preds).right)
    requires PlainCond(Combine(KeptPart(op.joinType, preds, Conjuncts(op.on), Cols(op.left))), Cols(op.left))
    ensures Plain(Pushed(op, preds))
  {
    hide Conjuncts, Combine, LeftPart, RightPart, KeptPart, WrapPart, MoveAll, PlainCond, Names, Pushed;
    PushedNames(op.left, LeftPart(op.joinType, preds, Conjuncts(op.on), Cols(op.left)));
    PlainWrapped(PushedSides(op, preds), WrapPart(op.joinType, preds, Cols(op.left)));
    PushedJoin(op, preds);
  }

  lemma PushPlainBelow(op: Op, preds: seq<Expr>)
    requires (op.GroupBy? || op.Limit? || op.TableAlias?) && Plain(Pushed(op.source, []))
    ensures Plain(Pushed(op, preds))
  {
    hide JoinPlain, Pushed;
    OpaqueOnce(op, preds);
    PushedBelow(op);
    PlainWrapped(WithSource(op, Pushed(op.source, [])), preds);
  }

  // ----- Folding

  lemma {:induction false} ConstantsRead(es: seq<Expr>)
    requires AllConstant(es)
    ensures MinMaxOf(es) == None
  {
    if es != [] { ConstantsRead(es[..|es| - 1]); }
  }

  /** Folding changes nothing about the columns that are read. */
  lemma {:induction false} FoldReads(scalar: Scalars, e: Expr)
    ensures MinMax(Fold(scalar, e)) == MinMax(e)
    decreases e, 0
  {
    hide Fold;
    FoldArgs(scalar, e);
    match e
    case Call(_, args) =>
      FoldEachReads(scalar, args);
      if AllConstant(FoldEach(scalar, args)) { ConstantsRead(FoldEach(scalar, args)); }
    case Aggregate(_, args) => FoldEachReads(scalar, args);
    case _ => FoldLeaf(scalar, e);
  }

  lemma {:induction false} FoldEachReads(scalar: Scalars, es: seq<Expr>)
    ensures MinMaxOf(FoldEach(scalar, es)) == MinMaxOf(es)
    decreases es, 1
  {
    hide Fold;
    if es != [] {
      var n := |es| - 1;
      FoldEachReads(scalar, es[..n]);
      FoldReads(scalar, es[n]);
      assert FoldEach(scalar, es)[..n] == FoldEach(scalar, es[..n]);
    }
  }

  lemma FoldColumn(scalar: Scalars, e: Expr)
    ensures Fold(scalar, e).Column? ==> e.Column?
  {
  }

  lemma FoldShape(scalar: Scalars, e: Expr, n: nat)
    ensures EquatesSides(Fold(scalar, e), n) <==> EquatesSides(e, n)
    ensures ColumnsEqual(Fold(scalar, e)) ==> ColumnsEqual(e)
    ensures e.Constant? ==> Fold(scalar, e).Constant?
  {
    hide Fold, MinMax, EquatesSides;
    FoldArgs(scalar, e);
    EquiExact(e, n);
    EquiExact(Fold(scalar, e), n);
    if e.Call? {
      var folded := FoldEach(scalar, e.args);
      if |e.args| == 2 {
        FoldReads(scalar, e.args[0]);
        FoldReads(scalar, e.args[1]);
        FoldColumn(scalar, e.args[0]);
        FoldColumn(scalar, e.args[1]);
        assert AllConstant(folded) ==> MinMax(folded[0]).None? by { ConstantRead(folded[0]); }
      }
    } else if !e.Aggregate? {
      FoldLeaf(scalar, e);
    }
  }

  lemma ConstantRead(e: Expr)
    ensures e.Constant? ==> MinMax(e).None?
  {
  }

  lemma {:induction false} NotTrueHas(es: seq<Expr>, c: Expr)
    ensures c in NotTrue(es) <==> c in es && c != TRUE
  {
    if es != [] {
      NotTrueHas(es[1..], c);
      assert es == [es[0]] + es[1..];
    }
  }

  /** A conjunct of the folded condition: a constant, or a conjunct folded. */
  ghost predicate FromConjunct(scalar: Scalars, e: Expr, c: Expr) {
    c.Constant? || exists d :: d in Conjuncts(e) && c == Fold(scalar, d)
  }

  lemma {:induction false} FoldConjuncts(scalar: Scalars, e: Expr, c: Expr)
    requires c in Conjuncts(Fold(scalar, e))
    ensures FromConjunct(scalar, e, c)
    decreases e, 0
  {
    hide Fold;
    FoldArgs(scalar, e);
    var f := Fold(scalar, e);
    if e.Call? && e.sig.name == "and" {
      if f.Call? {
        NotTrueHas(ConjunctsOf(f.args), c);
        var d := FoldConjunctsOf(scalar, e.args, c);
        if !c.Constant? { NotTrueHas(ConjunctsOf(e.args), d); }
      } else {
        NotTrueHas([f], c);
      }
    } else {
      if e.Constant? || e.Column? { FoldLeaf(scalar, e); }
      NotTrueHas([f], c);
      NotTrueHas([e], e);
      assert e != TRUE ==> e in Conjuncts(e);
    }
  }

  lemma {:induction false} FoldConjunctsOf(scalar: Scalars, es: seq<Expr>, c: Expr) returns (d: Expr)
    requires c in ConjunctsOf(FoldEach(scalar, es))
    ensures c.Constant? || (d in ConjunctsOf(es) && d != TRUE && c == Fold(scalar, d))
    decreases es, 1
  {
    hide Fold;
    var fs := FoldEach(scalar, es);
    d := c;
    if es != [] {
      assert fs[1..] == FoldEach(scalar, es[1..]);
      if c in Conjuncts(fs[0]) {
        FoldConjuncts(scalar, es[0], c);
        if !c.Constant? {
          d :| d in Conjuncts(es[0]) && c == Fold(scalar, d);
          ConjunctsAtomic(es[0]);
        }
      } else {
        d := FoldConjunctsOf(scalar, es[1..], c);
      }
    }
  }

  lemma FoldPlainCond(scalar: Scalars, on: Expr, n: nat)
    requires PlainCond(on, n)
    ensures PlainCond(Fold(scalar, on), n)
  {
    hide Fold, Conjuncts, EquatesSides, ColumnsEqual;
    var equis := forall c :: c in Conjuncts(on) ==> EquatesSides(c, n) || c.Constant?;
    forall c | c in Conjuncts(Fold(scalar, on))
      ensures if equis then EquatesSides(c, n) || c.Constant? else !EquatesSides(c, n) && !ColumnsEqual(c)
    {
      FoldConjuncts(scalar, on, c);
      if c.Constant? {
        ConstantPlain(c, n);
      } else {
        var d :| d in Conjuncts(on) && c == Fold(scalar, d);
        FoldShape(scalar, d, n);
      }
    }
  }

  lemma ConstantPlain(c: Expr, n: nat)
    requires c.Constant?
    ensures !EquatesSides(c, n) && !ColumnsEqual(c)
  {
  }

  lemma {:induction false} FoldedNames(scalar: Scalars, op: Op)
    ensures Names(FoldOp(scalar, op)) == Names(op)
  {
    hide Fold;
    if OneSource(op) {
      FoldedNames(scalar, op.source);
    } else if op.Join? {
      FoldedNames(scalar, op.left);
      FoldedNames(scalar, op.right);
    } else if op.UnionAll? && op.sources != [] {
      FoldedNames(scalar, op.sources[0]);
    }
  }

  lemma {:induction false} FoldPlain(scalar: Scalars, op: Op)
    requires Plain(op)
    ensures Plain(FoldOp(scalar, op))
  {
    hide Fold, PlainCond, Names;
    if OneSource(op) {
      FoldPlain(scalar, op.source);
    } else if op.Join? {
      FoldPlain(scalar, op.left);
      FoldPlain(scalar, op.right);
      FoldedNames(scalar, op.left);
      FoldPlainCond(scalar, op.on, Cols(op.left));
    } else if op.UnionAll? {
      forall i | 0 <= i < |op.sources| ensures Plain(FoldOp(scalar, op.sources[i])) {
        FoldPlain(scalar, op.sources[i]);
      }
    }
  }

  // ----- Collapsing

  lemma {:induction false} MergedNames(op: Op)
    ensures Names(Merged(op)) == Names(op)
  {
    if OneSource(op) {
      MergedNames(op.source);
    } else if op.Join? {
      MergedNames(op.left);
      MergedNames(op.right);
    } else if op.UnionAll? && op.sources != [] {
      MergedNames(op.sources[0]);
    }
  }

  lemma {:induction false} MergePlain(op: Op)
    requires Plain(op)
    ensures Plain(Merged(op))
  {
    hide PlainCond, Names;
    if OneSource(op) {
      MergePlain(op.source);
    } else if op.Join? {
      MergePlain(op.left);
      MergePlain(op.right);
      MergedNames(op.left);
    } else if op.UnionAll? {
      forall i | 0 <= i < |op.sources| ensures Plain(Merged(op.sources[i])) { MergePlain(op.sources[i]); }
    }
  }

  // ----- Joins on equalities only

  predicate NoJoins(op: Op) {
    if OneSource(op) then NoJoins(op.source)
    else match op
      case Join(_, _, _, _) => false
      case UnionAll(sources) => forall i :: 0 <= i < |sources| ==> NoJoins(sources[i])
      case _ => true
  }

  /** Every conjunct of every join equates its sides, and no filter stands above a join. */
  predicate EquiJoins(op: Op) {
    if op.Filter? then NoJoins(op.source)
    else if OneSource(op) then EquiJoins(op.source)
    else match op
      case Join(left, right, on, _) =>
        && (forall c :: c in Conjuncts(on) ==> EquatesSides(c, Cols(left)))
        && EquiJoins(left) && EquiJoins(right)
      case UnionAll(sources) => forall i :: 0 <= i < |sources| ==> EquiJoins(sources[i])
      case _ => true
  }

  lemma {:induction false} NoJoinsEqui(op: Op)
    requires NoJoins(op)
    ensures EquiJoins(op)
  {
    if OneSource(op) {
      NoJoinsEqui(op.source);
    } else if op.UnionAll? {
      forall i | 0 <= i < |op.sources| ensures EquiJoins(op.sources[i]) { NoJoinsEqui(op.sources[i]); }
    }
  }

  lemma {:induction false} NoJoinsTidy(op: Op, preds: seq<Expr>)
    requires NoJoins(op)
    ensures Tidy(op, preds)
    decreases op
  {
    hide Conjuncts, InlineAll;
    match op
    case Filter(cond, source) => NoJoinsTidy(source, Conjuncts(cond));
    case Sort(_, source) => NoJoinsTidy(source, preds);
    case NegateFreq(source) => NoJoinsTidy(source, preds);
    case Project(exprs, source) => NoJoinsTidy(source, InlineAll(preds, ExprsOf(exprs)));
    case UnionAll(sources) =>
      forall i | 0 <= i < |sources| ensures Tidy(sources[i], preds) { NoJoinsTidy(sources[i], preds); }
    case GroupBy(_, _, _, source) => NoJoinsTidy(source, []);
    case Limit(_, _, source) => NoJoinsTidy(source, []);
    case TableAlias(_, source) => NoJoinsTidy(source, []);
    case _ =>
  }

  lemma EquiAcross(c: Expr, n: nat)
    requires EquatesSides(c, n)
    ensures SideOf(c, n) == Across
  {
    hide MinMax, OfLeft, OfRight;
    SideBounds(c.args[0], n);
    SideBounds(c.args[1], n);
    var a, b := c.args[0], c.args[1];
    MinMaxExact(a, 0, 0);
    MinMaxExact(b, 0, 0);
    assert c.args == [a, b] && c.args[..1] == [a] && [a][..0] == [];
    assert MinMaxOf([a]) == MergeDeps(MinMaxOf([]), MinMax(a));
    assert MinMaxOf(c.args) == MergeDeps(MinMaxOf([a]), MinMax(b));
    CallReads(c);
  }

  lemma CallReads(c: Expr)
    requires c.Call?
    ensures MinMax(c) == MinMaxOf(c.args)
  {
  }

  lemma {:induction false} OnAcross(conds: seq<Expr>, n: nat, sides: set<Side>)
    requires forall c :: c in conds ==> EquatesSides(c, n)
    ensures On(conds, n, sides) == if Across in sides then conds else []
  {
    hide EquatesSides, SideOf;
    if conds != [] {
      var k := |conds| - 1;
      OnAcross(conds[..k], n, sides);
      assert conds[k] in conds && conds == conds[..k] + [conds[k]];
      EquiAcross(conds[k], n);
    }
  }

  lemma EquiParts(on: Expr, join: JoinType, n: nat)
    requires forall c :: c in Conjuncts(on) ==> EquatesSides(c, n)
    ensures
      var conds := Conjuncts(on);
      && LeftPart(join, [], conds, n) == [] && MoveAll(RightPart(join, [], conds, n), 0 - n) == []
      && PlainCond(Combine(KeptPart(join, [], conds, n)), n)
  {
    hide EquatesSides, SideOf, Conjuncts, Combine;
    var conds := Conjuncts(on);
    assert [] + conds == conds;
    OnAcross(conds, n, {Anywhere, OnLeft});
    OnAcross(conds, n, {Anywhere, OnRight});
    OnAcross(conds, n, {Across});
    OnAcross(conds, n, {OnLeft, Across});
    ConjunctsAtomic(on);
    CombineRoundTrip(conds);
  }

  lemma {:induction false} EquiTidy(op: Op)
    requires EquiJoins(op)
    ensures Tidy(op, [])
  {
    hide Conjuncts, Combine, LeftPart, RightPart, KeptPart, MoveAll, PlainCond, Names, EquatesSides;
    match op
    case Filter(cond, source) => NoJoinsTidy(source, Conjuncts(cond));
    case Project(exprs, source) =>
      EquiTidy(source);
      assert InlineAll([], ExprsOf(exprs)) == [];
    case UnionAll(sources) =>
      forall i | 0 <= i < |sources| ensures Tidy(sources[i], []) { EquiTidy(sources[i]); }
    case Join(left, right, on, join) =>
      EquiTidy(left);
      EquiTidy(right);
      EquiParts(on, join, Cols(left));
    case Sort(_, source) => EquiTidy(source);
    case NegateFreq(source) => EquiTidy(source);
    case GroupBy(_, _, _, source) => EquiTidy(source);
    case Limit(_, _, source) => EquiTidy(source);
    case TableAlias(_, source) => EquiTidy(source);
    case _ =>
  }
}
