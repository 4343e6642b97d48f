/** Constant folding: calls on constants are replaced by their value. */
module FoldConstants {
  import opened Bytes
  import opened Datums
  import opened Rows
  import opened Exprs
  import opened Plans
  import opened PlanAlgebra

  /** No call is left whose arguments are all constants. */
  predicate Folded(e: Expr) {
    match e
    case Constant(_, _) => true
    case Call(_, args) => AllFolded(args) && !AllConstant(args)
    case Aggregate(_, args) => AllFolded(args)
    case Column(_, _) => true
  }

  predicate AllFolded(es: seq<Expr>) {
    forall i :: 0 <= i < |es| ==> Folded(es[i])
  }

  predicate AllConstant(es: seq<Expr>) {
    forall i :: 0 <= i < |es| ==> es[i].Constant?
  }

  /** Interchangeable in every position: the same type, the same value on every row and every group. */
  ghost predicate Equivalent(env: Env, a: Expr, b: Expr) {
    && TypeOf(a) == TypeOf(b)
    && (forall t :: Eval(env, a, t) == Eval(env, b, t))
    && (forall rows :: EvalGroup(env, a, rows) == EvalGroup(env, b, rows))
    && (forall n: nat :: Scalar(a, n) ==> Scalar(b, n))
    && (forall n: nat :: Aggregating(a, n) ==> Aggregating(b, n))
  }

  ghost predicate AllEquivalent(env: Env, a: seq<Expr>, b: seq<Expr>) {
    |a| == |b| && forall i :: 0 <= i < |a| ==> Equivalent(env, a[i], b[i])
  }

  // ----- Expressions

  lemma {:induction false} EquivalentArgs(env: Env, a: seq<Expr>, b: seq<Expr>)
    requires AllEquivalent(env, a, b)
    ensures forall t :: EvalAll(env, a, t) == EvalAll(env, b, t)
    ensures forall rows :: EvalGroupAll(env, a, rows) == EvalGroupAll(env, b, rows)
    ensures forall n: nat :: AllScalar(a, n) ==> AllScalar(b, n)
    ensures forall n: nat :: AllAggregating(a, n) ==> AllAggregating(b, n)
  {
    hide Eval, EvalGroup, Scalar, Aggregating;
    assert forall i :: 0 <= i < |a| ==> Equivalent(env, a[i], b[i]);
  }

  lemma {:induction false} SameAccumulate(env: Env, sig: Signature, a: seq<Expr>, b: seq<Expr>, rows: seq<Row>)
    requires forall t :: EvalAll(env, a, t) == EvalAll(env, b, t)
    ensures Accumulate(env, sig, a, rows) == Accumulate(env, sig, b, rows)
  {
    hide EvalAll;
    if rows != [] { SameAccumulate(env, sig, a, b, rows[..|rows| - 1]); }
  }

  lemma EvalGroupCall(env: Env, sig: Signature, args: seq<Expr>, rows: seq<Row>)
    ensures EvalGroup(env, Call(sig, args), rows) == Apply(env, sig, EvalGroupAll(env, args, rows))
  {
    assert seq(|args|, i requires 0 <= i < |args| => EvalGroup(env, args[i], rows)) == EvalGroupAll(env, args, rows);
  }

  lemma EquivalentCall(env: Env, sig: Signature, a: seq<Expr>, b: seq<Expr>)
    requires AllEquivalent(env, a, b)
    ensures Equivalent(env, Call(sig, a), Call(sig, b))
  {
    hide EvalAll, EvalGroupAll, Apply;
    EquivalentArgs(env, a, b);
    CallScalar(env, sig, a, b);
    forall t ensures Eval(env, Call(sig, a), t) == Eval(env, Call(sig, b), t) {
      EvalCall(env, sig, a, t);
      EvalCall(env, sig, b, t);
    }
    forall rows ensures EvalGroup(env, Call(sig, a), rows) == EvalGroup(env, Call(sig, b), rows) {
      EvalGroupCall(env, sig, a, rows);
      EvalGroupCall(env, sig, b, rows);
    }
  }

  lemma CallScalar(env: Env, sig: Signature, a: seq<Expr>, b: seq<Expr>)
    requires |a| == |b|
    requires forall n: nat :: AllScalar(a, n) ==> AllScalar(b, n)
    requires forall n: nat :: AllAggregating(a, n) ==> AllAggregating(b, n)
    ensures forall n: nat :: Scalar(Call(sig, a), n) ==> Scalar(Call(sig, b), n)
    ensures forall n: nat :: Aggregating(Call(sig, a), n) ==> Aggregating(Call(sig, b), n)
  {
    forall n: nat | Scalar(Call(sig, a), n) ensures Scalar(Call(sig, b), n) { assert AllScalar(a, n); }
    forall n: nat | Aggregating(Call(sig, a), n) ensures Aggregating(Call(sig, b), n) { assert AllAggregating(a, n); }
  }

  lemma EquivalentAggregate(env: Env, sig: Signature, a: seq<Expr>, b: seq<Expr>)
    requires AllEquivalent(env, a, b)
    ensures Equivalent(env, Aggregate(sig, a), Aggregate(sig, b))
  {
    hide EvalAll, EvalGroupAll, AllEquivalent, AllScalar;
    EquivalentArgs(env, a, b);
    forall rows ensures EvalGroup(env, Aggregate(sig, a), rows) == EvalGroup(env, Aggregate(sig, b), rows) {
      SameAccumulate(env, sig, a, b, rows);
    }
  }

  function ConstantValues(es: seq<Expr>): (r: Tuple)
    requires AllConstant(es)
    ensures |r| == |es| && forall i :: 0 <= i < |es| ==> r[i] == es[i].value
  {
    seq(|es|, i requires 0 <= i < |es| => es[i].value)
  }

  lemma EquivalentConstant(env: Env, sig: Signature, args: seq<Expr>)
    requires AllConstant(args)
    ensures Equivalent(env, Call(sig, args), Constant(Apply(env, sig, ConstantValues(args)), sig.ret))
  {
    hide Apply;
    var v := ConstantValues(args);
    forall t ensures Eval(env, Call(sig, args), t) == Apply(env, sig, v) {
      EvalCall(env, sig, args, t);
      assert EvalAll(env, args, t) == v;
    }
    forall rows ensures EvalGroup(env, Call(sig, args), rows) == Apply(env, sig, v) {
      EvalGroupCall(env, sig, args, rows);
      assert EvalGroupAll(env, args, rows) == v;
    }
  }

  lemma EquivalentSelf(env: Env, e: Expr)
    ensures Equivalent(env, e, e)
  {
  }

  lemma EquivalentTransitive(env: Env, a: Expr, b: Expr, c: Expr)
    requires Equivalent(env, a, b) && Equivalent(env, b, c)
    ensures Equivalent(env, a, c)
  {
    hide Eval, EvalGroup, Scalar, Aggregating;
  }

  /** An expression with its calls on constants replaced by their values, arguments first. */
  function Fold(scalar: Scalars, e: Expr): (r: Expr) {
    match e
    case Call(sig, args) =>
      var folded := seq(|args|, i requires 0 <= i < |args| => Fold(scalar, args[i]));
      if AllConstant(folded) then Constant(ApplyScalar(scalar, sig, ConstantValues(folded)), sig.ret)
      else Call(sig, folded)
    case Aggregate(sig, args) => Aggregate(sig, seq(|args|, i requires 0 <= i < |args| => Fold(scalar, args[i])))
    case _ => e
  }

  function FoldEach(scalar: Scalars, es: seq<Expr>): (r: seq<Expr>)
    ensures |r| == |es| && forall i :: 0 <= i < |es| ==> r[i] == Fold(scalar, es[i])
  {
    seq(|es|, i requires 0 <= i < |es| => Fold(scalar, es[i]))
  }

  lemma FoldArgs(scalar: Scalars, e: Expr)
    ensures e.Call? ==>
      var folded := FoldEach(scalar, e.args);
      Fold(scalar, e) ==
        if AllConstant(folded) then Constant(ApplyScalar(scalar, e.sig, ConstantValues(folded)), e.sig.ret)
        else Call(e.sig, folded)
    ensures e.Aggregate? ==> Fold(scalar, e) == Aggregate(e.sig, FoldEach(scalar, e.args))
  {
    hide ApplyScalar, AllConstant;
    if e.Call? || e.Aggregate? {
      assert seq(|e.args|, i requires 0 <= i < |e.args| => Fold(scalar, e.args[i])) == FoldEach(scalar, e.args);
    }
  }

  /** Folding keeps what an expression means; what is already folded is left alone. */
  lemma {:induction false} FoldMeans(env: Env, e: Expr)
    ensures Equivalent(env, e, Fold(env.scalar, e))
    ensures Folded(Fold(env.scalar, e)) && (Folded(e) ==> Fold(env.scalar, e) == e)
    decreases e, 0
  {
    hide Equivalent, AllEquivalent, Fold, ApplyScalar;
    FoldArgs(env.scalar, e);
    match e
    case Call(sig, args) =>
      var folded := FoldEach(env.scalar, args);
      FoldAllMeans(env, args);
      EquivalentCall(env, sig, args, folded);
      if AllConstant(folded) {
        EquivalentConstant(env, sig, folded);
        EquivalentTransitive(env, e, Call(sig, folded), Fold(env.scalar, e));
      }
    case Aggregate(sig, args) =>
      FoldAllMeans(env, args);
      EquivalentAggregate(env, sig, args, FoldEach(env.scalar, args));
    case _ =>
      FoldLeaf(env.scalar, e);
      EquivalentSelf(env, e);
  }

  lemma FoldLeaf(scalar: Scalars, e: Expr)
    requires e.Constant? || e.Column?
    ensures Fold(scalar, e) == e
  {
  }

  lemma {:induction false} FoldAllMeans(env: Env, es: seq<Expr>)
    ensures AllEquivalent(env, es, FoldEach(env.scalar, es))
    ensures AllFolded(FoldEach(env.scalar, es)) && (AllFolded(es) ==> FoldEach(env.scalar, es) == es)
    decreases es, 1
  {
    hide Equivalent, Folded, Fold;
    forall i | 0 <= i < |es|
      ensures Equivalent(env, es[i], Fold(env.scalar, es[i])) && Folded(Fold(env.scalar, es[i]))
      ensures Folded(es[i]) ==> Fold(env.scalar, es[i]) == es[i]
    {
      FoldMeans(env, es[i]);
    }
  }

  /** Literal booleans. */
  function Booleans(bs: seq<bool>): (r: seq<Expr>)
    ensures |r| == |bs| && forall i :: 0 <= i < |bs| ==> r[i] == Constant(Boolean(bs[i]), BooleanType)
  {
    seq(|bs|, i requires 0 <= i < |bs| => Constant(Boolean(bs[i]), BooleanType))
  }

  /** A conjunction of literals folds to the literal of their conjunction. */
  lemma {:induction false} FoldCombined(scalar: Scalars, bs: seq<bool>)
    ensures Fold(scalar, Combine(Booleans(bs))) ==
      Constant(Boolean(forall i :: 0 <= i < |bs| ==> bs[i]), BooleanType)
  {
    hide Fold;
    var es, e := Booleans(bs), Combine(Booleans(bs));
    if |bs| <= 1 {
      FoldLeaf(scalar, e);
    } else {
      var k := |bs| - 1;
      FoldCombined(scalar, bs[..k]);
      assert es[..k] == Booleans(bs[..k]);
      FoldArgs(scalar, e);
      FoldLeaf(scalar, es[k]);
      var all := forall i :: 0 <= i < k ==> bs[..k][i];
      var folded := FoldEach(scalar, e.args);
      assert folded == [Constant(Boolean(all), BooleanType), es[k]];
      assert ConstantValues(folded) == [Boolean(all), Boolean(bs[k])];
      assert all <==> forall i :: 0 <= i < k ==> bs[i] by { assert forall i :: 0 <= i < k ==> bs[..k][i] == bs[i]; }
    }
  }

  /** Folds one expression in place, arguments first. */
  method FoldExpr(scalar: Scalars, e: Expr) returns (r: Expr)
    ensures r == Fold(scalar, e)
    decreases e
  {
    hide Fold, ApplyScalar, AllConstant;
    FoldArgs(scalar, e);
    match e {
      case Call(sig, args) =>
        var folded := FoldAll(scalar, args);
        r := Call(sig, folded);
        if AllConstant(folded) { r := Constant(ApplyScalar(scalar, sig, ConstantValues(folded)), sig.ret); }
      case Aggregate(sig, args) =>
        var folded := FoldAll(scalar, args);
        r := Aggregate(sig, folded);
      case _ =>
        FoldLeaf(scalar, e);
        r := e;
    }
  }

  method FoldAll(scalar: Scalars, es: seq<Expr>) returns (r: seq<Expr>)
    ensures r == FoldEach(scalar, es)
    decreases es
  {
    hide Fold;
    r := [];
    for i := 0 to |es|
      invariant |r| == i && forall j :: 0 <= j < i ==> r[j] == Fold(scalar, es[j])
    {
      var e := FoldExpr(scalar, es[i]);
      r := r + [e];
    }
  }

  // ----- Plans

  predicate PlanFolded(op: Op) {
    match op
    case Single => true
    case Project(exprs, source) => AllFolded(ExprsOf(exprs)) && PlanFolded(source)
    case GroupBy(_, exprs, keys, source) => AllFolded(ExprsOf(exprs)) && AllFolded(keys) && PlanFolded(source)
    case Filter(cond, source) => Folded(cond) && PlanFolded(source)
    case Join(left, right, on, _) => Folded(on) && PlanFolded(left) && PlanFolded(right)
    case Sort(sorts, source) => AllFolded(SortExprs(sorts)) && PlanFolded(source)
    case Limit(_, _, source) => PlanFolded(source)
    case Values(_, data) => forall i :: 0 <= i < |data| ==> AllFolded(data[i])
    case TableAlias(_, source) => PlanFolded(source)
    case UnionAll(sources) => forall i :: 0 <= i < |sources| ==> PlanFolded(sources[i])
    case ResolvedTable(_, _) => true
    case NegateFreq(source) => PlanFolded(source)
    case FileScan(_, _) => true
  }

  lemma EquivalentFilter(env: Env, a: Expr, b: Expr, rows: seq<Row>)
    requires Equivalent(env, a, b)
    ensures Keep(env, rows, [a]) == Keep(env, rows, [b])
  {
    hide Eval;
    forall i | 0 <= i < |rows| ensures AllPass(env, [a], rows[i].0) <==> AllPass(env, [b], rows[i].0) {
      AllPassOne(env, a, rows[i].0);
      AllPassOne(env, b, rows[i].0);
    }
    KeepSame(env, rows, [a], [b]);
  }

  lemma {:induction false} EquivalentMatch(env: Env, a: Expr, b: Expr, l: Row, rows: seq<Row>)
    requires forall t :: Passes(env, a, t) == Passes(env, b, t)
    ensures MatchRows(env, l, rows, a) == MatchRows(env, l, rows, b)
  {
    hide Passes;
    if rows != [] { EquivalentMatch(env, a, b, l, rows[1..]); }
  }

  lemma {:induction false} EquivalentJoin(env: Env, a: Expr, b: Expr, lefts: seq<Row>, rights: seq<Row>,
                                          join: JoinType, n: nat)
    requires forall t :: Passes(env, a, t) == Passes(env, b, t)
    ensures JoinRows(env, lefts, rights, a, join, n) == JoinRows(env, lefts, rights, b, join, n)
  {
    hide Passes, MatchRows;
    if lefts != [] {
      EquivalentMatch(env, a, b, lefts[0], rights);
      EquivalentJoin(env, a, b, lefts[1..], rights, join, n);
    }
  }

  lemma {:induction false} EquivalentInsert(env: Env, a: seq<SortKey>, b: seq<SortKey>, row: Row, rows: seq<Row>)
    requires forall row :: SortBytes(env, a, row) == SortBytes(env, b, row)
    ensures InsertRow(env, a, row, rows) == InsertRow(env, b, row, rows)
  {
    hide SortBytes, Cmp;
    if rows != [] { EquivalentInsert(env, a, b, row, rows[1..]); }
  }

  lemma {:induction false} EquivalentSort(env: Env, a: seq<SortKey>, b: seq<SortKey>, rows: seq<Row>)
    requires forall row :: SortBytes(env, a, row) == SortBytes(env, b, row)
    ensures SortRows(env, a, rows) == SortRows(env, b, rows)
  {
    hide SortBytes, InsertRow;
    if rows != [] {
      EquivalentSort(env, a, b, rows[1..]);
      EquivalentInsert(env, a, b, rows[0], SortRows(env, a, rows[1..]));
    }
  }

  lemma EquivalentGroup(env: Env, id: nat, a: seq<Expr>, b: seq<Expr>, keys: seq<Expr>, keys': seq<Expr>,
                        rows: seq<Row>)
    requires AllEquivalent(env, a, b) && AllEquivalent(env, keys, keys')
    ensures GroupRows(env, id, a, rows, RowKeys(env, keys, rows)) ==
      GroupRows(env, id, b, rows, RowKeys(env, keys', rows))
    ensures EvalGroupAll(env, a, rows) == EvalGroupAll(env, b, rows)
  {
    hide EvalAll, EvalGroupAll, AllEquivalent, DrainOrder, Select;
    EquivalentArgs(env, a, b);
    EquivalentArgs(env, keys, keys');
    assert RowKeys(env, keys, rows) == RowKeys(env, keys', rows);
  }

  function FoldNames(scalar: Scalars, ns: seq<Named>): (r: seq<Named>)
    ensures |r| == |ns| && forall i :: 0 <= i < |ns| ==> r[i] == Named(ns[i].alias, Fold(scalar, ns[i].expr))
    ensures ExprsOf(r) == FoldEach(scalar, ExprsOf(ns)) && AliasesOf(r) == AliasesOf(ns)
  {
    seq(|ns|, i requires 0 <= i < |ns| => Named(ns[i].alias, Fold(scalar, ns[i].expr)))
  }

  function FoldSorts(scalar: Scalars, ks: seq<SortKey>): (r: seq<SortKey>)
    ensures |r| == |ks| && forall i :: 0 <= i < |ks| ==> r[i] == SortKey(ks[i].order, Fold(scalar, ks[i].expr))
    ensures SortExprs(r) == FoldEach(scalar, SortExprs(ks)) && SortOrders(r) == SortOrders(ks)
  {
    seq(|ks|, i requires 0 <= i < |ks| => SortKey(ks[i].order, Fold(scalar, ks[i].expr)))
  }

  /** A node with its own expressions folded. */
  function FoldNode(scalar: Scalars, op: Op): (r: Op) {
    match op
    case Project(exprs, source) => Project(FoldNames(scalar, exprs), source)
    case GroupBy(id, exprs, keys, source) => GroupBy(id, FoldNames(scalar, exprs), FoldEach(scalar, keys), source)
    case Filter(cond, source) => Filter(Fold(scalar, cond), source)
    case Sort(sorts, source) => Sort(FoldSorts(scalar, sorts), source)
    case Join(left, right, on, join) => Join(left, right, Fold(scalar, on), join)
    case Values(fields, data) =>
      Values(fields, seq(|data|, i requires 0 <= i < |data| => FoldEach(scalar, data[i])))
    case _ => op
  }

  /** A plan with the expressions of every node folded. */
  function FoldOp(scalar: Scalars, op: Op): (r: Op) {
    if OneSource(op) then FoldNode(scalar, WithSource(op, FoldOp(scalar, op.source)))
    else match op
      case Join(left, right, on, join) =>
        FoldNode(scalar, Join(FoldOp(scalar, left), FoldOp(scalar, right), on, join))
      case UnionAll(sources) =>
        UnionAll(seq(|sources|, i requires 0 <= i < |sources| => FoldOp(scalar, sources[i])))
      case _ => FoldNode(scalar, op)
  }

  /** The node's rows and columns stay, and nothing of its own is left to fold. */
  ghost predicate NodeFolds(env: Env, op: Op) {
    var r := FoldNode(env.scalar, op);
    Same(env, op, r) && PlanFolded(r) && (PlanFolded(op) ==> r == op)
  }

  lemma FoldProject(env: Env, op: Op)
    requires op.Project? && WellFormed(env, op) && PlanFolded(op.source)
    ensures NodeFolds(env, op)
  {
    hide EvalAll, AllEquivalent, Equivalent, AllScalar, AllFolded, Fold;
    var es := FoldNames(env.scalar, op.exprs);
    FoldAllMeans(env, ExprsOf(op.exprs));
    EquivalentArgs(env, ExprsOf(op.exprs), ExprsOf(es));
    var r := Project(es, op.source);
    assert Run(env, r) == Run(env, op);
    NamesFolded(env.scalar, op.exprs);
  }

  lemma NamesFolded(scalar: Scalars, ns: seq<Named>)
    ensures FoldEach(scalar, ExprsOf(ns)) == ExprsOf(ns) ==> FoldNames(scalar, ns) == ns
  {
    hide Fold;
    if FoldEach(scalar, ExprsOf(ns)) == ExprsOf(ns) {
      forall i | 0 <= i < |ns| ensures FoldNames(scalar, ns)[i] == ns[i] { assert ExprsOf(ns)[i] == ns[i].expr; }
    }
  }

  lemma FoldGroup(env: Env, op: Op)
    requires op.GroupBy? && WellFormed(env, op) && PlanFolded(op.source)
    ensures NodeFolds(env, op)
  {
    hide EvalAll, EvalGroupAll, AllEquivalent, Equivalent, AllScalar, AllAggregating, GroupRows, RowKeys, AllFolded;
    hide Fold;
    var es, keys := FoldNames(env.scalar, op.exprs), FoldEach(env.scalar, op.keys);
    FoldAllMeans(env, ExprsOf(op.exprs));
    FoldAllMeans(env, op.keys);
    EquivalentArgs(env, ExprsOf(op.exprs), ExprsOf(es));
    EquivalentArgs(env, op.keys, keys);
    EquivalentGroup(env, op.id, ExprsOf(op.exprs), ExprsOf(es), op.keys, keys, Run(env, op.source));
    NamesFolded(env.scalar, op.exprs);
  }

  lemma FoldFilter(env: Env, op: Op)
    requires op.Filter? && WellFormed(env, op) && PlanFolded(op.source)
    ensures NodeFolds(env, op)
  {
    hide Keep, Eval, EvalGroup, Folded, Fold;
    FoldMeans(env, op.cond);
    EquivalentFilter(env, op.cond, Fold(env.scalar, op.cond), Run(env, op.source));
  }

  lemma FoldSort(env: Env, op: Op)
    requires op.Sort? && WellFormed(env, op) && PlanFolded(op.source)
    ensures NodeFolds(env, op)
  {
    hide EvalAll, AllEquivalent, Equivalent, AllScalar, SortRows, AllFolded, Fold;
    var sorts := FoldSorts(env.scalar, op.sorts);
    FoldAllMeans(env, SortExprs(op.sorts));
    EquivalentArgs(env, SortExprs(op.sorts), SortExprs(sorts));
    EquivalentSort(env, op.sorts, sorts, Run(env, op.source));
    if PlanFolded(op) {
      forall i | 0 <= i < |sorts| ensures sorts[i] == op.sorts[i] {
        assert SortExprs(op.sorts)[i] == op.sorts[i].expr;
      }
    }
  }

  lemma FoldJoin(env: Env, op: Op)
    requires op.Join? && WellFormed(env, op) && PlanFolded(op.left) && PlanFolded(op.right)
    ensures NodeFolds(env, op)
  {
    hide JoinRows, Eval, EvalGroup, Folded, Fold;
    FoldMeans(env, op.on);
    EquivalentJoin(env, op.on, Fold(env.scalar, op.on), Run(env, op.left), Run(env, op.right), op.joinType,
                   Cols(op.right));
  }

  lemma FoldValues(env: Env, op: Op)
    requires op.Values? && WellFormed(env, op)
    ensures NodeFolds(env, op)
  {
    hide EvalAll, AllEquivalent, Equivalent, AllScalar, AllFolded, Fold;
    var data := FoldNode(env.scalar, op).data;
    forall i | 0 <= i < |data|
      ensures |data[i]| == |op.data[i]| && AllFolded(data[i]) && AllScalar(data[i], 0)
      ensures EvalAll(env, data[i], []) == EvalAll(env, op.data[i], [])
      ensures AllFolded(op.data[i]) ==> data[i] == op.data[i]
    {
      FoldAllMeans(env, op.data[i]);
      EquivalentArgs(env, op.data[i], data[i]);
    }
    assert Run(env, FoldNode(env.scalar, op)) == Run(env, op);
  }

  lemma FoldOne(env: Env, op: Op)
    requires WellFormed(env, op) && OneSource(op) && PlanFolded(op.source)
    ensures NodeFolds(env, op)
  {
    hide NodeFolds, WellFormed, PlanFolded;
    match op
    case Project(_, _) => FoldProject(env, op);
    case GroupBy(_, _, _, _) => FoldGroup(env, op);
    case Filter(_, _) => FoldFilter(env, op);
    case Sort(_, _) => FoldSort(env, op);
    case _ => FoldOther(env, op);
  }

  lemma FoldOther(env: Env, op: Op)
    requires (op.Limit? || op.TableAlias? || op.NegateFreq?) && WellFormed(env, op) && PlanFolded(op.source)
    ensures NodeFolds(env, op)
  {
    hide Run, WellFormed, Names;
  }

  /** Rows and columns of a plan stay, no foldable call is left, and folding again changes nothing. */
  lemma {:induction false} FoldRun(env: Env, op: Op)
    requires WellFormed(env, op)
    ensures
      var r := FoldOp(env.scalar, op);
      Same(env, op, r) && PlanFolded(r) && (PlanFolded(op) ==> r == op)
    decreases op, 1
  {
    hide Run, Names, AllFolded, Folded, FoldNode, WellFormed;
    if OneSource(op) {
      var s := FoldOp(env.scalar, op.source);
      SourceFormed(env, op);
      FoldRun(env, op.source);
      ReplaceSource(env, op, s);
      SourceFolded(op, s);
      FoldOne(env, WithSource(op, s));
    } else if op.Join? {
      FoldSides(env, op);
    } else if op.UnionAll? {
      FoldBranches(env, op);
    } else if op.Values? {
      FoldValues(env, op);
    } else {
      FoldTable(env, op);
    }
  }

  lemma FoldTable(env: Env, op: Op)
    requires WellFormed(env, op) && !OneSource(op) && !op.Join? && !op.UnionAll? && !op.Values?
    ensures FoldNode(env.scalar, op) == op && Same(env, op, op) && PlanFolded(op)
  {
  }

  lemma {:induction false} FoldSides(env: Env, op: Op)
    requires op.Join? && WellFormed(env, op)
    ensures
      var r := FoldOp(env.scalar, op);
      Same(env, op, r) && PlanFolded(r) && (PlanFolded(op) ==> r == op)
    decreases op, 0
  {
    hide Run, Names, AllFolded, Folded, FoldNode, WellFormed;
    SidesFormed(env, op);
    FoldRun(env, op.left);
    FoldRun(env, op.right);
    var join := Join(FoldOp(env.scalar, op.left), FoldOp(env.scalar, op.right), op.on, op.joinType);
    JoinSame(env, op, join.left, join.right);
    FoldJoin(env, join);
  }

  lemma {:induction false} FoldBranches(env: Env, op: Op)
    requires op.UnionAll? && WellFormed(env, op)
    ensures
      var r := FoldOp(env.scalar, op);
      Same(env, op, r) && PlanFolded(r) && (PlanFolded(op) ==> r == op)
    decreases op, 0
  {
    hide Run, WellFormed, Names;
    UnionParts(env, op);
    var sources := FoldOp(env.scalar, op).sources;
    forall i | 0 <= i < |op.sources|
      ensures Same(env, op.sources[i], sources[i]) && PlanFolded(sources[i])
      ensures PlanFolded(op.sources[i]) ==> sources[i] == op.sources[i]
    {
      FoldRun(env, op.sources[i]);
    }
    ReplaceSources(env, op, sources);
  }

  // ----- The pass

  method FoldNamed(scalar: Scalars, ns: seq<Named>) returns (r: seq<Named>)
    ensures r == FoldNames(scalar, ns)
  {
    hide Fold;
    var es := FoldAll(scalar, ExprsOf(ns));
    r := seq(|ns|, i requires 0 <= i < |ns| => Named(ns[i].alias, es[i]));
  }

  /** Folds the expressions a node owns. */
  method FoldOwn(scalar: Scalars, op: Op) returns (r: Op)
    ensures r == FoldNode(scalar, op)
  {
    hide Fold;
    match op {
      case Project(exprs, source) =>
        var es := FoldNamed(scalar, exprs);
        r := Project(es, source);
      case GroupBy(id, exprs, keys, source) =>
        var es := FoldNamed(scalar, exprs);
        var ks := FoldAll(scalar, keys);
        r := GroupBy(id, es, ks, source);
      case Filter(cond, source) =>
        var c := FoldExpr(scalar, cond);
        r := Filter(c, source);
      case Sort(sorts, source) =>
        var es := FoldAll(scalar, SortExprs(sorts));
        r := Sort(seq(|es|, i requires 0 <= i < |es| => SortKey(sorts[i].order, es[i])), source);
        assert r.sorts == FoldSorts(scalar, sorts);
      case Join(left, right, on, join) =>
        var c := FoldExpr(scalar, on);
        r := Join(left, right, c, join);
      case Values(fields, data) =>
        var rows: seq<seq<Expr>> := [];
        for i := 0 to |data|
          invariant |rows| == i && forall j :: 0 <= j < i ==> rows[j] == FoldEach(scalar, data[j])
        {
          var row := FoldAll(scalar, data[i]);
          rows := rows + [row];
        }
        r := Values(fields, rows);
        assert rows == FoldNode(scalar, op).data;
      case _ => r := op;
    }
  }

  /** Folds a whole plan, children first. */
  method FoldPlan(scalar: Scalars, op: Op) returns (r: Op)
    ensures r == FoldOp(scalar, op)
    decreases op
  {
    hide FoldNode;
    if OneSource(op) {
      var s := FoldPlan(scalar, op.source);
      r := FoldOwn(scalar, WithSource(op, s));
    } else if op.Join? {
      var left := FoldPlan(scalar, op.left);
      var right := FoldPlan(scalar, op.right);
      r := FoldOwn(scalar, Join(left, right, op.on, op.joinType));
    } else if op.UnionAll? {
      var sources: seq<Op> := [];
      for i := 0 to |op.sources|
        invariant |sources| == i && forall j :: 0 <= j < i ==> sources[j] == FoldOp(scalar, op.sources[j])
      {
        var s := FoldPlan(scalar, op.sources[i]);
        sources := sources + [s];
      }
      r := UnionAll(sources);
      assert sources == FoldOp(scalar, op).sources;
    } else {
      r := FoldOwn(scalar, op);
    }
  }

  lemma SourceFolded(op: Op, s: Op)
    requires OneSource(op)
    ensures PlanFolded(op) ==> PlanFolded(op.source)
    ensures PlanFolded(op) && s == op.source ==> WithSource(op, s) == op
    ensures OneSource(WithSource(op, s)) && WithSource(op, s).source == s
  {
    hide AllFolded, Folded;
  }

  lemma {:induction false} ConstantsOnly(e: Expr)
    requires Folded(e) && Scalar(e, 0)
    ensures e.Constant?
  {
    if e.Call? {
      var i :| 0 <= i < |e.args| && !e.args[i].Constant?;
      ConstantsOnly(e.args[i]);
    }
  }

  /** After folding, the rows of a VALUES are literals, as the physical plan needs them to be. */
  lemma ValuesAreLiterals(env: Env, op: Op)
    requires op.Values? && WellFormed(env, op) && PlanFolded(op)
    ensures forall i :: 0 <= i < |op.data| ==> AllConstant(op.data[i])
  {
    forall i, j | 0 <= i < |op.data| && 0 <= j < |op.data[i]| ensures op.data[i][j].Constant? {
      ConstantsOnly(op.data[i][j]);
    }
  }
}
