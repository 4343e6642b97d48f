/** Lowering a normalised plan to executors: the group-by and join arms, and why the rows stay the same. */
module Lowering {
  import opened Datums
  import opened Rows
  import opened Exprs
  import opened Plans
  import opened PlanAlgebra
  import opened NormalizeJoins
  import opened Physical
  import FoldConstants
  import Pushdown
  import Hashing = HashJoin
  import LimitExec = Limit

  // ----- Group by over key-prefixed rows

  /** The same rows with `k` more columns in front. */
  ghost predicate Prefixed(a: seq<Row>, b: seq<Row>, k: nat) {
    |a| == |b| && forall i :: 0 <= i < |a| ==> a[i].1 == b[i].1 && |a[i].0| == k + |b[i].0| && a[i].0[k..] == b[i].0
  }

  lemma EvalPrefixed(env: Env, e: Expr, k: nat, t: Tuple, u: Tuple)
    requires Scalar(e, |t|) && |u| == k + |t| && u[k..] == t
    ensures Eval(env, Move(e, k), u) == Eval(env, e, t)
  {
    Pushdown.ReadsScalar(e, |t|);
    forall i | 0 <= i < |t| ensures u[i + k] == t[i] { assert u[k..][i] == u[k + i]; }
    EvalMoved(env, e, k, 0, |t|, t, u);
  }

  lemma {:induction false} AccumulateMoved(env: Env, sig: Signature, args: seq<Expr>, k: nat, n: nat, a: seq<Row>,
                                           b: seq<Row>)
    requires AllScalar(args, n) && Width(b, n) && Prefixed(a, b, k)
    ensures Accumulate(env, sig, MoveAll(args, k), a) == Accumulate(env, sig, args, b)
  {
    hide Eval, Scalar, Move;
    if a != [] {
      var m := |a| - 1;
      AccumulateMoved(env, sig, args, k, n, a[..m], b[..m]);
      forall i | 0 <= i < |args| ensures Eval(env, MoveAll(args, k)[i], a[m].0) == Eval(env, args[i], b[m].0) {
        assert Scalar(args[i], n);
        EvalPrefixed(env, args[i], k, b[m].0, a[m].0);
      }
      assert EvalAll(env, MoveAll(args, k), a[m].0) == EvalAll(env, args, b[m].0);
    }
  }

  lemma {:induction false} FirstMoved(offset: nat, k: nat, n: nat, a: seq<Row>, b: seq<Row>)
    requires offset < n && Width(b, n) && Prefixed(a, b, k)
    ensures FirstValue(offset + k, a) == FirstValue(offset, b)
  {
    if a != [] {
      var m := |a| - 1;
      FirstMoved(offset, k, n, a[..m], b[..m]);
      assert a[m].0[k..][offset] == a[m].0[offset + k];
    }
  }

  /** References moved past the key columns aggregate the same values. */
  lemma {:induction false} EvalGroupMoved(env: Env, e: Expr, k: nat, n: nat, a: seq<Row>, b: seq<Row>)
    requires Aggregating(e, n) && Width(b, n) && Prefixed(a, b, k)
    ensures EvalGroup(env, Move(e, k), a) == EvalGroup(env, e, b)
  {
    hide Prefixed, Width;
    match e
    case Call(sig, args) =>
      var moved := Move(e, k).args;
      forall i | 0 <= i < |args| ensures EvalGroup(env, moved[i], a) == EvalGroup(env, args[i], b) {
        EvalGroupMoved(env, args[i], k, n, a, b);
      }
      FoldConstants.EvalGroupCall(env, sig, args, b);
      FoldConstants.EvalGroupCall(env, sig, moved, a);
      assert EvalGroupAll(env, moved, a) == EvalGroupAll(env, args, b);
    case Aggregate(sig, args) =>
      AccumulateMoved(env, sig, args, k, n, a, b);
      assert Move(e, k).args == MoveAll(args, k);
    case Column(offset, _) => FirstMoved(offset, k, n, a, b);
    case Constant(_, _) =>
  }

  lemma {:induction false} SelectPrefixed(a: seq<Row>, b: seq<Row>, ks: seq<Tuple>, key: Tuple, k: nat, n: nat)
    requires Prefixed(a, b, k) && |ks| == |a| && Width(b, n)
    ensures Prefixed(Select(a, ks, key), Select(b, ks, key), k) && Width(Select(b, ks, key), n)
  {
    if a != [] {
      var m := |a| - 1;
      SelectPrefixed(a[..m], b[..m], ks[..m], key, k, n);
    }
  }

  /** Grouping key-prefixed rows by their prefix is grouping the rows by their key expressions. */
  lemma GroupLowered(env: Env, id: nat, es: seq<Expr>, keys: seq<Expr>, a: seq<Row>, b: seq<Row>, n: nat)
    requires AllAggregating(es, n) && Width(b, n) && Prefixed(a, b, |keys|)
    requires forall i :: 0 <= i < |a| ==> a[i].0[..|keys|] == EvalAll(env, keys, b[i].0)
    ensures AtLeast(a, |keys|)
    ensures GroupRows(env, id, MoveAll(es, |keys|), a, PrefixKeys(a, |keys|)) ==
      GroupRows(env, id, es, b, RowKeys(env, keys, b))
  {
    hide EvalGroup, Aggregating, EvalAll, Select, DrainOrder, Move, CanonTuple;
    var k, ks := |keys|, RowKeys(env, keys, b);
    assert PrefixKeys(a, k) == ks;
    var d := DrainOrder(env, id, ks);
    forall i | 0 <= i < |d|
      ensures EvalGroupAll(env, MoveAll(es, k), Select(a, ks, d[i])) == EvalGroupAll(env, es, Select(b, ks, d[i]))
    {
      GroupMoved(env, es, a, b, ks, d[i], k, n);
    }
  }

  lemma GroupMoved(env: Env, es: seq<Expr>, a: seq<Row>, b: seq<Row>, ks: seq<Tuple>, key: Tuple, k: nat, n: nat)
    requires AllAggregating(es, n) && Width(b, n) && Prefixed(a, b, k) && |ks| == |a|
    ensures EvalGroupAll(env, MoveAll(es, k), Select(a, ks, key)) == EvalGroupAll(env, es, Select(b, ks, key))
  {
    hide EvalGroup, Aggregating, Select, Move, Prefixed;
    SelectPrefixed(a, b, ks, key, k, n);
    SameCount(a, b, k);
    forall i | 0 <= i < |es| ensures EvalGroup(env, MoveAll(es, k)[i], Select(a, ks, key)) ==
      EvalGroup(env, es[i], Select(b, ks, key)) {
      assert Aggregating(es[i], n);
      EvalGroupMoved(env, es[i], k, n, Select(a, ks, key), Select(b, ks, key));
    }
  }

  lemma SameCount(a: seq<Row>, b: seq<Row>, k: nat)
    requires Prefixed(a, b, k)
    ensures |a| == |b|
  {
  }

  /** The project below a hash group puts the keys in front of the row. */
  lemma KeyedProject(env: Env, keys: seq<Expr>, refs: seq<Expr>, rows: seq<Row>, n: nat)
    requires InOrder(refs, 0) && |refs| == n && Width(rows, n)
    ensures
      var a := ProjectRows(env, keys + refs, rows);
      Prefixed(a, rows, |keys|) && forall i :: 0 <= i < |a| ==> a[i].0[..|keys|] == EvalAll(env, keys, rows[i].0)
  {
    hide InOrder, EvalAll;
    var a := ProjectRows(env, keys + refs, rows);
    forall i | 0 <= i < |rows| ensures a[i].0 == EvalAll(env, keys, rows[i].0) + rows[i].0 {
      EvalAllConcat(env, keys, refs, rows[i].0);
      EvalInOrder(env, refs, 0, rows[i].0);
    }
  }

  // ----- Plans that are ready to be lowered

  /** The rows of every VALUES are literals. */
  predicate Literals(op: Op) {
    if OneSource(op) then Literals(op.source)
    else match op
      case Join(left, right, _, _) => Literals(left) && Literals(right)
      case UnionAll(sources) => forall i :: 0 <= i < |sources| ==> Literals(sources[i])
      case Values(_, data) => forall i :: 0 <= i < |data| ==> FoldConstants.AllConstant(data[i])
      case _ => true
  }

  /** Hashing agrees with every join's condition, and joins sit below projects that do not read the right
      key columns. */
  ghost predicate Ready(env: Env, op: Op) {
    if op.Project? && op.source.Join? then
      && AllAvoid(ExprsOf(op.exprs), Cols(op.source.left), Cols(op.source.left) + HashLen(op.source.on))
      && Ready(env, op.source)
    else if OneSource(op) then !op.source.Join? && Ready(env, op.source)
    else match op
      case Join(left, right, on, _) =>
        HashAgrees(env, on, Cols(left), Cols(right)) && !left.Join? && !right.Join? && Ready(env, left)
          && Ready(env, right)
      case UnionAll(sources) => forall i :: 0 <= i < |sources| ==> !sources[i].Join? && Ready(env, sources[i])
      case _ => true
  }

  /** What lowering owes: the same columns, and the same rows, up to the right keys of a bare join. */
  ghost predicate Lowered(env: Env, op: Op, p: Exec) {
    && ColumnCount(p) == Cols(op)
    && (Ready(env, op) && !op.Join? ==> Execute(env, p) == Run(env, op))
    && (Ready(env, op) && op.Join? ==>
          RowsAlike(Execute(env, p), Run(env, op), Cols(op.left), Cols(op.left) + HashLen(op.on)))
  }

  /** References to columns of the given types, in order. */
  function References(types: seq<DataType>): (r: seq<Expr>)
    ensures |r| == |types| && forall i :: 0 <= i < |types| ==> r[i] == Column(i, types[i])
  {
    seq(|types|, i requires 0 <= i < |types| => Column(i, types[i]))
  }

  /** The executors of a plan. */
  function LowerTo(op: Op): (p: Exec)
    requires Literals(op)
  {
    match op
    case Single => SingleExec
    case Project(exprs, source) => ProjectExec(ExprsOf(exprs), LowerTo(source))
    case GroupBy(id, exprs, keys, source) =>
      if keys == [] then SortedGroupExec(ExprsOf(exprs), LowerTo(source))
      else HashGroupExec(id, MoveAll(ExprsOf(exprs), |keys|), |keys|,
                         ProjectExec(keys + References(Types(source)), LowerTo(source)))
    case Filter(cond, source) => FilterExec(cond, LowerTo(source))
    case Limit(offset, limit, source) => LimitExecNode(offset, limit, LowerTo(source))
    case Sort(sorts, source) => SortExec(sorts, LowerTo(source))
    case Values(fields, data) => ValuesExec(LiteralRows(data), |fields|)
    case UnionAll(sources) =>
      UnionAllExec(seq(|sources|, i requires 0 <= i < |sources| => LowerTo(sources[i])))
    case ResolvedTable(columns, table) => TableScanExec(table, |columns|)
    case NegateFreq(source) => NegateFreqExec(LowerTo(source))
    case TableAlias(_, source) => LowerTo(source)
    case FileScan(directory, delimiter) => FileScanExec(directory, delimiter)
    case Join(left, right, on, join) =>
      HashJoinExec(LowerTo(left), LowerTo(right), HashLen(on), ResidualCond(on), join)
  }

  function LiteralRows(data: seq<seq<Expr>>): (r: seq<Tuple>)
    requires forall i :: 0 <= i < |data| ==> FoldConstants.AllConstant(data[i])
    ensures |r| == |data| && forall i :: 0 <= i < |data| ==> r[i] == FoldConstants.ConstantValues(data[i])
  {
    seq(|data|, i requires 0 <= i < |data| => FoldConstants.ConstantValues(data[i]))
  }

  /** A ready plan is lowered to executors with its rows, and any plan to as many columns. */
  lemma {:induction false} LowerRun(env: Env, op: Op)
    requires WellFormed(env, op) && Literals(op)
    ensures Lowered(env, op, LowerTo(op))
    decreases op, 1
  {
    hide Run, Execute, WellFormed, Names, Ready, ColumnCount, HashLen, ResidualCond, Lowered;
    LowerLeaf(env, op);
    if OneSource(op) {
      SourceFormed(env, op);
      LowerRun(env, op.source);
    }
    match op
    case Project(_, source) => ProjectLowered(env, op, LowerTo(source));
    case GroupBy(_, _, _, source) => GroupByLowered(env, op, LowerTo(source));
    case Filter(_, source) => FilterLowered(env, op, LowerTo(source));
    case Limit(_, _, source) => LimitLowered(env, op, LowerTo(source));
    case Sort(_, source) => SortLowered(env, op, LowerTo(source));
    case Values(_, _) => ValuesLowered(env, op);
    case UnionAll(_) => BranchesLowered(env, op);
    case NegateFreq(source) => NegateLowered(env, op, LowerTo(source));
    case TableAlias(_, source) => AliasLowered(env, op, LowerTo(source));
    case Join(left, right, _, _) =>
      SidesFormed(env, op);
      LowerRun(env, left);
      LowerRun(env, right);
      JoinLowered(env, op, LowerTo(left), LowerTo(right));
    case _ =>
  }

  lemma LowerLeaf(env: Env, op: Op)
    ensures op.Single? ==> Lowered(env, op, SingleExec)
    ensures op.ResolvedTable? ==> Lowered(env, op, TableScanExec(op.table, |op.columns|))
    ensures op.FileScan? ==> Lowered(env, op, FileScanExec(op.directory, op.delimiter))
  {
    hide Ready, HashLen, RowsAlike;
  }

  lemma ReadySource(env: Env, op: Op)
    requires OneSource(op) && !(op.Project? && op.source.Join?)
    ensures Ready(env, op) ==> !op.source.Join? && Ready(env, op.source)
  {
  }

  lemma ProjectLowered(env: Env, op: Op, s: Exec)
    requires op.Project? && Lowered(env, op.source, s)
    ensures Lowered(env, op, ProjectExec(ExprsOf(op.exprs), s))
  {
    hide ProjectRows, RowsAlike, HashLen, AllAvoid, HashAgrees, GroupRows;
    if Ready(env, op) && op.source.Join? {
      ProjectAlike(env, ExprsOf(op.exprs), Execute(env, s), Run(env, op.source),
                   Cols(op.source.left), Cols(op.source.left) + HashLen(op.source.on));
    } else if !op.source.Join? {
      ReadySource(env, op);
    }
  }

  lemma FilterLowered(env: Env, op: Op, s: Exec)
    requires op.Filter? && Lowered(env, op.source, s)
    ensures Lowered(env, op, FilterExec(op.cond, s))
  {
    hide Keep, RowsAlike, HashLen;
    ReadySource(env, op);
  }

  lemma LimitLowered(env: Env, op: Op, s: Exec)
    requires op.Limit? && Lowered(env, op.source, s)
    ensures Lowered(env, op, LimitExecNode(op.offset, op.limit, s))
  {
    hide LimitExec.LimitRun, RowsAlike, HashLen;
    ReadySource(env, op);
  }

  lemma SortLowered(env: Env, op: Op, s: Exec)
    requires op.Sort? && Lowered(env, op.source, s)
    ensures Lowered(env, op, SortExec(op.sorts, s))
  {
    hide SortRows, RowsAlike, HashLen;
    ReadySource(env, op);
  }

  lemma NegateLowered(env: Env, op: Op, s: Exec)
    requires op.NegateFreq? && Lowered(env, op.source, s)
    ensures Lowered(env, op, NegateFreqExec(s))
  {
    hide Negated, RowsAlike, HashLen;
    ReadySource(env, op);
  }

  lemma AliasLowered(env: Env, op: Op, s: Exec)
    requires op.TableAlias? && Lowered(env, op.source, s)
    ensures Lowered(env, op, s)
  {
    hide RowsAlike, HashLen;
    ReadySource(env, op);
  }

  /** GROUP BY: keys go into a project below the hash group, and the references above move past them. */
  lemma GroupByLowered(env: Env, op: Op, s: Exec)
    requires op.GroupBy? && WellFormed(env, op) && Lowered(env, op.source, s)
    ensures op.keys == [] ==> Lowered(env, op, SortedGroupExec(ExprsOf(op.exprs), s))
    ensures op.keys != [] ==>
      Lowered(env, op, HashGroupExec(op.id, MoveAll(ExprsOf(op.exprs), |op.keys|), |op.keys|,
                                     ProjectExec(op.keys + References(Types(op.source)), s)))
  {
    hide Run, Execute, Names, Ready, RowsAlike, HashLen, AllScalar, AllAggregating, ColumnCount;
    ReadySource(env, op);
    var es, refs := ExprsOf(op.exprs), References(Types(op.source));
    if op.keys == [] {
      SortedGroupRun(env, op, s);
    } else {
      var project := op.keys + refs;
      assert InOrder(refs, 0);
      RunWidth(env, op.source);
      KeyedProject(env, op.keys, refs, Run(env, op.source), Cols(op.source));
      GroupLowered(env, op.id, es, op.keys, ProjectRows(env, project, Run(env, op.source)), Run(env, op.source),
                   Cols(op.source));
      HashGroupRun(env, op, s, MoveAll(es, |op.keys|), |op.keys|, project);
    }
  }

  lemma SortedGroupRun(env: Env, op: Op, s: Exec)
    requires op.GroupBy? && op.keys == []
    ensures
      var p := SortedGroupExec(ExprsOf(op.exprs), s);
      ColumnCount(p) == Cols(op) && (Execute(env, s) == Run(env, op.source) ==> Execute(env, p) == Run(env, op))
  {
    hide EvalGroupAll;
  }

  lemma HashGroupRun(env: Env, op: Op, s: Exec, es: seq<Expr>, keyLen: nat, project: seq<Expr>)
    requires op.GroupBy? && op.keys != [] && |es| == |op.exprs|
    ensures
      var p := HashGroupExec(op.id, es, keyLen, ProjectExec(project, s));
      var below := Run(env, op.source);
      var rows := ProjectRows(env, project, below);
      && ColumnCount(p) == Cols(op)
      && (Execute(env, s) == below && AtLeast(rows, keyLen)
          && GroupRows(env, op.id, es, rows, PrefixKeys(rows, keyLen)) ==
            GroupRows(env, op.id, ExprsOf(op.exprs), below, RowKeys(env, op.keys, below))
          ==> Execute(env, p) == Run(env, op))
  {
    hide GroupRows, EvalGroupAll, ProjectRows, RowKeys, PrefixKeys, AtLeast;
    assert Execute(env, ProjectExec(project, s)) == ProjectRows(env, project, Execute(env, s));
  }

  lemma ValuesLowered(env: Env, op: Op)
    requires op.Values? && WellFormed(env, op) && Literals(op)
    ensures Lowered(env, op, LowerTo(op))
  {
    hide RowsAlike, HashLen, Scalar;
    var data := LiteralRows(op.data);
    forall i | 0 <= i < |data| ensures data[i] == EvalAll(env, op.data[i], []) {
      assert FoldConstants.AllConstant(op.data[i]);
    }
    assert Execute(env, ValuesExec(data, |op.fields|)) == Run(env, op);
  }

  lemma BranchesLowered(env: Env, op: Op)
    requires op.UnionAll? && WellFormed(env, op) && Literals(op)
    ensures Lowered(env, op, LowerTo(op))
    decreases op, 0
  {
    hide Run, Execute, Names, RowsAlike, HashLen, ColumnCount, Concat, WellFormed, Lowered;
    UnionParts(env, op);
    var sources := LowerTo(op).sources;
    forall i | 0 <= i < |op.sources| ensures Lowered(env, op.sources[i], sources[i]) { LowerRun(env, op.sources[i]); }
    UnionLowered(env, op, sources);
  }

  lemma UnionLowered(env: Env, op: Op, sources: seq<Exec>)
    requires op.UnionAll? && WellFormed(env, op) && |sources| == |op.sources|
    requires forall j :: 0 <= j < |sources| ==> Lowered(env, op.sources[j], sources[j])
    ensures Lowered(env, op, UnionAllExec(sources))
  {
    hide Concat, RowsAlike, HashLen;
    assert Lowered(env, op.sources[0], sources[0]);
    if Ready(env, op) {
      forall j | 0 <= j < |sources| ensures Execute(env, sources[j]) == Run(env, op.sources[j]) {
        assert Lowered(env, op.sources[j], sources[j]) && Ready(env, op.sources[j]);
      }
      assert seq(|sources|, i requires 0 <= i < |sources| => Execute(env, sources[i]))
          == seq(|sources|, i requires 0 <= i < |sources| => Run(env, op.sources[i]));
    }
  }

  lemma JoinLowered(env: Env, op: Op, left: Exec, right: Exec)
    requires op.Join? && WellFormed(env, op) && Lowered(env, op.left, left) && Lowered(env, op.right, right)
    ensures Lowered(env, op, HashJoinExec(left, right, HashLen(op.on), ResidualCond(op.on), op.joinType))
  {
    hide RowsAlike, ResidualCond, HashLen, Ready, Run, Execute, ColumnCount, Names, WellFormed;
    JoinCounts(op, left, right);
    if Ready(env, op) {
      ReadySides(env, op);
      JoinAlike(env, op, left, right);
    }
  }

  lemma JoinAlike(env: Env, op: Op, left: Exec, right: Exec)
    requires op.Join? && WellFormed(env, op) && HashAgrees(env, op.on, Cols(op.left), Cols(op.right))
    requires Execute(env, left) == Run(env, op.left) && Execute(env, right) == Run(env, op.right)
    requires ColumnCount(right) == Cols(op.right)
    ensures RowsAlike(Execute(env, HashJoinExec(left, right, HashLen(op.on), ResidualCond(op.on), op.joinType)),
                      Run(env, op),
                      Cols(op.left), Cols(op.left) + HashLen(op.on))
  {
    hide *;
    SidesFormed(env, op);
    RunWidth(env, op.left);
    RunWidth(env, op.right);
    JoinRun(env, op);
    AgreesFits(env, op.on, Cols(op.left), Cols(op.right));
    WideEnough(Run(env, op.left), Cols(op.left), HashLen(op.on));
    WideEnough(Run(env, op.right), Cols(op.right), HashLen(op.on));
    JoinExecute(env, HashJoinExec(left, right, HashLen(op.on), ResidualCond(op.on), op.joinType));
    HashRows(env, op.on, t => Passes(env, ResidualCond(op.on), t), Run(env, op.left), Run(env, op.right), op.joinType,
             Cols(op.left), Cols(op.right));
  }

  lemma WideEnough(rows: seq<Row>, n: nat, k: nat)
    requires Width(rows, n) && k <= n
    ensures AtLeast(rows, k)
  {
  }

  lemma JoinCounts(op: Op, left: Exec, right: Exec)
    requires op.Join? && ColumnCount(left) == Cols(op.left) && ColumnCount(right) == Cols(op.right)
    ensures Cols(op) == Cols(op.left) + Cols(op.right)
    ensures forall k, e, join :: ColumnCount(HashJoinExec(left, right, k, e, join)) == Cols(op)
  {
  }

  lemma ReadySides(env: Env, op: Op)
    requires op.Join? && Ready(env, op)
    ensures HashAgrees(env, op.on, Cols(op.left), Cols(op.right))
    ensures !op.left.Join? && !op.right.Join? && Ready(env, op.left) && Ready(env, op.right)
  {
    hide HashAgrees;
  }

  lemma JoinExecute(env: Env, p: Exec)
    requires p.HashJoinExec? && AtLeast(Execute(env, p.left), p.keyLen) && AtLeast(Execute(env, p.right), p.keyLen)
    ensures Execute(env, p) == Hashing.NestedLoop(Execute(env, p.left), Execute(env, p.right), p.keyLen,
                                                  t => Passes(env, p.residual, t), p.joinType, ColumnCount(p.right))
  {
    hide Hashing.NestedLoop;
  }

  // ----- The pass

  /** GROUP BY: the references to the source's columns are pushed behind the keys one by one. */
  method LowerGroup(op: Op, s: Exec) returns (p: Exec)
    requires op.GroupBy? && Literals(op) && s == LowerTo(op.source)
    ensures p == LowerTo(op)
  {
    hide Names;
    if op.keys == [] { return SortedGroupExec(ExprsOf(op.exprs), s); }
    var project, types := op.keys, Types(op.source);
    for i := 0 to |types|
      invariant project == op.keys + References(types)[..i]
    {
      project := project + [Column(i, types[i])];
    }
    assert References(types)[..|types|] == References(types);
    p := HashGroupExec(op.id, MoveAll(ExprsOf(op.exprs), |op.keys|), |op.keys|, ProjectExec(project, s));
  }

  method LowerValues(data: seq<seq<Expr>>) returns (r: seq<Tuple>)
    requires forall i :: 0 <= i < |data| ==> FoldConstants.AllConstant(data[i])
    ensures r == LiteralRows(data)
  {
    r := [];
    for i := 0 to |data|
      invariant r == LiteralRows(data)[..i]
    {
      r := r + [FoldConstants.ConstantValues(data[i])];
    }
  }

  /** JOIN: the equalities between columns are only counted; everything else becomes the residual. */
  method LowerJoin(op: Op) returns (p: Exec)
    requires op.Join? && Literals(op)
    ensures p == LowerTo(op)
    decreases op, 0
  {
    hide Names, Conjuncts, Combine;
    var left := Lower(op.left);
    var right := Lower(op.right);
    var conds := Conjuncts(op.on);
    var nonEqui: seq<Expr>, equiCount := [], 0;
    for i := 0 to |conds|
      invariant nonEqui == OtherConds(conds[..i]) && equiCount == |HashConds(conds[..i])|
    {
      assert conds[..i + 1][..i] == conds[..i];
      if ColumnsEqual(conds[i]) { equiCount := equiCount + 1; } else { nonEqui := nonEqui + [conds[i]]; }
    }
    assert conds[..|conds|] == conds;
    p := HashJoinExec(left, right, equiCount, Combine(nonEqui), op.joinType);
  }

  method Lower(op: Op) returns (p: Exec)
    requires Literals(op)
    ensures p == LowerTo(op)
    decreases op, 1
  {
    hide Names, HashLen, ResidualCond;
    match op {
      case Single => p := SingleExec;
      case Project(exprs, source) =>
        var s := Lower(source);
        p := ProjectExec(ExprsOf(exprs), s);
      case GroupBy(_, _, _, source) =>
        var s := Lower(source);
        p := LowerGroup(op, s);
      case Filter(cond, source) =>
        var s := Lower(source);
        p := FilterExec(cond, s);
      case Limit(offset, limit, source) =>
        var s := Lower(source);
        p := LimitExecNode(offset, limit, s);
      case Sort(sorts, source) =>
        var s := Lower(source);
        p := SortExec(sorts, s);
      case Values(fields, data) =>
        var rows := LowerValues(data);
        p := ValuesExec(rows, |fields|);
      case UnionAll(sources) =>
        var lowered: seq<Exec> := [];
        for i := 0 to |sources|
          invariant |lowered| == i && forall j :: 0 <= j < i ==> lowered[j] == LowerTo(sources[j])
        {
          var s := Lower(sources[i]);
          lowered := lowered + [s];
        }
        p := UnionAllExec(lowered);
        assert lowered == LowerTo(op).sources;
      case ResolvedTable(columns, table) => p := TableScanExec(table, |columns|);
      case NegateFreq(source) =>
        var s := Lower(source);
        p := NegateFreqExec(s);
      case TableAlias(_, source) => p := Lower(source);
      case FileScan(directory, delimiter) => p := FileScanExec(directory, delimiter);
      case Join(_, _, _, _) => p := LowerJoin(op);
    }
  }

  // ----- An equality that is no hash key

  const SAME_SIDE: Expr := Call(Signature("=", [IntegerType, IntegerType], BooleanType),
                                [Column(0, IntegerType), Column(1, IntegerType)])

  function Int(i: int): (r: Expr) { Constant(Integer(i), IntegerType) }

  /** SELECT * FROM (VALUES (1, 2)) l LEFT JOIN (VALUES (1)) r ON l.0 = l.1 */
  const ONE_SIDED: Op := Join(
    Values([Field("a", IntegerType), Field("b", IntegerType)], [[Int(1), Int(2)]]),
    Values([Field("c", IntegerType)], [[Int(1)]]), SAME_SIDE, LeftOuter)

  lemma OneSidedKey()
    ensures HashLen(SAME_SIDE) == 1 && ResidualCond(SAME_SIDE) == TRUE
  {
    assert NotTrue([SAME_SIDE]) == [SAME_SIDE] by { assert [SAME_SIDE][1..] == []; }
    assert Conjuncts(SAME_SIDE) == [SAME_SIDE];
    assert [SAME_SIDE][..0] == [];
    assert ColumnsEqual(SAME_SIDE);
  }

  lemma OneSidedInputs(env: Env)
    ensures WellFormed(env, ONE_SIDED) && Literals(ONE_SIDED) && Cols(ONE_SIDED.right) == 1
    ensures Ready(env, ONE_SIDED.left) && Ready(env, ONE_SIDED.right)
    ensures Run(env, ONE_SIDED.left) == [([Integer(1), Integer(2)], 1)]
      && Run(env, ONE_SIDED.right) == [([Integer(1)], 1)]
  {
    hide Run, Names, WellFormed, Literals, Ready;
    assert EvalAll(env, [Int(1), Int(2)], []) == [Integer(1), Integer(2)] && EvalAll(env, [Int(1)], []) == [Integer(1)];
    OneRow(env, [Field("a", IntegerType), Field("b", IntegerType)], [Int(1), Int(2)]);
    OneRow(env, [Field("c", IntegerType)], [Int(1)]);
    assert Scalar(SAME_SIDE, 3);
    JoinFormed(env, ONE_SIDED);
  }

  lemma OneRow(env: Env, fields: seq<Field>, row: seq<Expr>)
    requires |row| == |fields| && FoldConstants.AllConstant(row)
    ensures WellFormed(env, Values(fields, [row])) && Literals(Values(fields, [row]))
      && Ready(env, Values(fields, [row]))
    ensures Run(env, Values(fields, [row])) == [(EvalAll(env, row, []), 1)] && Cols(Values(fields, [row])) == |fields|
  {
    hide EvalAll;
  }

  lemma JoinFormed(env: Env, op: Op)
    requires op.Join? && WellFormed(env, op.left) && WellFormed(env, op.right)
      && Scalar(op.on, Cols(op.left) + Cols(op.right))
    ensures WellFormed(env, op) && (Literals(op.left) && Literals(op.right) ==> Literals(op))
  {
    hide Scalar;
  }

  lemma OneSidedRun(env: Env)
    ensures Run(env, ONE_SIDED) == [([Integer(1), Integer(2), Null], 1)]
  {
    hide Run, Names, WellFormed, Literals, Ready, Types;
    var l, r := ([Integer(1), Integer(2)], 1), ([Integer(1)], 1);
    OneSidedInputs(env);
    JoinRun(env, ONE_SIDED);
    var t := l.0 + r.0;
    EvalCall(env, SAME_SIDE.sig, SAME_SIDE.args, t);
    assert EvalAll(env, SAME_SIDE.args, t) == [Integer(1), Integer(2)];
    assert !Passes(env, SAME_SIDE, t);
    assert [r][1..] == [] && [l][1..] == [];
    assert MatchRows(env, l, [r], SAME_SIDE) == [];
    assert Nulls(1) == [Null];
    assert JoinRows(env, [l], [r], SAME_SIDE, LeftOuter, 1) == [(l.0 + Nulls(1), 1)];
    assert l.0 + Nulls(1) == [Integer(1), Integer(2), Null];
  }

  lemma OneSidedExecute(env: Env, p: Exec)
    requires p.HashJoinExec? && p.keyLen == 1 && p.residual == TRUE && p.joinType == LeftOuter
    requires Execute(env, p.left) == [([Integer(1), Integer(2)], 1)] && Execute(env, p.right) == [([Integer(1)], 1)]
    ensures Execute(env, p) == [([Integer(1), Integer(2), Integer(1)], 1)]
  {
    var l, r, n := ([Integer(1), Integer(2)], 1), ([Integer(1)], 1), ColumnCount(p.right);
    var residual := t => Passes(env, TRUE, t);
    assert Hashing.KeysMatch(l.0, r.0, 1);
    assert Hashing.Joined(l.0, r.0, 1) == [Integer(1), Integer(2), Integer(1)];
    assert [r][1..] == [] && [l][1..] == [];
    assert Hashing.Matches(l, [r], 1, residual) == [([Integer(1), Integer(2), Integer(1)], 1)];
    assert Hashing.NestedLoop([l], [r], 1, residual, LeftOuter, n) == [([Integer(1), Integer(2), Integer(1)], 1)];
  }

  /** An outer join keeps a left-only equality, and lowering takes it for a hash key. */
  lemma KeyMiscounted(env: Env)
    ensures WellFormed(env, ONE_SIDED) && Literals(ONE_SIDED)
    ensures Run(env, ONE_SIDED) == [([Integer(1), Integer(2), Null], 1)]
    ensures Execute(env, LowerTo(ONE_SIDED)) == [([Integer(1), Integer(2), Integer(1)], 1)]
  {
    hide Execute, Run, HashLen, ResidualCond, WellFormed, Ready, Names, ColumnCount;
    OneSidedInputs(env);
    SidesFormed(env, ONE_SIDED);
    OneSidedKey();
    OneSidedRun(env);
    LowerRun(env, ONE_SIDED.left);
    LowerRun(env, ONE_SIDED.right);
    OneSidedExecute(env, LowerTo(ONE_SIDED));
  }
}
