/** Logical plans and what they mean: the list of rows, with frequencies, that a plan produces. */
module Plans {
  import opened Bytes
  import opened Datums
  import opened Rows
  import opened Exprs
  import LimitExec = Limit

  datatype Named = Named(alias: string, expr: Expr)

  datatype Field = Field(alias: string, ty: DataType)

  datatype SortKey = SortKey(order: SortOrder, expr: Expr)

  datatype Op =
    | Single
    | Project(exprs: seq<Named>, source: Op)
    | GroupBy(id: nat, exprs: seq<Named>, keys: seq<Expr>, source: Op)
    | Filter(cond: Expr, source: Op)
    | Join(left: Op, right: Op, on: Expr, joinType: JoinType)
    | Sort(sorts: seq<SortKey>, source: Op)
    | Limit(offset: int, limit: int, source: Op)
    | Values(fields: seq<Field>, data: seq<seq<Expr>>)
    | TableAlias(alias: string, source: Op)
    | UnionAll(sources: seq<Op>)
    | ResolvedTable(columns: seq<Field>, table: nat)
    | NegateFreq(source: Op)
    | FileScan(directory: string, delimiter: byte)

  // ----- Columns

  function ExprsOf(ns: seq<Named>): (r: seq<Expr>)
    ensures |r| == |ns| && forall i :: 0 <= i < |ns| ==> r[i] == ns[i].expr
  {
    seq(|ns|, i requires 0 <= i < |ns| => ns[i].expr)
  }

  function AliasesOf(ns: seq<Named>): (r: seq<string>)
    ensures |r| == |ns| && forall i :: 0 <= i < |ns| ==> r[i] == ns[i].alias
  {
    seq(|ns|, i requires 0 <= i < |ns| => ns[i].alias)
  }

  function SortExprs(ks: seq<SortKey>): (r: seq<Expr>)
    ensures |r| == |ks| && forall i :: 0 <= i < |ks| ==> r[i] == ks[i].expr
  {
    seq(|ks|, i requires 0 <= i < |ks| => ks[i].expr)
  }

  function SortOrders(ks: seq<SortKey>): (r: seq<SortOrder>)
    ensures |r| == |ks| && forall i :: 0 <= i < |ks| ==> r[i] == ks[i].order
  {
    seq(|ks|, i requires 0 <= i < |ks| => ks[i].order)
  }

  function FieldNames(fs: seq<Field>): (r: seq<string>)
    ensures |r| == |fs|
  {
    seq(|fs|, i requires 0 <= i < |fs| => fs[i].alias)
  }

  function FieldTypes(fs: seq<Field>): (r: seq<DataType>)
    ensures |r| == |fs|
  {
    seq(|fs|, i requires 0 <= i < |fs| => fs[i].ty)
  }

  function TypesOf(ns: seq<Named>): (r: seq<DataType>)
    ensures |r| == |ns|
  {
    seq(|ns|, i requires 0 <= i < |ns| => TypeOf(ns[i].expr))
  }

  /** The names of a plan's columns. */
  function Names(op: Op): (r: seq<string>) {
    match op
    case Single => []
    case Project(exprs, _) => AliasesOf(exprs)
    case GroupBy(_, exprs, _, _) => AliasesOf(exprs)
    case Filter(_, source) => Names(source)
    case Join(left, right, _, _) => Names(left) + Names(right)
    case Sort(_, source) => Names(source)
    case Limit(_, _, source) => Names(source)
    case Values(fields, _) => FieldNames(fields)
    case TableAlias(_, source) => Names(source)
    case UnionAll(sources) => if sources == [] then [] else Names(sources[0])
    case ResolvedTable(columns, _) => FieldNames(columns)
    case NegateFreq(source) => Names(source)
    case FileScan(_, _) => ["data"]
  }

  /** How many columns a plan has. */
  function Cols(op: Op): (r: nat) { |Names(op)| }

  /** Their types. */
  function Types(op: Op): (r: seq<DataType>)
    ensures |r| == Cols(op)
  {
    match op
    case Single => []
    case Project(exprs, _) => TypesOf(exprs)
    case GroupBy(_, exprs, _, _) => TypesOf(exprs)
    case Filter(_, source) => Types(source)
    case Join(left, right, _, _) => Types(left) + Types(right)
    case Sort(_, source) => Types(source)
    case Limit(_, _, source) => Types(source)
    case Values(fields, _) => FieldTypes(fields)
    case TableAlias(_, source) => Types(source)
    case UnionAll(sources) => if sources == [] then [] else Types(sources[0])
    case ResolvedTable(columns, _) => FieldTypes(columns)
    case NegateFreq(source) => Types(source)
    case FileScan(_, _) => [JsonType]
  }

  /** A column of a join has the type of the column of its side. */
  lemma JoinTypes(op: Op, i: nat)
    requires op.Join? && i < Cols(op)
    ensures Cols(op) == Cols(op.left) + Cols(op.right)
    ensures Types(op)[i] == if i < Cols(op.left) then Types(op.left)[i] else Types(op.right)[i - Cols(op.left)]
    ensures Names(op)[i] == if i < Cols(op.left) then Names(op.left)[i] else Names(op.right)[i - Cols(op.left)]
  {
  }

  // ----- Rows

  /** The rows on which every predicate is exactly true. */
  function Keep(env: Env, rows: seq<Row>, preds: seq<Expr>): (r: seq<Row>) {
    if rows == [] then []
    else if AllPass(env, preds, rows[0].0) then [rows[0]] + Keep(env, rows[1..], preds)
    else Keep(env, rows[1..], preds)
  }

  function ProjectRows(env: Env, es: seq<Expr>, rows: seq<Row>): (r: seq<Row>)
    ensures |r| == |rows| && forall i :: 0 <= i < |rows| ==> r[i] == (EvalAll(env, es, rows[i].0), rows[i].1)
  {
    seq(|rows|, i requires 0 <= i < |rows| => (EvalAll(env, es, rows[i].0), rows[i].1))
  }

  /** One left row against the right rows, in their order. */
  function MatchRows(env: Env, l: Row, right: seq<Row>, on: Expr): (r: seq<Row>) {
    if right == [] then []
    else
      var t := l.0 + right[0].0;
      if Passes(env, on, t) then [(t, right[0].1 * l.1)] + MatchRows(env, l, right[1..], on)
      else MatchRows(env, l, right[1..], on)
  }

  /** An outer join pads a left row that matched nothing. */
  function Padded(l: Row, matched: seq<Row>, join: JoinType, cols: nat): (r: seq<Row>) {
    if matched == [] && join.LeftOuter? then [(l.0 + Nulls(cols), l.1)] else matched
  }

  function JoinRows(env: Env, left: seq<Row>, right: seq<Row>, on: Expr, join: JoinType, cols: nat): (r: seq<Row>) {
    if left == [] then []
    else
      Padded(left[0], MatchRows(env, left[0], right, on), join, cols)
      + JoinRows(env, left[1..], right, on, join, cols)
  }

  function SortBytes(env: Env, ks: seq<SortKey>, row: Row): (r: seq<byte>) {
    env.sortBytes(EvalAll(env, SortExprs(ks), row.0), SortOrders(ks), row)
  }

  function InsertRow(env: Env, ks: seq<SortKey>, row: Row, rows: seq<Row>): (r: seq<Row>) {
    if rows == [] || Cmp(SortBytes(env, ks, row), SortBytes(env, ks, rows[0])) <= 0 then [row] + rows
    else [rows[0]] + InsertRow(env, ks, row, rows[1..])
  }

  function SortRows(env: Env, ks: seq<SortKey>, rows: seq<Row>): (r: seq<Row>) {
    if rows == [] then [] else InsertRow(env, ks, rows[0], SortRows(env, ks, rows[1..]))
  }

  /** The distinct keys, in order of first appearance. */
  function Distinct<K(==)>(ks: seq<K>): (r: seq<K>) {
    if ks == [] then []
    else
      var n := |ks| - 1;
      Distinct(ks[..n]) + if ks[n] in ks[..n] then [] else [ks[n]]
  }

  /** The rows whose key is `k`. */
  function Select<K(==)>(rows: seq<Row>, ks: seq<K>, k: K): (r: seq<Row>)
    requires |rows| == |ks|
  {
    if rows == [] then []
    else
      var n := |ks| - 1;
      Select(rows[..n], ks[..n], k) + if ks[n] == k then [rows[n]] else []
  }

  function RowKeys(env: Env, keys: seq<Expr>, rows: seq<Row>): (r: seq<Tuple>)
    ensures |r| == |rows| && forall i :: 0 <= i < |rows| ==> r[i] == CanonTuple(EvalAll(env, keys, rows[i].0))
  {
    seq(|rows|, i requires 0 <= i < |rows| => CanonTuple(EvalAll(env, keys, rows[i].0)))
  }

  /** One row for each key, in the given order, aggregating the rows that share it. */
  function GroupsIn<K(==)>(env: Env, es: seq<Expr>, rows: seq<Row>, ks: seq<K>, order: seq<K>): (r: seq<Row>)
    requires |rows| == |ks|
    ensures |r| == |order|
    ensures forall i :: 0 <= i < |r| ==> r[i] == (EvalGroupAll(env, es, Select(rows, ks, order[i])), 1)
  {
    seq(|order|, i requires 0 <= i < |order| => (EvalGroupAll(env, es, Select(rows, ks, order[i])), 1))
  }

  /** Some order of the distinct keys: the environment's, if that is one. */
  function DrainOrder(env: Env, id: nat, ks: seq<Tuple>): (r: seq<Tuple>)
    ensures multiset(r) == multiset(Distinct(ks))
  {
    var d := Distinct(ks);
    var order := env.drain(id, d);
    if multiset(order) == multiset(d) then order else d
  }

  /** One row for each distinct key, in the order the groups are drained. */
  function GroupRows(env: Env, id: nat, es: seq<Expr>, rows: seq<Row>, ks: seq<Tuple>): (r: seq<Row>)
    requires |rows| == |ks|
  {
    GroupsIn(env, es, rows, ks, DrainOrder(env, id, ks))
  }

  function Concat(parts: seq<seq<Row>>): (r: seq<Row>) {
    if parts == [] then [] else parts[0] + Concat(parts[1..])
  }

  /** What a plan produces. */
  function Run(env: Env, op: Op): (r: seq<Row>) {
    match op
    case Single => [([], 1)]
    case Project(exprs, source) => ProjectRows(env, ExprsOf(exprs), Run(env, source))
    case GroupBy(id, exprs, keys, source) =>
      var rows := Run(env, source);
      if keys == [] then [(EvalGroupAll(env, ExprsOf(exprs), rows), 1)]
      else GroupRows(env, id, ExprsOf(exprs), rows, RowKeys(env, keys, rows))
    case Filter(cond, source) => Keep(env, Run(env, source), [cond])
    case Join(left, right, on, join) => JoinRows(env, Run(env, left), Run(env, right), on, join, Cols(right))
    case Sort(sorts, source) => SortRows(env, sorts, Run(env, source))
    case Limit(offset, limit, source) => LimitExec.LimitRun(Run(env, source), offset, limit)
    case Values(_, data) => seq(|data|, i requires 0 <= i < |data| => (EvalAll(env, data[i], []), 1))
    case TableAlias(_, source) => Run(env, source)
    case UnionAll(sources) => Concat(seq(|sources|, i requires 0 <= i < |sources| => Run(env, sources[i])))
    case ResolvedTable(_, table) => env.table(table)
    case NegateFreq(source) => Negated(Run(env, source))
    case FileScan(directory, delimiter) => env.file(directory, delimiter)
  }

  // ----- Well-formed plans

  /** Column references are in range, the branches of a union agree, tables have the columns they declare. */
  ghost predicate WellFormed(env: Env, op: Op) {
    match op
    case Single => true
    case Project(exprs, source) => WellFormed(env, source) && AllScalar(ExprsOf(exprs), Cols(source))
    case GroupBy(_, exprs, keys, source) =>
      && WellFormed(env, source) && AllScalar(keys, Cols(source))
      && AllAggregating(ExprsOf(exprs), Cols(source))
    case Filter(cond, source) => WellFormed(env, source) && Scalar(cond, Cols(source))
    case Join(left, right, on, _) => WellFormed(env, left) && WellFormed(env, right)
      && Scalar(on, Cols(left) + Cols(right))
    case Sort(sorts, source) => WellFormed(env, source) && AllScalar(SortExprs(sorts), Cols(source))
    case Limit(_, _, source) => WellFormed(env, source)
    case Values(fields, data) =>
      forall i :: 0 <= i < |data| ==> |data[i]| == |fields| && AllScalar(data[i], 0)
    case TableAlias(_, source) => WellFormed(env, source)
    case UnionAll(sources) =>
      && sources != []
      && forall i :: 0 <= i < |sources| ==> WellFormed(env, sources[i]) && Cols(sources[i]) == Cols(sources[0])
    case ResolvedTable(columns, table) => Width(env.table(table), |columns|)
    case NegateFreq(source) => WellFormed(env, source)
    case FileScan(directory, delimiter) => Width(env.file(directory, delimiter), 1)
  }

  lemma {:induction false} KeepWidth(env: Env, rows: seq<Row>, preds: seq<Expr>, n: nat)
    requires Width(rows, n)
    ensures Width(Keep(env, rows, preds), n)
  {
    hide AllPass;
    if rows != [] { KeepWidth(env, rows[1..], preds, n); }
  }

  lemma {:induction false} MatchWidth(env: Env, l: Row, right: seq<Row>, on: Expr, n: nat)
    requires Width(right, n)
    ensures Width(MatchRows(env, l, right, on), |l.0| + n)
  {
    hide Passes;
    if right != [] { MatchWidth(env, l, right[1..], on, n); }
  }

  lemma {:induction false} JoinWidth(env: Env, left: seq<Row>, right: seq<Row>, on: Expr, join: JoinType, m: nat,
                                     n: nat)
    requires Width(left, m) && Width(right, n)
    ensures Width(JoinRows(env, left, right, on, join, n), m + n)
  {
    if left != [] {
      MatchWidth(env, left[0], right, on, n);
      JoinWidth(env, left[1..], right, on, join, m, n);
      WidthConcat(Padded(left[0], MatchRows(env, left[0], right, on), join, n),
                  JoinRows(env, left[1..], right, on, join, n), m + n);
    }
  }

  lemma WidthConcat(a: seq<Row>, b: seq<Row>, n: nat)
    requires Width(a, n) && Width(b, n)
    ensures Width(a + b, n)
  {
  }

  lemma {:induction false} InsertWidth(env: Env, ks: seq<SortKey>, row: Row, rows: seq<Row>, n: nat)
    requires Width(rows, n) && |row.0| == n
    ensures Width(InsertRow(env, ks, row, rows), n)
  {
    hide SortBytes, Cmp;
    if rows != [] { InsertWidth(env, ks, row, rows[1..], n); }
  }

  lemma {:induction false} SortWidth(env: Env, ks: seq<SortKey>, rows: seq<Row>, n: nat)
    requires Width(rows, n)
    ensures Width(SortRows(env, ks, rows), n)
  {
    if rows != [] {
      SortWidth(env, ks, rows[1..], n);
      InsertWidth(env, ks, rows[0], SortRows(env, ks, rows[1..]), n);
    }
  }

  lemma {:induction false} LimitedWidth(rows: seq<Row>, limit: int, n: nat)
    requires Width(rows, n)
    ensures Width(LimitExec.Limited(rows, limit), n)
    decreases |rows|
  {
    if !(limit <= 0 || rows == [] || rows[0].1 == 0) { LimitedWidth(rows[1..], limit - rows[0].1, n); }
  }

  lemma {:induction false} LimitWidth(rows: seq<Row>, offset: int, limit: int, n: nat)
    requires Width(rows, n)
    ensures Width(LimitExec.LimitRun(rows, offset, limit), n)
    decreases |rows|
  {
    if offset <= 0 {
      LimitedWidth(rows, limit, n);
    } else if rows != [] {
      if offset - rows[0].1 < 0 { LimitedWidth(rows[1..], limit, n); }
      else { LimitWidth(rows[1..], offset - rows[0].1, limit, n); }
    }
  }

  lemma {:induction false} ConcatWidth(parts: seq<seq<Row>>, n: nat)
    requires forall i :: 0 <= i < |parts| ==> Width(parts[i], n)
    ensures Width(Concat(parts), n)
  {
    if parts != [] { ConcatWidth(parts[1..], n); WidthConcat(parts[0], Concat(parts[1..]), n); }
  }

  /** Every row a plan produces has the plan's columns. */
  lemma {:induction false} RunWidth(env: Env, op: Op)
    requires WellFormed(env, op)
    ensures Width(Run(env, op), Cols(op))
  {
    hide Keep, JoinRows, SortRows, Select, DrainOrder, LimitExec.LimitRun, Concat;
    match op
    case Project(_, source) => RunWidth(env, source);
    case GroupBy(_, _, _, _) =>
    case Filter(cond, source) =>
      RunWidth(env, source);
      KeepWidth(env, Run(env, source), [cond], Cols(op));
    case Join(left, right, on, join) =>
      RunWidth(env, left);
      RunWidth(env, right);
      JoinWidth(env, Run(env, left), Run(env, right), on, join, Cols(left), Cols(right));
    case Sort(sorts, source) =>
      RunWidth(env, source);
      SortWidth(env, sorts, Run(env, source), Cols(op));
    case Limit(offset, limit, source) =>
      RunWidth(env, source);
      LimitWidth(Run(env, source), offset, limit, Cols(op));
    case TableAlias(_, source) => RunWidth(env, source);
    case UnionAll(sources) =>
      forall i | 0 <= i < |sources| ensures Width(Run(env, sources[i]), Cols(op)) { RunWidth(env, sources[i]); }
      ConcatWidth(seq(|sources|, i requires 0 <= i < |sources| => Run(env, sources[i])), Cols(op));
    case NegateFreq(source) => RunWidth(env, source);
    case _ =>
  }
}
