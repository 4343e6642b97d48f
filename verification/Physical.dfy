/** Physical plans and the lowering of normalised logical plans to them. */
module Physical {
  import opened Bags
  import opened Bytes
  import opened Datums
  import opened Rows
  import opened Exprs
  import opened Plans
  import LimitExec = Limit
  import Hashing = HashJoin
  import Pushdown

  datatype Exec =
    | SingleExec
    | ProjectExec(exprs: seq<Expr>, source: Exec)
    | SortedGroupExec(exprs: seq<Expr>, source: Exec)
    | HashGroupExec(id: nat, exprs: seq<Expr>, keyLen: nat, source: Exec)
    | FilterExec(cond: Expr, source: Exec)
    | LimitExecNode(offset: int, limit: int, source: Exec)
    | SortExec(sorts: seq<SortKey>, source: Exec)
    | ValuesExec(data: seq<Tuple>, columnCount: nat)
    | UnionAllExec(sources: seq<Exec>)
    | TableScanExec(table: nat, columnCount: nat)
    | NegateFreqExec(source: Exec)
    | FileScanExec(directory: string, delimiter: byte)
    | HashJoinExec(left: Exec, right: Exec, keyLen: nat, residual: Expr, joinType: JoinType)

  function ColumnCount(p: Exec): (r: nat) {
    match p
    case SingleExec => 0
    case ProjectExec(exprs, _) => |exprs|
    case SortedGroupExec(exprs, _) => |exprs|
    case HashGroupExec(_, exprs, _, _) => |exprs|
    case FilterExec(_, source) => ColumnCount(source)
    case LimitExecNode(_, _, source) => ColumnCount(source)
    case SortExec(_, source) => ColumnCount(source)
    case ValuesExec(_, columnCount) => columnCount
    case UnionAllExec(sources) => if sources == [] then 0 else ColumnCount(sources[0])
    case TableScanExec(_, columnCount) => columnCount
    case NegateFreqExec(source) => ColumnCount(source)
    case FileScanExec(_, _) => 1
    case HashJoinExec(left, right, _, _, _) => ColumnCount(left) + ColumnCount(right)
  }

  predicate AtLeast(rows: seq<Row>, n: nat) {
    forall i :: 0 <= i < |rows| ==> n <= |rows[i].0|
  }

  /** The keys the hash group executor encodes: the leading columns. */
  function PrefixKeys(rows: seq<Row>, keyLen: nat): (r: seq<Tuple>)
    requires AtLeast(rows, keyLen)
    ensures |r| == |rows| && forall i :: 0 <= i < |rows| ==> r[i] == CanonTuple(rows[i].0[..keyLen])
  {
    seq(|rows|, i requires 0 <= i < |rows| => CanonTuple(rows[i].0[..keyLen]))
  }

  /** What the executors produce. Slicing a key out of a row that is too short panics; that is no rows here. */
  function Execute(env: Env, p: Exec): (r: seq<Row>) {
    match p
    case SingleExec => [([], 1)]
    case ProjectExec(exprs, source) => ProjectRows(env, exprs, Execute(env, source))
    case SortedGroupExec(exprs, source) => [(EvalGroupAll(env, exprs, Execute(env, source)), 1)]
    case HashGroupExec(id, exprs, keyLen, source) =>
      var rows := Execute(env, source);
      if AtLeast(rows, keyLen) then GroupRows(env, id, exprs, rows, PrefixKeys(rows, keyLen)) else []
    case FilterExec(cond, source) => Keep(env, Execute(env, source), [cond])
    case LimitExecNode(offset, limit, source) => LimitExec.LimitRun(Execute(env, source), offset, limit)
    case SortExec(sorts, source) => SortRows(env, sorts, Execute(env, source))
    case ValuesExec(data, _) => seq(|data|, i requires 0 <= i < |data| => (data[i], 1))
    case UnionAllExec(sources) => Concat(seq(|sources|, i requires 0 <= i < |sources| => Execute(env, sources[i])))
    case TableScanExec(table, _) => env.table(table)
    case NegateFreqExec(source) => Negated(Execute(env, source))
    case FileScanExec(directory, delimiter) => env.file(directory, delimiter)
    case HashJoinExec(left, right, keyLen, residual, join) =>
      var ls, rs := Execute(env, left), Execute(env, right);
      if AtLeast(ls, keyLen) && AtLeast(rs, keyLen)
      then Hashing.NestedLoop(ls, rs, keyLen, t => Passes(env, residual, t), join, ColumnCount(right))
      else []
  }

  // ----- Conditions of a hash join

  predicate ColumnsEqual(e: Expr) {
    e.Call? && e.sig.name == "=" && |e.args| == 2 && e.args[0].Column? && e.args[1].Column?
  }

  /** The conjuncts that lowering counts as hash keys. */
  function HashConds(conds: seq<Expr>): (r: seq<Expr>)
    ensures forall i :: 0 <= i < |r| ==> ColumnsEqual(r[i])
  {
    if conds == [] then []
    else
      var k := |conds| - 1;
      if ColumnsEqual(conds[k]) then HashConds(conds[..k]) + [conds[k]] else HashConds(conds[..k])
  }

  function OtherConds(conds: seq<Expr>): (r: seq<Expr>) {
    if conds == [] then []
    else
      var k := |conds| - 1;
      if ColumnsEqual(conds[k]) then OtherConds(conds[..k]) else OtherConds(conds[..k]) + [conds[k]]
  }

  lemma {:induction false} HashCondsMeaning(env: Env, conds: seq<Expr>, n: nat, t: Tuple)
    requires AllScalar(conds, n)
    ensures AllPass(env, conds, t) <==> AllPass(env, HashConds(conds), t) && AllPass(env, OtherConds(conds), t)
    ensures AllScalar(OtherConds(conds), n)
  {
    hide Passes, AllPass, Scalar, ColumnsEqual;
    if conds == [] {
      Pushdown.EmptyPasses(env, t);
    } else {
      var k := |conds| - 1;
      HashCondsMeaning(env, conds[..k], n, t);
      assert conds == conds[..k] + [conds[k]];
      AllPassConcat(env, conds[..k], [conds[k]], t);
      AllPassConcat(env, HashConds(conds[..k]), [conds[k]], t);
      AllPassConcat(env, OtherConds(conds[..k]), [conds[k]], t);
    }
  }

  /** No column in `lo..hi` is read. */
  predicate Avoids(e: Expr, lo: nat, hi: nat) {
    match e
    case Constant(_, _) => true
    case Call(_, args) => forall i :: 0 <= i < |args| ==> Avoids(args[i], lo, hi)
    case Aggregate(_, args) => forall i :: 0 <= i < |args| ==> Avoids(args[i], lo, hi)
    case Column(offset, _) => !(lo <= offset < hi)
  }

  predicate AllAvoid(es: seq<Expr>, lo: nat, hi: nat) {
    forall i :: 0 <= i < |es| ==> Avoids(es[i], lo, hi)
  }

  /** Equal outside the columns `lo..hi`. */
  ghost predicate Alike(t: Tuple, u: Tuple, lo: nat, hi: nat) {
    |t| == |u| && forall i :: 0 <= i < |t| && !(lo <= i < hi) ==> t[i] == u[i]
  }

  lemma {:induction false} EvalAvoids(env: Env, e: Expr, lo: nat, hi: nat, t: Tuple, u: Tuple)
    requires Avoids(e, lo, hi) && Alike(t, u, lo, hi)
    ensures Eval(env, e, t) == Eval(env, e, u)
  {
    if e.Call? {
      forall i | 0 <= i < |e.args| ensures Eval(env, e.args[i], t) == Eval(env, e.args[i], u) {
        EvalAvoids(env, e.args[i], lo, hi, t, u);
      }
      EvalCall(env, e.sig, e.args, t);
      EvalCall(env, e.sig, e.args, u);
      assert EvalAll(env, e.args, t) == EvalAll(env, e.args, u);
    }
  }

  lemma AllAvoidPass(env: Env, es: seq<Expr>, lo: nat, hi: nat, t: Tuple, u: Tuple)
    requires AllAvoid(es, lo, hi) && Alike(t, u, lo, hi)
    ensures AllPass(env, es, t) <==> AllPass(env, es, u)
    ensures EvalAll(env, es, t) == EvalAll(env, es, u)
  {
    hide Eval, Avoids, Alike;
    forall i | 0 <= i < |es| ensures Eval(env, es[i], t) == Eval(env, es[i], u) {
      assert Avoids(es[i], lo, hi);
      EvalAvoids(env, es[i], lo, hi, t, u);
    }
  }

  /** The i-th hash key equates column i of the left with column i of the right, and nothing else reads the right
      keys. */
  ghost predicate Hashable(on: Expr, n: nat, m: nat) {
    var keys, others := HashConds(Conjuncts(on)), OtherConds(Conjuncts(on));
    var k := |keys|;
    && k <= n && k <= m
    && (forall i :: 0 <= i < k ==> keys[i].args[0].offset == i && keys[i].args[1].offset == n + i)
    && AllAvoid(others, n, n + k)
  }

  function HashLen(on: Expr): (r: nat) { |HashConds(Conjuncts(on))| }

  lemma HashKeyMeaning(env: Env, e: Expr, l: Tuple, r: Tuple, i: nat)
    requires ColumnsEqual(e) && i < |l| && i < |r| && e.args[0].offset == i && e.args[1].offset == |l| + i
    ensures Passes(env, e, l + r) <==> SqlEq(l[i], r[i], false)
  {
    EvalCall(env, e.sig, e.args, l + r);
    assert EvalAll(env, e.args, l + r) == [l[i], r[i]];
  }

  lemma HashKeysMeaning(env: Env, on: Expr, l: Tuple, r: Tuple)
    requires Hashable(on, |l|, |r|)
    ensures AllPass(env, HashConds(Conjuncts(on)), l + r) <==> Hashing.KeysMatch(l, r, HashLen(on))
  {
    hide Passes, ColumnsEqual, OtherConds, Conjuncts, SqlEq, AllAvoid;
    var keys := HashConds(Conjuncts(on));
    forall i | 0 <= i < |keys| ensures Passes(env, keys[i], l + r) <==> SqlEq(l[i], r[i], false) {
      HashKeyMeaning(env, keys[i], l, r, i);
    }
  }

  lemma JoinedAlike(l: Tuple, r: Tuple, k: nat)
    requires k <= |l| && k <= |r|
    ensures Alike(Hashing.Joined(l, r, k), l + r, |l|, |l| + k)
  {
  }

  /** What is left to check after the keys. */
  function ResidualCond(on: Expr): (r: Expr) { Combine(OtherConds(Conjuncts(on))) }

  /** The hash join's test on a pair of rows: the leading columns match, and the residual holds of the joined tuple. */
  ghost predicate HashPasses(env: Env, on: Expr, l: Tuple, r: Tuple)
    requires HashLen(on) <= |l| && HashLen(on) <= |r|
  {
    Hashing.KeysMatch(l, r, HashLen(on)) && Passes(env, ResidualCond(on), Hashing.Joined(l, r, HashLen(on)))
  }

  /** On every pair of tuples the test says what the join condition says. */
  ghost predicate HashAgrees(env: Env, on: Expr, n: nat, m: nat) {
    && HashLen(on) <= n && HashLen(on) <= m
    && forall l: Tuple, r: Tuple :: |l| == n && |r| == m ==> (HashPasses(env, on, l, r) <==> Passes(env, on, l + r))
  }

  lemma HashTest(env: Env, on: Expr, l: Tuple, r: Tuple)
    requires Hashable(on, |l|, |r|) && Scalar(on, |l| + |r|)
    ensures HashLen(on) <= |l| && HashLen(on) <= |r|
    ensures HashPasses(env, on, l, r) <==> Passes(env, on, l + r)
  {
    hide Passes, AllPass, HashConds, OtherConds, Conjuncts, Scalar, Combine, AllAvoid, Alike, Hashing.KeysMatch;
    hide Hashing.Joined;
    var conds, k, n := Conjuncts(on), HashLen(on), |l| + |r|;
    ConjunctsMeaning(env, on, n, l + r);
    HashCondsMeaning(env, conds, n, l + r);
    HashKeysMeaning(env, on, l, r);
    JoinedAlike(l, r, k);
    var t := Hashing.Joined(l, r, k);
    CombineMeaning(env, OtherConds(conds), n, t);
    AllAvoidPass(env, OtherConds(conds), |l|, |l| + k, t, l + r);
  }

  /** A hashable condition is one on which the test agrees. */
  lemma HashableAgrees(env: Env, on: Expr, n: nat, m: nat)
    requires Hashable(on, n, m) && Scalar(on, n + m)
    ensures HashAgrees(env, on, n, m)
  {
    hide HashPasses, Passes, Scalar, HashLen;
    HashFits(on, n, m);
    forall l: Tuple, r: Tuple | |l| == n && |r| == m ensures HashPasses(env, on, l, r) <==> Passes(env, on, l + r) {
      HashTest(env, on, l, r);
    }
  }

  lemma HashFits(on: Expr, n: nat, m: nat)
    requires Hashable(on, n, m)
    ensures HashLen(on) <= n && HashLen(on) <= m
  {
  }

  ghost predicate RowsAlike(a: seq<Row>, b: seq<Row>, lo: nat, hi: nat) {
    |a| == |b| && forall i :: 0 <= i < |a| ==> a[i].1 == b[i].1 && Alike(a[i].0, b[i].0, lo, hi)
  }

  lemma AlikeConcat(a: seq<Row>, b: seq<Row>, c: seq<Row>, d: seq<Row>, lo: nat, hi: nat)
    requires RowsAlike(a, b, lo, hi) && RowsAlike(c, d, lo, hi)
    ensures RowsAlike(a + c, b + d, lo, hi)
  {
    hide Alike;
  }

  lemma AgreesFits(env: Env, on: Expr, n: nat, m: nat)
    requires HashAgrees(env, on, n, m)
    ensures HashLen(on) <= n && HashLen(on) <= m
  {
  }

  lemma AgreesPair(env: Env, on: Expr, l: Tuple, r: Tuple)
    requires HashAgrees(env, on, |l|, |r|)
    ensures HashLen(on) <= |l| && HashLen(on) <= |r|
    ensures Passes(env, on, l + r) <==>
      Hashing.KeysMatch(l, r, HashLen(on)) && Passes(env, ResidualCond(on), Hashing.Joined(l, r, HashLen(on)))
  {
    hide Passes, HashLen, ResidualCond, Hashing.KeysMatch, Hashing.Joined;
    assert HashPasses(env, on, l, r) <==> Passes(env, on, l + r);
  }

  lemma {:induction false} HashMatches(env: Env, on: Expr, residual: Tuple -> bool, l: Row, rights: seq<Row>, m: nat)
    requires HashAgrees(env, on, |l.0|, m) && Width(rights, m)
    requires forall t :: residual(t) == Passes(env, ResidualCond(on), t)
    ensures
      var k := HashLen(on);
      RowsAlike(Hashing.Matches(l, rights, k, residual), MatchRows(env, l, rights, on), |l.0|, |l.0| + k)
  {
    hide Passes, HashLen, ResidualCond, Alike, Hashing.KeysMatch, Hashing.Joined, HashAgrees, RowsAlike;
    var k := HashLen(on);
    AgreesFits(env, on, |l.0|, m);
    if rights == [] {
      assert RowsAlike([], [], |l.0|, |l.0| + k) by { NoneAlike(|l.0|, |l.0| + k); }
    } else {
      var more, rows := Hashing.Matches(l, rights[1..], k, residual), MatchRows(env, l, rights[1..], on);
      HashMatches(env, on, residual, l, rights[1..], m);
      AgreesPair(env, on, l.0, rights[0].0);
      if Passes(env, on, l.0 + rights[0].0) {
        JoinedAlike(l.0, rights[0].0, k);
        var a: Row := (Hashing.Joined(l.0, rights[0].0, k), rights[0].1 * l.1);
        var b: Row := (l.0 + rights[0].0, rights[0].1 * l.1);
        OneAlike(a, b, |l.0|, |l.0| + k);
        AlikeConcat([a], [b], more, rows, |l.0|, |l.0| + k);
      } else {
        assert [] + more == more;
      }
    }
  }

  lemma NoneAlike(lo: nat, hi: nat)
    ensures RowsAlike([], [], lo, hi)
  {
  }

  lemma OneAlike(a: Row, b: Row, lo: nat, hi: nat)
    requires a.1 == b.1 && Alike(a.0, b.0, lo, hi)
    ensures RowsAlike([a], [b], lo, hi)
  {
    hide Alike;
  }

  lemma {:induction false} HashRows(env: Env, on: Expr, residual: Tuple -> bool, lefts: seq<Row>, rights: seq<Row>,
                                    join: JoinType, n: nat, m: nat)
    requires HashAgrees(env, on, n, m) && Width(lefts, n) && Width(rights, m)
    requires forall t :: residual(t) == Passes(env, ResidualCond(on), t)
    ensures
      var k := HashLen(on);
      RowsAlike(Hashing.NestedLoop(lefts, rights, k, residual, join, m), JoinRows(env, lefts, rights, on, join, m),
                n, n + k)
  {
    hide Passes, HashLen, ResidualCond, HashPasses, Hashing.Matches, MatchRows, Alike;
    if lefts != [] {
      var l, k := lefts[0], HashLen(on);
      HashRows(env, on, residual, lefts[1..], rights, join, n, m);
      HashMatches(env, on, residual, l, rights, m);
      AlikeSelf(l.0 + Nulls(m), n, n + k);
      AlikeConcat(Hashing.LeftRow(l, rights, k, residual, join, m), Padded(l, MatchRows(env, l, rights, on), join, m),
                  Hashing.NestedLoop(lefts[1..], rights, k, residual, join, m),
                  JoinRows(env, lefts[1..], rights, on, join, m), n, n + k);
    }
  }

  lemma AlikeSelf(t: Tuple, lo: nat, hi: nat)
    ensures Alike(t, t, lo, hi)
  {
  }

  // ----- Exactly when a join can be hashed

  /** The rows of the hash join that lowering makes of a condition. */
  ghost function HashJoinRows(env: Env, on: Expr, join: JoinType, lefts: seq<Row>, rights: seq<Row>,
                              m: nat): (r: seq<Row>)
    requires AtLeast(lefts, HashLen(on)) && AtLeast(rights, HashLen(on))
  {
    Hashing.NestedLoop(lefts, rights, HashLen(on), t => Passes(env, ResidualCond(on), t), join, m)
  }

  /** It is the join of these tables, up to the right key columns. */
  ghost predicate HashRight(env: Env, on: Expr, join: JoinType, lefts: seq<Row>, rights: seq<Row>, n: nat, m: nat)
    requires HashLen(on) <= n && HashLen(on) <= m && Width(lefts, n) && Width(rights, m)
  {
    RowsAlike(HashJoinRows(env, on, join, lefts, rights, m), JoinRows(env, lefts, rights, on, join, m),
              n, n + HashLen(on))
  }

  ghost predicate HashesAll(env: Env, on: Expr, join: JoinType, n: nat, m: nat)
    requires HashLen(on) <= n && HashLen(on) <= m
  {
    forall lefts, rights :: Width(lefts, n) && Width(rights, m) ==> HashRight(env, on, join, lefts, rights, n, m)
  }

  /** One row on each side; the frequency of two tells a match from a padded row. */
  lemma OnePair(env: Env, on: Expr, join: JoinType, l: Tuple, r: Tuple)
    requires HashLen(on) <= |l| && HashLen(on) <= |r|
    requires HashRight(env, on, join, [(l, 1)], [(r, 2)], |l|, |r|)
    ensures HashPasses(env, on, l, r) <==> Passes(env, on, l + r)
  {
    hide Passes, HashLen, ResidualCond, Alike, Hashing.KeysMatch, Hashing.Joined;
    var left: Row, right: Row, k := (l, 1), (r, 2), HashLen(on);
    assert [left][1..] == [] && [right][1..] == [];
    var residual := t => Passes(env, ResidualCond(on), t);
    var hashed, joined := Hashing.Matches(left, [right], k, residual), MatchRows(env, left, [right], on);
    assert Hashing.Matches(left, [], k, residual) == [] && MatchRows(env, left, [], on) == [];
    assert hashed == if HashPasses(env, on, l, r) then [(Hashing.Joined(l, r, k), 2)] else [];
    assert joined == if Passes(env, on, l + r) then [(l + r, 2)] else [];
    var a, b := HashJoinRows(env, on, join, [left], [right], |r|), JoinRows(env, [left], [right], on, join, |r|);
    assert Hashing.NestedLoop([], [right], k, residual, join, |r|) == []
      && JoinRows(env, [], [right], on, join, |r|) == [];
    assert a == Hashing.LeftRow(left, [right], k, residual, join, |r|);
    assert b == Padded(left, joined, join, |r|);
  }

  /**
   * For inner and for left outer joins: lowering to a hash join is right on all tables if and only if
   * on every pair of tuples the leading columns and the residual say what the condition says.
   */
  lemma HashExact(env: Env, on: Expr, join: JoinType, n: nat, m: nat)
    requires HashLen(on) <= n && HashLen(on) <= m
    ensures HashesAll(env, on, join, n, m) <==> HashAgrees(env, on, n, m)
  {
    hide HashPasses, Passes, HashLen, ResidualCond, RowsAlike, Hashing.NestedLoop, JoinRows;
    if HashAgrees(env, on, n, m) {
      forall lefts, rights | Width(lefts, n) && Width(rights, m) ensures HashRight(env, on, join, lefts, rights, n, m) {
        HashRows(env, on, t => Passes(env, ResidualCond(on), t), lefts, rights, join, n, m);
      }
    }
    if HashesAll(env, on, join, n, m) {
      forall l: Tuple, r: Tuple | |l| == n && |r| == m ensures HashPasses(env, on, l, r) <==> Passes(env, on, l + r) {
        assert Width([(l, 1)], n) && Width([(r, 2)], m);
        assert HashRight(env, on, join, [(l, 1)], [(r, 2)], n, m);
        OnePair(env, on, join, l, r);
      }
    }
  }

  // ----- Exactly when, for conditions that only equate columns

  /** The equality is between column i of the left and column i of the right, either way round. */
  predicate Pairs(e: Expr, i: nat, n: nat)
    requires ColumnsEqual(e)
  {
    var a, b := e.args[0].offset, e.args[1].offset;
    (a == i && b == n + i) || (a == n + i && b == i)
  }

  /** Every one of the leading columns is equated with its counterpart. */
  ghost predicate Covers(keys: seq<Expr>, n: nat)
    requires forall j :: 0 <= j < |keys| ==> ColumnsEqual(keys[j])
  {
    forall i :: 0 <= i < |keys| ==> PairedBy(keys, i, n)
  }

  ghost predicate PairedBy(keys: seq<Expr>, i: nat, n: nat)
    requires forall j :: 0 <= j < |keys| ==> ColumnsEqual(keys[j])
  {
    exists j :: 0 <= j < |keys| && Pairs(keys[j], i, n)
  }

  lemma ColumnsMeaning(env: Env, e: Expr, t: Tuple)
    requires ColumnsEqual(e) && e.args[0].offset < |t| && e.args[1].offset < |t|
    ensures Passes(env, e, t) <==> SqlEq(t[e.args[0].offset], t[e.args[1].offset], false)
  {
    EvalCall(env, e.sig, e.args, t);
    assert EvalAll(env, e.args, t) == [t[e.args[0].offset], t[e.args[1].offset]];
  }

  lemma PairMeaning(env: Env, e: Expr, l: Tuple, r: Tuple, i: nat)
    requires ColumnsEqual(e) && i < |l| && i < |r| && Pairs(e, i, |l|)
    ensures Passes(env, e, l + r) <==> SqlEq(l[i], r[i], false)
  {
    hide Eval;
    ColumnsMeaning(env, e, l + r);
    assert (l + r)[i] == l[i] && (l + r)[|l| + i] == r[i];
  }

  /** As many equalities as leading columns, and every column paired: then every equality pairs one. */
  lemma EveryPairs(keys: seq<Expr>, n: nat, j: nat) returns (i: nat)
    requires (forall j :: 0 <= j < |keys| ==> ColumnsEqual(keys[j])) && |keys| <= n && Covers(keys, n) && j < |keys|
    ensures i < |keys| && Pairs(keys[j], i, n)
  {
    hide ColumnsEqual;
    var chosen: seq<nat> := ChoosePairs(keys, n, |keys|);
    CoversAll(chosen, |keys|, j);
    i :| 0 <= i < |chosen| && chosen[i] == j;
  }

  lemma {:induction false} ChoosePairs(keys: seq<Expr>, n: nat, k: nat) returns (chosen: seq<nat>)
    requires (forall j :: 0 <= j < |keys| ==> ColumnsEqual(keys[j])) && |keys| <= n && Covers(keys, n) && k <= |keys|
    ensures |chosen| == k && NoDup(chosen)
    ensures forall i :: 0 <= i < k ==> chosen[i] < |keys| && Pairs(keys[chosen[i]], i, n)
  {
    hide ColumnsEqual;
    chosen := [];
    if k > 0 {
      var before := ChoosePairs(keys, n, k - 1);
      assert PairedBy(keys, k - 1, n);
      var j: nat :| j < |keys| && Pairs(keys[j], k - 1, n);
      chosen := before + [j];
    }
  }

  /** Only column equalities, and their number within both sides. */
  ghost predicate OnlyColumns(on: Expr, n: nat, m: nat) {
    Scalar(on, n + m) && OtherConds(Conjuncts(on)) == [] && HashLen(on) <= n && HashLen(on) <= m
  }

  lemma OnlyColumnsMeaning(env: Env, on: Expr, l: Tuple, r: Tuple)
    requires OnlyColumns(on, |l|, |r|)
    ensures Passes(env, on, l + r) <==> AllPass(env, HashConds(Conjuncts(on)), l + r)
    ensures HashPasses(env, on, l, r) <==> Hashing.KeysMatch(l, r, HashLen(on))
    ensures AllScalar(HashConds(Conjuncts(on)), |l| + |r|)
  {
    hide AllPass, HashConds, Conjuncts, Scalar, Hashing.KeysMatch, Hashing.Joined;
    ConjunctsMeaning(env, on, |l| + |r|, l + r);
    HashCondsMeaning(env, Conjuncts(on), |l| + |r|, l + r);
    HashCondsScalar(Conjuncts(on), |l| + |r|);
    Pushdown.EmptyPasses(env, l + r);
  }

  lemma {:induction false} HashCondsScalar(conds: seq<Expr>, n: nat)
    requires AllScalar(conds, n)
    ensures AllScalar(HashConds(conds), n)
  {
    hide Scalar, ColumnsEqual;
    if conds != [] { HashCondsScalar(conds[..|conds| - 1], n); }
  }

  /** Distinct values, but for the pairs of leading columns, which are equal unless they are pair `odd`. */
  function Apart(k: nat, n: nat, m: nat, odd: int): (r: Tuple)
    requires k <= n && k <= m
    ensures |r| == n + m && forall c :: 0 <= c < n + m ==> r[c] == Integer(ApartAt(k, n, m, odd, c))
  {
    seq(n + m, c requires 0 <= c < n + m => Integer(ApartAt(k, n, m, odd, c)))
  }

  function ApartAt(k: nat, n: nat, m: nat, odd: int, c: nat): (r: int) {
    if c < k then c else if n <= c < n + k then if c - n == odd then -1 else c - n else n + m + c
  }

  lemma ApartKeys(k: nat, n: nat, m: nat, odd: int)
    requires k <= n && k <= m
    ensures
      var t := Apart(k, n, m, odd);
      Hashing.KeysMatch(t[..n], t[n..], k) <==> !(0 <= odd < k)
  {
    var t := Apart(k, n, m, odd);
    var l, r := t[..n], t[n..];
    forall i | 0 <= i < k ensures SqlEq(l[i], r[i], false) <==> i != odd {
      assert l[i] == Integer(i) && r[i] == Integer(if i == odd then -1 else i);
    }
    if 0 <= odd < k { assert !SqlEq(l[odd], r[odd], false); }
  }

  /** If the test agrees on those tuples, some equality pairs column i with its counterpart. */
  lemma PairNeeded(env: Env, on: Expr, n: nat, m: nat, i: nat)
    requires OnlyColumns(on, n, m) && HashAgrees(env, on, n, m) && i < HashLen(on)
    ensures PairedBy(HashConds(Conjuncts(on)), i, n)
  {
    hide HashConds, Conjuncts, Scalar, Hashing.KeysMatch, Hashing.Joined, HashPasses, Passes;
    var keys, k := HashConds(Conjuncts(on)), HashLen(on);
    var same, odd := Apart(k, n, m, -1), Apart(k, n, m, i);
    AgreesAt(env, on, n, m, same);
    AgreesAt(env, on, n, m, odd);
    ApartKeys(k, n, m, -1);
    ApartKeys(k, n, m, i);
    var j :| 0 <= j < |keys| && !Passes(env, keys[j], odd);
    assert Passes(env, keys[j], same);
    OffsetsInRange(keys[j], n + m);
    ColumnsMeaning(env, keys[j], same);
    ColumnsMeaning(env, keys[j], odd);
    OddPair(k, n, m, i, keys[j].args[0].offset, keys[j].args[1].offset);
    assert Pairs(keys[j], i, n);
  }

  lemma OffsetsInRange(e: Expr, n: nat)
    requires ColumnsEqual(e) && Scalar(e, n)
    ensures e.args[0].offset < n && e.args[1].offset < n
  {
    assert Scalar(e.args[0], n) && Scalar(e.args[1], n);
  }

  lemma AgreesAt(env: Env, on: Expr, n: nat, m: nat, t: Tuple)
    requires OnlyColumns(on, n, m) && HashAgrees(env, on, n, m) && |t| == n + m
    ensures AllPass(env, HashConds(Conjuncts(on)), t) <==> Hashing.KeysMatch(t[..n], t[n..], HashLen(on))
    ensures AllScalar(HashConds(Conjuncts(on)), n + m)
  {
    hide HashConds, Conjuncts, Scalar, Hashing.KeysMatch, Hashing.Joined, HashPasses, Passes, AllPass;
    assert t[..n] + t[n..] == t;
    OnlyColumnsMeaning(env, on, t[..n], t[n..]);
  }

  lemma OddPair(k: nat, n: nat, m: nat, i: nat, a: nat, b: nat)
    requires i < k <= n && k <= m && a < n + m && b < n + m
    requires ApartAt(k, n, m, -1, a) == ApartAt(k, n, m, -1, b) && ApartAt(k, n, m, i, a) != ApartAt(k, n, m, i, b)
    ensures (a == i && b == n + i) || (a == n + i && b == i)
  {
  }

  /**
   * When the condition only equates columns: lowering is right on all tables, for either join type, if
   * and only if the equalities pair the leading columns of the two sides, in any order and either way round.
   */
  lemma ColumnKeysExact(env: Env, on: Expr, join: JoinType, n: nat, m: nat)
    requires OnlyColumns(on, n, m)
    ensures HashesAll(env, on, join, n, m) <==> Covers(HashConds(Conjuncts(on)), n)
  {
    hide HashesAll, HashPasses, Passes, HashConds, Conjuncts, Scalar, Hashing.KeysMatch, ColumnsEqual, SqlEq;
    var keys, k := HashConds(Conjuncts(on)), HashLen(on);
    HashExact(env, on, join, n, m);
    if HashAgrees(env, on, n, m) {
      forall i | 0 <= i < k ensures PairedBy(keys, i, n) { PairNeeded(env, on, n, m, i); }
    }
    if Covers(keys, n) {
      forall l: Tuple, r: Tuple | |l| == n && |r| == m ensures HashPasses(env, on, l, r) <==> Passes(env, on, l + r) {
        CoversAgree(env, on, l, r);
      }
    }
  }

  lemma CoversAgree(env: Env, on: Expr, l: Tuple, r: Tuple)
    requires OnlyColumns(on, |l|, |r|) && Covers(HashConds(Conjuncts(on)), |l|)
    ensures HashPasses(env, on, l, r) <==> Passes(env, on, l + r)
  {
    hide HashPasses, Passes, HashConds, Conjuncts, Scalar, ColumnsEqual, SqlEq, Pairs;
    var keys, k := HashConds(Conjuncts(on)), HashLen(on);
    OnlyColumnsMeaning(env, on, l, r);
    if Hashing.KeysMatch(l, r, k) {
      forall j | 0 <= j < k ensures Passes(env, keys[j], l + r) {
        var i := EveryPairs(keys, |l|, j);
        PairMeaning(env, keys[j], l, r, i);
      }
    }
    if AllPass(env, keys, l + r) {
      forall i | 0 <= i < k ensures SqlEq(l[i], r[i], false) {
        assert PairedBy(keys, i, |l|);
        var j :| 0 <= j < |keys| && Pairs(keys[j], i, |l|);
        PairMeaning(env, keys[j], l, r, i);
      }
    }
  }

  lemma ProjectAlike(env: Env, es: seq<Expr>, a: seq<Row>, b: seq<Row>, lo: nat, hi: nat)
    requires RowsAlike(a, b, lo, hi) && AllAvoid(es, lo, hi)
    ensures ProjectRows(env, es, a) == ProjectRows(env, es, b)
  {
    hide EvalAll, Alike, AllAvoid;
    forall i | 0 <= i < |a| ensures EvalAll(env, es, a[i].0) == EvalAll(env, es, b[i].0) {
      AllAvoidPass(env, es, lo, hi, a[i].0, b[i].0);
    }
  }
}
