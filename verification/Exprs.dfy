/** Compiled expressions: evaluation, and the rewrites the planner builds its passes from. */
module Exprs {
  import opened Bytes
  import opened Datums
  import opened Rows

  datatype DataType =
    | NullType | BooleanType | IntegerType | BigIntType | DecimalType(precision: nat, scale: nat)
    | TextType | ByteAType | JsonType | DateType | TimestampType | JsonPathType

  datatype Signature = Signature(name: string, args: seq<DataType>, ret: DataType)

  /** Expressions after function compilation; casts and names are gone by then. */
  datatype Expr =
    | Constant(value: Datum, ty: DataType)
    | Call(sig: Signature, args: seq<Expr>)
    | Aggregate(sig: Signature, args: seq<Expr>)
    | Column(offset: nat, ty: DataType)

  /** How scalar functions are executed, for a given session. */
  type Scalars = (Signature, Tuple) -> Datum

  /**
   * What a plan is run against. Functions are arbitrary, except for `and` and `=` below. A hash map is
   * drained in whatever order `drain` says: it gets the number of the GROUP BY and its distinct keys.
   */
  datatype Env = Env(
    scalar: Scalars,
    stateSize: Signature -> nat,
    initial: Signature -> Tuple,
    step: (Signature, Tuple, int, Tuple) -> Tuple,
    finish: (Signature, Tuple) -> Datum,
    table: nat -> seq<Row>,
    file: (string, byte) -> seq<Row>,
    sortBytes: (Tuple, seq<SortOrder>, Row) -> seq<byte>,
    drain: (nat, seq<Tuple>) -> seq<Tuple>)

  const TRUE: Expr := Constant(Boolean(true), BooleanType)

  function TypeOf(e: Expr): (r: DataType) {
    match e
    case Constant(_, ty) => ty
    case Call(sig, _) => sig.ret
    case Aggregate(sig, _) => sig.ret
    case Column(_, ty) => ty
  }

  // ----- Evaluation

  /** `and` is null unless both sides are booleans. */
  function And(a: Datum, b: Datum): (r: Datum) {
    if a.Boolean? && b.Boolean? then Boolean(a.b && b.b) else Null
  }

  function Equals(a: Datum, b: Datum): (r: Datum) {
    if a.Null? || b.Null? then Null else Boolean(SqlEq(a, b, false))
  }

  function Apply(env: Env, sig: Signature, args: Tuple): (r: Datum) { ApplyScalar(env.scalar, sig, args) }

  function ApplyScalar(scalar: Scalars, sig: Signature, args: Tuple): (r: Datum) {
    if sig.name == "and" && |args| == 2 then And(args[0], args[1])
    else if sig.name == "=" && |args| == 2 then Equals(args[0], args[1])
    else scalar(sig, args)
  }

  function Eval(env: Env, e: Expr, t: Tuple): (r: Datum) {
    match e
    case Constant(value, _) => value
    case Call(sig, args) => Apply(env, sig, seq(|args|, i requires 0 <= i < |args| => Eval(env, args[i], t)))
    case Aggregate(_, _) => Null
    case Column(offset, _) => if offset < |t| then t[offset] else Null
  }

  function EvalAll(env: Env, es: seq<Expr>, t: Tuple): (r: Tuple)
    ensures |r| == |es| && forall i :: 0 <= i < |es| ==> r[i] == Eval(env, es[i], t)
  {
    seq(|es|, i requires 0 <= i < |es| => Eval(env, es[i], t))
  }

  lemma EvalCall(env: Env, sig: Signature, args: seq<Expr>, t: Tuple)
    ensures Eval(env, Call(sig, args), t) == Apply(env, sig, EvalAll(env, args, t))
  {
    assert seq(|args|, i requires 0 <= i < |args| => Eval(env, args[i], t)) == EvalAll(env, args, t);
  }

  /** `and` is three-valued: null exactly when a side is no boolean, false exactly when both are and one is. */
  lemma AndValue(env: Env, sig: Signature, a: Expr, b: Expr, t: Tuple)
    requires sig.name == "and"
    ensures
      var r, x, y := Eval(env, Call(sig, [a, b]), t), Eval(env, a, t), Eval(env, b, t);
      && (r.Null? <==> !x.Boolean? || !y.Boolean?)
      && (r == Boolean(false) <==> x.Boolean? && y.Boolean? && (x == Boolean(false) || y == Boolean(false)))
      && (r == Boolean(true) <==> x == Boolean(true) && y == Boolean(true))
  {
    EvalCall(env, sig, [a, b], t);
    assert EvalAll(env, [a, b], t) == [Eval(env, a, t), Eval(env, b, t)];
  }

  lemma AndCommutes(env: Env, sig: Signature, a: Expr, b: Expr, t: Tuple)
    requires sig.name == "and"
    ensures Eval(env, Call(sig, [a, b]), t) == Eval(env, Call(sig, [b, a]), t)
  {
    hide Eval;
    AndTotal(env, sig, a, b, t);
    AndTotal(env, sig, b, a, t);
  }

  lemma AndAssociates(env: Env, sig: Signature, a: Expr, b: Expr, c: Expr, t: Tuple)
    requires sig.name == "and"
    ensures Eval(env, Call(sig, [Call(sig, [a, b]), c]), t) == Eval(env, Call(sig, [a, Call(sig, [b, c])]), t)
  {
    hide Eval;
    AndTotal(env, sig, a, b, t);
    AndTotal(env, sig, b, c, t);
    AndTotal(env, sig, Call(sig, [a, b]), c, t);
    AndTotal(env, sig, a, Call(sig, [b, c]), t);
  }

  lemma AndTotal(env: Env, sig: Signature, a: Expr, b: Expr, t: Tuple)
    requires sig.name == "and"
    ensures Eval(env, Call(sig, [a, b]), t) == And(Eval(env, a, t), Eval(env, b, t))
  {
    EvalCall(env, sig, [a, b], t);
    assert EvalAll(env, [a, b], t) == [Eval(env, a, t), Eval(env, b, t)];
  }

  /** `=` is null exactly when a side is, and otherwise a boolean: whether the values compare equal. */
  lemma EqualsValue(env: Env, sig: Signature, a: Expr, b: Expr, t: Tuple)
    requires sig.name == "="
    ensures
      var r, x, y := Eval(env, Call(sig, [a, b]), t), Eval(env, a, t), Eval(env, b, t);
      && (r.Null? <==> x.Null? || y.Null?)
      && (!r.Null? && ValidDatum(x) && ValidDatum(y) && Comparable(x, y) ==> r == Boolean(DatumCmp(x, y) == 0))
  {
    hide Canon, DatumCmp, Eval;
    EvalCall(env, sig, [a, b], t);
    var x, y := Eval(env, a, t), Eval(env, b, t);
    assert EvalAll(env, [a, b], t) == [x, y];
    if !x.Null? && !y.Null? && ValidDatum(x) && ValidDatum(y) && Comparable(x, y) { CmpIsEqual(x, y); }
  }

  /** Only an exact `true` lets a row through. */
  predicate Passes(env: Env, e: Expr, t: Tuple) {
    Eval(env, e, t) == Boolean(true)
  }

  predicate AllPass(env: Env, es: seq<Expr>, t: Tuple) {
    forall i :: 0 <= i < |es| ==> Passes(env, es[i], t)
  }

  lemma AllPassConcat(env: Env, a: seq<Expr>, b: seq<Expr>, t: Tuple)
    ensures AllPass(env, a + b, t) <==> AllPass(env, a, t) && AllPass(env, b, t)
  {
    if AllPass(env, a + b, t) {
      forall i | 0 <= i < |a| ensures Passes(env, a[i], t) { assert a[i] == (a + b)[i]; }
      forall i | 0 <= i < |b| ensures Passes(env, b[i], t) { assert b[i] == (a + b)[|a| + i]; }
    }
  }

  /** A scalar expression over `n` columns, with the operators applied to as many arguments as they take. */
  predicate Scalar(e: Expr, n: nat) {
    match e
    case Constant(_, _) => true
    case Call(sig, args) =>
      && (sig.name == "and" || sig.name == "=" ==> |args| == 2)
      && forall i :: 0 <= i < |args| ==> Scalar(args[i], n)
    case Aggregate(_, _) => false
    case Column(offset, _) => offset < n
  }

  predicate AllScalar(es: seq<Expr>, n: nat) {
    forall i :: 0 <= i < |es| ==> Scalar(es[i], n)
  }

  // ----- Aggregation

  /** Scalars over aggregates of scalars. */
  predicate Aggregating(e: Expr, n: nat) {
    match e
    case Constant(_, _) => true
    case Call(sig, args) =>
      && (sig.name == "and" || sig.name == "=" ==> |args| == 2)
      && forall i :: 0 <= i < |args| ==> Aggregating(args[i], n)
    case Aggregate(_, args) => AllScalar(args, n)
    case Column(offset, _) => offset < n
  }

  predicate AllAggregating(es: seq<Expr>, n: nat) {
    forall i :: 0 <= i < |es| ==> Aggregating(es[i], n)
  }

  /** An aggregate's own state after the rows, oldest first. */
  function Accumulate(env: Env, sig: Signature, args: seq<Expr>, rows: seq<Row>): (r: Tuple) {
    if rows == [] then env.initial(sig)
    else
      var n := |rows| - 1;
      env.step(sig, EvalAll(env, args, rows[n].0), rows[n].1, Accumulate(env, sig, args, rows[..n]))
  }

  /** A bare column shows the first value that is not null. */
  function FirstValue(offset: nat, rows: seq<Row>): (r: Datum) {
    if rows == [] then Null
    else
      var n := |rows| - 1;
      var before := FirstValue(offset, rows[..n]);
      if before.Null? && offset < |rows[n].0| then rows[n].0[offset] else before
  }

  /** The column's value in a row; a row that is too short has none. */
  function ValueIn(offset: nat, row: Row): (r: Datum) {
    if offset < |row.0| then row.0[offset] else Null
  }

  /** The earliest row in which the column has a value. */
  ghost predicate FirstAt(offset: nat, rows: seq<Row>, i: nat) {
    && i < |rows| && !ValueIn(offset, rows[i]).Null?
    && forall j :: 0 <= j < i ==> ValueIn(offset, rows[j]).Null?
  }

  /** It is null when all values are, and else the one of the earliest row that has one. */
  lemma {:induction false} FirstIsEarliest(offset: nat, rows: seq<Row>)
    ensures FirstValue(offset, rows).Null? <==> forall i :: 0 <= i < |rows| ==> ValueIn(offset, rows[i]).Null?
    ensures forall i: nat :: FirstAt(offset, rows, i) ==> FirstValue(offset, rows) == ValueIn(offset, rows[i])
  {
    if rows != [] {
      var n := |rows| - 1;
      FirstIsEarliest(offset, rows[..n]);
      assert forall i :: 0 <= i < n ==> rows[..n][i] == rows[i];
      assert (forall i :: 0 <= i < |rows| ==> ValueIn(offset, rows[i]).Null?) <==>
        (forall i :: 0 <= i < n ==> ValueIn(offset, rows[..n][i]).Null?) && ValueIn(offset, rows[n]).Null?;
      forall i: nat | FirstAt(offset, rows, i) ensures FirstValue(offset, rows) == ValueIn(offset, rows[i]) {
        if i < n { assert FirstAt(offset, rows[..n], i); }
      }
    }
  }

  function EvalGroup(env: Env, e: Expr, rows: seq<Row>): (r: Datum) {
    match e
    case Constant(value, _) => value
    case Call(sig, args) => Apply(env, sig, seq(|args|, i requires 0 <= i < |args| => EvalGroup(env, args[i], rows)))
    case Aggregate(sig, args) => env.finish(sig, Accumulate(env, sig, args, rows))
    case Column(offset, _) => FirstValue(offset, rows)
  }

  function EvalGroupAll(env: Env, es: seq<Expr>, rows: seq<Row>): (r: Tuple)
    ensures |r| == |es| && forall i :: 0 <= i < |es| ==> r[i] == EvalGroup(env, es[i], rows)
  {
    seq(|es|, i requires 0 <= i < |es| => EvalGroup(env, es[i], rows))
  }

  // ----- Splitting and joining conjunctions

  function NotTrue(es: seq<Expr>): (r: seq<Expr>) {
    if es == [] then []
    else (if es[0] != TRUE then [es[0]] else []) + NotTrue(es[1..])
  }

  /** Splits at every `and`, dropping literal trues. */
  function Conjuncts(e: Expr): (r: seq<Expr>) {
    if e.Call? && e.sig.name == "and" then NotTrue(ConjunctsOf(e.args))
    else NotTrue([e])
  }

  function ConjunctsOf(es: seq<Expr>): (r: seq<Expr>) {
    if es == [] then [] else Conjuncts(es[0]) + ConjunctsOf(es[1..])
  }

  const AND: Signature := Signature("and", [BooleanType, BooleanType], BooleanType)

  /** A left-deep chain of `and`s; true when there is nothing to combine. */
  function Combine(es: seq<Expr>): (r: Expr) {
    if es == [] then TRUE
    else if |es| == 1 then es[0]
    else Call(AND, [Combine(es[..|es| - 1]), es[|es| - 1]])
  }

  lemma {:induction false} NotTrueMeaning(env: Env, es: seq<Expr>, t: Tuple)
    ensures AllPass(env, NotTrue(es), t) <==> AllPass(env, es, t)
  {
    if es != [] {
      NotTrueMeaning(env, es[1..], t);
      assert es == [es[0]] + es[1..];
      AllPassConcat(env, [es[0]], es[1..], t);
      AllPassConcat(env, if es[0] != TRUE then [es[0]] else [], NotTrue(es[1..]), t);
      AllPassOne(env, es[0], t);
    }
  }

  lemma AllPassOne(env: Env, e: Expr, t: Tuple)
    ensures AllPass(env, [e], t) <==> Passes(env, e, t)
  {
    assert [e][0] == e;
  }

  lemma {:induction false} NotTrueScalar(es: seq<Expr>, n: nat)
    requires AllScalar(es, n)
    ensures AllScalar(NotTrue(es), n)
  {
    if es != [] { NotTrueScalar(es[1..], n); }
  }

  /** A predicate passes exactly when all of its conjuncts do. */
  lemma {:induction false} ConjunctsMeaning(env: Env, e: Expr, n: nat, t: Tuple)
    requires Scalar(e, n)
    ensures AllPass(env, Conjuncts(e), t) <==> Passes(env, e, t)
    ensures AllScalar(Conjuncts(e), n)
  {
    if e.Call? && e.sig.name == "and" {
      ConjunctsOfMeaning(env, e.args, n, t);
      NotTrueMeaning(env, ConjunctsOf(e.args), t);
      NotTrueScalar(ConjunctsOf(e.args), n);
      EvalCall(env, e.sig, e.args, t);
      assert Passes(env, e, t) <==> Passes(env, e.args[0], t) && Passes(env, e.args[1], t);
    } else {
      NotTrueMeaning(env, [e], t);
      NotTrueScalar([e], n);
      AllPassOne(env, e, t);
    }
  }

  lemma {:induction false} ConjunctsOfMeaning(env: Env, es: seq<Expr>, n: nat, t: Tuple)
    requires AllScalar(es, n)
    ensures AllPass(env, ConjunctsOf(es), t) <==> AllPass(env, es, t)
    ensures AllScalar(ConjunctsOf(es), n)
  {
    if es != [] {
      ConjunctsMeaning(env, es[0], n, t);
      ConjunctsOfMeaning(env, es[1..], n, t);
      AllPassConcat(env, Conjuncts(es[0]), ConjunctsOf(es[1..]), t);
      assert es == [es[0]] + es[1..];
      AllPassConcat(env, [es[0]], es[1..], t);
      AllPassOne(env, es[0], t);
    }
  }

  lemma {:induction false} CombineMeaning(env: Env, es: seq<Expr>, n: nat, t: Tuple)
    requires AllScalar(es, n)
    ensures Scalar(Combine(es), n)
    ensures Passes(env, Combine(es), t) <==> AllPass(env, es, t)
  {
    if |es| > 1 {
      var k := |es| - 1;
      CombineMeaning(env, es[..k], n, t);
      assert es == es[..k] + [es[k]];
      AllPassConcat(env, es[..k], [es[k]], t);
      AllPassOne(env, es[k], t);
      EvalCall(env, AND, [Combine(es[..k]), es[k]], t);
    } else if |es| == 1 {
      AllPassOne(env, es[0], t);
    }
  }

  /** Nothing produced by splitting is a literal true or a call of `and`. */
  predicate Atomic(e: Expr) {
    e != TRUE && !(e.Call? && e.sig.name == "and")
  }

  predicate AllAtomic(es: seq<Expr>) {
    forall i :: 0 <= i < |es| ==> Atomic(es[i])
  }

  lemma {:induction false} NotTrueAtomic(es: seq<Expr>)
    ensures AllAtomic(es) ==> NotTrue(es) == es
    ensures (forall i :: 0 <= i < |es| ==> !(es[i].Call? && es[i].sig.name == "and")) ==> AllAtomic(NotTrue(es))
  {
    if es != [] { NotTrueAtomic(es[1..]); }
  }

  lemma {:induction false} ConjunctsAtomic(e: Expr)
    ensures AllAtomic(Conjuncts(e))
  {
    if e.Call? && e.sig.name == "and" {
      ConjunctsOfAtomic(e.args);
      NotTrueAtomic(ConjunctsOf(e.args));
    } else {
      NotTrueAtomic([e]);
    }
  }

  lemma {:induction false} ConjunctsOfAtomic(es: seq<Expr>)
    ensures AllAtomic(ConjunctsOf(es))
  {
    if es != [] {
      ConjunctsAtomic(es[0]);
      ConjunctsOfAtomic(es[1..]);
    }
  }

  /** Splitting undoes combining. */
  lemma {:induction false} CombineRoundTrip(es: seq<Expr>)
    requires AllAtomic(es)
    ensures Conjuncts(Combine(es)) == es
  {
    if |es| > 1 {
      var k := |es| - 1;
      CombineRoundTrip(es[..k]);
      var args := [Combine(es[..k]), es[k]];
      assert args[1..] == [es[k]] && [es[k]][1..] == [];
      NotTrueAtomic([es[k]]);
      assert ConjunctsOf([es[k]]) == [es[k]];
      assert ConjunctsOf(args) == es[..k] + [es[k]] == es;
      NotTrueAtomic(es);
    } else if |es| == 1 {
      NotTrueAtomic(es);
      assert es == [es[0]];
    }
  }

  // ----- Column references

  /** The offset after an `isize` move, which wraps below zero. */
  function MovedOffset(offset: nat, amount: int): (r: nat) {
    if offset + amount >= 0 then offset + amount else (offset + amount) % 0x1_0000_0000_0000_0000
  }

  function Move(e: Expr, amount: int): (r: Expr) {
    match e
    case Constant(_, _) => e
    case Call(sig, args) => Call(sig, seq(|args|, i requires 0 <= i < |args| => Move(args[i], amount)))
    case Aggregate(sig, args) => Aggregate(sig, seq(|args|, i requires 0 <= i < |args| => Move(args[i], amount)))
    case Column(offset, ty) => Column(MovedOffset(offset, amount), ty)
  }

  function MoveAll(es: seq<Expr>, amount: int): (r: seq<Expr>)
    ensures |r| == |es| && forall i :: 0 <= i < |es| ==> r[i] == Move(es[i], amount)
  {
    seq(|es|, i requires 0 <= i < |es| => Move(es[i], amount))
  }

  /** Column references are replaced by the source's expressions. */
  function Inline(e: Expr, source: seq<Expr>): (r: Expr) {
    match e
    case Constant(_, _) => e
    case Call(sig, args) => Call(sig, seq(|args|, i requires 0 <= i < |args| => Inline(args[i], source)))
    case Aggregate(sig, args) => Aggregate(sig, seq(|args|, i requires 0 <= i < |args| => Inline(args[i], source)))
    case Column(offset, _) => if offset < |source| then source[offset] else e
  }

  function InlineAll(es: seq<Expr>, source: seq<Expr>): (r: seq<Expr>)
    ensures |r| == |es| && forall i :: 0 <= i < |es| ==> r[i] == Inline(es[i], source)
  {
    seq(|es|, i requires 0 <= i < |es| => Inline(es[i], source))
  }

  type Deps = Option<(nat, nat)>

  function MergeDeps(a: Deps, b: Deps): (r: Deps) {
    if a.None? then b else if b.None? then a
    else Some((if a.value.0 < b.value.0 then a.value.0 else b.value.0,
               if a.value.1 < b.value.1 then b.value.1 else a.value.1))
  }

  /** The smallest and largest column an expression reads. */
  function MinMax(e: Expr): (r: Deps) {
    match e
    case Constant(_, _) => None
    case Call(_, args) => MinMaxOf(args)
    case Aggregate(_, args) => MinMaxOf(args)
    case Column(offset, _) => Some((offset, offset))
  }

  function MinMaxOf(es: seq<Expr>): (r: Deps) {
    if es == [] then None
    else
      var n := |es| - 1;
      MergeDeps(MinMaxOf(es[..n]), MinMax(es[n]))
  }

  /** Every column an expression reads lies in `lo..hi`. */
  predicate Reads(e: Expr, lo: int, hi: int) {
    match e
    case Constant(_, _) => true
    case Call(_, args) => forall i :: 0 <= i < |args| ==> Reads(args[i], lo, hi)
    case Aggregate(_, args) => forall i :: 0 <= i < |args| ==> Reads(args[i], lo, hi)
    case Column(offset, _) => lo <= offset < hi
  }

  predicate Within(d: Deps, lo: int, hi: int) {
    d.None? || (lo <= d.value.0 && d.value.1 < hi)
  }

  /** The two bounds tell exactly which ranges contain all of an expression's columns. */
  lemma {:induction false} MinMaxExact(e: Expr, lo: int, hi: int)
    ensures Reads(e, lo, hi) <==> Within(MinMax(e), lo, hi)
    ensures MinMax(e).Some? ==> MinMax(e).value.0 <= MinMax(e).value.1
    decreases e
  {
    match e
    case Call(_, args) => MinMaxOfExact(args, lo, hi);
    case Aggregate(_, args) => MinMaxOfExact(args, lo, hi);
    case _ =>
  }

  lemma {:induction false} MinMaxOfExact(es: seq<Expr>, lo: int, hi: int)
    ensures (forall i :: 0 <= i < |es| ==> Reads(es[i], lo, hi)) <==> Within(MinMaxOf(es), lo, hi)
    ensures MinMaxOf(es).Some? ==> MinMaxOf(es).value.0 <= MinMaxOf(es).value.1
    decreases es
  {
    if es != [] {
      var n := |es| - 1;
      MinMaxOfExact(es[..n], lo, hi);
      MinMaxExact(es[n], lo, hi);
      assert forall i :: 0 <= i < n ==> es[..n][i] == es[i];
    }
  }

  /** Every column an expression reads is at `lo` or later. */
  predicate ReadsFrom(e: Expr, lo: nat) {
    match e
    case Constant(_, _) => true
    case Call(_, args) => forall i :: 0 <= i < |args| ==> ReadsFrom(args[i], lo)
    case Aggregate(_, args) => forall i :: 0 <= i < |args| ==> ReadsFrom(args[i], lo)
    case Column(offset, _) => lo <= offset
  }

  lemma {:induction false} MinMaxFrom(e: Expr, lo: nat)
    ensures ReadsFrom(e, lo) <==> MinMax(e).None? || lo <= MinMax(e).value.0
    decreases e
  {
    match e
    case Call(_, args) => MinMaxOfFrom(args, lo);
    case Aggregate(_, args) => MinMaxOfFrom(args, lo);
    case _ =>
  }

  lemma {:induction false} MinMaxOfFrom(es: seq<Expr>, lo: nat)
    ensures (forall i :: 0 <= i < |es| ==> ReadsFrom(es[i], lo)) <==>
      MinMaxOf(es).None? || lo <= MinMaxOf(es).value.0
    decreases es
  {
    if es != [] {
      var n := |es| - 1;
      MinMaxOfFrom(es[..n], lo);
      MinMaxFrom(es[n], lo);
      assert forall i :: 0 <= i < n ==> es[..n][i] == es[i];
    }
  }

  /** Reads some column, and only columns of the left. */
  predicate OfLeft(e: Expr, n: nat) {
    Reads(e, 0, n) && !Reads(e, 0, 0)
  }

  predicate OfRight(e: Expr, n: nat) {
    ReadsFrom(e, n) && !Reads(e, 0, 0)
  }

  lemma SideBounds(e: Expr, n: nat)
    ensures OfLeft(e, n) <==> MinMax(e).Some? && MinMax(e).value.1 < n
    ensures OfRight(e, n) <==> MinMax(e).Some? && MinMax(e).value.0 >= n
    ensures !(OfLeft(e, n) && OfRight(e, n))
  {
    hide MinMax, Reads, ReadsFrom;
    MinMaxExact(e, 0, n);
    MinMaxExact(e, 0, 0);
    MinMaxFrom(e, n);
  }

  /** The columns `lo..hi` of `t` reappear in `u`, `amount` further on. */
  ghost predicate Carried(t: Tuple, u: Tuple, amount: int, lo: int, hi: int) {
    forall i {:trigger t[i]} :: lo <= i < hi && 0 <= i < |t| ==> 0 <= i + amount < |u| && u[i + amount] == t[i]
  }

  /** An expression moved along with the columns it reads keeps its value. */
  lemma {:induction false} EvalMoved(env: Env, e: Expr, amount: int, lo: int, hi: int, t: Tuple, u: Tuple)
    requires Reads(e, lo, hi) && Scalar(e, |t|) && Carried(t, u, amount, lo, hi)
    ensures Eval(env, Move(e, amount), u) == Eval(env, e, t)
    ensures Scalar(Move(e, amount), |u|)
  {
    if e.Call? {
      var moved := Move(e, amount).args;
      forall i | 0 <= i < |e.args|
        ensures Eval(env, moved[i], u) == Eval(env, e.args[i], t) && Scalar(moved[i], |u|)
      {
        EvalMoved(env, e.args[i], amount, lo, hi, t, u);
      }
      EvalCall(env, e.sig, e.args, t);
      EvalCall(env, e.sig, moved, u);
      assert EvalAll(env, moved, u) == EvalAll(env, e.args, t);
    }
  }

  lemma {:induction false} MoveZero(e: Expr)
    ensures Move(e, 0) == e
  {
    match e
    case Call(_, args) =>
      forall i | 0 <= i < |args| ensures Move(args[i], 0) == args[i] { MoveZero(args[i]); }
    case Aggregate(_, args) =>
      forall i | 0 <= i < |args| ensures Move(args[i], 0) == args[i] { MoveZero(args[i]); }
    case _ =>
  }

  /** Reading only the left columns, an expression sees nothing of what follows. */
  lemma EvalLeft(env: Env, e: Expr, l: Tuple, r: Tuple)
    requires Scalar(e, |l| + |r|) && Reads(e, 0, |l|)
    ensures Eval(env, e, l + r) == Eval(env, e, l) && Scalar(e, |l|)
  {
    EvalMoved(env, e, 0, 0, |l|, l + r, l);
    MoveZero(e);
  }

  lemma EvalRight(env: Env, e: Expr, l: Tuple, r: Tuple)
    requires Scalar(e, |l| + |r|) && Reads(e, |l|, |l| + |r|)
    ensures Eval(env, Move(e, -|l|), r) == Eval(env, e, l + r) && Scalar(Move(e, -|l|), |r|)
  {
    EvalMoved(env, e, -|l|, |l|, |l| + |r|, l + r, r);
  }

  /** The substitution lemma: inlining a project's expressions is evaluating over its output. */
  lemma {:induction false} EvalInline(env: Env, e: Expr, source: seq<Expr>, n: nat, t: Tuple)
    requires Scalar(e, |source|) && AllScalar(source, n)
    ensures Eval(env, Inline(e, source), t) == Eval(env, e, EvalAll(env, source, t))
    ensures Scalar(Inline(e, source), n)
  {
    if e.Call? {
      var inlined := Inline(e, source).args;
      var u := EvalAll(env, source, t);
      forall i | 0 <= i < |e.args|
        ensures Eval(env, inlined[i], t) == Eval(env, e.args[i], u) && Scalar(inlined[i], n)
      {
        EvalInline(env, e.args[i], source, n, t);
      }
      EvalCall(env, e.sig, e.args, u);
      EvalCall(env, e.sig, inlined, t);
      assert EvalAll(env, inlined, t) == EvalAll(env, e.args, u);
    }
  }
}
