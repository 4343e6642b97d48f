/** Join normalisation: the two sides of every equality become leading key columns of the inputs. */
module NormalizeJoins {
  import opened Bytes
  import opened Datums
  import opened Rows
  import opened Exprs
  import opened Plans
  import opened PlanAlgebra
  import Pushdown

  // ----- Recognising the equalities

  datatype Equi = Equi(sig: Signature, left: Expr, right: Expr)

  /** An equality with the left columns on one side and the right columns on the other. */
  function AsEqui(e: Expr, n: nat): (r: Option<Equi>) {
    if e.Call? && e.sig.name == "=" && |e.args| == 2 then
      var a, b := MinMax(e.args[0]), MinMax(e.args[1]);
      if a.Some? && b.Some? && a.value.1 < n && b.value.0 >= n then Some(Equi(e.sig, e.args[0], e.args[1]))
      else if a.Some? && b.Some? && a.value.0 >= n && b.value.1 < n then Some(Equi(e.sig, e.args[1], e.args[0]))
      else None
    else None
  }

  function EquiConds(conds: seq<Expr>, n: nat): (r: seq<Expr>)
    ensures forall i :: 0 <= i < |r| ==> AsEqui(r[i], n).Some?
  {
    if conds == [] then []
    else
      var k := |conds| - 1;
      if AsEqui(conds[k], n).Some? then EquiConds(conds[..k], n) + [conds[k]] else EquiConds(conds[..k], n)
  }

  function Residual(conds: seq<Expr>, n: nat): (r: seq<Expr>) {
    if conds == [] then []
    else
      var k := |conds| - 1;
      if AsEqui(conds[k], n).Some? then Residual(conds[..k], n) else Residual(conds[..k], n) + [conds[k]]
  }

  function Equis(conds: seq<Expr>, n: nat): (r: seq<Equi>)
    ensures |r| == |EquiConds(conds, n)|
    ensures forall i :: 0 <= i < |r| ==> AsEqui(EquiConds(conds, n)[i], n) == Some(r[i])
  {
    var es := EquiConds(conds, n);
    seq(|es|, i requires 0 <= i < |es| => AsEqui(es[i], n).value)
  }

  /** An equality of something of the left with something of the right, whichever is written first. */
  predicate EquatesSides(e: Expr, n: nat) {
    && e.Call? && e.sig.name == "=" && |e.args| == 2
    && (|| (OfLeft(e.args[0], n) && OfRight(e.args[1], n))
        || (OfRight(e.args[0], n) && OfLeft(e.args[1], n)))
  }

  /** Recognised are exactly the equalities of the sides; the left key is the argument of the left. */
  lemma EquiExact(e: Expr, n: nat)
    ensures AsEqui(e, n).Some? <==> EquatesSides(e, n)
    ensures AsEqui(e, n).Some? ==>
      var q := AsEqui(e, n).value;
      && q.sig == e.sig && OfLeft(q.left, n) && OfRight(q.right, n)
      && ((q.left == e.args[0] && q.right == e.args[1]) || (q.left == e.args[1] && q.right == e.args[0]))
  {
    hide MinMax, OfLeft, OfRight;
    if e.Call? && |e.args| == 2 {
      SideBounds(e.args[0], n);
      SideBounds(e.args[1], n);
    }
  }

  /** An equality of two columns is a key whichever way it is written. */
  lemma EitherWay(sig: Signature, left: Expr, right: Expr, n: nat)
    requires sig.name == "=" && left.Column? && right.Column? && left.offset < n <= right.offset
    ensures AsEqui(Call(sig, [left, right]), n) == Some(Equi(sig, left, right))
    ensures AsEqui(Call(sig, [right, left]), n) == Some(Equi(sig, left, right))
  {
  }

  /** The conjuncts that become keys are those that equate the sides, and the others stay residual. */
  lemma {:induction false} EquiCondsExact(conds: seq<Expr>, n: nat, c: Expr)
    ensures c in EquiConds(conds, n) <==> c in conds && EquatesSides(c, n)
    ensures c in Residual(conds, n) <==> c in conds && !EquatesSides(c, n)
  {
    hide AsEqui, EquatesSides;
    if conds != [] {
      var k := |conds| - 1;
      EquiCondsExact(conds[..k], n, c);
      EquiExact(conds[k], n);
      assert conds == conds[..k] + [conds[k]];
    }
  }

  /** The equality of two values, as a filter sees it. */
  predicate Match(a: Datum, b: Datum) {
    Equals(a, b) == Boolean(true)
  }

  ghost predicate EquiHolds(env: Env, q: Equi, t: Tuple) {
    Match(Eval(env, q.left, t), Eval(env, q.right, t))
  }

  lemma EquiMeaning(env: Env, e: Expr, n: nat, t: Tuple)
    requires AsEqui(e, n).Some?
    ensures Passes(env, e, t) <==> EquiHolds(env, AsEqui(e, n).value, t)
  {
    hide Eval, MinMax;
    EvalCall(env, e.sig, e.args, t);
    assert Eval(env, e, t) == Equals(Eval(env, e.args[0], t), Eval(env, e.args[1], t));
  }

  lemma EquisMeaning(env: Env, conds: seq<Expr>, n: nat, t: Tuple)
    ensures AllPass(env, EquiConds(conds, n), t) <==> forall i :: 0 <= i < |Equis(conds, n)| ==>
      EquiHolds(env, Equis(conds, n)[i], t)
  {
    hide AsEqui, EquiHolds, Passes;
    var es, qs := EquiConds(conds, n), Equis(conds, n);
    forall i | 0 <= i < |es| ensures Passes(env, es[i], t) <==> EquiHolds(env, qs[i], t) {
      EquiMeaning(env, es[i], n, t);
    }
  }

  lemma {:induction false} ResidualMeaning(env: Env, conds: seq<Expr>, n: nat, cols: nat, t: Tuple)
    requires AllScalar(conds, cols)
    ensures AllPass(env, conds, t) <==> AllPass(env, EquiConds(conds, n), t) && AllPass(env, Residual(conds, n), t)
    ensures AllScalar(EquiConds(conds, n), cols) && AllScalar(Residual(conds, n), cols)
  {
    hide AsEqui, Passes, AllPass, Scalar;
    if conds == [] {
      Pushdown.EmptyPasses(env, t);
    } else {
      var k := |conds| - 1;
      ResidualMeaning(env, conds[..k], n, cols, t);
      assert conds == conds[..k] + [conds[k]];
      AllPassConcat(env, conds[..k], [conds[k]], t);
      AllPassConcat(env, EquiConds(conds[..k], n), [conds[k]], t);
      AllPassConcat(env, Residual(conds[..k], n), [conds[k]], t);
    }
  }

  // ----- The keyed inputs

  /** Keys are inserted at the front one after the other, so they end up in reverse. */
  function LeftKeys(qs: seq<Equi>): (r: seq<Expr>)
    ensures |r| == |qs| && forall i :: 0 <= i < |qs| ==> r[i] == qs[|qs| - 1 - i].left
  {
    seq(|qs|, i requires 0 <= i < |qs| => qs[|qs| - 1 - i].left)
  }

  function RightKeys(qs: seq<Equi>): (r: seq<Expr>)
    ensures |r| == |qs| && forall i :: 0 <= i < |qs| ==> r[i] == qs[|qs| - 1 - i].right
  {
    seq(|qs|, i requires 0 <= i < |qs| => qs[|qs| - 1 - i].right)
  }

  /** The equalities, now between key columns. */
  function KeyConds(qs: seq<Equi>, n: nat): (r: seq<Expr>)
    ensures |r| == |qs|
    ensures forall i :: 0 <= i < |qs| ==> r[i] == KeyCond(qs[i], i, n + |qs|)
  {
    seq(|qs|, i requires 0 <= i < |qs| => KeyCond(qs[i], i, n + |qs|))
  }

  function KeyCond(q: Equi, i: nat, width: nat): (r: Expr) {
    Call(q.sig, [Column(i, TypeOf(q.left)), Column(i + width, TypeOf(q.right))])
  }

  function Columns(lo: nat, hi: nat): (r: seq<Expr>)
    requires lo <= hi
    ensures |r| == hi - lo && forall i :: 0 <= i < hi - lo ==> r[i] == Column(lo + i, NullType)
  {
    seq(hi - lo, i requires 0 <= i < hi - lo => Column(lo + i, NullType))
  }

  /** What the keyed join's columns are, in terms of the columns of the original join. */
  function Layout(qs: seq<Equi>, n: nat, m: nat): (r: seq<Expr>) {
    LeftKeys(qs) + Columns(0, n) + RightKeys(qs) + Columns(n, n + m)
  }

  /**
   * The condition the normalised join really tests: the equalities, and the other conjuncts with
   * their column numbers left as they were, so that they read whatever the keyed columns put there.
   */
  function Effective(conds: seq<Expr>, n: nat, m: nat): (r: seq<Expr>) {
    EquiConds(conds, n) + InlineAll(Residual(conds, n), Layout(Equis(conds, n), n, m))
  }

  lemma EquiSides(env: Env, conds: seq<Expr>, n: nat, m: nat, i: nat)
    requires AllScalar(conds, n + m) && i < |Equis(conds, n)|
    ensures
      var q := Equis(conds, n)[i];
      && Scalar(q.left, n + m) && Scalar(q.right, n + m) && q.sig.name == "="
      && Reads(q.left, 0, n) && Reads(q.right, n, n + m)
  {
    hide MinMax;
    ResidualMeaning(env, conds, n, n + m, []);
    var e, q := EquiConds(conds, n)[i], Equis(conds, n)[i];
    assert AsEqui(e, n) == Some(q) && Scalar(e, n + m);
    assert Scalar(e.args[0], n + m) && Scalar(e.args[1], n + m);
    MinMaxExact(q.left, 0, n + m);
    MinMaxExact(q.right, 0, n + m);
    Pushdown.ReadsScalar(q.left, n + m);
    Pushdown.ReadsScalar(q.right, n + m);
    MinMaxExact(q.left, 0, n);
    MinMaxExact(q.right, n, n + m);
  }

  /** The keys evaluated on each side alone. */
  lemma KeyValues(env: Env, conds: seq<Expr>, l: Tuple, r: Tuple, i: nat)
    requires AllScalar(conds, |l| + |r|) && i < |Equis(conds, |l|)|
    ensures
      var q := Equis(conds, |l|)[i];
      && Scalar(q.left, |l|) && Scalar(Move(q.right, -|l|), |r|)
      && Eval(env, q.left, l) == Eval(env, q.left, l + r)
      && Eval(env, Move(q.right, -|l|), r) == Eval(env, q.right, l + r)
  {
    hide Eval, Move, Scalar;
    var q := Equis(conds, |l|)[i];
    EquiSides(env, conds, |l|, |r|, i);
    EvalLeft(env, q.left, l, r);
    EvalRight(env, q.right, l, r);
  }

  lemma EvalColumns(env: Env, lo: nat, hi: nat, t: Tuple)
    requires lo <= hi <= |t|
    ensures EvalAll(env, Columns(lo, hi), t) == t[lo..hi]
  {
  }

  lemma EvalAllConcat(env: Env, a: seq<Expr>, b: seq<Expr>, t: Tuple)
    ensures EvalAll(env, a + b, t) == EvalAll(env, a, t) + EvalAll(env, b, t)
  {
    hide Eval;
  }

  /** A keyed row: the keys, then the row. */
  function LeftExprs(qs: seq<Equi>, n: nat): (r: seq<Expr>) { LeftKeys(qs) + Columns(0, n) }

  function RightExprs(qs: seq<Equi>, n: nat, m: nat): (r: seq<Expr>) { MoveAll(RightKeys(qs), 0 - n) + Columns(0, m) }

  lemma KeyedRows(env: Env, conds: seq<Expr>, l: Tuple, r: Tuple)
    requires AllScalar(conds, |l| + |r|)
    ensures
      var qs := Equis(conds, |l|);
      && EvalAll(env, LeftExprs(qs, |l|), l) == EvalAll(env, LeftKeys(qs), l + r) + l
      && EvalAll(env, RightExprs(qs, |l|, |r|), r) == EvalAll(env, RightKeys(qs), l + r) + r
      && EvalAll(env, Layout(qs, |l|, |r|), l + r) ==
        EvalAll(env, LeftExprs(qs, |l|), l) + EvalAll(env, RightExprs(qs, |l|, |r|), r)
      && AllScalar(LeftExprs(qs, |l|), |l|) && AllScalar(RightExprs(qs, |l|, |r|), |r|)
      && AllScalar(Layout(qs, |l|, |r|), |l| + |r|)
  {
    hide Eval, Move, Scalar, Equis;
    var qs, n, m := Equis(conds, |l|), |l|, |r|;
    forall i | 0 <= i < |qs|
      ensures Eval(env, LeftKeys(qs)[i], l) == Eval(env, LeftKeys(qs)[i], l + r)
      ensures Eval(env, MoveAll(RightKeys(qs), 0 - n)[i], r) == Eval(env, RightKeys(qs)[i], l + r)
      ensures Scalar(LeftKeys(qs)[i], n) && Scalar(MoveAll(RightKeys(qs), 0 - n)[i], m)
      ensures Scalar(LeftKeys(qs)[i], n + m) && Scalar(RightKeys(qs)[i], n + m)
    {
      KeyValues(env, conds, l, r, |qs| - 1 - i);
      EquiSides(env, conds, n, m, |qs| - 1 - i);
    }
    assert EvalAll(env, LeftKeys(qs), l) == EvalAll(env, LeftKeys(qs), l + r);
    assert EvalAll(env, MoveAll(RightKeys(qs), 0 - n), r) == EvalAll(env, RightKeys(qs), l + r);
    KeyedSides(env, qs, l, r);
    KeyedScalar(qs, n, m);
  }

  lemma KeyedSides(env: Env, qs: seq<Equi>, l: Tuple, r: Tuple)
    requires EvalAll(env, LeftKeys(qs), l) == EvalAll(env, LeftKeys(qs), l + r)
    requires EvalAll(env, MoveAll(RightKeys(qs), 0 - |l|), r) == EvalAll(env, RightKeys(qs), l + r)
    ensures EvalAll(env, LeftExprs(qs, |l|), l) == EvalAll(env, LeftKeys(qs), l + r) + l
    ensures EvalAll(env, RightExprs(qs, |l|, |r|), r) == EvalAll(env, RightKeys(qs), l + r) + r
    ensures EvalAll(env, Layout(qs, |l|, |r|), l + r) ==
      EvalAll(env, LeftExprs(qs, |l|), l) + EvalAll(env, RightExprs(qs, |l|, |r|), r)
  {
    hide Eval, EvalAll, Columns, LeftKeys, RightKeys, MoveAll;
    var n, m, t := |l|, |r|, l + r;
    EvalAllConcat(env, LeftKeys(qs), Columns(0, n), l);
    EvalAllConcat(env, MoveAll(RightKeys(qs), 0 - n), Columns(0, m), r);
    EvalColumns(env, 0, n, l);
    EvalColumns(env, 0, m, r);
    assert l[0..n] == l && r[0..m] == r;
    LayoutRow(env, LeftKeys(qs), RightKeys(qs), l, r);
    var a, b := EvalAll(env, LeftKeys(qs), t), EvalAll(env, RightKeys(qs), t);
    assert a + l + b + r == (a + l) + (b + r);
  }

  lemma LayoutRow(env: Env, a: seq<Expr>, b: seq<Expr>, l: Tuple, r: Tuple)
    ensures EvalAll(env, a + Columns(0, |l|) + b + Columns(|l|, |l| + |r|), l + r)
         == EvalAll(env, a, l + r) + l + EvalAll(env, b, l + r) + r
  {
    hide Eval, EvalAll, Columns;
    var n, m, t := |l|, |r|, l + r;
    EvalAllConcat(env, a + Columns(0, n) + b, Columns(n, n + m), t);
    EvalAllConcat(env, a + Columns(0, n), b, t);
    EvalAllConcat(env, a, Columns(0, n), t);
    EvalColumns(env, 0, n, t);
    EvalColumns(env, n, n + m, t);
    assert t[0..n] == l && t[n..n + m] == r;
  }

  lemma KeyedScalar(qs: seq<Equi>, n: nat, m: nat)
    requires AllScalar(LeftKeys(qs), n) && AllScalar(MoveAll(RightKeys(qs), 0 - n), m)
    requires AllScalar(LeftKeys(qs), n + m) && AllScalar(RightKeys(qs), n + m)
    ensures AllScalar(LeftExprs(qs, n), n) && AllScalar(RightExprs(qs, n, m), m) && AllScalar(Layout(qs, n, m), n + m)
  {
    ScalarConcat(LeftKeys(qs), Columns(0, n), n);
    ScalarConcat(MoveAll(RightKeys(qs), 0 - n), Columns(0, m), m);
    ScalarConcat(LeftKeys(qs), Columns(0, n), n + m);
    ScalarConcat(LeftKeys(qs) + Columns(0, n), RightKeys(qs), n + m);
    ScalarConcat(LeftKeys(qs) + Columns(0, n) + RightKeys(qs), Columns(n, n + m), n + m);
  }

  lemma ScalarConcat(a: seq<Expr>, b: seq<Expr>, n: nat)
    requires AllScalar(a, n) && AllScalar(b, n)
    ensures AllScalar(a + b, n)
  {
    hide Scalar;
  }

  /** Though the keys are in reverse, each equality still compares the two sides of one it came from. */
  lemma KeyAt(env: Env, conds: seq<Expr>, l: Tuple, r: Tuple, i: nat)
    requires AllScalar(conds, |l| + |r|) && i < |Equis(conds, |l|)|
    ensures
      var qs := Equis(conds, |l|);
      var t := EvalAll(env, LeftExprs(qs, |l|), l) + EvalAll(env, RightExprs(qs, |l|, |r|), r);
      Passes(env, KeyConds(qs, |l|)[i], t) <==> EquiHolds(env, qs[|qs| - 1 - i], l + r)
  {
    hide *;
    var qs, n := Equis(conds, |l|), |l|;
    var k, a, b := |qs|, EvalAll(env, LeftKeys(qs), l + r), EvalAll(env, RightKeys(qs), l + r);
    KeyedRows(env, conds, l, r);
    var t := (a + l) + (b + r);
    EquiSides(env, conds, n, |r|, i);
    KeyCondValue(env, qs[i], i, n + k, t);
    KeyColumns(a, l, b, r, i);
    EquiUnfold(env, qs[k - 1 - i], l + r);
  }

  lemma KeyColumns(a: Tuple, l: Tuple, b: Tuple, r: Tuple, i: nat)
    requires |a| == |b| && i < |a|
    ensures ((a + l) + (b + r))[i] == a[i] && ((a + l) + (b + r))[i + (|l| + |a|)] == b[i]
  {
  }

  lemma EquiUnfold(env: Env, q: Equi, t: Tuple)
    ensures EquiHolds(env, q, t) <==> Match(Eval(env, q.left, t), Eval(env, q.right, t))
  {
  }

  lemma KeyCondsMeaning(env: Env, conds: seq<Expr>, l: Tuple, r: Tuple)
    requires AllScalar(conds, |l| + |r|)
    ensures
      var qs := Equis(conds, |l|);
      var t := EvalAll(env, LeftExprs(qs, |l|), l) + EvalAll(env, RightExprs(qs, |l|, |r|), r);
      AllPass(env, KeyConds(qs, |l|), t) <==> AllPass(env, EquiConds(conds, |l|), l + r)
  {
    hide EvalAll, Equis, EquiConds, EquiHolds, Passes, LeftExprs, RightExprs, KeyConds;
    var qs, n := Equis(conds, |l|), |l|;
    var k, t := |qs|, EvalAll(env, LeftExprs(qs, |l|), l) + EvalAll(env, RightExprs(qs, |l|, |r|), r);
    EquisMeaning(env, conds, n, l + r);
    forall i | 0 <= i < k ensures Passes(env, KeyConds(qs, n)[i], t) <==> EquiHolds(env, qs[k - 1 - i], l + r) {
      KeyAt(env, conds, l, r, i);
    }
    forall i | 0 <= i < k ensures EquiHolds(env, qs[i], l + r) <==> Passes(env, KeyConds(qs, n)[k - 1 - i], t) {
      KeyAt(env, conds, l, r, k - 1 - i);
    }
  }

  lemma KeyCondValue(env: Env, q: Equi, i: nat, width: nat, t: Tuple)
    requires q.sig.name == "=" && i + width < |t|
    ensures Passes(env, KeyCond(q, i, width), t) <==> Match(t[i], t[i + width])
  {
    var e := KeyCond(q, i, width);
    EvalCall(env, e.sig, e.args, t);
    assert EvalAll(env, e.args, t) == [t[i], t[i + width]];
  }

  /** The keyed condition on keyed rows is the effective condition on the original rows. */
  lemma KeyedCondition(env: Env, conds: seq<Expr>, l: Tuple, r: Tuple)
    requires AllScalar(conds, |l| + |r|)
    ensures
      var qs := Equis(conds, |l|);
      var t := EvalAll(env, LeftExprs(qs, |l|), l) + EvalAll(env, RightExprs(qs, |l|, |r|), r);
      AllPass(env, KeyConds(qs, |l|) + Residual(conds, |l|), t) <==> AllPass(env, Effective(conds, |l|, |r|), l + r)
    ensures AllScalar(Effective(conds, |l|, |r|), |l| + |r|)
  {
    hide Eval, EvalAll, Equis, EquiConds, Residual, LeftExprs, RightExprs, Layout, KeyConds, Scalar, AllPass, Passes;
    hide InlineAll;
    var n, m, res := |l|, |r|, Residual(conds, |l|);
    var qs := Equis(conds, n);
    var t := EvalAll(env, LeftExprs(qs, n), l) + EvalAll(env, RightExprs(qs, n, m), r);
    var layout := Layout(qs, n, m);
    KeyedRows(env, conds, l, r);
    KeyCondsMeaning(env, conds, l, r);
    ResidualMeaning(env, conds, n, n + m, l + r);
    AllPassConcat(env, KeyConds(qs, n), res, t);
    AllPassConcat(env, EquiConds(conds, n), InlineAll(res, layout), l + r);
    LayoutWidth(qs, n, m);
    WiderScalar(res, n + m, |layout|);
    AllPassInlined(env, res, layout, n + m, l + r);
    ScalarConcat(EquiConds(conds, n), InlineAll(res, layout), n + m);
  }

  lemma LayoutWidth(qs: seq<Equi>, n: nat, m: nat)
    ensures |Layout(qs, n, m)| == 2 * |qs| + n + m
  {
  }

  lemma WiderScalar(es: seq<Expr>, n: nat, k: nat)
    requires AllScalar(es, n) && n <= k
    ensures AllScalar(es, k)
  {
    hide Scalar;
    forall i | 0 <= i < |es| ensures Scalar(es[i], k) { Wider(es[i], n, k); }
  }

  lemma {:induction false} Wider(e: Expr, n: nat, k: nat)
    requires Scalar(e, n) && n <= k
    ensures Scalar(e, k)
  {
    if e.Call? {
      forall i | 0 <= i < |e.args| ensures Scalar(e.args[i], k) { Wider(e.args[i], n, k); }
    }
  }

  // ----- The normalised join

  function Digits(n: nat): (r: string) {
    if n < 10 then ["0123456789"[n]] else Digits(n / 10) + ["0123456789"[n % 10]]
  }

  function KeyAlias(i: nat): (r: string) { "key_" + Digits(i) }

  function KeyNamed(keys: seq<Expr>): (r: seq<Named>)
    ensures |r| == |keys| && forall i :: 0 <= i < |keys| ==> r[i] == Named(KeyAlias(|keys| - 1 - i), keys[i])
  {
    seq(|keys|, i requires 0 <= i < |keys| => Named(KeyAlias(|keys| - 1 - i), keys[i]))
  }

  /** The expressions of a project that changes nothing. */
  function Identity(op: Op): (r: seq<Named>)
    ensures |r| == Cols(op) && forall i :: 0 <= i < |r| ==> r[i] == Named(Names(op)[i], Column(i, Types(op)[i]))
  {
    seq(Cols(op), i requires 0 <= i < Cols(op) => Named(Names(op)[i], Column(i, Types(op)[i])))
  }

  function LeftInput(op: Op): (r: Op)
    requires op.Join?
    ensures r.Project?
  {
    Project(KeyNamed(LeftKeys(Equis(Conjuncts(op.on), Cols(op.left)))) + Identity(op.left), op.left)
  }

  function RightInput(op: Op): (r: Op)
    requires op.Join?
    ensures r.Project?
  {
    var n := Cols(op.left);
    Project(KeyNamed(MoveAll(RightKeys(Equis(Conjuncts(op.on), n)), 0 - n)) + Identity(op.right), op.right)
  }

  /** The join of the keyed inputs. */
  function KeyedJoin(op: Op): (r: Op)
    requires op.Join?
    ensures r.Join?
  {
    var conds, n := Conjuncts(op.on), Cols(op.left);
    Join(LeftInput(op), RightInput(op), Combine(KeyConds(Equis(conds, n), n) + Residual(conds, n)), op.joinType)
  }

  function KeyCount(op: Op): (r: nat)
    requires op.Join?
  {
    |Equis(Conjuncts(op.on), Cols(op.left))|
  }

  /** The keys are dropped again above the join. */
  function Dropped(all: seq<Named>, k: nat, n: nat): (r: seq<Named>)
    requires 2 * k + n <= |all|
  {
    all[k..k + n] + all[2 * k + n..]
  }

  lemma KeyedWidths(op: Op)
    requires op.Join?
    ensures Cols(LeftInput(op)) == KeyCount(op) + Cols(op.left)
    ensures Cols(RightInput(op)) == KeyCount(op) + Cols(op.right)
    ensures Cols(KeyedJoin(op)) == 2 * KeyCount(op) + Cols(op.left) + Cols(op.right)
  {
    hide KeyNamed, Identity, Equis;
  }

  function NormalForm(op: Op): (r: Op)
    requires op.Join?
    ensures r.Project?
  {
    KeyedWidths(op);
    Project(Dropped(Identity(KeyedJoin(op)), KeyCount(op), Cols(op.left)), KeyedJoin(op))
  }

  /** One join, step by step: sort the conjuncts, insert the keys, reassemble, and drop the keys again. */
  method NormalizeJoin(op: Op) returns (r: Op)
    requires op.Join?
    ensures r == NormalForm(op)
  {
    hide Identity, AsEqui, Types, Names, KeyNamed, LeftKeys, RightKeys, Move, KeyCond, Digits, Combine;
    var n, conds := Cols(op.left), Conjuncts(op.on);
    var equis: seq<Equi>, residual: seq<Expr> := [], [];
    for i := 0 to |conds|
      invariant |equis| == |EquiConds(conds[..i], n)| && residual == Residual(conds[..i], n)
      invariant forall j :: 0 <= j < |equis| ==> AsEqui(EquiConds(conds[..i], n)[j], n) == Some(equis[j])
    {
      assert conds[..i + 1][..i] == conds[..i];
      var equi := AsEqui(conds[i], n);
      if equi.Some? { equis := equis + [equi.value]; } else { residual := residual + [conds[i]]; }
    }
    assert conds[..|conds|] == conds;
    assert equis == Equis(conds, n);

    var k := |equis|;
    var left, right, conditions := InsertKeys(equis, n, Identity(op.left), Identity(op.right));
    assert equis[..k] == equis;
    var join := Join(Project(left, op.left), Project(right, op.right), Combine(conditions + residual), op.joinType);
    assert join == KeyedJoin(op);
    KeyedWidths(op);

    var exprs := DropKeys(Identity(join), k, n);
    r := Project(exprs, join);
  }

  lemma KeyStep(keys: seq<Expr>, more: seq<Expr>, e: Expr, rest: seq<Named>)
    requires more == [e] + keys
    ensures [Named(KeyAlias(|keys|), e)] + (KeyNamed(keys) + rest) == KeyNamed(more) + rest
  {
    assert KeyNamed(more) == [Named(KeyAlias(|keys|), e)] + KeyNamed(keys);
  }

  lemma KeysStep(qs: seq<Equi>, i: nat, n: nat)
    requires i < |qs|
    ensures LeftKeys(qs[..i + 1]) == [qs[i].left] + LeftKeys(qs[..i])
    ensures MoveAll(RightKeys(qs[..i + 1]), 0 - n) == [Move(qs[i].right, 0 - n)] + MoveAll(RightKeys(qs[..i]), 0 - n)
  {
    assert RightKeys(qs[..i + 1]) == [qs[i].right] + RightKeys(qs[..i]);
  }

  /** Each equality's two sides go to the front of their inputs and leave column references behind. */
  method InsertKeys(equis: seq<Equi>, n: nat, left0: seq<Named>, right0: seq<Named>)
    returns (left: seq<Named>, right: seq<Named>, conditions: seq<Expr>)
    ensures left == KeyNamed(LeftKeys(equis)) + left0
    ensures right == KeyNamed(MoveAll(RightKeys(equis), 0 - n)) + right0
    ensures conditions == KeyConds(equis, n)
  {
    hide Digits, Move, KeyNamed, KeyCond;
    left, right, conditions := left0, right0, [];
    for i := 0 to |equis|
      invariant left == KeyNamed(LeftKeys(equis[..i])) + left0
      invariant right == KeyNamed(MoveAll(RightKeys(equis[..i]), 0 - n)) + right0
      invariant |conditions| == i && forall j :: 0 <= j < i ==> conditions[j] == KeyCond(equis[j], j, n + |equis|)
    {
      KeysStep(equis, i, n);
      KeyStep(LeftKeys(equis[..i]), LeftKeys(equis[..i + 1]), equis[i].left, left0);
      KeyStep(MoveAll(RightKeys(equis[..i]), 0 - n), MoveAll(RightKeys(equis[..i + 1]), 0 - n),
              Move(equis[i].right, 0 - n), right0);
      left := [Named(KeyAlias(i), equis[i].left)] + left;
      right := [Named(KeyAlias(i), Move(equis[i].right, 0 - n))] + right;
      conditions := conditions + [KeyCond(equis[i], i, n + |equis|)];
    }
    assert equis[..|equis|] == equis;
  }

  method DropKeys(all: seq<Named>, k: nat, n: nat) returns (r: seq<Named>)
    requires 2 * k + n <= |all|
    ensures r == Dropped(all, k, n)
  {
    r := all;
    for i := 0 to k
      invariant r == all[i..]
    {
      r := r[1..];
    }
    for i := 0 to k
      invariant r == all[k..k + n] + all[k + n + i..]
    {
      r := r[..n] + r[n + 1..];
    }
  }

  // ----- What the normalised join means

  /** Keyed inputs, joined and stripped of their keys, behave as the inputs did under another condition. */
  ghost predicate Keyed(env: Env, n: nat, m: nat, left: seq<Expr>, right: seq<Expr>, keyed: Expr, drop: seq<Expr>,
                        on: Expr) {
    && (forall l: Tuple, r: Tuple :: |l| == n && |r| == m ==>
          var t := EvalAll(env, left, l) + EvalAll(env, right, r);
          (Passes(env, keyed, t) <==> Passes(env, on, l + r)) && EvalAll(env, drop, t) == l + r)
    && (forall l: Tuple :: |l| == n ==> EvalAll(env, drop, EvalAll(env, left, l) + Nulls(|right|)) == l + Nulls(m))
  }

  lemma {:induction false} MatchKeyed(env: Env, n: nat, m: nat, left: seq<Expr>, right: seq<Expr>, keyed: Expr,
                                      drop: seq<Expr>, on: Expr,
                                      l: Row, rights: seq<Row>)
    requires Keyed(env, n, m, left, right, keyed, drop, on) && |l.0| == n && Width(rights, m)
    ensures ProjectRows(env, drop,
                        MatchRows(env, (EvalAll(env, left, l.0), l.1), ProjectRows(env, right, rights), keyed))
         == MatchRows(env, l, rights, on)
  {
    hide EvalAll, Passes;
    var kl := (EvalAll(env, left, l.0), l.1);
    if rights != [] {
      MatchKeyed(env, n, m, left, right, keyed, drop, on, l, rights[1..]);
      assert ProjectRows(env, right, rights)[1..] == ProjectRows(env, right, rights[1..]);
      var t := kl.0 + EvalAll(env, right, rights[0].0);
      assert (Passes(env, keyed, t) <==> Passes(env, on, l.0 + rights[0].0))
        && EvalAll(env, drop, t) == l.0 + rights[0].0;
      ProjectCons(env, drop, (t, rights[0].1 * l.1), MatchRows(env, kl, ProjectRows(env, right, rights[1..]), keyed));
    }
  }

  lemma ProjectCons(env: Env, es: seq<Expr>, row: Row, rows: seq<Row>)
    ensures ProjectRows(env, es, [row] + rows) == [(EvalAll(env, es, row.0), row.1)] + ProjectRows(env, es, rows)
  {
    hide EvalAll;
  }

  lemma ProjectConcat(env: Env, es: seq<Expr>, a: seq<Row>, b: seq<Row>)
    ensures ProjectRows(env, es, a + b) == ProjectRows(env, es, a) + ProjectRows(env, es, b)
  {
    hide EvalAll;
  }

  lemma PadKeyed(env: Env, n: nat, m: nat, left: seq<Expr>, right: seq<Expr>, keyed: Expr, drop: seq<Expr>, on: Expr,
                 l: Row, rights: seq<Row>, join: JoinType)
    requires Keyed(env, n, m, left, right, keyed, drop, on) && |l.0| == n && Width(rights, m)
    ensures
      var kl := (EvalAll(env, left, l.0), l.1);
      ProjectRows(env, drop, Padded(kl, MatchRows(env, kl, ProjectRows(env, right, rights), keyed), join, |right|))
      == Padded(l, MatchRows(env, l, rights, on), join, m)
  {
    hide EvalAll, Passes, MatchRows;
    MatchKeyed(env, n, m, left, right, keyed, drop, on, l, rights);
    var kl := (EvalAll(env, left, l.0), l.1);
    ProjectCons(env, drop, (kl.0 + Nulls(|right|), l.1), []);
    assert ProjectRows(env, drop, []) == [];
  }

  lemma {:induction false} JoinKeyed(env: Env, n: nat, m: nat, left: seq<Expr>, right: seq<Expr>, keyed: Expr,
                                     drop: seq<Expr>, on: Expr,
                                     lefts: seq<Row>, rights: seq<Row>, join: JoinType)
    requires Keyed(env, n, m, left, right, keyed, drop, on) && Width(lefts, n) && Width(rights, m)
    ensures ProjectRows(env, drop,
                        JoinRows(env, ProjectRows(env, left, lefts), ProjectRows(env, right, rights), keyed, join,
                                 |right|))
         == JoinRows(env, lefts, rights, on, join, m)
  {
    hide EvalAll, Passes, MatchRows, Keyed, Padded;
    if lefts != [] {
      var l := lefts[0];
      var kl, krs := (EvalAll(env, left, l.0), l.1), ProjectRows(env, right, rights);
      JoinKeyed(env, n, m, left, right, keyed, drop, on, lefts[1..], rights, join);
      PadKeyed(env, n, m, left, right, keyed, drop, on, l, rights, join);
      assert ProjectRows(env, left, lefts)[1..] == ProjectRows(env, left, lefts[1..]);
      ProjectConcat(env, drop, Padded(kl, MatchRows(env, kl, krs, keyed), join, |right|),
                    JoinRows(env, ProjectRows(env, left, lefts[1..]), krs, keyed, join, |right|));
    }
  }

  /** Columns of whatever type, in order from `lo`. */
  predicate InOrder(es: seq<Expr>, lo: nat) {
    forall i :: 0 <= i < |es| ==> es[i].Column? && es[i].offset == lo + i
  }

  lemma EvalInOrder(env: Env, es: seq<Expr>, lo: nat, t: Tuple)
    requires InOrder(es, lo) && lo + |es| <= |t|
    ensures EvalAll(env, es, t) == t[lo..lo + |es|]
  {
    assert forall i :: 0 <= i < |es| ==> es[i].Column? && es[i].offset == lo + i;
  }

  lemma InputExprs(op: Op)
    requires op.Join?
    ensures
      var qs, n := Equis(Conjuncts(op.on), Cols(op.left)), Cols(op.left);
      && ExprsOf(LeftInput(op).exprs) == LeftKeys(qs) + ExprsOf(Identity(op.left))
      && ExprsOf(RightInput(op).exprs) == MoveAll(RightKeys(qs), 0 - n) + ExprsOf(Identity(op.right))
      && InOrder(ExprsOf(Identity(op.left)), 0) && InOrder(ExprsOf(Identity(op.right)), 0)
  {
    hide Equis, Types, Names, Move, KeyAlias;
  }

  lemma DroppedColumns(all: seq<Named>, k: nat, n: nat)
    requires 2 * k + n <= |all| && InOrder(ExprsOf(all), 0)
    ensures
      var es := ExprsOf(Dropped(all, k, n));
      && |es| == |all| - 2 * k
      && InOrder(es[..n], k) && InOrder(es[n..], 2 * k + n)
      && AliasesOf(Dropped(all, k, n)) == AliasesOf(all)[k..k + n] + AliasesOf(all)[2 * k + n..]
  {
    var es, cs := ExprsOf(Dropped(all, k, n)), ExprsOf(all);
    assert forall i :: 0 <= i < |all| ==> cs[i].Column? && cs[i].offset == i;
    assert forall i :: 0 <= i < n ==> es[i] == cs[k + i];
    assert forall i :: n <= i < |es| ==> es[i] == cs[2 * k + i];
  }

  lemma IdentityColumns(op: Op)
    ensures InOrder(ExprsOf(Identity(op)), 0) && AliasesOf(Identity(op)) == Names(op)
  {
    hide Types, Names;
  }

  lemma DropExprs(op: Op)
    requires op.Join?
    ensures
      var n, k := Cols(op.left), KeyCount(op);
      var es := ExprsOf(NormalForm(op).exprs);
      && |es| == n + Cols(op.right)
      && InOrder(es[..n], k) && InOrder(es[n..], 2 * k + n)
      && AliasesOf(NormalForm(op).exprs) == Names(op)
  {
    hide *;
    KeyedWidths(op);
    NamesDropped(op);
    NormalFormShape(op);
    IdentityColumns(KeyedJoin(op));
    DroppedColumns(Identity(KeyedJoin(op)), KeyCount(op), Cols(op.left));
  }

  lemma NormalFormShape(op: Op)
    requires op.Join?
    ensures 2 * KeyCount(op) + Cols(op.left) <= |Identity(KeyedJoin(op))| == Cols(KeyedJoin(op))
    ensures NormalForm(op).exprs == Dropped(Identity(KeyedJoin(op)), KeyCount(op), Cols(op.left))
  {
    hide KeyedJoin, Identity, KeyCount, Dropped, Names;
    KeyedWidths(op);
  }

  lemma Slices(a: seq<string>, b: seq<string>, k: nat, n: nat, left: seq<string>, right: seq<string>)
    requires |a| == k + n && k <= |b| && a[k..] == left && b[k..] == right
    ensures (a + b)[k..k + n] + (a + b)[2 * k + n..] == left + right
  {
    assert (a + b)[k..k + n] == a[k..] && (a + b)[2 * k + n..] == b[k..];
  }

  lemma InputNames(keys: seq<Named>, op: Op)
    ensures AliasesOf(keys + Identity(op))[|keys|..] == Names(op)
  {
    hide Types, Names;
  }

  lemma NamesDropped(op: Op)
    requires op.Join?
    ensures 2 * KeyCount(op) + Cols(op.left) <= Cols(KeyedJoin(op))
    ensures
      var all, n, k := Names(KeyedJoin(op)), Cols(op.left), KeyCount(op);
      all[k..k + n] + all[2 * k + n..] == Names(op)
  {
    hide *;
    var n: int := Cols(op.left);
    var qs := Equis(Conjuncts(op.on), n);
    KeyedWidths(op);
    InputShapes(op);
    KeyedNames(op);
    InputNames(KeyNamed(LeftKeys(qs)), op.left);
    InputNames(KeyNamed(MoveAll(RightKeys(qs), 0 - n)), op.right);
    Slices(Names(LeftInput(op)), Names(RightInput(op)), |qs|, n, Names(op.left), Names(op.right));
  }

  lemma InputShapes(op: Op)
    requires op.Join?
    ensures
      var qs, n := Equis(Conjuncts(op.on), Cols(op.left)), Cols(op.left);
      && Names(LeftInput(op)) == AliasesOf(KeyNamed(LeftKeys(qs)) + Identity(op.left))
      && Names(RightInput(op)) == AliasesOf(KeyNamed(MoveAll(RightKeys(qs), 0 - n)) + Identity(op.right))
      && KeyCount(op) == |qs|
  {
    hide Equis, Conjuncts, KeyNamed, Identity, AliasesOf, LeftKeys, RightKeys, MoveAll;
  }

  lemma KeyedNames(op: Op)
    requires op.Join?
    ensures Names(KeyedJoin(op)) == Names(LeftInput(op)) + Names(RightInput(op))
      && Names(op) == Names(op.left) + Names(op.right)
    ensures Cols(LeftInput(op)) == |Names(LeftInput(op))| && Cols(RightInput(op)) == |Names(RightInput(op))|
      && Cols(op.left) == |Names(op.left)|
    ensures Cols(op.right) == |Names(op.right)| && Cols(KeyedJoin(op)) == |Names(KeyedJoin(op))|
  {
    hide LeftInput, RightInput, Conjuncts, Combine, KeyConds, Residual, Equis;
  }

  /** The condition and the projections fit together as `Keyed` asks. */
  lemma NormalKeyed(env: Env, op: Op)
    requires op.Join? && Scalar(op.on, Cols(op.left) + Cols(op.right))
    ensures
      var n, m := Cols(op.left), Cols(op.right);
      Keyed(env, n, m, ExprsOf(LeftInput(op).exprs), ExprsOf(RightInput(op).exprs), KeyedJoin(op).on,
            ExprsOf(NormalForm(op).exprs), Combine(Effective(Conjuncts(op.on), n, m)))
  {
    hide *;
    var n, m, on := Cols(op.left), Cols(op.right), op.on;
    var left, right, keyed := ExprsOf(LeftInput(op).exprs), ExprsOf(RightInput(op).exprs), KeyedJoin(op).on;
    var drop, effective := ExprsOf(NormalForm(op).exprs), Combine(Effective(Conjuncts(on), n, m));
    forall l: Tuple, r: Tuple | |l| == n && |r| == m
      ensures
        var t := EvalAll(env, left, l) + EvalAll(env, right, r);
        (Passes(env, keyed, t) <==> Passes(env, effective, l + r)) && EvalAll(env, drop, t) == l + r
    {
      KeyedPoint(env, op, l, r);
    }
    forall l: Tuple | |l| == n ensures EvalAll(env, drop, EvalAll(env, left, l) + Nulls(|right|)) == l + Nulls(m) {
      KeyedPad(env, op, l);
    }
    KeyedFrom(env, n, m, left, right, keyed, drop, effective);
  }

  lemma KeyedFrom(env: Env, n: nat, m: nat, left: seq<Expr>, right: seq<Expr>, keyed: Expr, drop: seq<Expr>, on: Expr)
    requires forall l: Tuple, r: Tuple :: |l| == n && |r| == m ==>
      var t := EvalAll(env, left, l) + EvalAll(env, right, r);
      (Passes(env, keyed, t) <==> Passes(env, on, l + r)) && EvalAll(env, drop, t) == l + r
    requires forall l: Tuple :: |l| == n ==> EvalAll(env, drop, EvalAll(env, left, l) + Nulls(|right|)) == l + Nulls(m)
    ensures Keyed(env, n, m, left, right, keyed, drop, on)
  {
    hide EvalAll, Passes;
  }

  lemma InputRows(env: Env, op: Op, l: Tuple, r: Tuple)
    requires op.Join? && |l| == Cols(op.left) && |r| == Cols(op.right)
    ensures
      var qs := Equis(Conjuncts(op.on), |l|);
      && EvalAll(env, ExprsOf(LeftInput(op).exprs), l) == EvalAll(env, LeftExprs(qs, |l|), l) ==
        EvalAll(env, LeftKeys(qs), l) + l
      && EvalAll(env, ExprsOf(RightInput(op).exprs), r) == EvalAll(env, RightExprs(qs, |l|, |r|), r)
  {
    hide Equis, Eval, EvalAll, LeftKeys, RightKeys, MoveAll, Columns, InOrder, LeftInput, RightInput, Identity;
    hide ExprsOf, Names, Conjuncts;
    var qs, n, m := Equis(Conjuncts(op.on), |l|), |l|, |r|;
    InputExprs(op);
    EvalInOrder(env, ExprsOf(Identity(op.left)), 0, l);
    EvalInOrder(env, ExprsOf(Identity(op.right)), 0, r);
    EvalColumns(env, 0, n, l);
    EvalColumns(env, 0, m, r);
    EvalAllConcat(env, LeftKeys(qs), ExprsOf(Identity(op.left)), l);
    EvalAllConcat(env, LeftKeys(qs), Columns(0, n), l);
    EvalAllConcat(env, MoveAll(RightKeys(qs), 0 - n), ExprsOf(Identity(op.right)), r);
    EvalAllConcat(env, MoveAll(RightKeys(qs), 0 - n), Columns(0, m), r);
    assert l[0..n] == l && r[0..m] == r;
  }

  /** Dropping the keys of a joined row leaves the two original rows. */
  lemma DropRows(env: Env, op: Op, lk: Tuple, l: Tuple, rk: Tuple, r: Tuple)
    requires op.Join? && |l| == Cols(op.left) && |r| == Cols(op.right) && |lk| == |rk| == KeyCount(op)
    ensures EvalAll(env, ExprsOf(NormalForm(op).exprs), (lk + l) + (rk + r)) == l + r
  {
    hide EvalAll, NormalForm, KeyCount, ExprsOf, InOrder, Names, AliasesOf;
    var es, n, k, t := ExprsOf(NormalForm(op).exprs), |l|, |lk|, (lk + l) + (rk + r);
    DropExprs(op);
    EvalInOrder(env, es[..n], k, t);
    EvalInOrder(env, es[n..], 2 * k + n, t);
    EvalAllConcat(env, es[..n], es[n..], t);
    assert es == es[..n] + es[n..];
    assert t[k..k + n] == l && t[2 * k + n..2 * k + n + |r|] == r;
  }

  lemma KeyedPoint(env: Env, op: Op, l: Tuple, r: Tuple)
    requires op.Join? && Scalar(op.on, |l| + |r|) && |l| == Cols(op.left) && |r| == Cols(op.right)
    ensures
      var t := EvalAll(env, ExprsOf(LeftInput(op).exprs), l) + EvalAll(env, ExprsOf(RightInput(op).exprs), r);
      && (Passes(env, KeyedJoin(op).on, t) <==> Passes(env, Combine(Effective(Conjuncts(op.on), |l|, |r|)), l + r))
      && EvalAll(env, ExprsOf(NormalForm(op).exprs), t) == l + r
  {
    hide Eval, Scalar, Passes, AllPass, EvalAll, Equis, LeftInput, RightInput, NormalForm, Effective, LeftKeys;
    hide RightKeys, ExprsOf, Combine, LeftExprs, RightExprs, AllScalar, Conjuncts, Layout, Names, AsEqui, EquiConds;
    hide KeyConds, Residual;
    var conds := Conjuncts(op.on);
    var qs := Equis(conds, |l|);
    ConjunctsMeaning(env, op.on, |l| + |r|, l + r);
    InputRows(env, op, l, r);
    KeyedRows(env, conds, l, r);
    KeyedPasses(env, conds, l, r);
    DropRows(env, op, EvalAll(env, LeftKeys(qs), l + r), l, EvalAll(env, RightKeys(qs), l + r), r);
  }

  lemma KeyedPasses(env: Env, conds: seq<Expr>, l: Tuple, r: Tuple)
    requires AllScalar(conds, |l| + |r|)
    ensures
      var qs := Equis(conds, |l|);
      var t := EvalAll(env, LeftExprs(qs, |l|), l) + EvalAll(env, RightExprs(qs, |l|, |r|), r);
      Passes(env, Combine(KeyConds(qs, |l|) + Residual(conds, |l|)), t) <==>
        Passes(env, Combine(Effective(conds, |l|, |r|)), l + r)
  {
    hide *;
    KeyedCondition(env, conds, l, r);
    KeyedScalars(env, conds, |l|, |r|);
    var qs := Equis(conds, |l|);
    var t := EvalAll(env, LeftExprs(qs, |l|), l) + EvalAll(env, RightExprs(qs, |l|, |r|), r);
    CombineBoth(env, KeyConds(qs, |l|) + Residual(conds, |l|), 2 * |qs| + |l| + |r|, t,
                Effective(conds, |l|, |r|), |l| + |r|, l + r);
  }

  lemma CombineBoth(env: Env, a: seq<Expr>, m: nat, t: Tuple, b: seq<Expr>, n: nat, u: Tuple)
    requires AllScalar(a, m) && AllScalar(b, n) && (AllPass(env, a, t) <==> AllPass(env, b, u))
    ensures Scalar(Combine(a), m) && Scalar(Combine(b), n)
    ensures Passes(env, Combine(a), t) <==> Passes(env, Combine(b), u)
  {
    CombineMeaning(env, a, m, t);
    CombineMeaning(env, b, n, u);
  }

  lemma KeyedScalars(env: Env, conds: seq<Expr>, n: nat, m: nat)
    requires AllScalar(conds, n + m)
    ensures
      var qs := Equis(conds, n);
      AllScalar(KeyConds(qs, n) + Residual(conds, n), 2 * |qs| + n + m)
  {
    hide Equis, Reads, Scalar, Residual, EquiConds, AsEqui, KeyCond, MinMax;
    var qs := Equis(conds, n);
    var cols := 2 * |qs| + n + m;
    ResidualMeaning(env, conds, n, n + m, []);
    WiderScalar(Residual(conds, n), n + m, cols);
    forall i | 0 <= i < |qs| ensures Scalar(KeyConds(qs, n)[i], cols) {
      EquiSides(env, conds, n, m, i);
      KeyCondScalar(qs[i], i, n + |qs|, cols);
    }
    ScalarConcat(KeyConds(qs, n), Residual(conds, n), cols);
  }

  lemma KeyCondScalar(q: Equi, i: nat, width: nat, cols: nat)
    requires i + width < cols
    ensures Scalar(KeyCond(q, i, width), cols)
  {
    var args := KeyCond(q, i, width).args;
    assert forall j :: 0 <= j < |args| ==> Scalar(args[j], cols);
  }

  lemma KeyedPad(env: Env, op: Op, l: Tuple)
    requires op.Join? && |l| == Cols(op.left)
    ensures
      var right := ExprsOf(RightInput(op).exprs);
      EvalAll(env, ExprsOf(NormalForm(op).exprs), EvalAll(env, ExprsOf(LeftInput(op).exprs), l) + Nulls(|right|))
      == l + Nulls(Cols(op.right))
  {
    hide EvalAll, NormalForm, ExprsOf, LeftInput, LeftKeys, Equis, RightInput, LeftExprs, RightExprs;
    var k, m := KeyCount(op), Cols(op.right);
    var qs := Equis(Conjuncts(op.on), |l|);
    InputRows(env, op, l, Nulls(m));
    InputExprs(op);
    KeyedWidths(op);
    DropRows(env, op, EvalAll(env, LeftKeys(qs), l), l, Nulls(k), Nulls(m));
    assert Nulls(k + m) == Nulls(k) + Nulls(m);
  }

  /** The condition that is left after normalising a join of `n` and `m` columns. */
  function ShiftedCond(on: Expr, n: nat, m: nat): (r: Expr) { Combine(Effective(Conjuncts(on), n, m)) }

  /** The join with the condition that normalisation leaves it with. */
  function Shifted(op: Op): (r: Op)
    requires op.Join?
    ensures r.Join?
  {
    Join(op.left, op.right, ShiftedCond(op.on, Cols(op.left), Cols(op.right)), op.joinType)
  }

  /** For every join, normalising gives exactly the rows of the join under the effective condition. */
  lemma NormalFormRun(env: Env, op: Op)
    requires op.Join? && WellFormed(env, op)
    ensures Run(env, NormalForm(op)) == Run(env, Shifted(op))
  {
    hide JoinRows, ProjectRows, Keyed, LeftInput, RightInput, Effective, Conjuncts, Combine, ExprsOf, Scalar, Run;
    hide Dropped, Names;
    var n, m := Cols(op.left), Cols(op.right);
    assert Scalar(op.on, n + m);
    RunWidth(env, op.left);
    RunWidth(env, op.right);
    NormalKeyed(env, op);
    var keyed := KeyedJoin(op);
    InputsRun(env, op);
    JoinRun(env, keyed);
    JoinRun(env, Shifted(op));
    ProjectRun(env, NormalForm(op));
    JoinKeyed(env, n, m, ExprsOf(LeftInput(op).exprs), ExprsOf(RightInput(op).exprs), keyed.on,
              ExprsOf(NormalForm(op).exprs),
              Shifted(op).on, Run(env, op.left), Run(env, op.right), op.joinType);
  }

  lemma InputsRun(env: Env, op: Op)
    requires op.Join?
    ensures Run(env, LeftInput(op)) == ProjectRows(env, ExprsOf(LeftInput(op).exprs), Run(env, op.left))
    ensures Run(env, RightInput(op)) == ProjectRows(env, ExprsOf(RightInput(op).exprs), Run(env, op.right))
    ensures Cols(RightInput(op)) == |ExprsOf(RightInput(op).exprs)|
  {
    hide Run, ProjectRows, Equis, Conjuncts, KeyNamed, MoveAll, LeftKeys, RightKeys, Identity;
    ProjectRun(env, LeftInput(op));
    ProjectRun(env, RightInput(op));
  }

  lemma InputsFormed(env: Env, op: Op)
    requires op.Join? && WellFormed(env, op)
    ensures WellFormed(env, LeftInput(op)) && WellFormed(env, RightInput(op))
    ensures Scalar(KeyedJoin(op).on, Cols(LeftInput(op)) + Cols(RightInput(op)))
    ensures WellFormed(env, Shifted(op)) && Names(Shifted(op)) == Names(op)
  {
    hide Run, Scalar, Equis, Conjuncts, KeyNamed, MoveAll, LeftKeys, RightKeys, Identity, Combine, Effective, Layout;
    hide Reads,
         KeyConds, Residual, EvalAll, Eval, ExprsOf, Columns, AsEqui, InOrder;
    var n: int, m: int, conds := Cols(op.left), Cols(op.right), Conjuncts(op.on);
    var qs := Equis(conds, n);
    ConjunctsMeaning(env, op.on, n + m, []);
    KeyedWidths(op);
    InputExprs(op);
    KeyedRows(env, conds, Nulls(n), Nulls(m));
    KeyedScalars(env, conds, n, m);
    CombineMeaning(env, KeyConds(qs, n) + Residual(conds, n), 2 * |qs| + n + m, []);
    KeyedCondition(env, conds, Nulls(n), Nulls(m));
    CombineMeaning(env, Effective(conds, n, m), n + m, []);
    InOrderScalar(ExprsOf(Identity(op.left)), n);
    InOrderScalar(ExprsOf(Identity(op.right)), m);
    KeysScalar(LeftKeys(qs), Columns(0, n), ExprsOf(Identity(op.left)), n);
    KeysScalar(MoveAll(RightKeys(qs), 0 - n), Columns(0, m), ExprsOf(Identity(op.right)), m);
  }

  lemma InOrderScalar(es: seq<Expr>, n: nat)
    requires InOrder(es, 0) && |es| == n
    ensures AllScalar(es, n)
  {
    assert forall i :: 0 <= i < |es| ==> es[i].Column? && es[i].offset == i;
  }

  lemma KeysScalar(keys: seq<Expr>, a: seq<Expr>, b: seq<Expr>, n: nat)
    requires AllScalar(keys + a, n) && AllScalar(b, n)
    ensures AllScalar(keys + b, n)
  {
    hide Scalar;
    forall i | 0 <= i < |keys| ensures Scalar(keys[i], n) { assert keys[i] == (keys + a)[i]; }
    ScalarConcat(keys, b, n);
  }

  lemma NormalFormFormed(env: Env, op: Op)
    requires op.Join? && WellFormed(env, op)
    ensures WellFormed(env, NormalForm(op)) && Names(NormalForm(op)) == Names(op)
  {
    hide Run, Scalar, Equis, LeftInput, RightInput, Conjuncts, Combine, KeyCount, Dropped, InOrder, KeyConds;
    hide Residual, Identity;
    InputsFormed(env, op);
    KeyedWidths(op);
    DropExprs(op);
    var es, n, k := ExprsOf(NormalForm(op).exprs), Cols(op.left), KeyCount(op);
    DropScalar(es, n, k, Cols(KeyedJoin(op)));
    assert WellFormed(env, KeyedJoin(op));
  }

  lemma DropScalar(es: seq<Expr>, n: nat, k: nat, cols: nat)
    requires n <= |es| && InOrder(es[..n], k) && InOrder(es[n..], 2 * k + n) && cols == 2 * k + |es|
    ensures AllScalar(es, cols)
  {
    forall i | 0 <= i < |es| ensures Scalar(es[i], cols) {
      if i < n { assert es[i] == es[..n][i]; } else { assert es[i] == es[n..][i - n]; }
    }
  }
}
