/** Predicate pushdown: splits filters and join conditions and moves each part as far down as it goes. */
module Pushdown {
  import opened Bytes
  import opened Datums
  import opened Rows
  import opened Exprs
  import opened Plans
  import opened PlanAlgebra

  // ----- Which side of a join a predicate can move to

  datatype Side = Anywhere | OnLeft | OnRight | Across

  /** `n` is the number of columns on the left. */
  function SideOf(p: Expr, n: nat): (r: Side) {
    match MinMax(p)
    case None => Anywhere
    case Some((min, max)) => if max < n then OnLeft else if min >= n then OnRight else Across
  }

  /** The side is told by the columns that are read. */
  lemma SideExact(p: Expr, n: nat)
    ensures SideOf(p, n) == Anywhere <==> Reads(p, 0, 0)
    ensures SideOf(p, n) == OnLeft <==> OfLeft(p, n)
    ensures SideOf(p, n) == OnRight <==> OfRight(p, n)
  {
    hide MinMax, Reads, ReadsFrom;
    SideBounds(p, n);
    MinMaxExact(p, 0, 0);
  }

  /** The predicates whose side is one of `sides`, in order. */
  function On(ps: seq<Expr>, n: nat, sides: set<Side>): (r: seq<Expr>) {
    if ps == [] then []
    else
      var k := |ps| - 1;
      if SideOf(ps[k], n) in sides then On(ps[..k], n, sides) + [ps[k]] else On(ps[..k], n, sides)
  }

  function LeftPart(join: JoinType, preds: seq<Expr>, conds: seq<Expr>, n: nat): (r: seq<Expr>) {
    if join.Inner? then On(preds + conds, n, {Anywhere, OnLeft}) else On(preds, n, {Anywhere, OnLeft})
  }

  function RightPart(join: JoinType, preds: seq<Expr>, conds: seq<Expr>, n: nat): (r: seq<Expr>) {
    if join.Inner? then On(preds + conds, n, {Anywhere, OnRight})
    else On(preds, n, {Anywhere}) + On(conds, n, {Anywhere, OnRight})
  }

  function KeptPart(join: JoinType, preds: seq<Expr>, conds: seq<Expr>, n: nat): (r: seq<Expr>) {
    if join.Inner? then On(preds + conds, n, {Across}) else On(conds, n, {OnLeft, Across})
  }

  function WrapPart(join: JoinType, preds: seq<Expr>, n: nat): (r: seq<Expr>) {
    if join.Inner? then [] else On(preds, n, {OnRight, Across})
  }

  lemma {:induction false} OnExact(ps: seq<Expr>, n: nat, sides: set<Side>, p: Expr)
    ensures p in On(ps, n, sides) <==> p in ps && SideOf(p, n) in sides
  {
    hide SideOf;
    if ps != [] {
      var k := |ps| - 1;
      OnExact(ps[..k], n, sides, p);
      assert ps == ps[..k] + [ps[k]];
    }
  }

  /** Both sides of a join are read. */
  predicate OfBoth(p: Expr, n: nat) {
    !Reads(p, 0, 0) && !OfLeft(p, n) && !OfRight(p, n)
  }

  /**
   * Where each predicate goes. Of an inner join only what reads both sides stays, of a left outer join
   * also the conditions on the left, and the predicates that read the right are put on top.
   */
  lemma PartsExact(preds: seq<Expr>, conds: seq<Expr>, n: nat, p: Expr)
    ensures p in LeftPart(Inner, preds, conds, n) <==> p in preds + conds && !OfRight(p, n) && !OfBoth(p, n)
    ensures p in RightPart(Inner, preds, conds, n) <==> p in preds + conds && !OfLeft(p, n) && !OfBoth(p, n)
    ensures p in KeptPart(Inner, preds, conds, n) <==> p in preds + conds && OfBoth(p, n)
    ensures WrapPart(Inner, preds, n) == []
    ensures p in LeftPart(LeftOuter, preds, conds, n) <==> p in preds && !OfRight(p, n) && !OfBoth(p, n)
    ensures p in RightPart(LeftOuter, preds, conds, n) <==>
      (p in preds && Reads(p, 0, 0)) || (p in conds && !OfLeft(p, n) && !OfBoth(p, n))
    ensures p in KeptPart(LeftOuter, preds, conds, n) <==> p in conds && (OfLeft(p, n) || OfBoth(p, n))
    ensures p in WrapPart(LeftOuter, preds, n) <==> p in preds && (OfRight(p, n) || OfBoth(p, n))
  {
    hide SideOf, On, OfLeft, OfRight, Reads;
    SideExact(p, n);
    assert SideOf(p, n) == Across <==> OfBoth(p, n) by { FourSides(SideOf(p, n)); }
    FourSides(SideOf(p, n));
    var all := preds + conds;
    OnExact(all, n, {Anywhere, OnLeft}, p);
    OnExact(all, n, {Anywhere, OnRight}, p);
    OnExact(all, n, {Across}, p);
    OnExact(preds, n, {Anywhere, OnLeft}, p);
    OnExact(preds, n, {Anywhere}, p);
    OnExact(conds, n, {Anywhere, OnRight}, p);
    OnExact(conds, n, {OnLeft, Across}, p);
    OnExact(preds, n, {OnRight, Across}, p);
  }

  lemma FourSides(s: Side)
    ensures s.Anywhere? || s.OnLeft? || s.OnRight? || s.Across?
  {
  }

  /** The loops that deal predicates out to `left`, `right`, `keep` and `wrap`. */
  method Split(join: JoinType, preds: seq<Expr>, conds: seq<Expr>, n: nat)
    returns (left: seq<Expr>, right: seq<Expr>, keep: seq<Expr>, wrap: seq<Expr>)
    ensures left == LeftPart(join, preds, conds, n)
    ensures right == MoveAll(RightPart(join, preds, conds, n), 0 - n)
    ensures keep == KeptPart(join, preds, conds, n)
    ensures wrap == WrapPart(join, preds, n)
  {
    left, right, keep, wrap := [], [], [], [];
    if join.Inner? {
      var all := preds + conds;
      for i := 0 to |all|
        invariant left == On(all[..i], n, {Anywhere, OnLeft})
        invariant right == On(all[..i], n, {Anywhere, OnRight})
        invariant keep == On(all[..i], n, {Across})
      {
        assert all[..i + 1][..i] == all[..i];
        match SideOf(all[i], n) {
          case Anywhere => left, right := left + [all[i]], right + [all[i]];
          case OnLeft => left := left + [all[i]];
          case OnRight => right := right + [all[i]];
          case Across => keep := keep + [all[i]];
        }
      }
      assert all[..|all|] == all;
    } else {
      for i := 0 to |preds|
        invariant left == On(preds[..i], n, {Anywhere, OnLeft})
        invariant right == On(preds[..i], n, {Anywhere})
        invariant wrap == On(preds[..i], n, {OnRight, Across})
      {
        assert preds[..i + 1][..i] == preds[..i];
        match SideOf(preds[i], n) {
          case Anywhere => left, right := left + [preds[i]], right + [preds[i]];
          case OnLeft => left := left + [preds[i]];
          case _ => wrap := wrap + [preds[i]];
        }
      }
      assert preds[..|preds|] == preds;
      ghost var constants := right;
      for i := 0 to |conds|
        invariant right == constants + On(conds[..i], n, {Anywhere, OnRight})
        invariant keep == On(conds[..i], n, {OnLeft, Across})
      {
        assert conds[..i + 1][..i] == conds[..i];
        match SideOf(conds[i], n) {
          case Anywhere => right := right + [conds[i]];
          case OnRight => right := right + [conds[i]];
          case _ => keep := keep + [conds[i]];
        }
      }
      assert conds[..|conds|] == conds;
    }
    right := MoveAll(right, 0 - n);
  }

  // ----- What the split means

  lemma {:induction false} OnScalar(ps: seq<Expr>, n: nat, sides: set<Side>, cols: nat)
    requires AllScalar(ps, cols)
    ensures AllScalar(On(ps, n, sides), cols)
    ensures forall i :: 0 <= i < |On(ps, n, sides)| ==> SideOf(On(ps, n, sides)[i], n) in sides
  {
    hide SideOf, Scalar;
    if ps != [] { OnScalar(ps[..|ps| - 1], n, sides, cols); }
  }

  /** The part of `ps` on the given sides passes when each of its members does. */
  ghost predicate PassOn(env: Env, ps: seq<Expr>, n: nat, sides: set<Side>, t: Tuple) {
    forall i :: 0 <= i < |ps| ==> SideOf(ps[i], n) in sides ==> Passes(env, ps[i], t)
  }

  lemma {:induction false} OnMeaning(env: Env, ps: seq<Expr>, n: nat, sides: set<Side>, t: Tuple)
    ensures AllPass(env, On(ps, n, sides), t) <==> PassOn(env, ps, n, sides, t)
  {
    hide SideOf, Passes, AllPass;
    if ps == [] {
      EmptyPasses(env, t);
    } else {
      var k := |ps| - 1;
      OnMeaning(env, ps[..k], n, sides, t);
      AllPassConcat(env, On(ps[..k], n, sides), [ps[k]], t);
      AllPassOne(env, ps[k], t);
      assert forall i :: 0 <= i < k ==> ps[..k][i] == ps[i];
      assert forall i :: 0 <= i < |ps| ==> ps[i] == if i < k then ps[..k][i] else ps[k];
    }
  }

  lemma EmptyPasses(env: Env, t: Tuple)
    ensures AllPass(env, [], t)
  {
  }

  /** Predicates over the left columns can be checked on the left row alone. */
  lemma PassLeft(env: Env, ps: seq<Expr>, l: Tuple, r: Tuple)
    requires AllScalar(ps, |l| + |r|)
    requires forall i :: 0 <= i < |ps| ==> SideOf(ps[i], |l|) in {Anywhere, OnLeft}
    ensures AllPass(env, ps, l) <==> AllPass(env, ps, l + r)
    ensures AllScalar(ps, |l|)
  {
    forall i | 0 <= i < |ps| ensures Eval(env, ps[i], l + r) == Eval(env, ps[i], l) && Scalar(ps[i], |l|) {
      assert SideOf(ps[i], |l|) in {Anywhere, OnLeft};
      MinMaxExact(ps[i], 0, |l|);
      EvalLeft(env, ps[i], l, r);
    }
  }

  lemma PassRight(env: Env, ps: seq<Expr>, l: Tuple, r: Tuple)
    requires AllScalar(ps, |l| + |r|)
    requires forall i :: 0 <= i < |ps| ==> SideOf(ps[i], |l|) in {Anywhere, OnRight}
    ensures AllPass(env, MoveAll(ps, -|l|), r) <==> AllPass(env, ps, l + r)
    ensures AllScalar(MoveAll(ps, -|l|), |r|)
  {
    var moved := MoveAll(ps, -|l|);
    forall i | 0 <= i < |ps| ensures Eval(env, moved[i], r) == Eval(env, ps[i], l + r) && Scalar(moved[i], |r|) {
      assert SideOf(ps[i], |l|) in {Anywhere, OnRight};
      MinMaxExact(ps[i], |l|, |l| + |r|);
      ReadsScalar(ps[i], |l| + |r|);
      MinMaxExact(ps[i], 0, |l| + |r|);
      EvalRight(env, ps[i], l, r);
    }
  }

  lemma {:induction false} ReadsScalar(e: Expr, n: nat)
    requires Scalar(e, n)
    ensures Reads(e, 0, n)
  {
    if e.Call? {
      forall i | 0 <= i < |e.args| ensures Reads(e.args[i], 0, n) { ReadsScalar(e.args[i], n); }
    }
  }

  /** Everything the split promises about one left and one right tuple. */
  lemma SplitParts(env: Env, join: JoinType, preds: seq<Expr>, conds: seq<Expr>, l: Tuple, r: Tuple)
    requires AllScalar(preds, |l| + |r|) && AllScalar(conds, |l| + |r|)
    ensures AllScalar(LeftPart(join, preds, conds, |l|), |l|)
    ensures AllScalar(MoveAll(RightPart(join, preds, conds, |l|), -|l|), |r|)
    ensures AllPass(env, LeftPart(join, preds, conds, |l|), l) <==>
      AllPass(env, LeftPart(join, preds, conds, |l|), l + r)
    ensures AllPass(env, MoveAll(RightPart(join, preds, conds, |l|), -|l|), r)
       <==> AllPass(env, RightPart(join, preds, conds, |l|), l + r)
    ensures AllScalar(KeptPart(join, preds, conds, |l|), |l| + |r|)
    ensures AllScalar(WrapPart(join, preds, |l|), |l| + |r|)
  {
    hide SideOf, Passes, AllPass, Scalar, On, MoveAll;
    var n, cols := |l|, |l| + |r|;
    if join.Inner? {
      var all := preds + conds;
      assert AllScalar(all, cols);
      OnScalar(all, n, {Anywhere, OnLeft}, cols);
      OnScalar(all, n, {Anywhere, OnRight}, cols);
      OnScalar(all, n, {Across}, cols);
    } else {
      OnScalar(preds, n, {Anywhere, OnLeft}, cols);
      OnScalar(preds, n, {Anywhere}, cols);
      OnScalar(preds, n, {OnRight, Across}, cols);
      OnScalar(conds, n, {Anywhere, OnRight}, cols);
      OnScalar(conds, n, {OnLeft, Across}, cols);
    }
    PassLeft(env, LeftPart(join, preds, conds, n), l, r);
    PassRight(env, RightPart(join, preds, conds, n), l, r);
  }

  /** Together the parts of an inner join's predicates say what the predicates said. */
  lemma InnerParts(env: Env, preds: seq<Expr>, conds: seq<Expr>, n: nat, t: Tuple)
    ensures AllPass(env, preds, t) && AllPass(env, conds, t)
       <==> && AllPass(env, LeftPart(Inner, preds, conds, n), t)
            && AllPass(env, RightPart(Inner, preds, conds, n), t)
            && AllPass(env, KeptPart(Inner, preds, conds, n), t)
  {
    hide SideOf, Passes, On;
    var all := preds + conds;
    AllPassConcat(env, preds, conds, t);
    OnMeaning(env, all, n, {Anywhere, OnLeft}, t);
    OnMeaning(env, all, n, {Anywhere, OnRight}, t);
    OnMeaning(env, all, n, {Across}, t);
    EverySide(env, all, n, t);
  }

  lemma EverySide(env: Env, ps: seq<Expr>, n: nat, t: Tuple)
    ensures AllPass(env, ps, t) <==>
      && PassOn(env, ps, n, {Anywhere, OnLeft}, t) && PassOn(env, ps, n, {Anywhere, OnRight}, t)
      && PassOn(env, ps, n, {Across}, t)
    ensures AllPass(env, ps, t) <==>
      PassOn(env, ps, n, {Anywhere, OnLeft}, t) && PassOn(env, ps, n, {OnRight, Across}, t)
    ensures AllPass(env, ps, t) <==>
      PassOn(env, ps, n, {Anywhere, OnRight}, t) && PassOn(env, ps, n, {OnLeft, Across}, t)
    ensures PassOn(env, ps, n, {Anywhere, OnLeft}, t) ==> PassOn(env, ps, n, {Anywhere}, t)
  {
    hide Passes, SideOf;
    forall i | 0 <= i < |ps| ensures SideOf(ps[i], n) in {Anywhere, OnLeft} || SideOf(ps[i], n) in {OnRight, Across} {
      var s := SideOf(ps[i], n);
      assert s.Anywhere? || s.OnLeft? || s.OnRight? || s.Across?;
    }
  }

  lemma OuterParts(env: Env, preds: seq<Expr>, conds: seq<Expr>, n: nat, t: Tuple)
    ensures !AllPass(env, LeftPart(LeftOuter, preds, conds, n), t) ==> !AllPass(env, preds, t)
    ensures AllPass(env, LeftPart(LeftOuter, preds, conds, n), t) ==>
      && (AllPass(env, preds, t) <==> AllPass(env, WrapPart(LeftOuter, preds, n), t))
      && (AllPass(env, conds, t) <==>
            AllPass(env, RightPart(LeftOuter, preds, conds, n), t)
            && AllPass(env, KeptPart(LeftOuter, preds, conds, n), t))
  {
    hide SideOf, Passes, On, AllPass;
    OnMeaning(env, preds, n, {Anywhere, OnLeft}, t);
    OnMeaning(env, preds, n, {Anywhere}, t);
    OnMeaning(env, preds, n, {OnRight, Across}, t);
    OnMeaning(env, conds, n, {Anywhere, OnRight}, t);
    OnMeaning(env, conds, n, {OnLeft, Across}, t);
    AllPassConcat(env, On(preds, n, {Anywhere}), On(conds, n, {Anywhere, OnRight}), t);
    EverySide(env, preds, n, t);
    EverySide(env, conds, n, t);
  }

  // ----- The arms of the pass

  /** No predicate arrives at a Filter from above: that arm forgets the ones it is given. */
  ghost predicate Safe(op: Op, preds: seq<Expr>)
    decreases op
  {
    match op
    case Filter(cond, source) => preds == [] && Safe(source, Conjuncts(cond))
    case Sort(_, source) => Safe(source, preds)
    case NegateFreq(source) => Safe(source, preds)
    case Project(exprs, source) => Safe(source, InlineAll(preds, ExprsOf(exprs)))
    case UnionAll(sources) => forall i :: 0 <= i < |sources| ==> Safe(sources[i], preds)
    case Join(left, right, on, join) =>
      && Safe(left, LeftPart(join, preds, Conjuncts(on), Cols(left)))
      && Safe(right, MoveAll(RightPart(join, preds, Conjuncts(on), Cols(left)), 0 - Cols(left)))
    case GroupBy(_, _, _, source) => Safe(source, [])
    case Limit(_, _, source) => Safe(source, [])
    case TableAlias(_, source) => Safe(source, [])
    case _ => true
  }

  lemma JoinParts(env: Env, op: Op, preds: seq<Expr>)
    requires op.Join? && WellFormed(env, op) && AllScalar(preds, Cols(op))
    ensures
      var conds, n := Conjuncts(op.on), Cols(op.left);
      && AllScalar(conds, Cols(op))
      && AllScalar(LeftPart(op.joinType, preds, conds, n), n)
      && AllScalar(MoveAll(RightPart(op.joinType, preds, conds, n), 0 - n), Cols(op.right))
      && AllScalar(KeptPart(op.joinType, preds, conds, n), Cols(op))
      && AllScalar(WrapPart(op.joinType, preds, n), Cols(op))
  {
    hide LeftPart, RightPart, KeptPart, WrapPart, MoveAll, Conjuncts, Scalar;
    ConjunctsMeaning(env, op.on, Cols(op), []);
    SplitParts(env, op.joinType, preds, Conjuncts(op.on), Nulls(Cols(op.left)), Nulls(Cols(op.right)));
  }

  lemma PointInner(env: Env, on: Expr, preds: seq<Expr>, l: Tuple, r: Tuple)
    requires AllScalar(preds, |l| + |r|) && Scalar(on, |l| + |r|)
    ensures
      var conds := Conjuncts(on);
      AllPass(env, preds, l + r) && Passes(env, on, l + r)
      <==> && AllPass(env, LeftPart(Inner, preds, conds, |l|), l)
           && AllPass(env, MoveAll(RightPart(Inner, preds, conds, |l|), -|l|), r)
           && Passes(env, Combine(KeptPart(Inner, preds, conds, |l|)), l + r)
  {
    hide LeftPart, RightPart, KeptPart, WrapPart, MoveAll, AllPass, Passes, Scalar, Conjuncts, Combine, AllScalar;
    var conds := Conjuncts(on);
    ConjunctsMeaning(env, on, |l| + |r|, l + r);
    SplitParts(env, Inner, preds, conds, l, r);
    InnerParts(env, preds, conds, |l|, l + r);
    CombineMeaning(env, KeptPart(Inner, preds, conds, |l|), |l| + |r|, l + r);
  }

  lemma PointOuter(env: Env, on: Expr, preds: seq<Expr>, l: Tuple, r: Tuple)
    requires AllScalar(preds, |l| + |r|) && Scalar(on, |l| + |r|)
    ensures
      var conds := Conjuncts(on);
      if AllPass(env, LeftPart(LeftOuter, preds, conds, |l|), l) then
        && (AllPass(env, preds, l + r) <==> AllPass(env, WrapPart(LeftOuter, preds, |l|), l + r))
        && (Passes(env, on, l + r)
            <==> && AllPass(env, MoveAll(RightPart(LeftOuter, preds, conds, |l|), -|l|), r)
                 && Passes(env, Combine(KeptPart(LeftOuter, preds, conds, |l|)), l + r))
      else !AllPass(env, preds, l + r)
  {
    hide LeftPart, RightPart, KeptPart, WrapPart, MoveAll, AllPass, Passes, Scalar, Conjuncts, Combine, AllScalar;
    var conds := Conjuncts(on);
    ConjunctsMeaning(env, on, |l| + |r|, l + r);
    SplitParts(env, LeftOuter, preds, conds, l, r);
    OuterParts(env, preds, conds, |l|, l + r);
    CombineMeaning(env, KeptPart(LeftOuter, preds, conds, |l|), |l| + |r|, l + r);
  }

  /** Filtering a join is joining its filtered sides under what is left of the condition, then filtering by the rest. */
  lemma JoinArm(env: Env, op: Op, preds: seq<Expr>, lefts: seq<Row>, rights: seq<Row>)
    requires op.Join? && Scalar(op.on, Cols(op)) && AllScalar(preds, Cols(op))
    requires Width(lefts, Cols(op.left)) && Width(rights, Cols(op.right))
    ensures
      var conds, n := Conjuncts(op.on), Cols(op.left);
      Keep(env, JoinRows(env, lefts, rights, op.on, op.joinType, Cols(op.right)), preds)
      == Keep(env, JoinRows(env, Keep(env, lefts, LeftPart(op.joinType, preds, conds, n)),
                                 Keep(env, rights, MoveAll(RightPart(op.joinType, preds, conds, n), 0 - n)),
                                 Combine(KeptPart(op.joinType, preds, conds, n)), op.joinType, Cols(op.right)),
                   WrapPart(op.joinType, preds, n))
  {
    hide LeftPart, RightPart, KeptPart, MoveAll, AllPass, Passes, Scalar, Keep, JoinRows, Conjuncts, Combine, AllScalar;
    var conds, n, on := Conjuncts(op.on), Cols(op.right), op.on;
    var m: int := Cols(op.left);
    var left, right := LeftPart(op.joinType, preds, conds, m), MoveAll(RightPart(op.joinType, preds, conds, m), 0 - m);
    var kept := Combine(KeptPart(op.joinType, preds, conds, m));
    if op.joinType.Inner? {
      forall l: Tuple, r: Tuple | |l| == m && |r| == n
        ensures AllPass(env, preds, l + r) && Passes(env, on, l + r)
           <==> AllPass(env, left, l) && AllPass(env, right, r) && Passes(env, kept, l + r)
      {
        PointInner(env, on, preds, l, r);
      }
      JoinInner(env, lefts, rights, preds, on, left, right, kept, m, n);
      KeepNothing(env, JoinRows(env, Keep(env, lefts, left), Keep(env, rights, right), kept, Inner, n));
    } else {
      var wrap := WrapPart(op.joinType, preds, m);
      forall l: Tuple, r: Tuple | |l| == m && |r| == n
        ensures
          if AllPass(env, left, l) then
            && (AllPass(env, preds, l + r) <==> AllPass(env, wrap, l + r))
            && (Passes(env, on, l + r) <==> AllPass(env, right, r) && Passes(env, kept, l + r))
          else !AllPass(env, preds, l + r)
      {
        PointOuter(env, on, preds, l, r);
      }
      JoinOuter(env, lefts, rights, preds, on, left, right, kept, wrap, m, n);
    }
  }

  /** A plan under the predicates it cannot take. */
  function Wrapped(op: Op, preds: seq<Expr>): (r: Op) {
    if preds == [] then op else Filter(Combine(preds), op)
  }

  /** Wrapping a plan in predicates is filtering its rows. */
  lemma WrapRun(env: Env, op: Op, preds: seq<Expr>)
    requires WellFormed(env, op) && AllScalar(preds, Cols(op))
    ensures WellFormed(env, Wrapped(op, preds)) && Names(Wrapped(op, preds)) == Names(op)
    ensures Run(env, Wrapped(op, preds)) == Keep(env, Run(env, op), preds)
  {
    hide Run, Keep;
    if preds == [] {
      KeepNothing(env, Run(env, op));
    } else {
      KeepCombined(env, Run(env, op), preds, Cols(op));
      FilterRun(env, Combine(preds), op);
    }
  }

  lemma FilterRun(env: Env, cond: Expr, source: Op)
    ensures Run(env, Filter(cond, source)) == Keep(env, Run(env, source), [cond])
  {
  }

  /** Operators that predicates move through, inner joins included. */
  predicate Transparent(op: Op) {
    op.Filter? || op.Sort? || op.NegateFreq? || op.Project? || op.UnionAll? || (op.Join? && op.joinType.Inner?)
  }

  /** No filter is left on top of an operator it could have moved through. */
  ghost predicate Settled(op: Op) {
    match op
    case Filter(_, source) => !Transparent(source) && Settled(source)
    case Sort(_, source) => Settled(source)
    case NegateFreq(source) => Settled(source)
    case Project(_, source) => Settled(source)
    case UnionAll(sources) => forall i :: 0 <= i < |sources| ==> Settled(sources[i])
    case Join(left, right, _, _) => Settled(left) && Settled(right)
    case GroupBy(_, _, _, source) => Settled(source)
    case Limit(_, _, source) => Settled(source)
    case TableAlias(_, source) => Settled(source)
    case _ => true
  }

  lemma SettledUnion(sources: seq<Op>)
    requires forall i :: 0 <= i < |sources| ==> Settled(sources[i])
    ensures Settled(UnionAll(sources))
  {
  }

  lemma SettledWrap(join: Op, wrap: seq<Expr>)
    requires join.Join? && Settled(join.left) && Settled(join.right)
    ensures join.joinType.Inner? ==> Settled(Wrapped(join, []))
    ensures join.joinType.LeftOuter? ==> Settled(Wrapped(join, wrap))
  {
    assert Settled(join);
  }

  /** Operators nothing is pushed through. */
  predicate Opaque(op: Op) {
    !op.Filter? && !op.Sort? && !op.NegateFreq? && !op.Project? && !op.UnionAll? && !op.Join?
  }

  /**
   * What the pass makes of a plan, given the predicates already gathered above it. A Filter forgets
   * them: its own conjuncts take their place.
   */
  function Pushed(op: Op, preds: seq<Expr>): (r: Op)
    decreases op
  {
    match op
    case Filter(cond, source) => Pushed(source, Conjuncts(cond))
    case Sort(sorts, source) => Sort(sorts, Pushed(source, preds))
    case NegateFreq(source) => NegateFreq(Pushed(source, preds))
    case Project(exprs, source) => Project(exprs, Pushed(source, InlineAll(preds, ExprsOf(exprs))))
    case UnionAll(sources) =>
      UnionAll(seq(|sources|, i requires 0 <= i < |sources| => Pushed(sources[i], preds)))
    case Join(left, right, on, join) =>
      var conds, n := Conjuncts(on), Cols(left);
      Wrapped(Join(Pushed(left, LeftPart(join, preds, conds, n)),
                   Pushed(right, MoveAll(RightPart(join, preds, conds, n), 0 - n)),
                   Combine(KeptPart(join, preds, conds, n)), join),
              WrapPart(join, preds, n))
    case GroupBy(id, exprs, keys, source) => Wrapped(GroupBy(id, exprs, keys, Pushed(source, [])), preds)
    case Limit(offset, limit, source) => Wrapped(Limit(offset, limit, Pushed(source, [])), preds)
    case TableAlias(alias, source) => Wrapped(TableAlias(alias, Pushed(source, [])), preds)
    case _ => Wrapped(op, preds)
  }

  /** The result is sound, has the same columns, and has no filter above what it could have moved through. */
  ghost predicate PushFits(env: Env, op: Op, preds: seq<Expr>) {
    Fits(env, op, Pushed(op, preds)) && Settled(Pushed(op, preds))
  }

  /** The rows are those of `op` that pass, unless some predicate meets a Filter on its way down. */
  ghost predicate PushKeeps(env: Env, op: Op, preds: seq<Expr>) {
    Safe(op, preds) ==> Run(env, Pushed(op, preds)) == Keep(env, Run(env, op), preds)
  }

  lemma {:induction false} PushRun(env: Env, op: Op, preds: seq<Expr>)
    requires WellFormed(env, op) && AllScalar(preds, Cols(op))
    ensures PushFits(env, op, preds) && PushKeeps(env, op, preds)
    ensures Opaque(op) && preds == [] ==> !Transparent(Pushed(op, preds))
    decreases op, 2
  {
    hide Run, Keep, WellFormed, Safe, Scalar, Names, Pushed, PushFits, PushKeeps;
    match op
    case Filter(_, _) => PushFilter(env, op, preds);
    case Sort(_, _) => PushSort(env, op, preds);
    case NegateFreq(_) => PushNegate(env, op, preds);
    case Project(_, _) => PushProject(env, op, preds);
    case UnionAll(_) => PushUnion(env, op, preds);
    case Join(_, _, _, _) => PushJoin(env, op, preds);
    case _ => PushOpaque(env, op, preds);
  }

  lemma PushFilter(env: Env, op: Op, preds: seq<Expr>)
    requires op.Filter? && WellFormed(env, op) && AllScalar(preds, Cols(op))
    ensures PushFits(env, op, preds) && PushKeeps(env, op, preds)
    decreases op, 0
  {
    hide Run, Keep, Scalar, Settled;
    KeepConjuncts(env, Run(env, op.source), op.cond, Cols(op.source));
    PushRun(env, op.source, Conjuncts(op.cond));
    FilterRun(env, op.cond, op.source);
    KeepNothing(env, Run(env, op));
  }

  lemma PushSort(env: Env, op: Op, preds: seq<Expr>)
    requires op.Sort? && WellFormed(env, op) && AllScalar(preds, Cols(op))
    ensures PushFits(env, op, preds) && PushKeeps(env, op, preds)
    decreases op, 0
  {
    hide Keep, Scalar, SortRows;
    PushRun(env, op.source, preds);
    KeepSort(env, op.sorts, Run(env, op.source), preds);
  }

  lemma PushNegate(env: Env, op: Op, preds: seq<Expr>)
    requires op.NegateFreq? && WellFormed(env, op) && AllScalar(preds, Cols(op))
    ensures PushFits(env, op, preds) && PushKeeps(env, op, preds)
    decreases op, 0
  {
    hide Keep, Scalar, Negated;
    PushRun(env, op.source, preds);
    KeepNegated(env, Run(env, op.source), preds);
  }

  lemma PushProject(env: Env, op: Op, preds: seq<Expr>)
    requires op.Project? && WellFormed(env, op) && AllScalar(preds, Cols(op))
    ensures PushFits(env, op, preds) && PushKeeps(env, op, preds)
    decreases op, 0
  {
    hide Keep, Scalar, ProjectRows;
    var es := ExprsOf(op.exprs);
    AllPassInlined(env, preds, es, Cols(op.source), []);
    PushRun(env, op.source, InlineAll(preds, es));
    KeepProject(env, Run(env, op.source), preds, es, Cols(op.source));
  }

  lemma PushUnion(env: Env, op: Op, preds: seq<Expr>)
    requires op.UnionAll? && WellFormed(env, op) && AllScalar(preds, Cols(op))
    ensures PushFits(env, op, preds) && PushKeeps(env, op, preds)
    decreases op, 0
  {
    hide Keep, Scalar, Run, Settled, AllScalar, Concat, WellFormed, Names;
    UnionParts(env, op);
    var sources := Pushed(op, preds).sources;
    forall i | 0 <= i < |op.sources|
      ensures PushFits(env, op.sources[i], preds) && PushKeeps(env, op.sources[i], preds)
    {
      assert Cols(op.sources[i]) == Cols(op);
      PushRun(env, op.sources[i], preds);
    }
    forall i | 0 <= i < |sources| ensures Fits(env, op.sources[i], sources[i]) && Settled(sources[i]) {
      assert PushFits(env, op.sources[i], preds);
    }
    if Safe(op, preds) {
      var parts := seq(|sources|, i requires 0 <= i < |sources| => Run(env, op.sources[i]));
      var kept := seq(|sources|, i requires 0 <= i < |sources| => Run(env, sources[i]));
      forall i | 0 <= i < |parts| ensures kept[i] == Keep(env, parts[i], preds) {
        assert PushKeeps(env, op.sources[i], preds);
      }
      KeepUnion(env, parts, kept, preds);
      UnionRun(env, op.sources, parts);
      UnionRun(env, sources, kept);
    }
    ReplaceSources(env, op, sources);
    SettledUnion(sources);
  }

  lemma JoinSafe(op: Op, preds: seq<Expr>)
    requires op.Join? && Safe(op, preds)
    ensures
      var conds, n := Conjuncts(op.on), Cols(op.left);
      && Safe(op.left, LeftPart(op.joinType, preds, conds, n))
      && Safe(op.right, MoveAll(RightPart(op.joinType, preds, conds, n), 0 - n))
  {
    hide LeftPart, RightPart, MoveAll, Conjuncts, Names;
  }

  /** The join of the pushed sides, under what is kept. */
  function PushedSides(op: Op, preds: seq<Expr>): (r: Op)
    requires op.Join?
    ensures r.Join? && r.joinType == op.joinType
  {
    var conds, n := Conjuncts(op.on), Cols(op.left);
    Join(Pushed(op.left, LeftPart(op.joinType, preds, conds, n)),
         Pushed(op.right, MoveAll(RightPart(op.joinType, preds, conds, n), 0 - n)),
         Combine(KeptPart(op.joinType, preds, conds, n)), op.joinType)
  }

  lemma PushedJoin(op: Op, preds: seq<Expr>)
    requires op.Join?
    ensures Pushed(op, preds) == Wrapped(PushedSides(op, preds), WrapPart(op.joinType, preds, Cols(op.left)))
  {
    hide LeftPart, RightPart, KeptPart, WrapPart, MoveAll, Conjuncts, Combine, Names, Wrapped;
  }

  lemma PushJoin(env: Env, op: Op, preds: seq<Expr>)
    requires op.Join? && WellFormed(env, op) && AllScalar(preds, Cols(op))
    ensures PushFits(env, op, preds) && PushKeeps(env, op, preds)
    decreases op, 0
  {
    hide Keep, Scalar, LeftPart, RightPart, KeptPart, WrapPart, MoveAll, Conjuncts, Combine, JoinRows, AllScalar, Run;
    hide Settled, Safe, Pushed, Wrapped, Names, WellFormed;
    if Safe(op, preds) { JoinSafe(op, preds); }
    var conds := Conjuncts(op.on);
    var n: int := Cols(op.left);
    var join, wrap := PushedSides(op, preds), WrapPart(op.joinType, preds, n);
    SidesFormed(env, op);
    JoinScalar(env, op);
    JoinRun(env, op);
    JoinParts(env, op, preds);
    RunWidth(env, op.left);
    RunWidth(env, op.right);
    JoinArm(env, op, preds, Run(env, op.left), Run(env, op.right));
    CombineMeaning(env, KeptPart(op.joinType, preds, conds, n), Cols(op), []);
    PushRun(env, op.left, LeftPart(op.joinType, preds, conds, n));
    PushRun(env, op.right, MoveAll(RightPart(op.joinType, preds, conds, n), 0 - n));
    JoinRun(env, join);
    SidesFit(env, op, join);
    PushedJoin(op, preds);
    WrapRun(env, join, wrap);
    SettledWrap(join, wrap);
    NoInnerWrap(op.joinType, preds, n);
  }

  lemma NoInnerWrap(join: JoinType, preds: seq<Expr>, n: nat)
    ensures join.Inner? ==> WrapPart(join, preds, n) == []
  {
  }

  lemma JoinScalar(env: Env, op: Op)
    requires op.Join? && WellFormed(env, op)
    ensures Scalar(op.on, Cols(op))
  {
  }

  lemma SidesFit(env: Env, op: Op, join: Op)
    requires op.Join? && join.Join? && Fits(env, op.left, join.left) && Fits(env, op.right, join.right)
    requires Scalar(join.on, Cols(op))
    ensures Fits(env, op, join) && Cols(join.right) == Cols(op.right)
  {
    hide Scalar;
  }

  /** Operators nothing is pushed through: pushing starts afresh below them. */
  lemma PushBelow(env: Env, op: Op)
    requires Opaque(op) && WellFormed(env, op)
    ensures PushFits(env, op, []) && !Transparent(Pushed(op, []))
    ensures Safe(op, []) ==> Run(env, Pushed(op, [])) == Run(env, op)
    decreases op, 0
  {
    hide Keep, Scalar, Run, WellFormed;
    if op.GroupBy? || op.Limit? || op.TableAlias? {
      SourceFormed(env, op);
      PushRun(env, op.source, []);
      KeepNothing(env, Run(env, op.source));
      ReplaceSource(env, op, Pushed(op.source, []));
    }
  }

  lemma PushOpaque(env: Env, op: Op, preds: seq<Expr>)
    requires Opaque(op) && WellFormed(env, op) && AllScalar(preds, Cols(op))
    ensures PushFits(env, op, preds) && PushKeeps(env, op, preds)
    ensures preds == [] ==> !Transparent(Pushed(op, preds))
    decreases op, 1
  {
    hide Run, Keep, WellFormed, Safe, Scalar, Names, Pushed;
    PushBelow(env, op);
    OpaqueOnce(op, preds);
    WrapRun(env, Pushed(op, []), preds);
  }

  /** An operator that lets nothing through does not care what is asked of it. */
  lemma OpaqueOnce(op: Op, preds: seq<Expr>)
    requires Opaque(op)
    ensures Safe(op, preds) == Safe(op, []) && Pushed(op, preds) == Wrapped(Pushed(op, []), preds)
  {
  }

  // ----- Where a predicate does meet a filter

  /** All that is asked on the way down through filters, projects, sorts, negations and unions arrives
      where it is safe. */
  ghost predicate Arrives(op: Op, preds: seq<Expr>)
    decreases op
  {
    match op
    case Filter(cond, source) => Arrives(source, Conjuncts(cond))
    case Sort(_, source) => Arrives(source, preds)
    case NegateFreq(source) => Arrives(source, preds)
    case Project(exprs, source) => Arrives(source, InlineAll(preds, ExprsOf(exprs)))
    case UnionAll(sources) => forall i :: 0 <= i < |sources| ==> Arrives(sources[i], preds)
    case _ => Safe(op, preds)
  }

  /** The predicates that a filter on that way forgets would have kept all of its rows. */
  ghost predicate LosesNothing(env: Env, op: Op, preds: seq<Expr>)
    decreases op
  {
    match op
    case Filter(cond, source) => KeepsAll(env, Run(env, op), preds) && LosesNothing(env, source, Conjuncts(cond))
    case Sort(_, source) => LosesNothing(env, source, preds)
    case NegateFreq(source) => LosesNothing(env, source, preds)
    case Project(exprs, source) => LosesNothing(env, source, InlineAll(preds, ExprsOf(exprs)))
    case UnionAll(sources) => forall i :: 0 <= i < |sources| ==> LosesNothing(env, sources[i], preds)
    case _ => true
  }

  /** The result has at least the rows that pass, and exactly those if and only if nothing is lost. */
  ghost predicate PushExact(env: Env, op: Op, preds: seq<Expr>) {
    var got, want := Run(env, Pushed(op, preds)), Keep(env, Run(env, op), preds);
    && |want| <= |got|
    && (LosesNothing(env, op, preds) ==> got == want)
    && (|got| == |want| ==> LosesNothing(env, op, preds))
  }

  lemma {:induction false} SortedCount(env: Env, ks: seq<SortKey>, rows: seq<Row>)
    ensures |SortRows(env, ks, rows)| == |rows|
  {
    hide InsertRow;
    if rows != [] {
      SortedCount(env, ks, rows[1..]);
      InsertedCount(env, ks, rows[0], SortRows(env, ks, rows[1..]));
    }
  }

  lemma {:induction false} InsertedCount(env: Env, ks: seq<SortKey>, row: Row, rows: seq<Row>)
    ensures |InsertRow(env, ks, row, rows)| == |rows| + 1
  {
    hide SortBytes, Cmp;
    if rows != [] { InsertedCount(env, ks, row, rows[1..]); }
  }

  lemma {:induction false} KeepCount(env: Env, rows: seq<Row>, ps: seq<Expr>)
    ensures |Keep(env, rows, ps)| <= |rows|
    ensures |Keep(env, rows, ps)| == |rows| ==> Keep(env, rows, ps) == rows
  {
    hide AllPass;
    if rows != [] {
      KeepCount(env, rows[1..], ps);
      assert rows == [rows[0]] + rows[1..];
    }
  }

  lemma ExactFilter(env: Env, op: Op, preds: seq<Expr>)
    requires op.Filter? && WellFormed(env, op) && AllScalar(preds, Cols(op)) && Arrives(op, preds)
    ensures PushExact(env, op, preds)
    decreases op, 0
  {
    hide Run, Keep, Scalar, Conjuncts;
    var rows := Run(env, op);
    KeepConjuncts(env, Run(env, op.source), op.cond, Cols(op.source));
    FilterRun(env, op.cond, op.source);
    Exact(env, op.source, Conjuncts(op.cond));
    KeepAll(env, rows, preds);
    KeepCount(env, rows, preds);
  }

  lemma ExactSort(env: Env, op: Op, preds: seq<Expr>)
    requires op.Sort? && WellFormed(env, op) && AllScalar(preds, Cols(op)) && Arrives(op, preds)
    ensures PushExact(env, op, preds)
    decreases op, 0
  {
    hide Keep, Scalar, SortRows;
    var below := Run(env, op.source);
    Exact(env, op.source, preds);
    KeepSort(env, op.sorts, below, preds);
    SortedCount(env, op.sorts, Keep(env, below, preds));
    SortedCount(env, op.sorts, Run(env, Pushed(op.source, preds)));
  }

  lemma ExactNegate(env: Env, op: Op, preds: seq<Expr>)
    requires op.NegateFreq? && WellFormed(env, op) && AllScalar(preds, Cols(op)) && Arrives(op, preds)
    ensures PushExact(env, op, preds)
    decreases op, 0
  {
    hide Keep, Scalar, Negated;
    Exact(env, op.source, preds);
    KeepNegated(env, Run(env, op.source), preds);
  }

  lemma ExactProject(env: Env, op: Op, preds: seq<Expr>)
    requires op.Project? && WellFormed(env, op) && AllScalar(preds, Cols(op)) && Arrives(op, preds)
    ensures PushExact(env, op, preds)
    decreases op, 0
  {
    hide Keep, Scalar, ProjectRows;
    var es := ExprsOf(op.exprs);
    AllPassInlined(env, preds, es, Cols(op.source), []);
    Exact(env, op.source, InlineAll(preds, es));
    KeepProject(env, Run(env, op.source), preds, es, Cols(op.source));
  }

  /** Parts that can only be longer make a longer whole, and an equally long one only if all are equally long. */
  lemma {:induction false} ConcatCount(a: seq<seq<Row>>, b: seq<seq<Row>>)
    requires |a| == |b| && forall i :: 0 <= i < |a| ==> |a[i]| <= |b[i]|
    ensures |Concat(a)| <= |Concat(b)|
    ensures |Concat(a)| == |Concat(b)| ==> forall i :: 0 <= i < |a| ==> |a[i]| == |b[i]|
  {
    if a != [] {
      ConcatCount(a[1..], b[1..]);
      assert forall i :: 1 <= i < |a| ==> a[i] == a[1..][i - 1] && b[i] == b[1..][i - 1];
    }
  }

  lemma ExactUnion(env: Env, op: Op, preds: seq<Expr>)
    requires op.UnionAll? && WellFormed(env, op) && AllScalar(preds, Cols(op)) && Arrives(op, preds)
    ensures PushExact(env, op, preds)
    decreases op, 0
  {
    hide Keep, Scalar, Run, AllScalar, Concat, WellFormed, Names;
    UnionParts(env, op);
    var n, sources := |op.sources|, Pushed(op, preds).sources;
    var parts := seq(n, i requires 0 <= i < n => Run(env, op.sources[i]));
    var want := seq(n, i requires 0 <= i < n => Keep(env, Run(env, op.sources[i]), preds));
    var got := seq(n, i requires 0 <= i < n => Run(env, sources[i]));
    forall i | 0 <= i < n
      ensures |want[i]| <= |got[i]| && (LosesNothing(env, op.sources[i], preds) ==> got[i] == want[i])
      ensures |got[i]| == |want[i]| ==> LosesNothing(env, op.sources[i], preds)
    {
      assert Cols(op.sources[i]) == Cols(op);
      Exact(env, op.sources[i], preds);
    }
    KeepUnion(env, parts, want, preds);
    UnionRun(env, op.sources, parts);
    UnionRun(env, sources, got);
    ConcatCount(want, got);
    if LosesNothing(env, op, preds) { assert got == want; }
  }

  lemma {:induction false} Exact(env: Env, op: Op, preds: seq<Expr>)
    requires WellFormed(env, op) && AllScalar(preds, Cols(op)) && Arrives(op, preds)
    ensures PushExact(env, op, preds)
    decreases op, 1
  {
    hide Run, Keep, WellFormed, Safe, Scalar, Names, Pushed;
    match op
    case Filter(_, _) => ExactFilter(env, op, preds);
    case Sort(_, _) => ExactSort(env, op, preds);
    case NegateFreq(_) => ExactNegate(env, op, preds);
    case Project(_, _) => ExactProject(env, op, preds);
    case UnionAll(_) => ExactUnion(env, op, preds);
    case _ => PushRun(env, op, preds);
  }

  /** A plan in which no predicate meets a filter loses nothing. */
  lemma {:induction false} SafeLosesNothing(env: Env, op: Op, preds: seq<Expr>)
    requires Safe(op, preds)
    ensures Arrives(op, preds) && LosesNothing(env, op, preds)
    decreases op
  {
    hide Run, Conjuncts;
    match op
    case Filter(cond, source) => SafeLosesNothing(env, source, Conjuncts(cond));
    case Sort(_, source) => SafeLosesNothing(env, source, preds);
    case NegateFreq(source) => SafeLosesNothing(env, source, preds);
    case Project(exprs, source) => SafeLosesNothing(env, source, InlineAll(preds, ExprsOf(exprs)));
    case UnionAll(sources) =>
      forall i | 0 <= i < |sources| ensures Arrives(sources[i], preds) && LosesNothing(env, sources[i], preds) {
        SafeLosesNothing(env, sources[i], preds);
      }
    case _ =>
  }

  /**
   * Where a filter lies below another, through any projects, sorts, negations and unions, the predicates
   * from above are lost. So the pass keeps the rows of a plan if and only if every filter would have kept
   * all its rows under the predicates it forgets.
   */
  lemma NestedFilters(env: Env, op: Op)
    requires WellFormed(env, op) && Arrives(op, [])
    ensures Run(env, Pushed(op, [])) == Run(env, op) <==> LosesNothing(env, op, [])
    ensures |Run(env, op)| <= |Run(env, Pushed(op, []))|
  {
    hide Run, Keep, WellFormed, Arrives, LosesNothing, Pushed;
    Exact(env, op, []);
    KeepNothing(env, Run(env, op));
  }

  // ----- The pass

  method Wrap(op: Op, preds: seq<Expr>) returns (r: Op)
    ensures r == Wrapped(op, preds)
  {
    if preds == [] { return op; }
    return Filter(Combine(preds), op);
  }

  /** One step down, with the predicates gathered so far. */
  method PushFromAbove(op: Op, preds: seq<Expr>) returns (r: Op)
    ensures r == Pushed(op, preds)
    decreases op, 1
  {
    hide LeftPart, RightPart, KeptPart, WrapPart, MoveAll, Conjuncts, Combine, Names, Wrapped;
    match op {
      case Filter(cond, source) => r := PushFromAbove(source, Conjuncts(cond));
      case Sort(sorts, source) =>
        var s := PushFromAbove(source, preds);
        r := Sort(sorts, s);
      case NegateFreq(source) =>
        var s := PushFromAbove(source, preds);
        r := NegateFreq(s);
      case Project(exprs, source) =>
        var inlined := if preds == [] then [] else InlineAll(preds, ExprsOf(exprs));
        assert inlined == InlineAll(preds, ExprsOf(exprs));
        var s := PushFromAbove(source, inlined);
        r := Project(exprs, s);
      case UnionAll(sources) =>
        var pushed: seq<Op> := [];
        for i := 0 to |sources|
          invariant |pushed| == i && forall j :: 0 <= j < i ==> pushed[j] == Pushed(sources[j], preds)
        {
          var s := PushFromAbove(sources[i], preds);
          pushed := pushed + [s];
        }
        r := UnionAll(pushed);
        assert pushed == Pushed(op, preds).sources;
      case Join(left, right, on, join) =>
        var leftPreds, rightPreds, keep, wrap := Split(join, preds, Conjuncts(on), Cols(left));
        var l := PushFromAbove(left, leftPreds);
        var s := PushFromAbove(right, rightPreds);
        PushedJoin(op, preds);
        r := Wrap(Join(l, s, Combine(keep), join), wrap);
      case _ =>
        OpaqueOnce(op, preds);
        r := PushSource(op);
        if preds != [] { r := Wrap(r, preds); }
    }
  }

  /** Pushing starts afresh below an operator nothing is pushed through. */
  method PushSource(op: Op) returns (r: Op)
    requires Opaque(op)
    ensures r == Pushed(op, [])
    decreases op, 0
  {
    hide Pushed;
    PushedBelow(op);
    r := op;
    if op.GroupBy? || op.Limit? || op.TableAlias? {
      var s := PushFromAbove(op.source, []);
      r := WithSource(op, s);
    }
  }

  lemma PushedBelow(op: Op)
    requires Opaque(op)
    ensures Pushed(op, []) ==
      if op.GroupBy? || op.Limit? || op.TableAlias? then WithSource(op, Pushed(op.source, [])) else op
  {
  }

  /**
   * What the pass owes a plan: its columns, and its rows, their order and frequencies: if no predicate
   * meets a filter, and where one does if and only if nothing is lost.
   */
  ghost predicate Pushes(env: Env, op: Op, r: Op) {
    && Fits(env, op, r) && Settled(r)
    && (Safe(op, []) ==> Run(env, r) == Run(env, op))
    && (Arrives(op, []) ==> (Run(env, r) == Run(env, op) <==> LosesNothing(env, op, [])))
  }

  lemma PushdownRun(env: Env, op: Op)
    requires WellFormed(env, op)
    ensures Pushes(env, op, Pushed(op, []))
  {
    hide Run, Keep, WellFormed, Safe, Arrives, LosesNothing, Pushed;
    PushRun(env, op, []);
    KeepNothing(env, Run(env, op));
    if Arrives(op, []) { NestedFilters(env, op); }
  }

  /** The whole pass, in every environment the plan is well formed in. */
  method PredicatePushdown(op: Op) returns (r: Op)
    ensures r == Pushed(op, [])
    ensures forall env: Env :: WellFormed(env, op) ==> Pushes(env, op, r)
  {
    hide WellFormed, Pushes, Pushed;
    r := PushFromAbove(op, []);
    forall env: Env | WellFormed(env, op) ensures Pushes(env, op, r) { PushdownRun(env, op); }
  }

  const FALSE: Expr := Constant(Boolean(false), BooleanType)
  const ONE: seq<Named> := [Named("x", Constant(Integer(1), IntegerType))]

  /** SELECT 1 AS x FROM (SELECT 1 AS x WHERE true) WHERE false, as the parser builds it. */
  const SUBQUERY: Op := Project(ONE, Filter(FALSE, Project(ONE, Filter(TRUE, Single))))

  lemma SubqueryFormed(env: Env)
    ensures WellFormed(env, SUBQUERY)
  {
    hide Run;
    var lower := Filter(TRUE, Single);
    var inner := Project(ONE, lower);
    var outer := Filter(FALSE, inner);
    assert ExprsOf(ONE) == [Constant(Integer(1), IntegerType)];
    assert WellFormed(env, Single);
    assert WellFormed(env, lower);
    assert WellFormed(env, inner);
    assert WellFormed(env, outer);
  }

  lemma SubqueryPushed()
    ensures Pushed(SUBQUERY, []) == Project(ONE, Project(ONE, Single))
  {
    hide Pushed;
    var lower, es := Filter(TRUE, Single), ExprsOf(ONE);
    var inner := Project(ONE, lower);
    assert InlineAll([], es) == [] && Conjuncts(TRUE) == [];
    assert NotTrue([FALSE]) == [FALSE] by { assert [FALSE][1..] == []; }
    assert Conjuncts(FALSE) == [FALSE] && InlineAll([FALSE], es) == [FALSE];
    assert Pushed(Single, []) == Single by { PushedBelow(Single); }
    PushedStep(lower, [FALSE]);
    PushedStep(inner, [FALSE]);
    PushedStep(Filter(FALSE, inner), []);
    PushedStep(SUBQUERY, []);
  }

  lemma PushedStep(op: Op, preds: seq<Expr>)
    ensures op.Filter? ==> Pushed(op, preds) == Pushed(op.source, Conjuncts(op.cond))
    ensures op.Project? ==>
      Pushed(op, preds) == Project(op.exprs, Pushed(op.source, InlineAll(preds, ExprsOf(op.exprs))))
  {
  }

  lemma OneRows(env: Env, op: Op)
    ensures |Run(env, op)| == 1 ==> Run(env, Project(ONE, op)) == [([Integer(1)], Run(env, op)[0].1)]
  {
    hide Run;
    ProjectRun(env, Project(ONE, op));
    if |Run(env, op)| == 1 {
      var t := Run(env, op)[0].0;
      assert ExprsOf(ONE) == [Constant(Integer(1), IntegerType)];
      assert EvalAll(env, ExprsOf(ONE), t) == [Integer(1)];
    }
  }

  lemma SingleRun(env: Env)
    ensures Run(env, Single) == [([], 1)]
  {
  }

  lemma NoRows(env: Env, op: Op)
    ensures Run(env, Project(ONE, Filter(FALSE, op))) == []
  {
    hide Run;
    var rows := Run(env, op);
    FilterRun(env, FALSE, op);
    forall i | 0 <= i < |rows| ensures !AllPass(env, [FALSE], rows[i].0) { AllPassOne(env, FALSE, rows[i].0); }
    KeepNone(env, rows, [FALSE]);
    ProjectRun(env, Project(ONE, Filter(FALSE, op)));
  }

  /** The outer filter of a subquery is lost: a query without rows gets one. */
  lemma UpperFilterLost(env: Env)
    ensures WellFormed(env, SUBQUERY) && Run(env, SUBQUERY) == []
    ensures Run(env, Pushed(SUBQUERY, [])) == [([Integer(1)], 1)]
  {
    hide Run, WellFormed, Pushed;
    SubqueryFormed(env);
    SubqueryPushed();
    NoRows(env, Project(ONE, Filter(TRUE, Single)));
    SingleRun(env);
    OneRows(env, Single);
    OneRows(env, Project(ONE, Single));
  }
}
