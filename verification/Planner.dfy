/** The planner's pipeline, from an optimised logical plan to executors. */
module Planner {
  import opened Exprs
  import opened Plans
  import opened PlanAlgebra
  import opened FoldConstants
  import opened Pushdown
  import opened CollapseProjects
  import opened NormalizePlans
  import opened TidyPlans
  import opened Physical
  import opened Lowering

  lemma {:induction false} FoldedLiterals(env: Env, op: Op)
    requires WellFormed(env, op) && PlanFolded(op)
    ensures Literals(op)
  {
    hide Run, Names, Folded, AllFolded, Scalar;
    if OneSource(op) {
      SourceFormed(env, op);
      SourceFolded(op, op.source);
      FoldedLiterals(env, op.source);
    } else if op.Join? {
      FoldedLiterals(env, op.left);
      FoldedLiterals(env, op.right);
    } else if op.UnionAll? {
      UnionParts(env, op);
      forall i | 0 <= i < |op.sources| ensures Literals(op.sources[i]) { FoldedLiterals(env, op.sources[i]); }
    } else if op.Values? {
      ValuesAreLiterals(env, op);
    }
  }

  // ----- The passes put together

  /** Fold, push down, fold again, collapse. */
  function Optimized(scalar: Scalars, op: Op): (r: Op) {
    Merged(FoldOp(scalar, Pushed(FoldOp(scalar, op), [])))
  }

  /** Normalise the joins and clean up the projects that leaves behind. */
  function Transformed(op: Op): (r: Op) {
    Merged(Normal(op))
  }

  /** The executors of a query. */
  function Planned(scalar: Scalars, op: Op): (p: Exec)
    requires Literals(Transformed(Optimized(scalar, op)))
  {
    LowerTo(Transformed(Optimized(scalar, op)))
  }

  /** The rows are those of the query unless, in the folded query, a predicate runs into a filter below it
      and is missed there. */
  lemma OptimizedRun(env: Env, op: Op)
    requires WellFormed(env, op)
    ensures
      var folded, r := FoldOp(env.scalar, op), Optimized(env.scalar, op);
      && Fits(env, op, r) && Collapsed(r) && Literals(r)
      && (Safe(folded, []) ==> Run(env, r) == Run(env, op))
      && (Arrives(folded, []) ==> (Run(env, r) == Run(env, op) <==> LosesNothing(env, folded, [])))
  {
    hide Run, Names, WellFormed, PlanFolded, Collapsed, Literals, Safe, Settled, Ready, FoldOp, Pushed, Merged, Keep;
    hide Arrives, LosesNothing;
    var a := FoldOp(env.scalar, op);
    FoldRun(env, op);
    PushdownRun(env, a);
    FoldRun(env, Pushed(a, []));
    FoldedLiterals(env, FoldOp(env.scalar, Pushed(a, [])));
    CollapseRun(env, FoldOp(env.scalar, Pushed(a, [])));
  }

  lemma TransformedRun(env: Env, op: Op)
    requires WellFormed(env, op)
    ensures
      var r := Transformed(op);
      && Fits(env, op, r) && Collapsed(r) && !r.Join?
      && Run(env, r) == Run(env, ShiftResiduals(op)) && (Aligned(op) ==> Run(env, r) == Run(env, op))
      && (Clear(op) ==> Ready(env, r)) && (Literals(op) ==> Literals(r))
  {
    hide Run, Names, WellFormed, Collapsed, Literals, Ready, Clear, Aligned, ShiftResiduals, Normal, Merged;
    NormalRun(env, op);
    CollapseRun(env, Normal(op));
    if Aligned(op) { AlignedRun(env, op); }
  }

  /**
   * A query, planned for a point in time, returns its own rows in order and with their frequencies, when no
   * predicate meets a filter on the way down, no residual conjunct reads a column the keys displace, and
   * hashing agrees with every join. Where a predicate does meet a filter, if and only if none is missed.
   */
  lemma PlanRuns(env: Env, op: Op)
    requires WellFormed(env, op)
    ensures
      var folded, optimized := FoldOp(env.scalar, op), Optimized(env.scalar, op);
      var transformed := Transformed(optimized);
      && Literals(transformed) && ColumnCount(Planned(env.scalar, op)) == Cols(op)
      && (Clear(optimized) ==> Ready(env, transformed))
      && (Safe(folded, []) && Aligned(optimized) && Ready(env, transformed) ==>
            Execute(env, Planned(env.scalar, op)) == Run(env, op))
      && (Arrives(folded, []) && Aligned(optimized) && Ready(env, transformed) ==>
            (Execute(env, Planned(env.scalar, op)) == Run(env, op) <==> LosesNothing(env, folded, [])))
  {
    hide Run, Names, WellFormed, Collapsed, Literals, Ready, Clear, Aligned, ShiftResiduals, Execute, ColumnCount;
    hide Safe, Arrives, LosesNothing, FoldOp, Optimized, Transformed, LowerTo;
    OptimizedRun(env, op);
    TransformedRun(env, Optimized(env.scalar, op));
    LowerRun(env, Transformed(Optimized(env.scalar, op)));
  }

  // ----- Conditions on the query alone

  /** A tidy query: what the optimised plan makes of its joins is normalised and lowered correctly. */
  lemma TidyPlan(env: Env, op: Op)
    requires WellFormed(env, op) && Tidy(FoldOp(env.scalar, op), [])
    ensures Aligned(Optimized(env.scalar, op)) && Clear(Optimized(env.scalar, op))
  {
    hide Run, Names, WellFormed, Collapsed, Literals, Aligned, Clear, Plain, Tidy, FoldOp, Pushed, Merged, PushKeeps;
    var a := FoldOp(env.scalar, op);
    FoldRun(env, op);
    PushRun(env, a, []);
    PushPlain(a, []);
    FoldRun(env, Pushed(a, []));
    FoldPlain(env.scalar, Pushed(a, []));
    CollapseRun(env, FoldOp(env.scalar, Pushed(a, [])));
    MergePlain(FoldOp(env.scalar, Pushed(a, [])));
    PlainPlan(env, Optimized(env.scalar, op));
  }

  /**
   * The executors planned for a tidy query return its rows, in order and with their frequencies, whatever
   * the tables hold and in whatever order groups are drained: always if no predicate meets a filter below
   * it, and where one does if and only if none is missed.
   */
  lemma TidyPlanRuns(env: Env, op: Op)
    requires WellFormed(env, op) && Tidy(FoldOp(env.scalar, op), [])
    ensures Literals(Transformed(Optimized(env.scalar, op)))
    ensures Safe(FoldOp(env.scalar, op), []) ==> Execute(env, Planned(env.scalar, op)) == Run(env, op)
    ensures Arrives(FoldOp(env.scalar, op), []) ==>
      (Execute(env, Planned(env.scalar, op)) == Run(env, op) <==> LosesNothing(env, FoldOp(env.scalar, op), []))
  {
    hide Run, Execute, WellFormed, Literals, Aligned, Clear, Ready, Tidy, FoldOp, Optimized, Transformed, LowerTo, Safe;
    hide Arrives, LosesNothing, ColumnCount, Names;
    TidyPlan(env, op);
    PlanRuns(env, op);
  }

  /**
   * For a query that is folded already the conditions are on the query itself: joins on equalities only,
   * if any, no filter above a join, and none above another.
   */
  lemma EquiPlanRuns(env: Env, op: Op)
    requires WellFormed(env, op) && PlanFolded(op) && EquiJoins(op) && Safe(op, [])
    ensures Literals(Transformed(Optimized(env.scalar, op)))
    ensures Execute(env, Planned(env.scalar, op)) == Run(env, op)
  {
    hide Run, Execute, WellFormed, Literals, Tidy, FoldOp, Optimized, Transformed, LowerTo, Safe, PlanFolded, EquiJoins;
    hide Arrives, LosesNothing, Names;
    FoldRun(env, op);
    EquiTidy(op);
    TidyPlanRuns(env, op);
  }

  lemma JoinlessPlanRuns(env: Env, op: Op)
    requires WellFormed(env, op) && PlanFolded(op) && NoJoins(op) && Safe(op, [])
    ensures Literals(Transformed(Optimized(env.scalar, op)))
    ensures Execute(env, Planned(env.scalar, op)) == Run(env, op)
  {
    hide Run, Execute, WellFormed, Literals, FoldOp, Optimized, Transformed, LowerTo, Safe, PlanFolded, EquiJoins;
    hide NoJoins;
    NoJoinsEqui(op);
    EquiPlanRuns(env, op);
  }

  // ----- The pipeline

  method Optimize(scalar: Scalars, op: Op) returns (r: Op)
    ensures r == Optimized(scalar, op)
  {
    hide WellFormed, Pushes, FoldOp, Pushed, Merged;
    var a := FoldPlan(scalar, op);
    var b := PredicatePushdown(a);
    var c := FoldPlan(scalar, b);
    r := Collapse(c);
  }

  method CommonTransforms(op: Op) returns (r: Op)
    ensures r == Transformed(op)
  {
    hide Normal, Merged;
    var a := Normalize(op);
    r := Collapse(a);
  }

  /**
   * Plans a query that is well formed in some environment. The plan depends on the scalar functions only,
   * and is right in every environment that has them.
   */
  method PlanForPointInTime(scalar: Scalars, ghost env: Env, op: Op) returns (p: Exec)
    requires env.scalar == scalar && WellFormed(env, op)
    ensures Literals(Transformed(Optimized(scalar, op))) && p == Planned(scalar, op)
    ensures Tidy(FoldOp(scalar, op), []) && Safe(FoldOp(scalar, op), []) ==>
      forall e: Env :: e.scalar == scalar && WellFormed(e, op) ==> Execute(e, p) == Run(e, op)
  {
    hide Run, Execute, WellFormed, Literals, Tidy, FoldOp, Optimized, Transformed, LowerTo, Safe, Names, ColumnCount;
    hide Arrives, LosesNothing, Aligned, Clear, Ready;
    PlanRuns(env, op);
    var a := Optimize(scalar, op);
    var b := CommonTransforms(a);
    p := Lower(b);
    if Tidy(FoldOp(scalar, op), []) && Safe(FoldOp(scalar, op), []) {
      forall e: Env | e.scalar == scalar && WellFormed(e, op) ensures Execute(e, p) == Run(e, op) {
        TidyPlanRuns(e, op);
      }
    }
  }
}
