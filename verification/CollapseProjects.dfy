/** Project collapsing: a project on a project becomes one project of inlined expressions. */
module CollapseProjects {
  import opened Rows
  import opened Exprs
  import opened Plans
  import opened PlanAlgebra
  import opened Physical
  import opened Lowering

  /** No project sits directly on another. */
  predicate Collapsed(op: Op) {
    match op
    case Project(_, source) => !source.Project? && Collapsed(source)
    case GroupBy(_, _, _, source) => Collapsed(source)
    case Filter(_, source) => Collapsed(source)
    case Join(left, right, _, _) => Collapsed(left) && Collapsed(right)
    case Sort(_, source) => Collapsed(source)
    case Limit(_, _, source) => Collapsed(source)
    case TableAlias(_, source) => Collapsed(source)
    case UnionAll(sources) => forall i :: 0 <= i < |sources| ==> Collapsed(sources[i])
    case NegateFreq(source) => Collapsed(source)
    case _ => true
  }

  lemma InlineTwice(env: Env, outer: seq<Expr>, inner: seq<Expr>, n: nat, t: Tuple)
    requires AllScalar(outer, |inner|) && AllScalar(inner, n)
    ensures EvalAll(env, InlineAll(outer, inner), t) == EvalAll(env, outer, EvalAll(env, inner, t))
    ensures AllScalar(InlineAll(outer, inner), n)
  {
    hide Scalar, Eval;
    forall i | 0 <= i < |outer|
      ensures Eval(env, InlineAll(outer, inner)[i], t) == Eval(env, outer[i], EvalAll(env, inner, t))
      ensures Scalar(InlineAll(outer, inner)[i], n)
    {
      assert Scalar(outer[i], |inner|);
      EvalInline(env, outer[i], inner, n, t);
    }
  }

  /** Two projects in a row are the project of the inlined expressions. */
  lemma ProjectTwice(env: Env, outer: seq<Expr>, inner: seq<Expr>, n: nat, rows: seq<Row>)
    requires AllScalar(outer, |inner|) && AllScalar(inner, n)
    ensures ProjectRows(env, outer, ProjectRows(env, inner, rows)) == ProjectRows(env, InlineAll(outer, inner), rows)
  {
    hide AllScalar, InlineAll, EvalAll;
    var twice, once := ProjectRows(env, outer, ProjectRows(env, inner, rows)),
      ProjectRows(env, InlineAll(outer, inner), rows);
    forall i | 0 <= i < |rows| ensures twice[i] == once[i] {
      InlineTwice(env, outer, inner, n, rows[i].0);
    }
  }

  /** A join stays a join of as many columns under the same condition. */
  ghost predicate SameJoin(a: Op, b: Op) {
    && (a.Join? <==> b.Join?)
    && (a.Join? ==> a.on == b.on && Cols(a.left) == Cols(b.left))
  }

  /** What is ready to be lowered stays so. */
  ghost predicate StaysReady(env: Env, a: Op, b: Op) {
    SameJoin(a, b) && (Ready(env, a) ==> Ready(env, b)) && (Literals(a) ==> Literals(b))
  }

  lemma {:induction false} InlineAvoids(e: Expr, source: seq<Expr>, lo: nat, hi: nat)
    requires Scalar(e, |source|) && AllAvoid(source, lo, hi)
    ensures Avoids(Inline(e, source), lo, hi)
  {
    if e.Call? {
      forall i | 0 <= i < |e.args| ensures Avoids(Inline(e.args[i], source), lo, hi) {
        InlineAvoids(e.args[i], source, lo, hi);
      }
    }
  }

  lemma InlineAllAvoid(es: seq<Expr>, source: seq<Expr>, lo: nat, hi: nat)
    requires AllScalar(es, |source|) && AllAvoid(source, lo, hi)
    ensures AllAvoid(InlineAll(es, source), lo, hi)
  {
    hide Scalar, Inline, Avoids;
    forall i | 0 <= i < |es| ensures Avoids(InlineAll(es, source)[i], lo, hi) {
      assert Scalar(es[i], |source|);
      InlineAvoids(es[i], source, lo, hi);
    }
  }

  lemma SourceStaysReady(env: Env, op: Op, s: Op)
    requires OneSource(op) && StaysReady(env, op.source, s)
    ensures StaysReady(env, op, WithSource(op, s))
  {
    hide AllAvoid, HashLen, HashAgrees, Names;
    SourceShape(op, s);
  }

  lemma SourceShape(op: Op, s: Op)
    requires OneSource(op)
    ensures var r := WithSource(op, s);
      && OneSource(r) && r.source == s && (r.Project? <==> op.Project?) && (r.Project? ==> r.exprs == op.exprs)
      && !r.Join? && !op.Join?
  {
  }

  lemma SidesStayReady(env: Env, op: Op, left: Op, right: Op)
    requires op.Join? && StaysReady(env, op.left, left) && StaysReady(env, op.right, right)
    requires Names(left) == Names(op.left) && Names(right) == Names(op.right)
    ensures StaysReady(env, op, Join(left, right, op.on, op.joinType))
  {
    hide AllAvoid, HashLen, HashAgrees, Names;
  }

  lemma MergedReady(env: Env, op: Op, exprs: seq<Named>)
    requires op.Project? && op.source.Project? && AllScalar(ExprsOf(op.exprs), |op.source.exprs|)
    requires ExprsOf(exprs) == InlineAll(ExprsOf(op.exprs), ExprsOf(op.source.exprs))
    ensures StaysReady(env, op, Project(exprs, op.source.source))
  {
    hide AllAvoid, HashLen, HashAgrees, Names, InlineAll, AllScalar;
    var inner, below := op.source, op.source.source;
    assert Literals(op) == Literals(inner) == Literals(below);
    if Ready(env, op) {
      assert Ready(env, inner);
      if below.Join? {
        InlineAllAvoid(ExprsOf(op.exprs), ExprsOf(inner.exprs), Cols(below.left), Cols(below.left) + HashLen(below.on));
      }
    }
  }

  /** Named expressions with a source's expressions in place of the columns they read. */
  function InlineNamed(ns: seq<Named>, source: seq<Expr>): (r: seq<Named>)
    ensures ExprsOf(r) == InlineAll(ExprsOf(ns), source) && AliasesOf(r) == AliasesOf(ns)
  {
    seq(|ns|, i requires 0 <= i < |ns| => Named(ns[i].alias, Inline(ns[i].expr, source)))
  }

  /** A project on a project becomes one. */
  function MergeNode(op: Op): (r: Op) {
    if op.Project? && op.source.Project? then
      Project(InlineNamed(op.exprs, ExprsOf(op.source.exprs)), op.source.source)
    else op
  }

  /** The plan with stacked projects merged, children first. */
  function Merged(op: Op): (r: Op) {
    if OneSource(op) then MergeNode(WithSource(op, Merged(op.source)))
    else match op
      case Join(left, right, on, join) => Join(Merged(left), Merged(right), on, join)
      case UnionAll(sources) => UnionAll(seq(|sources|, i requires 0 <= i < |sources| => Merged(sources[i])))
      case _ => op
  }

  /** Rows and columns stay, and what is ready for lowering stays so. */
  ghost predicate Collapses(env: Env, op: Op, r: Op) {
    Same(env, op, r) && Collapsed(r) && (Collapsed(op) ==> r == op) && StaysReady(env, op, r)
  }

  lemma MergeRun(env: Env, op: Op)
    requires op.Project? && WellFormed(env, op) && Collapsed(op.source)
    ensures Collapses(env, op, MergeNode(op))
  {
    hide AllScalar, InlineAll, ProjectRows, StaysReady;
    ReadyItself(env, op);
    if op.source.Project? {
      assert WellFormed(env, op.source);
      assert Run(env, op.source) == ProjectRows(env, ExprsOf(op.source.exprs), Run(env, op.source.source));
      var outer, inner, source := op.exprs, ExprsOf(op.source.exprs), op.source.source;
      InlineTwice(env, ExprsOf(outer), inner, Cols(source), []);
      ProjectTwice(env, ExprsOf(outer), inner, Cols(source), Run(env, source));
      MergedReady(env, op, InlineNamed(outer, inner));
    }
  }

  lemma ReadyItself(env: Env, op: Op)
    ensures StaysReady(env, op, op)
  {
  }

  lemma ReadyTwice(env: Env, a: Op, b: Op, c: Op)
    requires StaysReady(env, a, b) && StaysReady(env, b, c)
    ensures StaysReady(env, a, c)
  {
    hide Ready, Literals;
  }

  lemma UnionStaysReady(env: Env, op: Op, sources: seq<Op>)
    requires op.UnionAll? && |sources| == |op.sources| && forall i :: 0 <= i < |sources| ==>
      StaysReady(env, op.sources[i], sources[i])
    ensures StaysReady(env, op, UnionAll(sources))
  {
    hide HashLen, HashAgrees, Names;
  }

  lemma {:induction false} CollapseUnion(env: Env, op: Op)
    requires op.UnionAll? && WellFormed(env, op)
    ensures Collapses(env, op, Merged(op))
    decreases op, 0
  {
    hide Run, WellFormed, Names, StaysReady;
    UnionParts(env, op);
    var sources := Merged(op).sources;
    forall i | 0 <= i < |op.sources| ensures Collapses(env, op.sources[i], sources[i]) {
      CollapseRun(env, op.sources[i]);
    }
    ReplaceSources(env, op, sources);
    UnionStaysReady(env, op, sources);
    if Collapsed(op) { assert sources == op.sources; }
  }

  lemma SourceCollapsed(op: Op, s: Op)
    requires OneSource(op)
    ensures Collapsed(op) ==> Collapsed(op.source)
    ensures Collapsed(op) && s == op.source ==> WithSource(op, s) == op
    ensures WithSource(op, s).Project? <==> op.Project?
    ensures Collapsed(s) && !op.Project? ==> Collapsed(WithSource(op, s))
    ensures OneSource(WithSource(op, s)) && WithSource(op, s).source == s
  {
  }

  /** Rows and columns of a plan stay, and no stacked projects are left. */
  lemma {:induction false} CollapseRun(env: Env, op: Op)
    requires WellFormed(env, op)
    ensures Collapses(env, op, Merged(op))
    decreases op, 1
  {
    hide Run, Names, StaysReady, WellFormed;
    ReadyItself(env, op);
    if OneSource(op) {
      var s := Merged(op.source);
      SourceFormed(env, op);
      CollapseRun(env, op.source);
      ReplaceSource(env, op, s);
      SourceCollapsed(op, s);
      SourceStaysReady(env, op, s);
      if op.Project? {
        MergeRun(env, WithSource(op, s));
        ReadyTwice(env, op, WithSource(op, s), Merged(op));
      }
    } else if op.Join? {
      SidesFormed(env, op);
      CollapseRun(env, op.left);
      CollapseRun(env, op.right);
      JoinSame(env, op, Merged(op.left), Merged(op.right));
      SidesStayReady(env, op, Merged(op.left), Merged(op.right));
    } else if op.UnionAll? {
      CollapseUnion(env, op);
    }
  }

  /** Collapses a whole plan, children first. */
  method Collapse(op: Op) returns (r: Op)
    ensures r == Merged(op)
  {
    if OneSource(op) {
      var s := Collapse(op.source);
      r := WithSource(op, s);
      if r.Project? && r.source.Project? {
        r := Project(InlineNamed(r.exprs, ExprsOf(r.source.exprs)), r.source.source);
      }
    } else if op.Join? {
      var left := Collapse(op.left);
      var right := Collapse(op.right);
      r := Join(left, right, op.on, op.joinType);
    } else if op.UnionAll? {
      var sources: seq<Op> := [];
      for i := 0 to |op.sources|
        invariant |sources| == i && forall j :: 0 <= j < i ==> sources[j] == Merged(op.sources[j])
      {
        var s := Collapse(op.sources[i]);
        sources := sources + [s];
      }
      r := UnionAll(sources);
      assert sources == Merged(op).sources;
    } else {
      r := op;
    }
  }
}
