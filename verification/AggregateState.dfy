/** Aggregate expressions over one flat array of state: every leaf has its own slice, found by running offsets. */
module AggregateState {
  import opened Datums
  import opened Rows
  import opened Exprs
  import FoldConstants

  /** Aggregate functions keep to the number of datums they asked for. */
  ghost predicate Sized(env: Env) {
    && (forall sig :: |env.initial(sig)| == env.stateSize(sig))
    && (forall sig, args, freq, s :: StepSized(env, sig, args, freq, s))
  }

  /** The count aggregate: adds the frequency, unless its argument is null. */
  function CountStep(sig: Signature, args: Tuple, freq: int, state: Tuple): (r: Tuple)
    ensures |r| == 1
  {
    if |state| != 1 || !state[0].BigInt? then [Null]
    else if args == [] || !args[0].Null? then [BigInt(state[0].i + freq)]
    else state
  }

  lemma SizedSome(env: Env)
    ensures Sized(env.(stateSize := _ => 1, initial := _ => [BigInt(0)], step := CountStep))
  {
  }

  ghost predicate StepSized(env: Env, sig: Signature, args: Tuple, freq: int, s: Tuple) {
    |s| == env.stateSize(sig) ==> |env.step(sig, args, freq, s)| == env.stateSize(sig)
  }

  function StateLen(env: Env, e: Expr): (r: nat) {
    match e
    case Constant(_, _) => 0
    case Call(_, args) => StateLens(env, args)
    case Aggregate(sig, _) => env.stateSize(sig)
    case Column(_, _) => 1
  }

  function StateLens(env: Env, es: seq<Expr>): (r: nat) {
    if es == [] then 0 else StateLens(env, es[..|es| - 1]) + StateLen(env, es[|es| - 1])
  }

  /** The states of the leaves after the rows, laid end to end. */
  ghost function Flat(env: Env, e: Expr, rows: seq<Row>): (r: Tuple) {
    match e
    case Constant(_, _) => []
    case Call(_, args) => FlatAll(env, args, rows)
    case Aggregate(sig, args) => Accumulate(env, sig, args, rows)
    case Column(offset, _) => [FirstValue(offset, rows)]
  }

  ghost function FlatAll(env: Env, es: seq<Expr>, rows: seq<Row>): (r: Tuple) {
    if es == [] then [] else FlatAll(env, es[..|es| - 1], rows) + Flat(env, es[|es| - 1], rows)
  }

  lemma {:induction false} AccumulateLen(env: Env, sig: Signature, args: seq<Expr>, rows: seq<Row>)
    requires Sized(env)
    ensures |Accumulate(env, sig, args, rows)| == env.stateSize(sig)
  {
    hide EvalAll;
    if rows != [] {
      var n := |rows| - 1;
      AccumulateLen(env, sig, args, rows[..n]);
      var s := Accumulate(env, sig, args, rows[..n]);
      assert StepSized(env, sig, EvalAll(env, args, rows[n].0), rows[n].1, s);
    }
  }

  lemma {:induction false} FlatLen(env: Env, e: Expr, rows: seq<Row>)
    requires Sized(env)
    ensures |Flat(env, e, rows)| == StateLen(env, e)
    decreases e
  {
    hide Sized;
    match e
    case Call(_, args) => FlatAllLen(env, args, rows);
    case Aggregate(sig, args) => AccumulateLen(env, sig, args, rows);
    case _ =>
  }

  lemma {:induction false} FlatAllLen(env: Env, es: seq<Expr>, rows: seq<Row>)
    requires Sized(env)
    ensures |FlatAll(env, es, rows)| == StateLens(env, es)
    decreases es
  {
    hide Sized;
    if es != [] {
      FlatAllLen(env, es[..|es| - 1], rows);
      FlatLen(env, es[|es| - 1], rows);
    }
  }

  lemma {:induction false} FlatConcat(env: Env, a: seq<Expr>, b: seq<Expr>, rows: seq<Row>)
    ensures FlatAll(env, a + b, rows) == FlatAll(env, a, rows) + FlatAll(env, b, rows)
    ensures StateLens(env, a + b) == StateLens(env, a) + StateLens(env, b)
    decreases |b|
  {
    hide Flat, StateLen;
    if b == [] {
      assert a + b == a;
    } else {
      var m := |b| - 1;
      FlatConcat(env, a, b[..m], rows);
      assert (a + b)[..|a + b| - 1] == a + b[..m] && (a + b)[|a + b| - 1] == b[m];
    }
  }

  lemma FlatNext(env: Env, es: seq<Expr>, i: nat, rows: seq<Row>)
    requires i < |es|
    ensures FlatAll(env, es[..i + 1], rows) == FlatAll(env, es[..i], rows) + Flat(env, es[i], rows)
    ensures StateLens(env, es[..i + 1]) == StateLens(env, es[..i]) + StateLen(env, es[i])
  {
    hide Flat, StateLen;
    FlatOne(env, es[i], rows);
    FlatConcat(env, es[..i], [es[i]], rows);
    assert es[..i] + [es[i]] == es[..i + 1];
  }

  lemma FlatRest(env: Env, es: seq<Expr>, i: nat, rows: seq<Row>)
    requires i < |es|
    ensures FlatAll(env, es[i..], rows) == Flat(env, es[i], rows) + FlatAll(env, es[i + 1..], rows)
    ensures StateLens(env, es[i..]) == StateLen(env, es[i]) + StateLens(env, es[i + 1..])
  {
    hide Flat, StateLen;
    FlatOne(env, es[i], rows);
    FlatConcat(env, [es[i]], es[i + 1..], rows);
    assert [es[i]] + es[i + 1..] == es[i..];
  }

  lemma FlatSplit(env: Env, es: seq<Expr>, i: nat, rows: seq<Row>)
    requires i <= |es|
    ensures FlatAll(env, es, rows) == FlatAll(env, es[..i], rows) + FlatAll(env, es[i..], rows)
    ensures StateLens(env, es) == StateLens(env, es[..i]) + StateLens(env, es[i..])
  {
    FlatConcat(env, es[..i], es[i..], rows);
    assert es[..i] + es[i..] == es;
  }

  lemma FlatOne(env: Env, e: Expr, rows: seq<Row>)
    ensures FlatAll(env, [e], rows) == Flat(env, e, rows) && StateLens(env, [e]) == StateLen(env, e)
  {
    assert [e][..0] == [];
    assert [] + Flat(env, e, rows) == Flat(env, e, rows);
  }

  // ----- Writing one slice

  /** `s` with the slice at `at` replaced by `x`. */
  function Spliced(s: Tuple, at: nat, x: Tuple): (r: Tuple)
    requires at + |x| <= |s|
    ensures |r| == |s|
  {
    s[..at] + x + s[at + |x|..]
  }

  lemma SpliceNext(s: Tuple, at: nat, x: Tuple, y: Tuple)
    requires at + |x| + |y| <= |s|
    ensures Spliced(Spliced(s, at, x), at + |x|, y) == Spliced(s, at, x + y)
  {
  }

  method WriteSlice(state: array<Datum>, at: nat, x: Tuple)
    requires at + |x| <= state.Length
    modifies state
    ensures state[..] == Spliced(old(state[..]), at, x)
  {
    for i := 0 to |x|
      invariant forall j :: 0 <= j < state.Length ==> state[j] == if at <= j < at + i then x[j - at] else old(state[j])
    {
      state[at + i] := x[i];
    }
  }

  // ----- reset

  /** Resetting writes the initial states into the expression's slice and touches nothing else. */
  method Reset(env: Env, e: Expr, state: array<Datum>, at: nat)
    requires Sized(env) && at + StateLen(env, e) <= state.Length
    modifies state
    ensures |Flat(env, e, [])| == StateLen(env, e)
    ensures state[..] == Spliced(old(state[..]), at, Flat(env, e, []))
    decreases e
  {
    hide Sized;
    FlatLen(env, e, []);
    match e {
      case Call(_, args) => ResetAll(env, args, state, at);
      case Aggregate(sig, _) => WriteSlice(state, at, env.initial(sig));
      case Constant(_, _) => assert Spliced(state[..], at, []) == state[..];
      case Column(_, _) => state[at] := Null;
    }
  }

  method ResetAll(env: Env, es: seq<Expr>, state: array<Datum>, at: nat)
    requires Sized(env) && at + StateLens(env, es) <= state.Length
    modifies state
    ensures |FlatAll(env, es, [])| == StateLens(env, es)
    ensures state[..] == Spliced(old(state[..]), at, FlatAll(env, es, []))
    decreases es
  {
    hide Sized, Flat, StateLen, FlatAll, StateLens;
    FlatAllLen(env, es, []);
    FlatNone(env, []);
    ghost var before := state[..];
    var offset := 0;
    assert Spliced(before, at, []) == before;
    assert es[..0] == [];
    for i := 0 to |es|
      invariant offset == StateLens(env, es[..i]) == |FlatAll(env, es[..i], [])|
      invariant at + offset <= state.Length && state[..] == Spliced(before, at, FlatAll(env, es[..i], []))
    {
      FlatNext(env, es, i, []);
      FlatSplit(env, es, i + 1, []);
      FlatLen(env, es[i], []);
      SpliceNext(before, at, FlatAll(env, es[..i], []), Flat(env, es[i], []));
      Reset(env, es[i], state, at + offset);
      offset := offset + StateLen(env, es[i]);
    }
    assert es[..|es|] == es;
  }

  lemma FlatNone(env: Env, rows: seq<Row>)
    ensures FlatAll(env, [], rows) == [] && StateLens(env, []) == 0
  {
  }

  // ----- apply

  lemma PrefixSteps(rows: seq<Row>, row: Row)
    ensures (rows + [row])[..|rows|] == rows && (rows + [row])[|rows|] == row && |rows + [row]| == |rows| + 1
  {
  }

  /** Applying a row turns the slice after some rows into the slice after one more. */
  method ApplyRow(env: Env, e: Expr, row: Row, state: array<Datum>, at: nat, ghost rows: seq<Row>)
    requires Sized(env) && at + StateLen(env, e) <= state.Length
    requires state[at..at + StateLen(env, e)] == Flat(env, e, rows)
    modifies state
    ensures |Flat(env, e, rows + [row])| == StateLen(env, e)
    ensures state[..] == Spliced(old(state[..]), at, Flat(env, e, rows + [row]))
    decreases e
  {
    hide Sized;
    FlatLen(env, e, rows + [row]);
    PrefixSteps(rows, row);
    match e {
      case Call(_, args) => ApplyAll(env, args, row, state, at, rows);
      case Aggregate(sig, args) =>
        var inputs := EvalAll(env, args, row.0);
        var next := env.step(sig, inputs, row.1, state[at..at + env.stateSize(sig)]);
        assert next == Accumulate(env, sig, args, rows + [row]);
        WriteSlice(state, at, next);
      case Constant(_, _) => assert Spliced(state[..], at, []) == state[..];
      case Column(offset, _) =>
        assert state[at] == FirstValue(offset, rows);
        if state[at].Null? && offset < |row.0| { state[at] := row.0[offset]; }
        assert state[at] == FirstValue(offset, rows + [row]);
    }
  }

  lemma SliceOf(s: Tuple, at: nat, a: Tuple, b: Tuple, c: Tuple)
    requires at + |a| + |b| + |c| <= |s| && s[at..at + |a| + |b| + |c|] == a + (b + c)
    ensures s[at + |a|..at + |a| + |b|] == b
  {
    var whole := s[at..at + |a| + |b| + |c|];
    forall i | 0 <= i < |b| ensures s[at + |a|..at + |a| + |b|][i] == b[i] {
      assert whole[|a| + i] == s[at + (|a| + i)] && (a + (b + c))[|a| + i] == b[i];
    }
  }

  lemma SpliceStep(s: Tuple, at: nat, a: Tuple, b: Tuple, b': Tuple, c: Tuple)
    requires |b'| == |b| && at + |a| + |b| + |c| <= |s|
    ensures Spliced(Spliced(s, at, a + (b + c)), at + |a|, b') == Spliced(s, at, (a + b') + c)
    ensures Spliced(s, at, a + (b + c))[at + |a|..at + |a| + |b|] == b
  {
    assert forall i :: 0 <= i < |b| ==> Spliced(s, at, a + (b + c))[at + |a| + i] == b[i];
  }

  method ApplyAll(env: Env, es: seq<Expr>, row: Row, state: array<Datum>, at: nat, ghost rows: seq<Row>)
    requires Sized(env) && at + StateLens(env, es) <= state.Length
    requires state[at..at + StateLens(env, es)] == FlatAll(env, es, rows)
    modifies state
    ensures |FlatAll(env, es, rows + [row])| == StateLens(env, es)
    ensures state[..] == Spliced(old(state[..]), at, FlatAll(env, es, rows + [row]))
    decreases es
  {
    hide Sized, Flat, StateLen, FlatAll, StateLens, Spliced;
    FlatAllLen(env, es, rows);
    FlatAllLen(env, es, rows + [row]);
    FlatNone(env, rows);
    FlatNone(env, rows + [row]);
    ghost var before := state[..];
    ghost var more := rows + [row];
    var offset := 0;
    assert es[..0] == [] && es[0..] == es;
    SpliceSame(before, at, FlatAll(env, es, rows));
    for i := 0 to |es|
      invariant offset == StateLens(env, es[..i]) == |FlatAll(env, es[..i], more)|
      invariant offset + |FlatAll(env, es[i..], rows)| == StateLens(env, es)
      invariant at + StateLens(env, es) <= state.Length
      invariant state[..] == Spliced(before, at, FlatAll(env, es[..i], more) + FlatAll(env, es[i..], rows))
    {
      FlatRest(env, es, i, rows);
      FlatNext(env, es, i, more);
      FlatLen(env, es[i], rows);
      FlatLen(env, es[i], more);
      SpliceStep(before, at, FlatAll(env, es[..i], more), Flat(env, es[i], rows), Flat(env, es[i], more),
                 FlatAll(env, es[i + 1..], rows));
      assert state[at + offset..at + offset + StateLen(env, es[i])] ==
        state[..][at + offset..at + offset + StateLen(env, es[i])];
      ApplyRow(env, es[i], row, state, at + offset, rows);
      offset := offset + StateLen(env, es[i]);
    }
    assert es[..|es|] == es && es[|es|..] == [];
    assert FlatAll(env, es, more) + [] == FlatAll(env, es, more);
  }

  lemma SpliceSame(s: Tuple, at: nat, x: Tuple)
    requires at + |x| <= |s| && s[at..at + |x|] == x
    ensures Spliced(s, at, [] + x) == s
  {
    assert forall i :: 0 <= i < |x| ==> s[at + i] == x[i];
  }

  // ----- finalize

  /** The flat state finalizes to what each leaf's own state would. */
  method Finalize(env: Env, e: Expr, state: array<Datum>, at: nat, ghost rows: seq<Row>) returns (r: Datum)
    requires Sized(env) && at + StateLen(env, e) <= state.Length
    requires state[at..at + StateLen(env, e)] == Flat(env, e, rows)
    ensures r == EvalGroup(env, e, rows)
    decreases e
  {
    hide Sized;
    match e {
      case Constant(value, _) => r := value;
      case Call(sig, args) =>
        var buffer := FinalizeAll(env, args, state, at, rows);
        FoldConstants.EvalGroupCall(env, sig, args, rows);
        r := Apply(env, sig, buffer);
      case Aggregate(sig, _) => r := env.finish(sig, state[at..at + env.stateSize(sig)]);
      case Column(_, _) => r := state[at];
    }
  }

  method FinalizeAll(env: Env, es: seq<Expr>, state: array<Datum>, at: nat, ghost rows: seq<Row>)
    returns (target: Tuple)
    requires Sized(env) && at + StateLens(env, es) <= state.Length
    requires state[at..at + StateLens(env, es)] == FlatAll(env, es, rows)
    ensures target == EvalGroupAll(env, es, rows)
    decreases es
  {
    hide Sized, Flat, StateLen, FlatAll, StateLens, EvalGroup;
    FlatNone(env, rows);
    FlatAllLen(env, es, rows);
    target := [];
    var offset := 0;
    assert es[..0] == [];
    for i := 0 to |es|
      invariant offset == StateLens(env, es[..i])
      invariant |target| == i && forall j :: 0 <= j < i ==> target[j] == EvalGroup(env, es[j], rows)
    {
      FlatSplit(env, es, i, rows);
      FlatRest(env, es, i, rows);
      FlatNext(env, es, i, rows);
      FlatAllLen(env, es[..i], rows);
      FlatLen(env, es[i], rows);
      FlatAllLen(env, es[i + 1..], rows);
      SliceOf(state[..], at, FlatAll(env, es[..i], rows), Flat(env, es[i], rows), FlatAll(env, es[i + 1..], rows));
      var d := Finalize(env, es[i], state, at + offset, rows);
      target := target + [d];
      offset := offset + StateLen(env, es[i]);
    }
  }

  /** Reset, apply every row, finalize: grouping without keys. */
  method AggregateRows(env: Env, es: seq<Expr>, rows: seq<Row>) returns (target: Tuple)
    requires Sized(env)
    ensures target == EvalGroupAll(env, es, rows)
  {
    hide *;
    var n := StateLens(env, es);
    var state := new Datum[n](_ => Null);
    ResetAll(env, es, state, 0);
    SplicedWhole(FlatAll(env, es, []));
    assert rows[..0] == [];
    for i := 0 to |rows|
      invariant state.Length == n && state[0..n] == FlatAll(env, es, rows[..i])
    {
      assert rows[..i + 1] == rows[..i] + [rows[i]];
      ApplyAll(env, es, rows[i], state, 0, rows[..i]);
      SplicedWhole(FlatAll(env, es, rows[..i + 1]));
    }
    assert rows[..|rows|] == rows;
    target := FinalizeAll(env, es, state, 0, rows);
  }

  lemma SplicedWhole(x: Tuple)
    ensures forall before: Tuple :: |before| == |x| ==> Spliced(before, 0, x) == x
  {
  }
}
