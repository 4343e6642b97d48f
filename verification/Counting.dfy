/** What aggregation does with frequencies: counting, splitting a row's frequency, and grouping. */
module Counting {
  import opened Bags
  import opened Datums
  import opened Rows
  import opened Exprs
  import opened Plans
  import opened Physical
  import opened AggregateState
  import opened HashGroup
  import FoldConstants

  // ----- Counting

  /** The environment's aggregate of this signature is the count. */
  ghost predicate Counts(env: Env, sig: Signature) {
    && env.stateSize(sig) == 1 && env.initial(sig) == [BigInt(0)]
    && (forall args, freq, s :: env.step(sig, args, freq, s) == CountStep(sig, args, freq, s))
    && (forall s: Tuple :: |s| == 1 ==> env.finish(sig, s) == s[0])
  }

  /** There are environments whose aggregates count. */
  lemma CountsSome(env: Env, sig: Signature)
    ensures
      var counting := env.(stateSize := _ => 1, initial := _ => [BigInt(0)], step := CountStep,
                           finish := (_, s) => if |s| == 1 then s[0] else Null);
      Sized(counting) && Counts(counting, sig)
  {
  }

  /** The rows that a count looks at: those whose argument, if there is one, is not null. */
  function Counted(env: Env, args: seq<Expr>, rows: seq<Row>): (r: seq<Row>) {
    if rows == [] then []
    else
      var n := |rows| - 1;
      Counted(env, args, rows[..n])
      + if args == [] || !Eval(env, args[0], rows[n].0).Null? then [rows[n]] else []
  }

  /** The state of a count after any rows is the copies of those it looks at. */
  lemma {:induction false} CountState(env: Env, sig: Signature, args: seq<Expr>, rows: seq<Row>)
    requires Counts(env, sig)
    ensures Accumulate(env, sig, args, rows) == [BigInt(Copies(Counted(env, args, rows)))]
  {
    hide Eval, Copies;
    if rows == [] {
      assert Copies([]) == 0 by { NoCopies(); }
    } else {
      var n := |rows| - 1;
      var row, counted := rows[n], Counted(env, args, rows[..n]);
      CountState(env, sig, args, rows[..n]);
      CopiesPush(counted, row);
      var inputs := EvalAll(env, args, row.0);
      assert inputs == [] <==> args == [];
      var next := CountStep(sig, inputs, row.1, [BigInt(Copies(counted))]);
      assert next == [BigInt(Copies(Counted(env, args, rows)))] by { assert counted + [] == counted; }
      assert Accumulate(env, sig, args, rows) == env.step(sig, inputs, row.1, [BigInt(Copies(counted))]);
    }
  }

  lemma {:induction false} CountedAll(env: Env, rows: seq<Row>)
    ensures Counted(env, [], rows) == rows
  {
    if rows != [] { CountedAll(env, rows[..|rows| - 1]); }
  }

  /** `count(*)` over any rows is the number of tuples they stand for. */
  lemma CountAll(env: Env, sig: Signature, rows: seq<Row>)
    requires Counts(env, sig)
    ensures EvalGroup(env, Aggregate(sig, []), rows) == BigInt(Copies(rows))
  {
    CountState(env, sig, [], rows);
    CountedAll(env, rows);
  }

  // ----- A row whose frequency is split

  /** A frequency can be applied in two parts. */
  ghost predicate Additive(env: Env, sig: Signature) {
    forall args, f, g, s :: StepsAdd(env, sig, args, f, g, s)
  }

  ghost predicate StepsAdd(env: Env, sig: Signature, args: Tuple, f: int, g: int, s: Tuple) {
    env.step(sig, args, f + g, s) == env.step(sig, args, g, env.step(sig, args, f, s))
  }

  ghost predicate AllAdditive(env: Env, e: Expr) {
    match e
    case Call(_, args) => forall i :: 0 <= i < |args| ==> AllAdditive(env, args[i])
    case Aggregate(sig, _) => Additive(env, sig)
    case _ => true
  }

  lemma CountAdditive(env: Env, sig: Signature)
    requires Counts(env, sig)
    ensures Additive(env, sig)
  {
    forall args, f, g, s ensures StepsAdd(env, sig, args, f, g, s) {
      assert CountStep(sig, args, f + g, s) == CountStep(sig, args, g, CountStep(sig, args, f, s));
    }
  }

  /** The rows with one frequency whole, and in two parts. */
  function Whole(before: seq<Row>, t: Tuple, f: int, after: seq<Row>): (r: seq<Row>) {
    before + [(t, f)] + after
  }

  function Parts(before: seq<Row>, t: Tuple, f: int, g: int, after: seq<Row>): (r: seq<Row>) {
    before + [(t, f)] + [(t, g)] + after
  }

  lemma LastOf(rows: seq<Row>, row: Row)
    ensures (rows + [row])[..|rows + [row]| - 1] == rows && (rows + [row])[|rows + [row]| - 1] == row
    ensures rows + [row] != []
  {
  }

  lemma AccumulatePush(env: Env, sig: Signature, args: seq<Expr>, rows: seq<Row>, row: Row)
    ensures Accumulate(env, sig, args, rows + [row]) ==
      env.step(sig, EvalAll(env, args, row.0), row.1, Accumulate(env, sig, args, rows))
  {
    LastOf(rows, row);
  }

  lemma FirstPush(offset: nat, rows: seq<Row>, row: Row)
    ensures FirstValue(offset, rows + [row]) ==
      if FirstValue(offset, rows).Null? && offset < |row.0| then row.0[offset] else FirstValue(offset, rows)
  {
    LastOf(rows, row);
  }

  lemma {:induction false} AccumulateSplit(env: Env, sig: Signature, args: seq<Expr>, before: seq<Row>, t: Tuple,
                                           f: int, g: int, after: seq<Row>)
    requires Additive(env, sig)
    ensures Accumulate(env, sig, args, Whole(before, t, f + g, after)) ==
      Accumulate(env, sig, args, Parts(before, t, f, g, after))
    decreases |after|
  {
    hide Accumulate, EvalAll;
    if after == [] {
      assert Whole(before, t, f + g, []) == before + [(t, f + g)];
      assert Parts(before, t, f, g, []) == before + [(t, f)] + [(t, g)];
      AccumulatePush(env, sig, args, before, (t, f + g));
      AccumulatePush(env, sig, args, before, (t, f));
      AccumulatePush(env, sig, args, before + [(t, f)], (t, g));
      assert StepsAdd(env, sig, EvalAll(env, args, t), f, g, Accumulate(env, sig, args, before));
    } else {
      var less, last := after[..|after| - 1], after[|after| - 1];
      AccumulateSplit(env, sig, args, before, t, f, g, less);
      assert Whole(before, t, f + g, after) == Whole(before, t, f + g, less) + [last];
      assert Parts(before, t, f, g, after) == Parts(before, t, f, g, less) + [last];
      AccumulatePush(env, sig, args, Whole(before, t, f + g, less), last);
      AccumulatePush(env, sig, args, Parts(before, t, f, g, less), last);
    }
  }

  lemma {:induction false} FirstSplit(offset: nat, before: seq<Row>, t: Tuple, f: int, g: int, after: seq<Row>)
    ensures FirstValue(offset, Whole(before, t, f + g, after)) == FirstValue(offset, Parts(before, t, f, g, after))
    decreases |after|
  {
    hide FirstValue;
    if after == [] {
      assert Whole(before, t, f + g, []) == before + [(t, f + g)];
      assert Parts(before, t, f, g, []) == before + [(t, f)] + [(t, g)];
      FirstPush(offset, before, (t, f + g));
      FirstPush(offset, before, (t, f));
      FirstPush(offset, before + [(t, f)], (t, g));
    } else {
      var less, last := after[..|after| - 1], after[|after| - 1];
      FirstSplit(offset, before, t, f, g, less);
      assert Whole(before, t, f + g, after) == Whole(before, t, f + g, less) + [last];
      assert Parts(before, t, f, g, after) == Parts(before, t, f, g, less) + [last];
      FirstPush(offset, Whole(before, t, f + g, less), last);
      FirstPush(offset, Parts(before, t, f, g, less), last);
    }
  }

  /** A row of frequency f + g aggregates like one of f followed by one of g. */
  lemma {:induction false} GroupSplit(env: Env, e: Expr, before: seq<Row>, t: Tuple, f: int, g: int, after: seq<Row>)
    requires AllAdditive(env, e)
    ensures EvalGroup(env, e, Whole(before, t, f + g, after)) == EvalGroup(env, e, Parts(before, t, f, g, after))
  {
    hide Whole, Parts, Accumulate, FirstValue, Additive;
    var whole, parts := Whole(before, t, f + g, after), Parts(before, t, f, g, after);
    match e
    case Call(sig, args) =>
      forall i | 0 <= i < |args| ensures EvalGroup(env, args[i], whole) == EvalGroup(env, args[i], parts) {
        GroupSplit(env, args[i], before, t, f, g, after);
      }
      FoldConstants.EvalGroupCall(env, sig, args, whole);
      FoldConstants.EvalGroupCall(env, sig, args, parts);
      assert EvalGroupAll(env, args, whole) == EvalGroupAll(env, args, parts);
    case Aggregate(sig, args) => AccumulateSplit(env, sig, args, before, t, f, g, after);
    case Column(offset, _) => FirstSplit(offset, before, t, f, g, after);
    case Constant(_, _) =>
  }

  // ----- Counting in groups

  /** The copies of the groups with these keys, in all. */
  function GroupCopies<K(==)>(rows: seq<Row>, ks: seq<K>, order: seq<K>): (r: int)
    requires |rows| == |ks|
  {
    if order == [] then 0
    else
      var n := |order| - 1;
      GroupCopies(rows, ks, order[..n]) + Copies(Select(rows, ks, order[n]))
  }

  lemma {:induction false} GroupCopiesNone<K>(rows: seq<Row>, ks: seq<K>, order: seq<K>)
    requires |rows| == |ks| == 0
    ensures GroupCopies(rows, ks, order) == 0
  {
    if order != [] { GroupCopiesNone(rows, ks, order[..|order| - 1]); }
  }

  lemma SelectPush<K>(rows: seq<Row>, ks: seq<K>, k: K)
    requires |rows| == |ks| && rows != []
    ensures
      var n := |rows| - 1;
      Copies(Select(rows, ks, k)) == Copies(Select(rows[..n], ks[..n], k)) + if ks[n] == k then rows[n].1 else 0
  {
    hide Copies;
    var n := |rows| - 1;
    var before := Select(rows[..n], ks[..n], k);
    CopiesPush(before, rows[n]);
    assert before + [] == before;
  }

  /** One more row adds its copies to one group. */
  lemma {:induction false} GroupCopiesPush<K>(rows: seq<Row>, ks: seq<K>, order: seq<K>)
    requires |rows| == |ks| && rows != [] && NoDup(order)
    ensures
      var n := |rows| - 1;
      GroupCopies(rows, ks, order) ==
        GroupCopies(rows[..n], ks[..n], order) + if ks[n] in order then rows[n].1 else 0
    decreases |order|
  {
    hide Select, Copies;
    if order != [] {
      var m := |order| - 1;
      GroupCopiesPush(rows, ks, order[..m]);
      SelectPush(rows, ks, order[m]);
      assert order == order[..m] + [order[m]] && order[m] !in order[..m];
    }
  }

  /** Grouping loses no copy and duplicates none. */
  lemma {:induction false} GroupsPartition<K>(rows: seq<Row>, ks: seq<K>, order: seq<K>)
    requires |rows| == |ks| && NoDup(order) && forall k :: k in ks ==> k in order
    ensures GroupCopies(rows, ks, order) == Copies(rows)
  {
    if rows == [] {
      GroupCopiesNone(rows, ks, order);
    } else {
      var n := |rows| - 1;
      GroupsPartition(rows[..n], ks[..n], order);
      GroupCopiesPush(rows, ks, order);
      assert rows == rows[..n] + [rows[n]] && ks[n] in ks;
      CopiesPush(rows[..n], rows[n]);
    }
  }

  /** The sum of a column of counts. */
  function Tally(rows: seq<Row>): (r: int) {
    if rows == [] then 0
    else
      var n := |rows| - 1;
      Tally(rows[..n]) + if |rows[n].0| > 0 && rows[n].0[0].BigInt? then rows[n].0[0].i else 0
  }

  lemma {:induction false} TallyGroups<K>(env: Env, sig: Signature, rows: seq<Row>, ks: seq<K>, order: seq<K>)
    requires Counts(env, sig) && |rows| == |ks|
    ensures Tally(GroupsIn(env, [Aggregate(sig, [])], rows, ks, order)) == GroupCopies(rows, ks, order)
    decreases |order|
  {
    hide Select, EvalGroup;
    if order != [] {
      var n, es := |order| - 1, [Aggregate(sig, [])];
      TallyGroups(env, sig, rows, ks, order[..n]);
      assert GroupsIn(env, es, rows, ks, order)[..n] == GroupsIn(env, es, rows, ks, order[..n]);
      CountAll(env, sig, Select(rows, ks, order[n]));
      assert EvalGroupAll(env, es, Select(rows, ks, order[n])) == [BigInt(Copies(Select(rows, ks, order[n])))];
    }
  }

  /** SELECT count(*), without keys: one pass over the flat state. */
  method CountRows(env: Env, sig: Signature, rows: seq<Row>) returns (target: Tuple)
    requires Sized(env) && Counts(env, sig)
    ensures target == [BigInt(Copies(rows))]
  {
    hide Sized, Counts, EvalGroup;
    target := AggregateRows(env, [Aggregate(sig, [])], rows);
    CountAll(env, sig, rows);
  }

  /** SELECT count(*) GROUP BY the leading columns, in whatever order the map is drained: every row counts
      the copies of a key, and together they count all. */
  method CountByKey(env: Env, id: nat, sig: Signature, rows: seq<Row>, keyLen: nat) returns (out: seq<Row>)
    requires Sized(env) && Counts(env, sig) && ValidKeys(rows, keyLen)
    ensures Tally(out) == Copies(rows)
    ensures forall i :: 0 <= i < |out| ==> CountsAKey(rows, PrefixKeys(rows, keyLen), out[i])
  {
    hide Sized, Counts, GroupRows, PrefixKeys, EvalGroupAll, Tally, Select;
    var es := [Aggregate(sig, [])];
    out := RunGroup(env, id, rows, keyLen, es);
    ghost var d :| out == GroupRows(env.(drain := d), id, es, rows, PrefixKeys(rows, keyLen));
    CountedGroups(env.(drain := d), id, sig, rows, PrefixKeys(rows, keyLen)) by { StillCounts(env, d, sig); }
  }

  lemma StillCounts(env: Env, d: (nat, seq<Tuple>) -> seq<Tuple>, sig: Signature)
    requires Counts(env, sig)
    ensures Counts(env.(drain := d), sig)
  {
  }

  ghost predicate CountsAKey(rows: seq<Row>, ks: seq<Tuple>, row: Row)
    requires |rows| == |ks|
  {
    exists key :: key in ks && row == ([BigInt(Copies(Select(rows, ks, key)))], 1)
  }

  lemma CountedGroups(env: Env, id: nat, sig: Signature, rows: seq<Row>, ks: seq<Tuple>)
    requires Counts(env, sig) && |rows| == |ks|
    ensures
      var out := GroupRows(env, id, [Aggregate(sig, [])], rows, ks);
      Tally(out) == Copies(rows) && forall i :: 0 <= i < |out| ==> CountsAKey(rows, ks, out[i])
  {
    hide Counts, Select, EvalGroup, Distinct, Tally;
    var es, order := [Aggregate(sig, [])], DrainOrder(env, id, ks);
    DistinctFacts(ks);
    NoDupAnyOrder(Distinct(ks), order);
    forall k ensures k in order <==> k in ks { assert k in multiset(order) <==> k in multiset(Distinct(ks)); }
    GroupsPartition(rows, ks, order);
    TallyGroups(env, sig, rows, ks, order);
    var out := GroupRows(env, id, es, rows, ks);
    forall i | 0 <= i < |out| ensures CountsAKey(rows, ks, out[i]) {
      CountAll(env, sig, Select(rows, ks, order[i]));
      assert EvalGroupAll(env, es, Select(rows, ks, order[i])) == [BigInt(Copies(Select(rows, ks, order[i])))];
      assert order[i] in order;
    }
  }
}
