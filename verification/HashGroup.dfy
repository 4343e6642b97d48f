/** The hash group executor: a map from encoded keys to flat aggregate states, drained in any order. */
module HashGroup {
  import opened Bags
  import opened Bytes
  import opened Datums
  import opened Rows
  import opened Exprs
  import opened Plans
  import opened AggregateState
  import opened Physical
  import FoldConstants

  type Key = seq<byte>

  // ----- Keys by their encoding

  predicate ValidKeys(rows: seq<Row>, keyLen: nat) {
    AtLeast(rows, keyLen) && forall i :: 0 <= i < |rows| ==> ValidTuple(rows[i].0[..keyLen])
  }

  function KeyBytes(rows: seq<Row>, keyLen: nat): (r: seq<Key>)
    requires ValidKeys(rows, keyLen)
    ensures |r| == |rows| && forall i :: 0 <= i < |rows| ==> r[i] == WriteTuple(rows[i].0[..keyLen], Ascs(keyLen))
  {
    seq(|rows|, i requires 0 <= i < |rows| => WriteTuple(rows[i].0[..keyLen], Ascs(keyLen)))
  }

  /** Two keyings that tell the same rows apart. */
  ghost predicate SamePattern<K, L>(ks: seq<K>, ls: seq<L>) {
    |ks| == |ls| && forall i, j :: 0 <= i < |ks| && 0 <= j < |ks| ==> (ks[i] == ks[j] <==> ls[i] == ls[j])
  }

  lemma {:induction false} SelectSame<K, L>(rows: seq<Row>, ks: seq<K>, ls: seq<L>, k: K, l: L)
    requires |rows| == |ks| == |ls| && forall i :: 0 <= i < |ks| ==> (ks[i] == k <==> ls[i] == l)
    ensures Select(rows, ks, k) == Select(rows, ls, l)
  {
    if rows != [] {
      var n := |rows| - 1;
      SelectSame(rows[..n], ks[..n], ls[..n], k, l);
    }
  }

  /** The encoding tells apart exactly the keys that null-safe equality tells apart. */
  lemma BytesPattern(rows: seq<Row>, keyLen: nat)
    requires ValidKeys(rows, keyLen)
    ensures SamePattern(KeyBytes(rows, keyLen), PrefixKeys(rows, keyLen))
  {
    hide WriteTuple, CanonTuple;
    var bs, ks := KeyBytes(rows, keyLen), PrefixKeys(rows, keyLen);
    forall i, j | 0 <= i < |rows| && 0 <= j < |rows| ensures bs[i] == bs[j] <==> ks[i] == ks[j] {
      TupleCanonical(rows[i].0[..keyLen], rows[j].0[..keyLen], Ascs(keyLen));
    }
  }

  // ----- Orders in which the groups can come

  lemma {:induction false} DistinctFacts<K>(ks: seq<K>)
    ensures NoDup(Distinct(ks)) && forall k :: k in Distinct(ks) <==> k in ks
  {
    if ks != [] {
      var n := |ks| - 1;
      DistinctFacts(ks[..n]);
      assert ks == ks[..n] + [ks[n]];
    }
  }

  /** An order of the keys of `bs` without repetitions. */
  ghost predicate IsOrder<K(!new)>(bs: seq<K>, order: seq<K>) {
    NoDup(order) && forall b :: b in order <==> b in bs
  }

  lemma FirstAt<K>(bs: seq<K>, b: K) returns (p: nat)
    requires b in bs
    ensures p < |bs| && bs[p] == b
  {
    p :| p < |bs| && bs[p] == b;
  }

  /** An order of encoded keys, read as an order of the keys themselves, gives the same groups. */
  lemma {:induction false} Decoded<K, L>(env: Env, es: seq<Expr>, rows: seq<Row>, bs: seq<K>, ks: seq<L>, order: seq<K>)
    returns (keys: seq<L>)
    requires |rows| == |bs| && SamePattern(bs, ks) && NoDup(order) && forall i :: 0 <= i < |order| ==> order[i] in bs
    ensures |keys| == |order| && GroupsIn(env, es, rows, ks, keys) == GroupsIn(env, es, rows, bs, order)
    ensures NoDup(keys) && forall i :: 0 <= i < |keys| ==> Named(bs, ks, order[i], keys[i])
  {
    hide Select, EvalGroupAll;
    keys := [];
    if order != [] {
      var n := |order| - 1;
      var before := Decoded(env, es, rows, bs, ks, order[..n]);
      var p := FirstAt(bs, order[n]);
      keys := before + [ks[p]];
      SelectSame(rows, bs, ks, bs[p], ks[p]);
      forall i | 0 <= i < n ensures before[i] != ks[p] {
        assert Named(bs, ks, order[..n][i], before[i]);
        var q :| 0 <= q < |bs| && bs[q] == order[i] && ks[q] == before[i];
      }
      assert Named(bs, ks, order[n], ks[p]);
      var a, b := GroupsIn(env, es, rows, ks, keys), GroupsIn(env, es, rows, bs, order);
      forall i | 0 <= i <= n ensures a[i] == b[i] {
        if i < n {
          assert GroupsIn(env, es, rows, ks, before)[i] == GroupsIn(env, es, rows, bs, order[..n])[i];
        }
      }
    }
  }

  /** Some row has the one key and the other. */
  ghost predicate Named<K, L>(bs: seq<K>, ks: seq<L>, b: K, k: L)
    requires |bs| == |ks|
  {
    exists q :: 0 <= q < |bs| && bs[q] == b && ks[q] == k
  }

  lemma DecodedOrder<K(!new), L(!new)>(bs: seq<K>, ks: seq<L>, order: seq<K>, keys: seq<L>)
    requires SamePattern(bs, ks) && IsOrder(bs, order) && NoDup(keys) && |keys| == |order|
    requires forall i :: 0 <= i < |keys| ==> Named(bs, ks, order[i], keys[i])
    ensures multiset(keys) == multiset(Distinct(ks))
  {
    DistinctFacts(ks);
    forall k ensures k in keys <==> k in ks {
      if k in keys {
        var i :| 0 <= i < |keys| && keys[i] == k;
        assert Named(bs, ks, order[i], keys[i]);
      }
      if k in ks {
        var p := FirstAt(ks, k);
        assert bs[p] in order;
        var i :| 0 <= i < |order| && order[i] == bs[p];
        assert Named(bs, ks, order[i], keys[i]);
        var q :| 0 <= q < |bs| && bs[q] == order[i] && ks[q] == keys[i];
        assert keys[i] == k;
      }
    }
    NoDupMultiset(keys, Distinct(ks));
  }

  /** Every order of the same keys gives the same bag of groups. */
  lemma AnyOrder<K>(env: Env, es: seq<Expr>, rows: seq<Row>, ks: seq<K>, a: seq<K>, b: seq<K>)
    requires |rows| == |ks| && multiset(a) == multiset(b)
    ensures multiset(GroupsIn(env, es, rows, ks, a)) == multiset(GroupsIn(env, es, rows, ks, b))
  {
    hide Select, EvalGroupAll;
    var group: K -> Row := k => (EvalGroupAll(env, es, Select(rows, ks, k)), 1);
    ImageBag(group, a, b);
    assert Image(group, a) == GroupsIn(env, es, rows, ks, a);
    assert Image(group, b) == GroupsIn(env, es, rows, ks, b);
  }

  // ----- Draining a map in an arbitrary order

  ghost predicate Listed(m: map<Key, Tuple>, it: seq<(Key, Tuple)>) {
    && (forall i :: 0 <= i < |it| ==> it[i].0 in m && m[it[i].0] == it[i].1)
    && (forall i, j :: 0 <= i < j < |it| ==> it[i].0 != it[j].0)
    && (forall k :: k in m ==> Has(it, k))
  }

  ghost predicate Has(it: seq<(Key, Tuple)>, k: Key) {
    exists i :: 0 <= i < |it| && it[i].0 == k
  }

  lemma StillListed(it: seq<(Key, Tuple)>, x: (Key, Tuple))
    ensures Has(it + [x], x.0) && forall k :: Has(it, k) ==> Has(it + [x], k)
  {
    assert (it + [x])[|it|] == x;
    forall k | Has(it, k) ensures Has(it + [x], k) {
      var i :| 0 <= i < |it| && it[i].0 == k;
      assert (it + [x])[i] == it[i];
    }
  }

  ghost function ListedKeys(it: seq<(Key, Tuple)>): (r: seq<Key>)
    ensures |r| == |it| && forall i :: 0 <= i < |it| ==> r[i] == it[i].0
  {
    seq(|it|, i requires 0 <= i < |it| => it[i].0)
  }

  lemma ListedOrder(m: map<Key, Tuple>, it: seq<(Key, Tuple)>)
    requires Listed(m, it)
    ensures NoDup(ListedKeys(it)) && (forall k :: k in ListedKeys(it) <==> k in m)
    ensures forall i :: 0 <= i < |it| ==> it[i].0 in m && m[it[i].0] == it[i].1
  {
    var order := ListedKeys(it);
    forall k | k in m ensures k in order {
      assert Has(it, k);
      var i :| 0 <= i < |it| && it[i].0 == k;
      assert order[i] == k;
    }
  }

  /** A hash map's `into_iter`: every entry once, in whatever order. */
  method IntoIter(m: map<Key, Tuple>) returns (it: seq<(Key, Tuple)>)
    ensures Listed(m, it)
  {
    hide Has;
    it := [];
    var left := m;
    while left != map[]
      invariant forall i :: 0 <= i < |it| ==> it[i].0 in m && m[it[i].0] == it[i].1 && it[i].0 !in left
      invariant forall i, j :: 0 <= i < j < |it| ==> it[i].0 != it[j].0
      invariant forall k :: k in left ==> k in m && left[k] == m[k]
      invariant forall k :: k in m && k !in left ==> Has(it, k)
      decreases |left|
    {
      var k :| k in left;
      StillListed(it, (k, left[k]));
      it := it + [(k, left[k])];
      left := left - {k};
    }
  }

  // ----- The executor

  /** The states after some rows: one for each key, holding the flat aggregate state of its group. */
  ghost predicate Grouped(env: Env, es: seq<Expr>, state: map<Key, Tuple>, rows: seq<Row>, ks: seq<Key>)
    requires |rows| == |ks|
  {
    && (forall k :: k in state <==> k in ks)
    && (forall k :: k in state ==> state[k] == FlatAll(env, es, Select(rows, ks, k)))
  }

  lemma SelectNext(rows: seq<Row>, ks: seq<Key>, i: nat, k: Key)
    requires |rows| == |ks| && i < |ks|
    ensures Select(rows[..i + 1], ks[..i + 1], k) ==
      Select(rows[..i], ks[..i], k) + if ks[i] == k then [rows[i]] else []
    ensures k !in ks[..i] ==> Select(rows[..i], ks[..i], k) == []
  {
    assert rows[..i + 1][..i] == rows[..i] && ks[..i + 1][..i] == ks[..i];
    if k !in ks[..i] { SelectNone(rows[..i], ks[..i], k); }
  }

  lemma {:induction false} SelectNone(rows: seq<Row>, ks: seq<Key>, k: Key)
    requires |rows| == |ks| && k !in ks
    ensures Select(rows, ks, k) == []
  {
    if rows != [] { SelectNone(rows[..|rows| - 1], ks[..|rows| - 1], k); }
  }

  /** One more row for one group: its state as a vector, changed in place. */
  method ApplyTo(env: Env, es: seq<Expr>, row: Row, s: Tuple, ghost rows: seq<Row>) returns (r: Tuple)
    requires Sized(env) && s == FlatAll(env, es, rows)
    ensures r == FlatAll(env, es, rows + [row])
  {
    hide *;
    FlatAllLen(env, es, rows);
    FlatAllLen(env, es, rows + [row]);
    var state := new Datum[|s|](i requires 0 <= i < |s| => s[i]);
    assert state[..] == s;
    ApplyAll(env, es, row, state, 0, rows);
    SplicedWhole(FlatAll(env, es, rows + [row]));
    r := state[..];
  }

  method Initialize(env: Env, es: seq<Expr>) returns (r: Tuple)
    requires Sized(env)
    ensures r == FlatAll(env, es, [])
  {
    hide *;
    var state := new Datum[StateLens(env, es)](_ => Null);
    ResetAll(env, es, state, 0);
    SplicedWhole(FlatAll(env, es, []));
    r := state[..];
  }

  /** Ingesting the source. */
  method BuildGroups(env: Env, es: seq<Expr>, rows: seq<Row>, keyLen: nat) returns (state: map<Key, Tuple>)
    requires Sized(env) && ValidKeys(rows, keyLen)
    ensures Grouped(env, es, state, rows, KeyBytes(rows, keyLen))
  {
    hide Select, FlatAll, Sized, WriteTuple;
    ghost var ks := KeyBytes(rows, keyLen);
    state := map[];
    for i := 0 to |rows|
      invariant Grouped(env, es, state, rows[..i], ks[..i])
    {
      var key := WriteTuple(rows[i].0[..keyLen], Ascs(keyLen));
      ghost var seen := Select(rows[..i], ks[..i], key);
      ghost var before := state;
      SelectNext(rows, ks, i, key);
      var s: Tuple;
      if key in state {
        s := state[key];
      } else {
        s := Initialize(env, es);
      }
      s := ApplyTo(env, es, rows[i], s, seen);
      state := state[key := s];
      GroupedNext(env, es, before, rows, ks, i, s);
    }
    assert rows[..|rows|] == rows && ks[..|rows|] == ks;
  }

  lemma GroupedNext(env: Env, es: seq<Expr>, before: map<Key, Tuple>, rows: seq<Row>, ks: seq<Key>, i: nat, s: Tuple)
    requires |rows| == |ks| && i < |ks| && Grouped(env, es, before, rows[..i], ks[..i])
    requires s == FlatAll(env, es, Select(rows[..i], ks[..i], ks[i]) + [rows[i]])
    ensures Grouped(env, es, before[ks[i] := s], rows[..i + 1], ks[..i + 1])
  {
    hide Select, FlatAll;
    var after := before[ks[i] := s];
    assert ks[..i + 1] == ks[..i] + [ks[i]];
    forall k | k in after ensures after[k] == FlatAll(env, es, Select(rows[..i + 1], ks[..i + 1], k)) {
      SelectNext(rows, ks, i, k);
      if k != ks[i] { assert Select(rows[..i], ks[..i], k) + [] == Select(rows[..i], ks[..i], k); }
    }
  }

  class HashGroupExecutor {
    const env: Env
    const keyLen: nat
    const exprs: seq<Expr>
    /** Rows the child has not produced yet. */
    var source: seq<Row>
    var stateIter: Option<seq<(Key, Tuple)>>
    var outputTuple: Tuple
    var done: bool
    /** The whole input, the order the map happened to be drained in, and how far that has got. */
    ghost const rows: seq<Row>
    ghost var order: seq<Key>
    ghost var served: nat

    ghost predicate Valid()
      reads this
    {
      && Sized(env) && ValidKeys(rows, keyLen)
      && match stateIter
         case None => source == rows
         case Some(it) =>
           && NoDup(order) && (forall k :: k in order <==> k in KeyBytes(rows, keyLen))
           && served + |it| == |order|
           && forall i :: 0 <= i < |it| ==>
                it[i].0 == order[served + i] && it[i].1 ==
                  FlatAll(env, exprs, Select(rows, KeyBytes(rows, keyLen), it[i].0))
    }

    constructor (env: Env, rows: seq<Row>, keyLen: nat, exprs: seq<Expr>)
      requires Sized(env) && ValidKeys(rows, keyLen)
      ensures Valid() && !done && stateIter.None?
      ensures this.env == env && this.rows == rows && this.keyLen == keyLen && this.exprs == exprs
    {
      this.env, this.rows, this.keyLen, this.exprs := env, rows, keyLen, exprs;
      source, stateIter, outputTuple, done, order, served := rows, None, [], false, [], 0;
    }

    method Ingest()
      requires Valid() && stateIter.None?
      modifies this
      ensures Valid() && stateIter.Some? && served == 0 && done == old(done)
    {
      hide KeyBytes, Select, FlatAll, Sized, ValidKeys, Listed, NoDup;
      var state := BuildGroups(env, exprs, source, keyLen);
      source := [];
      var it := IntoIter(state);
      stateIter := Some(it);
      order, served := ListedKeys(it), 0;
      ListedOrder(state, it);
    }

    method Advance()
      requires Valid() && !done
      modifies this
      ensures Valid() && stateIter.Some? && (old(stateIter).Some? ==> order == old(order))
      ensures
        var n := if old(stateIter).Some? then old(served) else 0;
        if n < |order| then
          && !done && served == n + 1
          && outputTuple == EvalGroupAll(env, exprs, Select(rows, KeyBytes(rows, keyLen), order[n]))
        else done && served == n
    {
      hide KeyBytes, Select, FlatAll, Sized, ValidKeys, EvalGroupAll, NoDup;
      if stateIter.None? { Ingest(); }
      var it := stateIter.value;
      if it != [] {
        stateIter := Some(it[1..]);
        ghost var group := Select(rows, KeyBytes(rows, keyLen), it[0].0);
        outputTuple := FinalizeState(env, exprs, it[0].1, group);
        served := served + 1;
      } else {
        done := true;
      }
    }
  }

  method FinalizeState(env: Env, es: seq<Expr>, s: Tuple, ghost rows: seq<Row>) returns (r: Tuple)
    requires Sized(env) && s == FlatAll(env, es, rows)
    ensures r == EvalGroupAll(env, es, rows)
  {
    hide *;
    FlatAllLen(env, es, rows);
    var state := new Datum[|s|](i requires 0 <= i < |s| => s[i]);
    assert state[..] == s;
    r := FinalizeAll(env, es, state, 0, rows);
  }

  /** Aggregation has nothing to do with the order groups are drained in. */
  lemma {:induction false} EvalUndrained(env: Env, d: (nat, seq<Tuple>) -> seq<Tuple>, e: Expr, t: Tuple)
    ensures Eval(env.(drain := d), e, t) == Eval(env, e, t)
  {
    if e.Call? {
      forall i | 0 <= i < |e.args| ensures Eval(env.(drain := d), e.args[i], t) == Eval(env, e.args[i], t) {
        EvalUndrained(env, d, e.args[i], t);
      }
      EvalCall(env, e.sig, e.args, t);
      EvalCall(env.(drain := d), e.sig, e.args, t);
      assert EvalAll(env.(drain := d), e.args, t) == EvalAll(env, e.args, t);
    }
  }

  lemma {:induction false} AccumulateUndrained(env: Env, d: (nat, seq<Tuple>) -> seq<Tuple>, sig: Signature,
                                               args: seq<Expr>, rows: seq<Row>)
    ensures Accumulate(env.(drain := d), sig, args, rows) == Accumulate(env, sig, args, rows)
  {
    hide Eval;
    if rows != [] {
      var n := |rows| - 1;
      AccumulateUndrained(env, d, sig, args, rows[..n]);
      forall i | 0 <= i < |args| ensures Eval(env.(drain := d), args[i], rows[n].0) == Eval(env, args[i], rows[n].0) {
        EvalUndrained(env, d, args[i], rows[n].0);
      }
      assert EvalAll(env.(drain := d), args, rows[n].0) == EvalAll(env, args, rows[n].0);
    }
  }

  lemma {:induction false} GroupUndrained(env: Env, d: (nat, seq<Tuple>) -> seq<Tuple>, e: Expr, rows: seq<Row>)
    ensures EvalGroup(env.(drain := d), e, rows) == EvalGroup(env, e, rows)
  {
    match e
    case Call(sig, args) =>
      forall i | 0 <= i < |args| ensures EvalGroup(env.(drain := d), args[i], rows) == EvalGroup(env, args[i], rows) {
        GroupUndrained(env, d, args[i], rows);
      }
      FoldConstants.EvalGroupCall(env, sig, args, rows);
      FoldConstants.EvalGroupCall(env.(drain := d), sig, args, rows);
      assert EvalGroupAll(env.(drain := d), args, rows) == EvalGroupAll(env, args, rows);
    case Aggregate(sig, args) => AccumulateUndrained(env, d, sig, args, rows);
    case _ =>
  }

  lemma GroupsUndrained<K>(env: Env, d: (nat, seq<Tuple>) -> seq<Tuple>, es: seq<Expr>, rows: seq<Row>, ks: seq<K>,
                           order: seq<K>)
    requires |rows| == |ks|
    ensures GroupsIn(env.(drain := d), es, rows, ks, order) == GroupsIn(env, es, rows, ks, order)
  {
    hide Select, EvalGroup;
    forall i, j | 0 <= i < |order| && 0 <= j < |es|
      ensures EvalGroup(env.(drain := d), es[j], Select(rows, ks, order[i])) ==
        EvalGroup(env, es[j], Select(rows, ks, order[i]))
    {
      GroupUndrained(env, d, es[j], Select(rows, ks, order[i]));
    }
    forall i | 0 <= i < |order|
      ensures EvalGroupAll(env.(drain := d), es, Select(rows, ks, order[i])) ==
        EvalGroupAll(env, es, Select(rows, ks, order[i]))
    {
    }
  }

  /**
   * Over a whole run: the groups in the order of some drain, so that what holds of plans in every
   * environment holds of every run. In particular one row for each distinct key.
   */
  method RunGroup(env: Env, id: nat, rows: seq<Row>, keyLen: nat, es: seq<Expr>) returns (out: seq<Row>)
    requires Sized(env) && ValidKeys(rows, keyLen)
    ensures exists d :: out == GroupRows(env.(drain := d), id, es, rows, PrefixKeys(rows, keyLen))
    ensures multiset(out) == multiset(GroupRows(env, id, es, rows, PrefixKeys(rows, keyLen)))
  {
    hide Select, FlatAll, Sized, EvalGroupAll, KeyBytes, GroupRows, PrefixKeys, NoDup;
    ghost var ks := KeyBytes(rows, keyLen);
    var exec := new HashGroupExecutor(env, rows, keyLen, es);
    out := [];
    exec.Advance();
    while !exec.done
      invariant exec.Valid() && exec.stateIter.Some? && exec.env == env && exec.rows == rows && exec.keyLen == keyLen
        && exec.exprs == es
      invariant |out| == if exec.done then exec.served else exec.served - 1
      invariant |out| <= |exec.order| && (exec.done ==> |out| == |exec.order|)
      invariant !exec.done ==>
        |out| < |exec.order| && exec.outputTuple == EvalGroupAll(env, es, Select(rows, ks, exec.order[|out|]))
      invariant forall i :: 0 <= i < |out| ==> out[i] == (EvalGroupAll(env, es, Select(rows, ks, exec.order[i])), 1)
      decreases |exec.order| - |out|, !exec.done
    {
      out := out + [(exec.outputTuple, 1)];
      exec.Advance();
    }
    assert out == GroupsIn(env, es, rows, ks, exec.order);
    DrainOfRun(env, id, es, rows, keyLen, exec.order, out);
  }

  lemma DrainOfRun(env: Env, id: nat, es: seq<Expr>, rows: seq<Row>, keyLen: nat, order: seq<Key>, out: seq<Row>)
    requires ValidKeys(rows, keyLen) && IsOrder(KeyBytes(rows, keyLen), order)
    requires out == GroupsIn(env, es, rows, KeyBytes(rows, keyLen), order)
    ensures exists d :: out == GroupRows(env.(drain := d), id, es, rows, PrefixKeys(rows, keyLen))
    ensures multiset(out) == multiset(GroupRows(env, id, es, rows, PrefixKeys(rows, keyLen)))
  {
    hide GroupsIn, KeyBytes, PrefixKeys, NoDup, Distinct;
    var bs, ks := KeyBytes(rows, keyLen), PrefixKeys(rows, keyLen);
    BytesPattern(rows, keyLen);
    var keys := Decoded(env, es, rows, bs, ks, order);
    DecodedOrder(bs, ks, order, keys);
    var d := (_: nat, _: seq<Tuple>) => keys;
    GroupsUndrained(env, d, es, rows, ks, keys);
    assert DrainOrder(env.(drain := d), id, ks) == keys;
    assert out == GroupRows(env.(drain := d), id, es, rows, ks);
    AnyOrder(env, es, rows, ks, keys, DrainOrder(env, id, ks));
  }
}
