/** The hash join executor: the right input is hashed once, then each left row walks its bucket. */
module HashJoin {
  import opened Bags
  import opened Bytes
  import opened Datums
  import opened Rows

  // ----- The nested-loop join it must equal

  /** Equal and not null in every key column. */
  predicate KeysMatch(l: Tuple, r: Tuple, keyLen: nat)
    requires keyLen <= |l| && keyLen <= |r|
  {
    forall i :: 0 <= i < keyLen ==> SqlEq(l[i], r[i], false)
  }

  /** The joined tuple; the right key columns carry the left values they are equal to. */
  function Joined(l: Tuple, r: Tuple, keyLen: nat): (t: Tuple)
    requires keyLen <= |l| && keyLen <= |r|
  {
    l + l[..keyLen] + r[keyLen..]
  }

  /** The rows one left row contributes, in the order the right rows arrived. */
  function Matches(l: Row, right: seq<Row>, keyLen: nat, residual: Tuple -> bool): (r: seq<Row>)
    requires keyLen <= |l.0| && forall i :: 0 <= i < |right| ==> keyLen <= |right[i].0|
  {
    if right == [] then []
    else
      var t := Joined(l.0, right[0].0, keyLen);
      (if KeysMatch(l.0, right[0].0, keyLen) && residual(t) then [(t, right[0].1 * l.1)] else [])
      + Matches(l, right[1..], keyLen, residual)
  }

  function LeftRow(l: Row, right: seq<Row>, keyLen: nat, residual: Tuple -> bool, join: JoinType,
                   rightLen: nat): (r: seq<Row>)
    requires keyLen <= |l.0| && forall i :: 0 <= i < |right| ==> keyLen <= |right[i].0|
  {
    var m := Matches(l, right, keyLen, residual);
    if m == [] && join.LeftOuter? then [(l.0 + Nulls(rightLen), l.1)] else m
  }

  function NestedLoop(left: seq<Row>, right: seq<Row>, keyLen: nat, residual: Tuple -> bool, join: JoinType,
                      rightLen: nat): (r: seq<Row>)
    requires forall i :: 0 <= i < |left| ==> keyLen <= |left[i].0|
    requires forall i :: 0 <= i < |right| ==> keyLen <= |right[i].0|
  {
    if left == [] then []
    else
      LeftRow(left[0], right, keyLen, residual, join, rightLen)
      + NestedLoop(left[1..], right, keyLen, residual, join, rightLen)
  }

  /** Up to equality of values, the joined tuple is just left followed by right. */
  lemma JoinedIsConcat(l: Tuple, r: Tuple, keyLen: nat)
    requires keyLen <= |l| && keyLen <= |r| && KeysMatch(l, r, keyLen)
    ensures CanonTuple(Joined(l, r, keyLen)) == CanonTuple(l + r)
  {
    var t := Joined(l, r, keyLen);
    forall i | 0 <= i < |t| ensures Canon(t[i]) == Canon((l + r)[i]) {
      if |l| <= i < |l| + keyLen { assert SqlEq(l[i - |l|], r[i - |l|], false); }
    }
  }

  // ----- The hash table

  /** Buckets by key; `Datum` equality is equality of canonical values. */
  type HashTable = map<Tuple, seq<Row>>

  function AnyNull(key: Tuple): (r: bool) {
    exists i :: 0 <= i < |key| && key[i].Null?
  }

  /** The bucket a key should have: the rest columns of the right rows with that key. */
  function BucketOf(right: seq<Row>, key: Tuple, keyLen: nat): (r: seq<Row>)
    requires forall i :: 0 <= i < |right| ==> keyLen <= |right[i].0|
  {
    if right == [] then []
    else
      var n := |right| - 1;
      var k := right[n].0[..keyLen];
      BucketOf(right[..n], key, keyLen)
      + if !AnyNull(k) && CanonTuple(k) == key then [(right[n].0[keyLen..], right[n].1)] else []
  }

  function Get(table: HashTable, key: Tuple): (r: seq<Row>) {
    if key in table then table[key] else []
  }

  ghost predicate Buckets(table: HashTable, right: seq<Row>, keyLen: nat)
    requires forall i :: 0 <= i < |right| ==> keyLen <= |right[i].0|
  {
    forall key :: Get(table, key) == BucketOf(right, key, keyLen)
  }

  method BuildTable(right: seq<Row>, keyLen: nat) returns (table: HashTable)
    requires forall i :: 0 <= i < |right| ==> keyLen <= |right[i].0|
    ensures Buckets(table, right, keyLen)
  {
    table := map[];
    for i := 0 to |right|
      invariant Buckets(table, right[..i], keyLen)
    {
      assert right[..i + 1][..i] == right[..i];
      var (tuple, freq) := right[i];
      var key := tuple[..keyLen];
      if AnyNull(key) { continue; }
      var rest := tuple[keyLen..];
      table := table[CanonTuple(key) := Get(table, CanonTuple(key)) + [(rest, freq)]];
    }
    assert right[..|right|] == right;
  }

  /** Walking a bucket: the rest columns are put in place and the residual is checked. */
  function Walk(prefix: Tuple, leftFreq: int, bucket: seq<Row>, residual: Tuple -> bool): (r: seq<Row>)
  {
    if bucket == [] then []
    else
      (if residual(prefix + bucket[0].0) then [(prefix + bucket[0].0, bucket[0].1 * leftFreq)] else [])
      + Walk(prefix, leftFreq, bucket[1..], residual)
  }

  lemma KeyLookup(l: Tuple, r: Tuple, keyLen: nat)
    requires keyLen <= |l| && keyLen <= |r|
    ensures KeysMatch(l, r, keyLen) <==> !AnyNull(r[..keyLen]) && CanonTuple(r[..keyLen]) == CanonTuple(l[..keyLen])
  {
    var a, b := l[..keyLen], r[..keyLen];
    if KeysMatch(l, r, keyLen) {
      forall i | 0 <= i < keyLen ensures !b[i].Null? && Canon(b[i]) == Canon(a[i]) {
        assert SqlEq(l[i], r[i], false);
      }
    } else {
      var i :| 0 <= i < keyLen && !SqlEq(l[i], r[i], false);
      assert a[i] == l[i] && b[i] == r[i];
      assert CanonTuple(a)[i] == Canon(a[i]) && CanonTuple(b)[i] == Canon(b[i]);
      assert !b[i].Null? ==> Canon(a[i]) != Canon(b[i]);
    }
  }

  lemma {:induction false} WalkConcat(prefix: Tuple, f: int, a: seq<Row>, b: seq<Row>, residual: Tuple -> bool)
    ensures Walk(prefix, f, a + b, residual) == Walk(prefix, f, a, residual) + Walk(prefix, f, b, residual)
  {
    if a == [] {
      assert a + b == b;
    } else {
      assert (a + b)[1..] == a[1..] + b && (a + b)[0] == a[0];
      WalkConcat(prefix, f, a[1..], b, residual);
      var first := if residual(prefix + a[0].0) then [(prefix + a[0].0, a[0].1 * f)] else [];
      Regroup(first, Walk(prefix, f, a[1..], residual), Walk(prefix, f, b, residual));
    }
  }

  lemma {:induction false} MatchesConcat(l: Row, a: seq<Row>, b: seq<Row>, keyLen: nat, residual: Tuple -> bool)
    requires keyLen <= |l.0| && (forall i :: 0 <= i < |a| ==> keyLen <= |a[i].0|) && forall i :: 0 <= i < |b| ==>
      keyLen <= |b[i].0|
    ensures Matches(l, a + b, keyLen, residual) == Matches(l, a, keyLen, residual) + Matches(l, b, keyLen, residual)
  {
    hide KeysMatch, Joined;
    if a == [] {
      assert a + b == b;
    } else {
      assert (a + b)[1..] == a[1..] + b;
      MatchesConcat(l, a[1..], b, keyLen, residual);
    }
  }

  /** Walking the bucket of a left row's key yields exactly that row's nested-loop matches. */
  lemma {:induction false} BucketMatches(l: Row, right: seq<Row>, keyLen: nat, residual: Tuple -> bool)
    requires keyLen <= |l.0| && forall i :: 0 <= i < |right| ==> keyLen <= |right[i].0|
    ensures Walk(l.0 + l.0[..keyLen], l.1, BucketOf(right, CanonTuple(l.0[..keyLen]), keyLen), residual)
         == Matches(l, right, keyLen, residual)
  {
    if right != [] {
      var n := |right| - 1;
      var r, key, prefix := right[n], CanonTuple(l.0[..keyLen]), l.0 + l.0[..keyLen];
      BucketMatches(l, right[..n], keyLen, residual);
      KeyLookup(l.0, r.0, keyLen);
      var last := if KeysMatch(l.0, r.0, keyLen) then [(r.0[keyLen..], r.1)] else [];
      WalkConcat(prefix, l.1, BucketOf(right[..n], key, keyLen), last, residual);
      MatchesConcat(l, right[..n], [r], keyLen, residual);
      assert right == right[..n] + [r];
      OneMatch(l, r, keyLen, residual);
    }
  }

  lemma OneMatch(l: Row, r: Row, keyLen: nat, residual: Tuple -> bool)
    requires keyLen <= |l.0| && keyLen <= |r.0|
    ensures Matches(l, [r], keyLen, residual) ==
      Walk(l.0 + l.0[..keyLen], l.1, if KeysMatch(l.0, r.0, keyLen) then [(r.0[keyLen..], r.1)] else [], residual)
  {
    hide KeysMatch;
    assert [r][1..] == [];
  }

  lemma {:induction false} BucketWidth(right: seq<Row>, key: Tuple, keyLen: nat, rightLen: nat)
    requires keyLen <= rightLen && Width(right, rightLen)
    ensures Width(BucketOf(right, key, keyLen), rightLen - keyLen)
  {
    if right != [] { BucketWidth(right[..|right| - 1], key, keyLen, rightLen); }
  }

  lemma NestedStep(left: seq<Row>, right: seq<Row>, keyLen: nat, residual: Tuple -> bool, join: JoinType, rightLen: nat)
    requires forall i :: 0 <= i < |left| ==> keyLen <= |left[i].0|
    requires forall i :: 0 <= i < |right| ==> keyLen <= |right[i].0|
    ensures NestedLoop(left, right, keyLen, residual, join, rightLen) ==
      if left == [] then []
      else
        LeftRow(left[0], right, keyLen, residual, join, rightLen)
        + NestedLoop(left[1..], right, keyLen, residual, join, rightLen)
  {
  }

  // ----- The executor

  class HashJoinExecutor {
    /** Rows the children have not produced yet. */
    var left: seq<Row>
    var right: seq<Row>
    const keyLen: nat
    const leftLen: nat
    const rightLen: nat
    /** Whether the non-equi condition evaluates to exactly true. */
    const residual: Tuple -> bool
    const joinType: JoinType
    var hashTable: Option<HashTable>
    var tupleBuf: Tuple
    var leftFreq: int
    var freq: int
    var bucketIter: seq<Row>
    var done: bool
    /** The whole right input. */
    ghost const rights: seq<Row>

    ghost predicate Valid()
      reads this
    {
      && keyLen <= leftLen && keyLen <= rightLen
      && Width(left, leftLen) && Width(rights, rightLen) && Width(bucketIter, rightLen - keyLen)
      && |tupleBuf| == leftLen + rightLen
      && match hashTable
         case None => right == rights && bucketIter == []
         case Some(table) => Buckets(table, rights, keyLen)
    }

    /** The rows still to come. */
    ghost function Pending(): (r: seq<Row>)
      requires Valid()
      reads this
    {
      Walk(tupleBuf[..leftLen + keyLen], leftFreq, bucketIter, residual)
      + NestedLoop(left, rights, keyLen, residual, joinType, rightLen)
    }

    constructor (left: seq<Row>, right: seq<Row>, keyLen: nat, leftLen: nat, rightLen: nat,
                 residual: Tuple -> bool, joinType: JoinType)
      requires keyLen <= leftLen && keyLen <= rightLen && Width(left, leftLen) && Width(right, rightLen)
      ensures Valid() && !done
      ensures Pending() == NestedLoop(left, right, keyLen, residual, joinType, rightLen)
    {
      this.left, this.right, rights := left, right, right;
      this.keyLen, this.leftLen, this.rightLen := keyLen, leftLen, rightLen;
      this.residual, this.joinType := residual, joinType;
      hashTable, bucketIter := None, [];
      tupleBuf := Nulls(leftLen + rightLen);
      leftFreq, freq, done := 0, 0, false;
    }

    /** Moves along the current bucket to the next row that satisfies the residual. */
    method NextInBucket() returns (found: bool)
      requires Valid()
      modifies this`bucketIter, this`tupleBuf, this`freq
      ensures Valid()
      ensures tupleBuf[..leftLen + keyLen] == old(tupleBuf[..leftLen + keyLen])
      ensures
        var before := old(Walk(tupleBuf[..leftLen + keyLen], leftFreq, bucketIter, residual));
        if found then before == [(tupleBuf, freq)] + Walk(tupleBuf[..leftLen + keyLen], leftFreq, bucketIter, residual)
        else before == [] && bucketIter == []
    {
      var rightOffset := leftLen + keyLen;
      ghost var prefix := tupleBuf[..rightOffset];
      while bucketIter != []
        invariant Valid() && tupleBuf[..rightOffset] == prefix
        invariant Walk(prefix, leftFreq, bucketIter, residual) ==
          old(Walk(tupleBuf[..leftLen + keyLen], leftFreq, bucketIter, residual))
        decreases |bucketIter|
      {
        var (rest, f) := bucketIter[0];
        bucketIter := bucketIter[1..];
        tupleBuf := tupleBuf[..rightOffset] + rest;
        if residual(tupleBuf) {
          freq := f * leftFreq;
          return true;
        }
      }
      return false;
    }

    /** One left row: its bucket if it has one, the null-padded row if an outer join found nothing. */
    method NextLeft() returns (emitted: bool)
      requires Valid() && hashTable.Some? && bucketIter == [] && left != []
      modifies this
      ensures Valid() && hashTable == old(hashTable) && left == old(left)[1..] && done == old(done)
      ensures
        var row := LeftRow(old(left)[0], rights, keyLen, residual, joinType, rightLen);
        if emitted then row == [(tupleBuf, freq)] + Walk(tupleBuf[..leftLen + keyLen], leftFreq, bucketIter, residual)
        else row == [] && bucketIter == []
    {
      hide Matches, BucketOf, KeysMatch;
      var (tuple, freq') := left[0];
      ghost var l := left[0];
      left := left[1..];
      BucketMatches(l, rights, keyLen, residual);
      var key := CanonTuple(tuple[..keyLen]);
      assert Get(hashTable.value, key) == BucketOf(rights, key, keyLen);
      if key in hashTable.value {
        tupleBuf := tuple + tuple[..keyLen] + tupleBuf[leftLen + keyLen..];
        leftFreq := freq';
        bucketIter := hashTable.value[key];
        BucketWidth(rights, key, keyLen, rightLen);
        assert tupleBuf[..leftLen + keyLen] == tuple + tuple[..keyLen];
        var found := NextInBucket();
        if found { return true; }
      }
      if joinType.LeftOuter? {
        tupleBuf := tuple + Nulls(rightLen);
        freq := freq';
        return true;
      }
      return false;
    }

    method Advance()
      requires Valid() && !done
      modifies this
      ensures Valid()
      ensures done <==> old(Pending()) == []
      ensures !done ==> (tupleBuf, freq) == old(Pending())[0] && Pending() == old(Pending())[1..]
    {
      hide LeftRow, BucketOf, NestedLoop, Walk, Buckets, AnyNull;
      ghost var all := NestedLoop(left, rights, keyLen, residual, joinType, rightLen);
      var found := NextInBucket();
      if found {
        Popped((tupleBuf, freq), Walk(tupleBuf[..leftLen + keyLen], leftFreq, bucketIter, residual), all);
        return;
      }
      assert [] + all == all;
      if hashTable.None? {
        var table := BuildTable(right, keyLen);
        hashTable := Some(table);
        right := [];
      }
      while true
        invariant Valid() && hashTable.Some? && bucketIter == [] && !done
        invariant NestedLoop(left, rights, keyLen, residual, joinType, rightLen) == all
        decreases |left|
      {
        NestedStep(left, rights, keyLen, residual, joinType, rightLen);
        if left == [] {
          done := true;
          return;
        }
        var emitted := NextLeft();
        ghost var later := NestedLoop(left, rights, keyLen, residual, joinType, rightLen);
        if emitted {
          Popped((tupleBuf, freq), Walk(tupleBuf[..leftLen + keyLen], leftFreq, bucketIter, residual), later);
          return;
        }
        assert [] + later == later;
      }
    }
  }

  lemma Popped(row: Row, a: seq<Row>, b: seq<Row>)
    ensures ([row] + a + b)[0] == row && ([row] + a + b)[1..] == a + b
  {
  }

  /** Over a whole run the executor emits exactly the nested-loop join. */
  method Run(left: seq<Row>, right: seq<Row>, keyLen: nat, leftLen: nat, rightLen: nat,
             residual: Tuple -> bool, joinType: JoinType) returns (rows: seq<Row>)
    requires keyLen <= leftLen && keyLen <= rightLen && Width(left, leftLen) && Width(right, rightLen)
    ensures rows == NestedLoop(left, right, keyLen, residual, joinType, rightLen)
  {
    hide *;
    var exec := new HashJoinExecutor(left, right, keyLen, leftLen, rightLen, residual, joinType);
    ghost var all := exec.Pending();
    rows := [];
    exec.Advance();
    while !exec.done
      invariant exec.Valid() && |rows| <= |all| && rows == all[..|rows|]
      invariant if exec.done then |rows| == |all| else
        |rows| < |all| && all[|rows|] == (exec.tupleBuf, exec.freq) && exec.Pending() == all[|rows| + 1..]
      decreases |all| - |rows|, !exec.done
    {
      rows := rows + [(exec.tupleBuf, exec.freq)];
      exec.Advance();
    }
  }
}
