/** Range scans: the records between two keys, in order, and the rows they show. */
module RangeScan {
  import opened Bytes
  import opened Varint
  import opened Datums
  import opened Rows
  import opened TableKeys
  import opened Mvcc
  import opened DeltaLog
  import opened IndexScan

  // ----- The order of a table's keys

  ghost function GroupKeys(table: Table, base: seq<byte>, vs: seq<Version>): (r: seq<seq<byte>>)
    requires VersionsOk(table, base, vs)
    ensures |r| == |vs| && forall j :: 0 <= j < |vs| ==> r[j] == RecKey(base, vs, j)
  {
    seq(|vs|, j requires 0 <= j < |vs| => RecKey(base, vs, j))
  }

  /** All keys of the given rows, row by row. */
  ghost function Layout(table: Table, rows: seq<seq<byte>>, vers: Versions): (r: seq<seq<byte>>)
    requires WellFormed(table, vers) && forall b :: b in rows ==> b in vers
  {
    if rows == [] then []
    else GroupKeys(table, rows[0], vers[rows[0]]) + Layout(table, rows[1..], vers)
  }

  lemma SuffixOrder(table: Table, base: seq<byte>, vs: seq<Version>, i: nat, j: nat)
    requires VersionsOk(table, base, vs) && i < j < |vs|
    ensures Cmp(Suffix(vs, i), Suffix(vs, j)) < 0
  {
    hide Base;
    PowConstants();
    var s, t := Nth(vs, i).ts, Nth(vs, j).ts;
    HistorySuffix(t);
    if i > 0 {
      BeOrder(8, U64 - 1 - s, U64 - 1 - t, [], []);
      assert Be(8, U64 - 1 - s) + [] == Be(8, U64 - 1 - s) && Be(8, U64 - 1 - t) + [] == Be(8, U64 - 1 - t);
    }
  }

  lemma GroupAscending(table: Table, base: seq<byte>, vs: seq<Version>)
    requires VersionsOk(table, base, vs)
    ensures Ascending(GroupKeys(table, base, vs))
  {
    var keys := GroupKeys(table, base, vs);
    forall i, j | 0 <= i < j < |keys| ensures Cmp(keys[i], keys[j]) < 0 {
      RecKeyParts(base, vs, i);
      RecKeyParts(base, vs, j);
      CmpPrefix(base, Suffix(vs, i), Suffix(vs, j));
      SuffixOrder(table, base, vs, i, j);
    }
  }

  lemma GroupsApart(table: Table, vers: Versions, a: seq<byte>, i: nat, b: seq<byte>, j: nat)
    requires WellFormed(table, vers) && a in vers && b in vers && Cmp(a, b) < 0
    requires i < |vers[a]| && j < |vers[b]|
    ensures Cmp(RecKey(a, vers[a], i), RecKey(b, vers[b], j)) < 0
  {
    RecKeyParts(a, vers[a], i);
    RecKeyParts(b, vers[b], j);
    BaseOrder(table, vers[a][0].tuple, vers[b][0].tuple, Suffix(vers[a], i), Suffix(vers[b], j));
  }

  lemma GroupHas(table: Table, base: seq<byte>, vs: seq<Version>, k: seq<byte>)
    requires VersionsOk(table, base, vs)
    ensures k in GroupKeys(table, base, vs) <==> Own(table, base, vs, k)
  {
    hide RecKey;
    var keys := GroupKeys(table, base, vs);
    if k in keys { var j :| 0 <= j < |keys| && keys[j] == k; }
    if Own(table, base, vs, k) {
      var j :| 0 <= j < |vs| && k == RecKey(base, vs, j);
      assert keys[j] == k;
    }
  }

  lemma {:induction false} LayoutHas(table: Table, rows: seq<seq<byte>>, vers: Versions, k: seq<byte>)
    requires WellFormed(table, vers) && forall b :: b in rows ==> b in vers
    ensures k in Layout(table, rows, vers) <==> exists b :: b in rows && Own(table, b, vers[b], k)
  {
    if rows != [] {
      hide RecKey, Own;
      LayoutHas(table, rows[1..], vers, k);
      var b := rows[0];
      GroupHas(table, b, vers[b], k);
      assert forall x :: x in rows <==> x == b || x in rows[1..] by { assert rows == [b] + rows[1..]; }
    }
  }

  lemma {:induction false} LayoutAscending(table: Table, rows: seq<seq<byte>>, vers: Versions)
    requires WellFormed(table, vers) && (forall b :: b in rows ==> b in vers) && Ascending(rows)
    ensures Ascending(Layout(table, rows, vers))
  {
    if rows != [] {
      hide RecKey, InTable, Base, Layout;
      var b, more := rows[0], Layout(table, rows[1..], vers);
      assert Layout(table, rows, vers) == GroupKeys(table, b, vers[b]) + more by { LayoutUnfold(table, rows, vers); }
      LayoutAscending(table, rows[1..], vers);
      GroupAscending(table, b, vers[b]);
      var keys := GroupKeys(table, b, vers[b]);
      forall i, j | 0 <= i < |keys| && 0 <= j < |more| ensures Cmp(keys[i], more[j]) < 0 {
        LayoutApart(table, rows, vers, i, j);
      }
      AscendingConcat(keys, more);
    }
  }

  /** The keys of the first row come before those of all later rows. */
  lemma LayoutApart(table: Table, rows: seq<seq<byte>>, vers: Versions, i: nat, j: nat)
    requires WellFormed(table, vers) && (forall b :: b in rows ==> b in vers) && Ascending(rows) && rows != []
    requires i < |GroupKeys(table, rows[0], vers[rows[0]])| && j < |Layout(table, rows[1..], vers)|
    ensures Cmp(GroupKeys(table, rows[0], vers[rows[0]])[i], Layout(table, rows[1..], vers)[j]) < 0
  {
    hide RecKey, InTable, Base, Layout, Cmp;
    var k := Layout(table, rows[1..], vers)[j];
    LayoutHas(table, rows[1..], vers, k);
    var c :| c in rows[1..] && Own(table, c, vers[c], k);
    var n :| 0 <= n < |vers[c]| && k == RecKey(c, vers[c], n);
    var m :| 0 <= m < |rows| - 1 && rows[1..][m] == c;
    assert rows[m + 1] == c;
    GroupsApart(table, vers, rows[0], i, c, n);
  }

  lemma LayoutUnfold(table: Table, rows: seq<seq<byte>>, vers: Versions)
    requires WellFormed(table, vers) && (forall b :: b in rows ==> b in vers) && rows != []
    ensures Layout(table, rows, vers) == GroupKeys(table, rows[0], vers[rows[0]]) + Layout(table, rows[1..], vers)
  {
  }

  lemma AscendingConcat(a: seq<seq<byte>>, b: seq<seq<byte>>)
    requires Ascending(a) && Ascending(b)
    requires forall i, j :: 0 <= i < |a| && 0 <= j < |b| ==> Cmp(a[i], b[j]) < 0
    ensures Ascending(a + b)
  {
    hide Cmp;
  }

  // ----- Keys within bounds

  /** The keys from `lo` (inclusive) to `hi` (exclusive). */
  function Between(s: seq<seq<byte>>, lo: seq<byte>, hi: seq<byte>): (r: seq<seq<byte>>)
  {
    if s == [] then []
    else (if Cmp(lo, s[0]) <= 0 && Cmp(s[0], hi) < 0 then [s[0]] else []) + Between(s[1..], lo, hi)
  }

  lemma {:induction false} BetweenConcat(a: seq<seq<byte>>, b: seq<seq<byte>>, lo: seq<byte>, hi: seq<byte>)
    ensures Between(a + b, lo, hi) == Between(a, lo, hi) + Between(b, lo, hi)
  {
    hide Cmp;
    if a == [] {
      assert a + b == b;
    } else {
      assert (a + b)[1..] == a[1..] + b;
      BetweenConcat(a[1..], b, lo, hi);
    }
  }

  lemma {:induction false} BetweenHas(s: seq<seq<byte>>, lo: seq<byte>, hi: seq<byte>, k: seq<byte>)
    ensures k in Between(s, lo, hi) <==> k in s && Cmp(lo, k) <= 0 && Cmp(k, hi) < 0
  {
    hide Cmp;
    if s != [] {
      BetweenHas(s[1..], lo, hi, k);
      assert s == [s[0]] + s[1..];
    }
  }

  lemma {:induction false} BetweenAscending(s: seq<seq<byte>>, lo: seq<byte>, hi: seq<byte>)
    requires Ascending(s)
    ensures Ascending(Between(s, lo, hi))
  {
    if s != [] {
      BetweenAscending(s[1..], lo, hi);
      var more := Between(s[1..], lo, hi);
      forall j | 0 <= j < |more| ensures Cmp(s[0], more[j]) < 0 {
        BetweenHas(s[1..], lo, hi, more[j]);
        var i :| 0 <= i < |s| - 1 && s[1..][i] == more[j];
        assert s[i + 1] == more[j];
      }
      if Cmp(lo, s[0]) <= 0 && Cmp(s[0], hi) < 0 {
        AscendingConcat([s[0]], more);
      } else {
        assert Between(s, lo, hi) == more;
      }
    }
  }

  /** The keys a database iterator walks between two bounds inside a table's range are that
      table's records, row by row in key order. */
  lemma KeysInOrder(table: Table, db: Db, vers: Versions, lo: seq<byte>, hi: seq<byte>)
    requires Stored(table, db, vers)
    requires Cmp(Be(4, table.id), lo) <= 0 && Cmp(hi, Be(4, table.id + 1)) <= 0
    ensures (forall b :: b in SortedKeys(vers.Keys) ==> b in vers)
    ensures Between(SortedKeys(db.Keys), lo, hi) == Between(Layout(table, SortedKeys(vers.Keys), vers), lo, hi)
  {
    hide Cmp, Layout, Between, SortedKeys, Stored, InTable, Be;
    SortedKeysAscending(db.Keys);
    SortedKeysAscending(vers.Keys);
    var all, rows := SortedKeys(db.Keys), SortedKeys(vers.Keys);
    assert WellFormed(table, vers) by { StoredVersions(table, db, vers); }
    var layout := Layout(table, rows, vers);
    LayoutAscending(table, rows, vers);
    BetweenAscending(all, lo, hi);
    BetweenAscending(layout, lo, hi);
    forall k ensures k in Between(all, lo, hi) <==> k in Between(layout, lo, hi) {
      BetweenHas(all, lo, hi, k);
      BetweenHas(layout, lo, hi, k);
      if Cmp(lo, k) <= 0 && Cmp(k, hi) < 0 {
        InsideTable(table, lo, hi, k);
        StoredKey(table, db, vers, rows, k);
      }
    }
    AscendingUnique(Between(all, lo, hi), Between(layout, lo, hi));
  }

  lemma InsideTable(table: Table, lo: seq<byte>, hi: seq<byte>, k: seq<byte>)
    requires Cmp(Be(4, table.id), lo) <= 0 && Cmp(hi, Be(4, table.id + 1)) <= 0
    requires Cmp(lo, k) <= 0 && Cmp(k, hi) < 0
    ensures InTable(table.id, k)
  {
    hide Cmp, Be;
    CmpTransitive(Be(4, table.id), lo, k);
    CmpTransitive(k, hi, Be(4, table.id + 1));
  }

  lemma StoredKey(table: Table, db: Db, vers: Versions, rows: seq<seq<byte>>, k: seq<byte>)
    requires Stored(table, db, vers) && InTable(table.id, k)
    requires forall b :: b in rows <==> b in vers
    ensures k in db <==> k in Layout(table, rows, vers)
  {
    hide InTable, RecKey, Layout, Own;
    LayoutHas(table, rows, vers, k);
    if k in Layout(table, rows, vers) {
      var b :| b in rows && Own(table, b, vers[b], k);
      OwnStored(table, db, vers, b, k);
    }
  }

  lemma OwnStored(table: Table, db: Db, vers: Versions, base: seq<byte>, k: seq<byte>)
    requires Stored(table, db, vers) && base in vers && Own(table, base, vers[base], k)
    ensures k in db
  {
    hide InTable, RecKey;
    var j :| 0 <= j < |vers[base]| && k == RecKey(base, vers[base], j);
  }

  // ----- From keys to rows

  ghost function Entries(db: Db, keys: seq<seq<byte>>): (r: seq<Entry>)
    requires forall k :: k in keys ==> k in db
    ensures |r| == |keys| && forall i :: 0 <= i < |keys| ==> r[i] == (keys[i], db[keys[i]])
  {
    seq(|keys|, i requires 0 <= i < |keys| => (keys[i], db[keys[i]]))
  }

  /** What the iterator walks for a scan of [lo, hi). */
  ghost function RangeEntries(db: Db, lo: seq<byte>, hi: seq<byte>): (r: seq<Entry>)
  {
    BetweenSubset(db, lo, hi);
    Entries(db, Between(SortedKeys(db.Keys), lo, hi))
  }

  lemma BetweenSubset(db: Db, lo: seq<byte>, hi: seq<byte>)
    ensures forall k :: k in Between(SortedKeys(db.Keys), lo, hi) ==> k in db
  {
    SortedKeysAscending(db.Keys);
    forall k | k in Between(SortedKeys(db.Keys), lo, hi) ensures k in db {
      BetweenHas(SortedKeys(db.Keys), lo, hi, k);
    }
  }

  /** How many of a row's records, newest first, lie within bounds that cut only its tail. */
  ghost predicate CutsTail(table: Table, base: seq<byte>, vs: seq<Version>, lo: seq<byte>, hi: seq<byte>, n: nat)
    requires VersionsOk(table, base, vs)
  {
    n <= |vs| && Between(GroupKeys(table, base, vs), lo, hi) == GroupKeys(table, base, vs)[..n]
  }

  /** The newest `n` versions. */
  function Newest(vs: seq<Version>, n: nat): (r: seq<Version>)
    requires n <= |vs|
  {
    vs[|vs| - n..]
  }

  lemma DecodeRecord(table: Table, db: Db, vers: Versions, base: seq<byte>, j: nat)
    requires Stored(table, db, vers) && base in vers && j < |vers[base]|
    ensures
      var k := RecKey(base, vers[base], j);
      k in db && Shows(Decode(k, db[k]), j == 0, Nth(vers[base], j))
  {
    hide Decode, HeaderValue, RecordValue, Base, InTable, Shows;
    var v := Nth(vers[base], j);
    if j == 0 { DecodeHeader(table, v); } else { DecodeHistory(table, v); }
  }

  ghost function ShownRows(rows: seq<seq<byte>>, vers: Versions, cut: map<seq<byte>, nat>, t: nat): (r: seq<Row>)
    requires forall b :: b in rows ==> b in vers && b in cut && cut[b] <= |vers[b]|
  {
    if rows == [] then []
    else ShownAt(Newest(vers[rows[0]], cut[rows[0]]), t) + ShownRows(rows[1..], vers, cut, t)
  }

  ghost predicate Decoded(table: Table, db: Db, keys: seq<seq<byte>>) {
    (forall k :: k in keys ==> k in db) && AllDecode(Entries(db, keys))
    && forall i :: 0 <= i < |keys| ==> |RecsOf(Entries(db, keys))[i].tuple| == table.length
  }

  lemma GroupDecodes(table: Table, db: Db, vers: Versions, base: seq<byte>, n: nat)
    requires Stored(table, db, vers) && base in vers && n <= |vers[base]|
    ensures Decoded(table, db, GroupKeys(table, base, vers[base])[..n])
    ensures
      var recs := RecsOf(Entries(db, GroupKeys(table, base, vers[base])[..n]));
      IsGroup(recs) && forall i :: 0 <= i < n ==> Shows(Some(recs[i]), i == 0, Nth(vers[base], i))
  {
    hide Decode, Base, RecKey, InTable;
    var keys := GroupKeys(table, base, vers[base])[..n];
    forall i | 0 <= i < n
      ensures keys[i] in db && Shows(Decode(keys[i], db[keys[i]]), i == 0, Nth(vers[base], i))
      ensures |Nth(vers[base], i).tuple| == table.length
    {
      DecodeRecord(table, db, vers, base, i);
    }
    forall i | 0 <= i < n && Decode(keys[i], db[keys[i]]).Some?
      ensures |Decode(keys[i], db[keys[i]]).value.tuple| == table.length
    {
      assert |CanonTuple(Decode(keys[i], db[keys[i]]).value.tuple)| == |CanonTuple(Nth(vers[base], i).tuple)|;
    }
  }

  lemma EntriesConcat(table: Table, db: Db, a: seq<seq<byte>>, b: seq<seq<byte>>)
    requires Decoded(table, db, a) && Decoded(table, db, b)
    ensures Decoded(table, db, a + b)
    ensures RecsOf(Entries(db, a + b)) == RecsOf(Entries(db, a)) + RecsOf(Entries(db, b))
  {
    hide Decode;
    assert forall k :: k in a + b ==> k in db;
    var ea, eb, ec := Entries(db, a), Entries(db, b), Entries(db, a + b);
    forall i | 0 <= i < |ec| ensures ec[i] == if i < |a| then ea[i] else eb[i - |a|] { }
    assert AllDecode(ec);
    var ra, rb, rc := RecsOf(ea), RecsOf(eb), RecsOf(ec);
    forall i | 0 <= i < |rc| ensures rc[i] == if i < |a| then ra[i] else rb[i - |a|] { }
  }

  lemma SameRowsConcat(a: seq<Row>, a': seq<Row>, b: seq<Row>, b': seq<Row>)
    requires SameRows(a, a') && SameRows(b, b')
    ensures SameRows(a + b, a' + b')
  {
    hide SameRow1;
  }

  /** A scan whose bounds cut only row tails shows, row by row, the newest version older than
      `t` among those left, skipping zero frequencies. */
  lemma {:induction false} ScanLayout(table: Table, db: Db, vers: Versions, rows: seq<seq<byte>>, lo: seq<byte>,
                                      hi: seq<byte>,
                                      cut: map<seq<byte>, nat>, t: nat)
    requires Stored(table, db, vers) && forall b :: b in rows ==> b in vers
    requires forall b :: b in rows ==> b in cut && cut[b] <= |vers[b]| && CutsTail(table, b, vers[b], lo, hi, cut[b])
    ensures
      var keys := Between(Layout(table, rows, vers), lo, hi);
      Decoded(table, db, keys) &&
      var recs := RecsOf(Entries(db, keys));
      (recs != [] ==> recs[0].header) && SameRows(Scan(recs, t, true), ShownRows(rows, vers, cut, t))
  {
    hide Decode, Scan, AsOf, InTable, Between, GroupRow, ShownAt, SameRow1;
    if rows == [] {
      EmptyScan(lo, hi, t);
      assert Entries(db, []) == [];
    } else {
      var b := rows[0];
      var n := cut[b];
      var group := GroupKeys(table, b, vers[b])[..n];
      var more := Between(Layout(table, rows[1..], vers), lo, hi);
      ScanLayout(table, db, vers, rows[1..], lo, hi, cut, t);
      BetweenConcat(GroupKeys(table, b, vers[b]), Layout(table, rows[1..], vers), lo, hi);
      GroupDecodes(table, db, vers, b, n);
      EntriesConcat(table, db, group, more);
      var g := RecsOf(Entries(db, group));
      ScanGroup(g, RecsOf(Entries(db, more)), t);
      GroupShown(g, vers[b], n, t);
      SameRowsConcat(GroupRow(g, t), ShownAt(Newest(vers[b], n), t),
                     Scan(RecsOf(Entries(db, more)), t, true), ShownRows(rows[1..], vers, cut, t));
    }
  }

  lemma EmptyScan(lo: seq<byte>, hi: seq<byte>, t: nat)
    ensures Between([], lo, hi) == [] && Scan([], t, true) == []
  {
  }

  lemma GroupShown(g: seq<Rec>, vs: seq<Version>, n: nat, t: nat)
    requires |g| == n <= |vs| && forall i :: 0 <= i < n ==> Shows(Some(g[i]), i == 0, Nth(vs, i))
    ensures SameRows(GroupRow(g, t), ShownAt(Newest(vs, n), t))
  {
    hide GroupRow, ShownAt;
    forall i | 0 <= i < n ensures Shows(Some(g[i]), g[i].header, Nth(Newest(vs, n), i)) {
      assert Nth(Newest(vs, n), i) == Nth(vs, i);
    }
    GroupRowFrom(g, Newest(vs, n), t);
  }
}
