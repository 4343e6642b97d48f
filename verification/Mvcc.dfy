/** Multi-version rows: every row keeps its newest version in a header record and each older
    version in a history record, newest first in key order. */
module Mvcc {
  import opened Bytes
  import opened Varint
  import opened Datums
  import opened TableKeys

  /** The ordered store, as the map it holds. */
  type Db = map<seq<byte>, seq<byte>>

  /** Row identity to its versions, oldest first. */
  type Versions = map<seq<byte>, seq<Version>>

  ghost predicate VersionsOk(table: Table, base: seq<byte>, vs: seq<Version>) {
    && vs != []
    && (forall i :: 0 <= i < |vs| ==> ValidVersion(table, vs[i]) && Base(table, vs[i].tuple) == base)
    && (forall i, j :: 0 <= i < j < |vs| ==> vs[i].ts < vs[j].ts)
  }

  ghost predicate WellFormed(table: Table, vers: Versions) {
    table.Valid() && forall base :: base in vers ==> VersionsOk(table, base, vers[base])
  }

  /** The version shown by record `j` of a row: the header first, then ever older history. */
  function Nth(vs: seq<Version>, j: nat): (r: Version)
    requires j < |vs|
  {
    vs[|vs| - 1 - j]
  }

  function RecKey(base: seq<byte>, vs: seq<Version>, j: nat): (r: seq<byte>)
    requires j < |vs| && Nth(vs, j).ts < U64
  {
    if j == 0 then HeaderKey(base) else HistoryKey(base, Nth(vs, j).ts)
  }

  function RecValue(table: Table, vs: seq<Version>, j: nat): (r: seq<byte>)
    requires j < |vs| && ValidVersion(table, Nth(vs, j))
  {
    if j == 0 then HeaderValue(table, Nth(vs, j)) else RecordValue(table, Nth(vs, j))
  }

  /** `k` is the key of a record of this row. */
  ghost predicate Own(table: Table, base: seq<byte>, vs: seq<Version>, k: seq<byte>)
    requires VersionsOk(table, base, vs)
  {
    exists j :: 0 <= j < |vs| && k == RecKey(base, vs, j)
  }

  /** The store holds exactly the records of these versions within the table's key range. */
  ghost predicate Stored(table: Table, db: Db, vers: Versions)
  {
    && WellFormed(table, vers)
    && (forall base, j :: base in vers && 0 <= j < |vers[base]| ==>
         RecKey(base, vers[base], j) in db && db[RecKey(base, vers[base], j)] == RecValue(table, vers[base], j))
    && (forall k :: k in db && InTable(table.id, k) ==> exists base :: base in vers && Own(table, base, vers[base], k))
  }

  /** The key of a record after its row identity. */
  function Suffix(vs: seq<Version>, j: nat): (r: seq<byte>)
    requires j < |vs| && Nth(vs, j).ts < U64
  {
    if j == 0 then [0] else Be(8, U64 - 1 - Nth(vs, j).ts)
  }

  lemma RecKeyParts(base: seq<byte>, vs: seq<Version>, j: nat)
    requires j < |vs| && Nth(vs, j).ts < U64
    ensures RecKey(base, vs, j) == base + Suffix(vs, j)
  {
  }

  /** Keys determine their row, and within a row their suffix. */
  lemma KeysApart(table: Table, a: seq<Datum>, b: seq<Datum>, x: seq<byte>, y: seq<byte>)
    requires ValidTupleOf(table, a) && ValidTupleOf(table, b)
    requires Base(table, a) + x == Base(table, b) + y
    ensures Base(table, a) == Base(table, b) && x == y
  {
    BaseOrder(table, a, b, x, y);
  }

  lemma OwnersApart(table: Table, base: seq<byte>, vs: seq<Version>, base': seq<byte>, vs': seq<Version>, k: seq<byte>)
    requires VersionsOk(table, base, vs) && VersionsOk(table, base', vs')
    requires Own(table, base, vs, k) && Own(table, base', vs', k)
    ensures base == base'
  {
    var j :| 0 <= j < |vs| && k == RecKey(base, vs, j);
    var j' :| 0 <= j' < |vs'| && k == RecKey(base', vs', j');
    RecKeyParts(base, vs, j);
    RecKeyParts(base', vs', j');
    KeysApart(table, vs[0].tuple, vs'[0].tuple, Suffix(vs, j), Suffix(vs', j'));
  }

  lemma OwnInTable(table: Table, base: seq<byte>, vs: seq<Version>, k: seq<byte>)
    requires VersionsOk(table, base, vs) && Own(table, base, vs, k)
    ensures InTable(table.id, k)
  {
    var j :| 0 <= j < |vs| && k == RecKey(base, vs, j);
    RecKeyParts(base, vs, j);
    PrefixInTable(table, Cols(table, vs[0].tuple), Suffix(vs, j));
  }

  lemma OwnRecord(table: Table, base: seq<byte>, vs: seq<Version>, j: nat)
    requires VersionsOk(table, base, vs) && j < |vs|
    ensures Own(table, base, vs, RecKey(base, vs, j))
  {
  }

  /** A header key is present exactly when its row has versions. */
  lemma HeaderPresent(table: Table, db: Db, vers: Versions, tuple: seq<Datum>)
    requires Stored(table, db, vers) && ValidTupleOf(table, tuple)
    ensures HeaderKey(Base(table, tuple)) in db <==> Base(table, tuple) in vers
  {
    var base := Base(table, tuple);
    var k := HeaderKey(base);
    if base in vers {
      assert RecKey(base, vers[base], 0) == k;
    } else if k in db {
      PrefixInTable(table, Cols(table, tuple), [0]);
      var b :| b in vers && Own(table, b, vers[b], k);
      var j :| 0 <= j < |vers[b]| && k == RecKey(b, vers[b], j);
      RecKeyParts(b, vers[b], j);
      KeysApart(table, tuple, vers[b][0].tuple, [0], Suffix(vers[b], j));
    }
  }

  /** Replacing one row's records leaves every other row stored. */
  lemma Restored(table: Table, db: Db, vers: Versions, base: seq<byte>, vs: seq<Version>, db': Db)
    requires Stored(table, db, vers) && VersionsOk(table, base, vs)
    requires forall k :: k in db' ==> k in db || Own(table, base, vs, k)
    requires forall k :: k in db ==> k in db' && (db'[k] == db[k] || Own(table, base, vs, k))
    requires forall j :: 0 <= j < |vs| ==>
      RecKey(base, vs, j) in db' && db'[RecKey(base, vs, j)] == RecValue(table, vs, j)
    requires base in vers ==> forall j :: 0 <= j < |vers[base]| ==> Own(table, base, vs, RecKey(base, vers[base], j))
    ensures Stored(table, db', vers[base := vs])
  {
    hide InTable, RecKey, RecValue, Own;
    var vers' := vers[base := vs];
    forall b, j | b in vers' && 0 <= j < |vers'[b]|
      ensures RecKey(b, vers'[b], j) in db' && db'[RecKey(b, vers'[b], j)] == RecValue(table, vers'[b], j)
    {
      if b != base {
        var k := RecKey(b, vers[b], j);
        OwnRecord(table, b, vers[b], j);
        if Own(table, base, vs, k) { OwnersApart(table, b, vers[b], base, vs, k); }
      }
    }
    forall k | k in db' && InTable(table.id, k)
      ensures exists b :: b in vers' && Own(table, b, vers'[b], k)
    {
      if Own(table, base, vs, k) {
        assert base in vers';
      } else {
        var b :| b in vers && Own(table, b, vers[b], k);
        if b == base { OwnElsewhere(table, base, vers[base], vs, k); }
        assert b in vers';
      }
    }
  }

  lemma OwnElsewhere(table: Table, base: seq<byte>, vs: seq<Version>, vs': seq<Version>, k: seq<byte>)
    requires VersionsOk(table, base, vs) && VersionsOk(table, base, vs')
    requires forall j :: 0 <= j < |vs| ==> Own(table, base, vs', RecKey(base, vs, j))
    requires Own(table, base, vs, k)
    ensures Own(table, base, vs', k)
  {
    var j :| 0 <= j < |vs| && k == RecKey(base, vs, j);
  }

  // ----- Writing

  /** The versions of a row after one more write: frequencies accumulate, one version a timestamp. */
  function Push(vs: seq<Version>, tuple: seq<Datum>, ts: nat, freq: int): (r: seq<Version>)
    ensures r != []
  {
    if vs == [] then [Version(ts, freq, tuple)]
    else
      var last := vs[|vs| - 1];
      var v := Version(ts, last.freq + freq, tuple);
      if last.ts == ts then vs[..|vs| - 1] + [v] else vs + [v]
  }

  function VersionsAt(vers: Versions, base: seq<byte>): (r: seq<Version>) {
    if base in vers then vers[base] else []
  }

  /** What `write_tuple` relies on: time does not run backwards for a row and frequencies fit. */
  ghost predicate CanWrite(table: Table, vers: Versions, tuple: seq<Datum>, ts: nat, freq: int)
  {
    && ValidTupleOf(table, tuple) && ts < TS_LIMIT && IsI64(freq)
    && (Base(table, tuple) in vers && vers[Base(table, tuple)] != [] ==>
         var vs := vers[Base(table, tuple)];
         vs[|vs| - 1].ts <= ts && IsI64(vs[|vs| - 1].freq + freq))
  }

  lemma PushOk(table: Table, vers: Versions, tuple: seq<Datum>, ts: nat, freq: int)
    requires WellFormed(table, vers) && CanWrite(table, vers, tuple, ts, freq)
    ensures VersionsOk(table, Base(table, tuple), Push(VersionsAt(vers, Base(table, tuple)), tuple, ts, freq))
  {
    hide Base;
  }

  lemma PushOwns(table: Table, vs: seq<Version>, tuple: seq<Datum>, ts: nat, freq: int, j: nat)
    requires ValidTupleOf(table, tuple) && vs != [] && ts < TS_LIMIT && vs[|vs| - 1].ts <= ts
    requires VersionsOk(table, Base(table, tuple), vs)
    requires VersionsOk(table, Base(table, tuple), Push(vs, tuple, ts, freq))
    requires j < |vs|
    ensures Own(table, Base(table, tuple), Push(vs, tuple, ts, freq), RecKey(Base(table, tuple), vs, j))
  {
    hide Base;
    var base, vs' := Base(table, tuple), Push(vs, tuple, ts, freq);
    if j == 0 {
      assert RecKey(base, vs', 0) == RecKey(base, vs, 0);
    } else {
      var j' := if vs[|vs| - 1].ts == ts then j else j + 1;
      assert RecKey(base, vs', j') == RecKey(base, vs, j);
    }
  }

  class Store {
    var db: Db

    constructor ()
      ensures db == map[]
    {
      db := map[];
    }

    /** `Writer::write_tuple`: the header moves to history unless it has the same timestamp, and
        the accumulated frequency becomes the new header. */
    method WriteTuple(table: Table, tuple: seq<Datum>, ts: nat, delta: int, ghost vers: Versions)
      requires Stored(table, db, vers) && CanWrite(table, vers, tuple, ts, delta)
      modifies this
      ensures Stored(table, db, vers[Base(table, tuple) :=
        Push(VersionsAt(vers, Base(table, tuple)), tuple, ts, delta)])
      ensures forall k :: !InTable(table.id, k) ==> (k in db <==> k in old(db)) && (k in db ==> db[k] == old(db[k]))
    {
      hide InTable, ReadSigned, HeaderValue, RecordValue, KeyPrefix, Stored, UnLe, ValidTuple;
      assert WellFormed(table, vers) by { StoredVersions(table, db, vers); }
      PushOk(table, vers, tuple, ts, delta);
      HeaderPresent(table, db, vers, tuple);
      var freq := delta;
      var key := RangeKey(table, tuple, false);
      var batch := db;
      if key in db {
        var value := db[key];
        HeaderReads(table, db, vers, tuple);
        var lastTs := UnLe(value[..8]);
        var lastFreq := ReadSigned(Asc, value[8..]).value.0;
        freq := freq + lastFreq;
        if lastTs != ts {
          var bumped := key[..|key| - 1] + Be(8, U64 - 1 - lastTs);
          batch := batch[bumped := value[8..]];
        }
      }
      batch := batch[key := HeaderValue(table, Version(ts, freq, tuple))];
      WriteRestores(table, db, vers, tuple, ts, delta, batch);
      db := batch;
    }
  }

  lemma StoredVersions(table: Table, db: Db, vers: Versions)
    requires Stored(table, db, vers)
    ensures WellFormed(table, vers)
  {
  }

  /** What the code finds in an existing header. */
  lemma HeaderReads(table: Table, db: Db, vers: Versions, tuple: seq<Datum>)
    requires Stored(table, db, vers) && ValidTupleOf(table, tuple) && Base(table, tuple) in vers
    ensures
      var key := HeaderKey(Base(table, tuple));
      var last := Nth(vers[Base(table, tuple)], 0);
      && key in db && |db[key]| >= 8 && UnLe(db[key][..8]) == last.ts
      && ReadSigned(Asc, db[key][8..]).Some? && ReadSigned(Asc, db[key][8..]).value.0 == last.freq
      && db[key][8..] == RecordValue(table, last)
      && key[..|key| - 1] == Base(table, tuple)
  {
    var base := Base(table, tuple);
    var vs := vers[base];
    assert RecKey(base, vs, 0) in db;
    var value := HeaderValue(table, Nth(vs, 0));
    assert value[..8] == Le(8, Nth(vs, 0).ts) && value[8..] == RecordValue(table, Nth(vs, 0));
    PowConstants();
    UnLeLe(8, Nth(vs, 0).ts);
    FreqReads(table, Nth(vs, 0));
  }

  lemma FreqReads(table: Table, v: Version)
    requires ValidVersion(table, v)
    ensures ReadSigned(Asc, RecordValue(table, v)).Some? && ReadSigned(Asc, RecordValue(table, v)).value.0 == v.freq
  {
    var rest := Rest(table, v.tuple);
    SignedRoundTrip(v.freq, Asc, WriteUnsigned(|rest|, Asc) + WriteTuple(rest, Ascs(|rest|)));
  }

  /** The two puts of a write turn the old records into the new ones. */
  lemma WriteRestores(table: Table, db: Db, vers: Versions, tuple: seq<Datum>, ts: nat, freq: int, db': Db)
    requires Stored(table, db, vers) && CanWrite(table, vers, tuple, ts, freq)
    requires
      var base := Base(table, tuple);
      var vs := VersionsAt(vers, base);
      var vs' := Push(vs, tuple, ts, freq);
      VersionsOk(table, base, vs') &&
      db' == (if vs != [] && Nth(vs, 0).ts != ts
              then db[HistoryKey(base, Nth(vs, 0).ts) := RecordValue(table, Nth(vs, 0))] else db)
               [HeaderKey(base) := HeaderValue(table, Nth(vs', 0))]
    ensures
      var base := Base(table, tuple);
      Stored(table, db', vers[base := Push(VersionsAt(vers, base), tuple, ts, freq)])
    ensures forall k :: !InTable(table.id, k) ==> (k in db' <==> k in db) && (k in db' ==> db'[k] == db[k])
  {
    hide InTable, HeaderValue, RecordValue, ValidVersion, Base, HistoryKey, HeaderKey, RecValue;
    var base := Base(table, tuple);
    var vs := VersionsAt(vers, base);
    var vs' := Push(vs, tuple, ts, freq);
    var h := HeaderKey(base);
    assert RecKey(base, vs', 0) == h;
    if vs != [] && Nth(vs, 0).ts != ts {
      assert Nth(vs', 1) == Nth(vs, 0);
      assert RecKey(base, vs', 1) == HistoryKey(base, Nth(vs, 0).ts);
    }
    forall k | k in db' && k !in db ensures Own(table, base, vs', k) { }
    forall k | k in db ensures k in db' && (db'[k] == db[k] || Own(table, base, vs', k)) { }
    forall j | 0 <= j < |vs'|
      ensures RecKey(base, vs', j) in db' && db'[RecKey(base, vs', j)] == RecValue(table, vs', j)
    {
      RecordWritten(table, db, vers, tuple, ts, freq, db', j);
    }
    if base in vers {
      forall j | 0 <= j < |vs| ensures Own(table, base, vs', RecKey(base, vs, j)) {
        PushOwns(table, vs, tuple, ts, freq, j);
      }
    }
    Restored(table, db, vers, base, vs', db');
    forall k | Own(table, base, vs', k) ensures InTable(table.id, k) { OwnInTable(table, base, vs', k); }
  }

  lemma RecordWritten(table: Table, db: Db, vers: Versions, tuple: seq<Datum>, ts: nat, freq: int, db': Db, j: nat)
    requires Stored(table, db, vers) && CanWrite(table, vers, tuple, ts, freq)
    requires
      var base := Base(table, tuple);
      var vs := VersionsAt(vers, base);
      var vs' := Push(vs, tuple, ts, freq);
      VersionsOk(table, base, vs') && j < |vs'| &&
      db' == (if vs != [] && Nth(vs, 0).ts != ts
              then db[HistoryKey(base, Nth(vs, 0).ts) := RecordValue(table, Nth(vs, 0))] else db)
               [HeaderKey(base) := HeaderValue(table, Nth(vs', 0))]
    ensures
      var base := Base(table, tuple);
      var vs' := Push(VersionsAt(vers, base), tuple, ts, freq);
      RecKey(base, vs', j) in db' && db'[RecKey(base, vs', j)] == RecValue(table, vs', j)
  {
    hide HeaderValue, RecordValue, InTable, Base;
    var base := Base(table, tuple);
    var vs := VersionsAt(vers, base);
    var vs' := Push(vs, tuple, ts, freq);
    if j > 0 {
      HistorySuffix(Nth(vs', j).ts);
      var bumped := Nth(vs, 0).ts != ts;
      assert RecKey(base, vs', j) != HeaderKey(base) by {
        assert RecKey(base, vs', j)[|base|] != 0;
      }
      if !bumped || j > 1 {
        var i := if bumped then j - 1 else j;
        assert Nth(vs', j) == Nth(vs, i);
        assert RecKey(base, vs', j) == RecKey(base, vs, i);
        if bumped { HistoryKeysApart(base, Nth(vs, i).ts, Nth(vs, 0).ts); }
      }
    }
  }

  lemma HistoryKeysApart(base: seq<byte>, s: nat, t: nat)
    requires s < U64 && t < U64 && s != t
    ensures HistoryKey(base, s) != HistoryKey(base, t)
  {
    PowConstants();
    UnBeBe(8, U64 - 1 - s);
    UnBeBe(8, U64 - 1 - t);
    assert HistoryKey(base, s)[|base|..] == Be(8, U64 - 1 - s);
    assert HistoryKey(base, t)[|base|..] == Be(8, U64 - 1 - t);
  }
}
