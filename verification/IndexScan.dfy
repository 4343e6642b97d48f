/** Walking a table's records in key order: which version of each row a scan shows. */
module IndexScan {
  import opened Bytes
  import opened Datums
  import opened Rows
  import opened TableKeys
  import opened Mvcc
  import opened DeltaLog

  type Entry = (seq<byte>, seq<byte>)

  ghost predicate AllDecode(entries: seq<Entry>) {
    forall i :: 0 <= i < |entries| ==> Decode(entries[i].0, entries[i].1).Some?
  }

  ghost function RecsOf(entries: seq<Entry>): (r: seq<Rec>)
    requires AllDecode(entries)
    ensures |r| == |entries|
    ensures forall i :: 0 <= i < |r| ==> r[i] == Decode(entries[i].0, entries[i].1).value
  {
    seq(|entries|, i requires 0 <= i < |entries| => Decode(entries[i].0, entries[i].1).value)
  }

  /** Everything the iterator emits from a list of records. While `seek` it ignores history. */
  function Scan(recs: seq<Rec>, t: nat, seek: bool): (r: seq<Row>)
  {
    if recs == [] then []
    else if !recs[0].header && seek then Scan(recs[1..], t, true)
    else if recs[0].ts >= t then Scan(recs[1..], t, false)
    else if recs[0].freq == 0 then Scan(recs[1..], t, true)
    else [(recs[0].tuple, recs[0].freq)] + Scan(recs[1..], t, true)
  }

  lemma ScanStep(recs: seq<Rec>, at: nat, t: nat, seek: bool)
    requires at < |recs|
    ensures Scan(recs[at..], t, seek) ==
      if !recs[at].header && seek then Scan(recs[at + 1..], t, true)
      else if recs[at].ts >= t then Scan(recs[at + 1..], t, false)
      else if recs[at].freq == 0 then Scan(recs[at + 1..], t, true)
      else [(recs[at].tuple, recs[at].freq)] + Scan(recs[at + 1..], t, true)
  {
    assert recs[at..][0] == recs[at] && recs[at..][1..] == recs[at + 1..];
  }

  lemma ScanEnd(recs: seq<Rec>, at: nat, t: nat, seek: bool)
    requires at == |recs|
    ensures Scan(recs[at..], t, seek) == []
  {
  }

  /** `IndexIter`: a raw iterator over `entries`, positioned on its first entry to begin with. */
  class IndexIter {
    const entries: seq<Entry>
    const timestamp: nat
    var pos: nat
    var first: bool
    var tupleBuffer: seq<Datum>
    var freq: Option<int>

    ghost predicate Valid()
      reads this
    {
      && pos <= |entries| && AllDecode(entries)
      && forall i :: 0 <= i < |entries| ==> |RecsOf(entries)[i].tuple| == |tupleBuffer|
    }

    /** The next entry the raw iterator will be asked for. */
    ghost function Upcoming(): (r: nat)
      reads this
    {
      if first || pos == |entries| then pos else pos + 1
    }

    /** The rows still to come. */
    ghost function Pending(): (r: seq<Row>)
      requires Valid()
      reads this
    {
      Scan(RecsOf(entries)[Upcoming()..], timestamp, true)
    }

    constructor (entries: seq<Entry>, timestamp: nat, columns: nat)
      requires AllDecode(entries)
      requires forall i :: 0 <= i < |entries| ==> |RecsOf(entries)[i].tuple| == columns
      ensures Valid() && first && pos == 0 && this.entries == entries && this.timestamp == timestamp
      ensures Pending() == Scan(RecsOf(entries), timestamp, true)
    {
      this.entries := entries;
      this.timestamp := timestamp;
      pos, first, freq := 0, true, None;
      tupleBuffer := seq(columns, _ => Null);
    }

    /** Moves to the next row. The raw iterator must not be moved once it is past its end. */
    method Advance()
      requires Valid() && (first || pos < |entries|)
      modifies this
      ensures Valid() && !first
      ensures old(Pending()) == [] ==> freq == None && pos == |entries|
      ensures old(Pending()) != [] ==>
        freq.Some? && pos < |entries| && (tupleBuffer, freq.value) == old(Pending())[0]
          && Pending() == old(Pending())[1..]
    {
      hide Decode, DecodeKey, DecodeBody, UnLe, HistoryTs, Scan;
      var seek := true;
      ghost var recs := RecsOf(entries);
      while true
        invariant Valid() && (first || pos < |entries|)
        invariant Scan(recs[Upcoming()..], timestamp, seek) == old(Pending())
        decreases |entries| - pos, first
      {
        ghost var at := Upcoming();
        if first { first := false; } else { pos := pos + 1; }
        if pos == |entries| {
          freq := None;
          ScanEnd(recs, at, timestamp, seek);
          return;
        }
        ScanStep(recs, at, timestamp, seek);
        var (key, value) := entries[pos];
        DecodeSteps(key, value);
        var (pk, suffix) := DecodeKey(key).value;
        tupleBuffer := pk + tupleBuffer[|pk|..];
        var ts: nat;
        if suffix[0] == 0 {
          ts := UnLe(value[..8]);
          value := value[8..];
          seek := false;
        } else if seek {
          continue;
        } else {
          ts := HistoryTs(suffix[..8]);
        }
        if ts >= timestamp { continue; }
        var (f, rest) := DecodeBody(value).value;
        if f == 0 {
          seek := true;
          continue;
        }
        freq := Some(f);
        tupleBuffer := tupleBuffer[..|pk|] + rest;
        return;
      }
    }
  }

  /** The fields of a decodable record, one step at a time. */
  lemma DecodeSteps(k: seq<byte>, v: seq<byte>)
    requires Decode(k, v).Some?
    ensures
      var r := Decode(k, v).value;
      && DecodeKey(k).Some? && DecodeKey(k).value.1 != []
      && var (pk, suffix) := DecodeKey(k).value;
      && r.header == (suffix[0] == 0) && |pk| <= |r.tuple|
      && if r.header then
        && |v| >= 8 && DecodeBody(v[8..]).Some? && r.ts == UnLe(v[..8])
        && r.freq == DecodeBody(v[8..]).value.0 && r.tuple == pk + DecodeBody(v[8..]).value.1
      else
        && |suffix| >= 8 && DecodeBody(v).Some? && r.ts == HistoryTs(suffix[..8])
        && r.freq == DecodeBody(v).value.0 && r.tuple == pk + DecodeBody(v).value.1
  {
    hide DecodeKey, DecodeBody, UnLe;
  }

  /** Reads an iterator to its end, never moving it past there. */
  method Drain(iter: IndexIter) returns (rows: seq<Row>)
    requires iter.Valid() && iter.first
    modifies iter
    ensures rows == old(iter.Pending())
  {
    hide Scan, Decode, RecsOf;
    rows := [];
    ghost var all := iter.Pending();
    iter.Advance();
    while iter.freq.Some?
      invariant iter.Valid() && !iter.first
      invariant iter.freq.Some? ==> iter.pos < |iter.entries|
      invariant |rows| <= |all| && rows == all[..|rows|]
      invariant if iter.freq.None? then |rows| == |all| else
        |rows| < |all| && all[|rows|] == (iter.tupleBuffer, iter.freq.value) && iter.Pending() == all[|rows| + 1..]
      decreases |all| - |rows|, iter.freq.Some?
    {
      rows := rows + [(iter.tupleBuffer, iter.freq.value)];
      iter.Advance();
    }
  }

  // ----- A scan, row by row

  /** One row's records: the header first, then only history. */
  ghost predicate IsGroup(g: seq<Rec>) {
    g != [] ==> g[0].header && forall i :: 0 < i < |g| ==> !g[i].header
  }

  /** The newest record older than `t`, unless its frequency is zero. */
  function GroupRow(g: seq<Rec>, t: nat): (r: seq<Row>)
  {
    if g == [] then []
    else if g[0].ts >= t then GroupRow(g[1..], t)
    else if g[0].freq == 0 then []
    else [(g[0].tuple, g[0].freq)]
  }

  lemma {:induction false} SkipHistory(h: seq<Rec>, more: seq<Rec>, t: nat)
    requires forall i :: 0 <= i < |h| ==> !h[i].header
    ensures Scan(h + more, t, true) == Scan(more, t, true)
  {
    if h == [] {
      assert h + more == more;
    } else {
      assert (h + more)[1..] == h[1..] + more;
      SkipHistory(h[1..], more, t);
    }
  }

  lemma {:induction false} ScanHistory(h: seq<Rec>, more: seq<Rec>, t: nat)
    requires forall i :: 0 <= i < |h| ==> !h[i].header
    requires more != [] ==> more[0].header
    ensures Scan(h + more, t, false) == GroupRow(h, t) + Scan(more, t, true)
  {
    if h == [] {
      assert h + more == more;
      assert Scan(more, t, false) == Scan(more, t, true);
    } else {
      assert (h + more)[1..] == h[1..] + more;
      if h[0].ts >= t { ScanHistory(h[1..], more, t); } else { SkipHistory(h[1..], more, t); }
    }
  }

  lemma ScanGroup(g: seq<Rec>, more: seq<Rec>, t: nat)
    requires IsGroup(g) && (more != [] ==> more[0].header)
    ensures Scan(g + more, t, true) == GroupRow(g, t) + Scan(more, t, true)
  {
    if g == [] {
      assert g + more == more;
    } else {
      assert (g + more)[1..] == g[1..] + more;
      if g[0].ts >= t { ScanHistory(g[1..], more, t); } else { SkipHistory(g[1..], more, t); }
    }
  }

  // ----- What rows a set of versions shows

  /** A decoded row stands for a written one. */
  ghost predicate SameRow1(a: Row, b: Row) {
    a.1 == b.1 && ValidTuple(a.0) && CanonTuple(a.0) == CanonTuple(b.0)
  }

  /** The same rows in the same order, up to equality of SQL values. */
  ghost predicate SameRows(a: seq<Row>, b: seq<Row>) {
    |a| == |b| && forall i :: 0 <= i < |a| ==> SameRow1(a[i], b[i])
  }

  function ShownAt(vs: seq<Version>, t: nat): (r: seq<Row>) {
    match AsOf(vs, t)
    case None => []
    case Some(v) => if v.freq == 0 then [] else [(v.tuple, v.freq)]
  }

  lemma {:induction false} GroupRowFrom(g: seq<Rec>, vs: seq<Version>, t: nat)
    requires |g| == |vs| && forall i :: 0 <= i < |g| ==> Shows(Some(g[i]), g[i].header, Nth(vs, i))
    ensures SameRows(GroupRow(g, t), ShownAt(vs, t))
  {
    if g != [] {
      assert g[0].ts == Nth(vs, 0).ts && g[0].freq == Nth(vs, 0).freq;
      if g[0].ts >= t {
        var vs' := vs[..|vs| - 1];
        forall i | 0 <= i < |g| - 1 ensures Shows(Some(g[1..][i]), g[1..][i].header, Nth(vs', i)) {
          assert Shows(Some(g[i + 1]), g[i + 1].header, Nth(vs, i + 1));
        }
        GroupRowFrom(g[1..], vs', t);
      }
    }
  }
}
