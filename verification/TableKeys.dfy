/** How a table's records become key and value bytes in the ordered store, and back. */
module TableKeys {
  import opened Bags
  import opened Bytes
  import opened Varint
  import opened Decimals
  import opened Datums

  datatype Table = Table(id: nat, length: nat, pk: seq<SortOrder>) {
    predicate Valid() {
      id % 2 == 0 && id + 1 < U32 && |pk| <= length < U64
    }
  }

  /** A key holds a frequency and the tuple as of a timestamp. */
  datatype Version = Version(ts: nat, freq: int, tuple: seq<Datum>)

  /** Below this, the first byte of an inverted timestamp is never 0, the header marker. */
  const TS_LIMIT := U64 - 0x100_0000_0000_0000

  predicate ValidTupleOf(table: Table, tuple: seq<Datum>) {
    table.Valid() && |tuple| == table.length && ValidTuple(tuple)
  }

  predicate ValidVersion(table: Table, v: Version) {
    ValidTupleOf(table, v.tuple) && v.ts < TS_LIMIT && IsI64(v.freq)
  }

  // ----- Keys

  /** The key bytes for the leading primary key columns `cols`. */
  function KeyPrefix(table: Table, cols: seq<Datum>): (r: seq<byte>)
    requires table.Valid() && |cols| <= |table.pk| && ValidTuple(cols)
  {
    Be(4, table.id) + WriteUnsigned(|table.pk|, Asc) + WriteTuple(cols, table.pk[..|cols|])
  }

  /** `write_range_key`: where a scan over a key or key prefix starts or (exclusively) ends. */
  function RangeKey(table: Table, tuple: seq<Datum>, end: bool): (r: seq<byte>)
    requires table.Valid() && ValidTuple(tuple)
  {
    KeyPrefix(table, Cols(table, tuple)) + [if end then 255 else 0]
  }

  /** The columns of `tuple` that are zipped with the primary key. */
  function Cols(table: Table, tuple: seq<Datum>): (r: seq<Datum>)
    requires ValidTuple(tuple)
    ensures |r| <= |table.pk| && ValidTuple(r)
  {
    if |tuple| <= |table.pk| then tuple else tuple[..|table.pk|]
  }

  /** The part of the key that identifies the row: everything before the timestamp. */
  function Base(table: Table, tuple: seq<Datum>): (r: seq<byte>)
    requires ValidTupleOf(table, tuple)
  {
    KeyPrefix(table, Cols(table, tuple))
  }

  function HeaderKey(base: seq<byte>): (r: seq<byte>) {
    base + [0]
  }

  function HistoryKey(base: seq<byte>, ts: nat): (r: seq<byte>)
    requires ts < U64
  {
    base + Be(8, U64 - 1 - ts)
  }

  lemma PrefixOrder(table: Table, a: seq<Datum>, b: seq<Datum>, x: seq<byte>, y: seq<byte>)
    requires table.Valid() && |a| == |b| <= |table.pk| && ValidTuple(a) && ValidTuple(b)
    ensures
      var c := TupleCmp(a, b, table.pk[..|a|]);
      Cmp(KeyPrefix(table, a) + x, KeyPrefix(table, b) + y) == if c == 0 then Cmp(x, y) else c
  {
    var orders := table.pk[..|a|];
    var p := Be(4, table.id) + WriteUnsigned(|table.pk|, Asc);
    Regroup(p, WriteTuple(a, orders), x);
    Regroup(p, WriteTuple(b, orders), y);
    CmpPrefix(p, WriteTuple(a, orders) + x, WriteTuple(b, orders) + y);
    TupleOrder(a, b, orders, x, y);
  }

  /** Row identities are prefix-free: two of them decide a comparison unless they are equal. */
  lemma BaseOrder(table: Table, a: seq<Datum>, b: seq<Datum>, x: seq<byte>, y: seq<byte>)
    requires ValidTupleOf(table, a) && ValidTupleOf(table, b)
    ensures Cmp(Base(table, a) + x, Base(table, b) + y) ==
      if Base(table, a) == Base(table, b) then Cmp(x, y) else Cmp(Base(table, a), Base(table, b))
  {
    PrefixOrder(table, Cols(table, a), Cols(table, b), x, y);
    PrefixOrder(table, Cols(table, a), Cols(table, b), [], []);
    assert Base(table, a) + [] == Base(table, a) && Base(table, b) + [] == Base(table, b);
  }

  /** Two tuples name the same row exactly when their primary keys are equal as SQL values. */
  lemma SameRow(table: Table, a: seq<Datum>, b: seq<Datum>)
    requires ValidTupleOf(table, a) && ValidTupleOf(table, b)
    ensures Base(table, a) == Base(table, b) <==> CanonTuple(Cols(table, a)) == CanonTuple(Cols(table, b))
  {
    var p, q := Cols(table, a), Cols(table, b);
    PrefixOrder(table, p, q, [], []);
    assert Base(table, a) + [] == Base(table, a) && Base(table, b) + [] == Base(table, b);
    TupleCanonical(p, q, table.pk[..|p|]);
  }

  /** The key range that belongs to a table. */
  predicate InTable(id: nat, k: seq<byte>) {
    Cmp(Be(4, id), k) <= 0 && Cmp(k, Be(4, id + 1)) < 0
  }

  lemma PrefixInTable(table: Table, cols: seq<Datum>, x: seq<byte>)
    requires table.Valid() && |cols| <= |table.pk| && ValidTuple(cols)
    ensures InTable(table.id, KeyPrefix(table, cols) + x)
  {
    PowConstants();
    var rest := WriteUnsigned(|table.pk|, Asc) + WriteTuple(cols, table.pk[..|cols|]) + x;
    assert KeyPrefix(table, cols) + x == Be(4, table.id) + rest;
    BeOrder(4, table.id, table.id, [], rest);
    BeOrder(4, table.id, table.id + 1, rest, []);
    assert Be(4, table.id) + [] == Be(4, table.id) && Be(4, table.id + 1) + [] == Be(4, table.id + 1);
  }

  /** Ranges of different tables are disjoint. */
  lemma TablesDisjoint(a: nat, b: nat, k: seq<byte>)
    requires a < b && b + 1 < U32 && InTable(a, k)
    ensures !InTable(b, k)
  {
    PowConstants();
    BeOrder(4, a + 1, b, [], []);
    assert Be(4, a + 1) + [] == Be(4, a + 1) && Be(4, b) + [] == Be(4, b);
    if InTable(b, k) {
      CmpTransitive(Be(4, b), k, Be(4, a + 1));
      CmpAntisymmetric(Be(4, b), Be(4, a + 1));
    }
  }

  // ----- Values

  function Rest(table: Table, tuple: seq<Datum>): (r: seq<Datum>)
    requires ValidTupleOf(table, tuple)
    ensures ValidTuple(r)
  {
    tuple[|table.pk|..]
  }

  /** The value of a history record: frequency and non-key columns. */
  function RecordValue(table: Table, v: Version): (r: seq<byte>)
    requires ValidVersion(table, v)
  {
    var rest := Rest(table, v.tuple);
    WriteSigned(v.freq, Asc) + (WriteUnsigned(|rest|, Asc) + WriteTuple(rest, Ascs(|rest|)))
  }

  /** The value of a header record: the same, after the timestamp. */
  function HeaderValue(table: Table, v: Version): (r: seq<byte>)
    requires ValidVersion(table, v)
  {
    Le(8, v.ts) + RecordValue(table, v)
  }

  // ----- Reading records back

  /** Primary key columns and what follows them in a key. */
  function DecodeKey(k: seq<byte>): (r: Option<(seq<Datum>, seq<byte>)>)
  {
    if |k| < 4 then None
    else match ReadUnsigned(Asc, k[4..])
      case None => None
      case Some((n, rem)) => ReadTuple(n, rem)
  }

  function DecodeBody(body: seq<byte>): (r: Option<(int, seq<Datum>)>)
  {
    match ReadSigned(Asc, body)
    case None => None
    case Some((freq, rem)) =>
      match ReadUnsigned(Asc, rem)
      case None => None
      case Some((n, rem')) =>
        match ReadTuple(n, rem')
        case None => None
        case Some((t, _)) => Some((freq, t))
  }

  /** A record as the index iterator sees it. */
  datatype Rec = Rec(header: bool, ts: nat, freq: int, tuple: seq<Datum>)

  function Decode(k: seq<byte>, v: seq<byte>): (r: Option<Rec>)
  {
    match DecodeKey(k)
    case None => None
    case Some((pk, suffix)) =>
      if suffix == [] then None
      else if suffix[0] == 0 then
        if |v| < 8 then None
        else match DecodeBody(v[8..])
          case None => None
          case Some((freq, rest)) => Some(Rec(true, UnLe(v[..8]), freq, pk + rest))
      else if |suffix| < 8 then None
      else
        match DecodeBody(v)
        case None => None
        case Some((freq, rest)) => Some(Rec(false, HistoryTs(suffix[..8]), freq, pk + rest))
  }

  function HistoryTs(s: seq<byte>): (r: nat)
    requires |s| == 8
  {
    BeUnBe(s);
    PowConstants();
    U64 - 1 - UnBe(s)
  }

  lemma DecodeKeyOf(table: Table, tuple: seq<Datum>, suffix: seq<byte>)
    requires ValidTupleOf(table, tuple)
    ensures
      var r := DecodeKey(Base(table, tuple) + suffix);
      r.Some? && r.value.1 == suffix && ValidTuple(r.value.0) && CanonTuple(r.value.0) == CanonTuple(Cols(table, tuple))
  {
    hide WriteTuple, ReadTuple, WriteUnsigned, ReadUnsigned, CanonTuple, Be;
    var cols := Cols(table, tuple);
    var w := WriteTuple(cols, table.pk[..|cols|]) + suffix;
    var u := WriteUnsigned(|table.pk|, Asc);
    assert Base(table, tuple) + suffix == Be(4, table.id) + (u + w);
    DropFour(Be(4, table.id), u + w);
    UnsignedRoundTrip(|table.pk|, Asc, w);
    TupleRoundTrip(cols, table.pk[..|cols|], suffix);
  }

  lemma DropFour(a: seq<byte>, b: seq<byte>)
    requires |a| == 4
    ensures (a + b)[4..] == b
  {
  }

  lemma DecodeBodyOf(table: Table, v: Version)
    requires ValidVersion(table, v)
    ensures
      var r := DecodeBody(RecordValue(table, v));
      r.Some? && r.value.0 == v.freq && ValidTuple(r.value.1)
        && CanonTuple(r.value.1) == CanonTuple(Rest(table, v.tuple))
  {
    var rest := Rest(table, v.tuple);
    var w := WriteTuple(rest, Ascs(|rest|));
    SignedRoundTrip(v.freq, Asc, WriteUnsigned(|rest|, Asc) + w);
    UnsignedRoundTrip(|rest|, Asc, w);
    TupleRoundTrip(rest, Ascs(|rest|), []);
    assert w + [] == w;
  }

  /** What the iterator decodes from a record of version `v`. */
  predicate Shows(r: Option<Rec>, header: bool, v: Version) {
    r.Some? && r.value.header == header && r.value.ts == v.ts && r.value.freq == v.freq
    && ValidTuple(r.value.tuple) && CanonTuple(r.value.tuple) == CanonTuple(v.tuple)
  }

  lemma CanonConcat(a: seq<Datum>, b: seq<Datum>)
    ensures CanonTuple(a + b) == CanonTuple(a) + CanonTuple(b)
  {
  }

  lemma CanonJoin(pk: seq<Datum>, rest: seq<Datum>, table: Table, tuple: seq<Datum>)
    requires ValidTupleOf(table, tuple)
    requires CanonTuple(pk) == CanonTuple(Cols(table, tuple)) && CanonTuple(rest) == CanonTuple(Rest(table, tuple))
    ensures CanonTuple(pk + rest) == CanonTuple(tuple)
  {
    assert tuple == Cols(table, tuple) + Rest(table, tuple);
    CanonConcat(pk, rest);
    CanonConcat(Cols(table, tuple), Rest(table, tuple));
  }

  lemma DecodeHeader(table: Table, v: Version)
    requires ValidVersion(table, v)
    ensures Shows(Decode(HeaderKey(Base(table, v.tuple)), HeaderValue(table, v)), true, v)
  {
    PowConstants();
    DecodeKeyOf(table, v.tuple, [0]);
    var value := HeaderValue(table, v);
    assert value[..8] == Le(8, v.ts) && value[8..] == RecordValue(table, v);
    UnLeLe(8, v.ts);
    DecodeBodyOf(table, v);
    CanonJoin(DecodeKey(HeaderKey(Base(table, v.tuple))).value.0, DecodeBody(value[8..]).value.1, table, v.tuple);
  }

  lemma HistorySuffix(ts: nat)
    requires ts < TS_LIMIT
    ensures Be(8, U64 - 1 - ts)[0] != 0
    ensures HistoryTs(Be(8, U64 - 1 - ts)) == ts
    ensures Cmp([0], Be(8, U64 - 1 - ts)) < 0
  {
    PowConstants();
    var u := U64 - 1 - ts;
    UnBeBe(8, u);
    FirstOf8(u);
    assert Be(8, u) == [Be(8, u)[0]] + Be(8, u)[1..];
    CmpHead(0, Be(8, u)[0], [], Be(8, u)[1..]);
    assert [0] + [] == [0];
  }

  lemma {:induction false} FirstOf(n: nat, u: nat)
    requires n > 0 && u < Pow256(n)
    ensures Be(n, u)[0] as int == u / Pow256(n - 1)
  {
    if n > 1 {
      FirstOf(n - 1, u / 256);
      DivDiv(u, Pow256(n - 2));
    }
  }

  lemma DivDiv(u: nat, p: nat)
    requires p > 0
    ensures u / 256 / p == u / (256 * p)
  {
    var q, r := u / 256 / p, u / 256 % p;
    assert u / 256 == q * p + r;
    var s := r * 256 + u % 256;
    assert u == (q * p + r) * 256 + u % 256 == q * (256 * p) + s;
    assert 0 <= s < 256 * p;
    DivUnique(u, 256 * p, q, s);
  }

  lemma DivUnique(u: nat, d: nat, q: nat, r: nat)
    requires d > 0 && r < d && u == q * d + r
    ensures u / d == q
  {
    var k := u / d;
    assert u == k * d + u % d;
    if k < q { MulMono(k + 1, q, d); } else if q < k { MulMono(q + 1, k, d); }
  }

  lemma FirstOf8(u: nat)
    requires u < U64
    ensures Be(8, u)[0] as int == u / 0x100_0000_0000_0000
  {
    PowConstants();
    assert Pow256(8) == 256 * Pow256(7);
    FirstOf(8, u);
  }

  lemma DecodeHistoryParts(k: seq<byte>, v: seq<byte>)
    requires DecodeKey(k).Some? && DecodeBody(v).Some?
    requires |DecodeKey(k).value.1| == 8 && DecodeKey(k).value.1[0] != 0
    ensures Decode(k, v) == Some(Rec(false, HistoryTs(DecodeKey(k).value.1), DecodeBody(v).value.0,
                                     DecodeKey(k).value.0 + DecodeBody(v).value.1))
  {
    var suffix := DecodeKey(k).value.1;
    assert suffix[..8] == suffix;
  }

  lemma DecodeHistory(table: Table, v: Version)
    requires ValidVersion(table, v)
    ensures Shows(Decode(HistoryKey(Base(table, v.tuple), v.ts), RecordValue(table, v)), false, v)
  {
    hide DecodeKey, DecodeBody;
    var k, value := HistoryKey(Base(table, v.tuple), v.ts), RecordValue(table, v);
    DecodeKeyOf(table, v.tuple, Be(8, U64 - 1 - v.ts));
    HistorySuffix(v.ts);
    DecodeBodyOf(table, v);
    DecodeHistoryParts(k, value);
    CanonJoin(DecodeKey(k).value.0, DecodeBody(value).value.1, table, v.tuple);
  }
}
