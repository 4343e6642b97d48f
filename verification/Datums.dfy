/** SQL values, their equality and order, and their self-describing sortable encoding. */
module Datums {
  import opened Bytes
  import opened Varint
  import opened ByteChunks
  import opened Decimals

  /** Text and JSON are byte strings; dates and timestamps are the integers that back them. */
  datatype Datum =
    | Null
    | Boolean(b: bool)
    | Integer(i: int)
    | BigInt(i: int)
    | Dec(d: Decimal)
    | ByteA(bytes: seq<byte>)
    | JsonPath(original: seq<byte>)

  predicate ValidDatum(d: Datum) {
    match d
    case Integer(i) => -0x8000_0000 <= i < 0x8000_0000
    case BigInt(i) => IsI64(i)
    case Dec(d) => d.Valid()
    case _ => true
  }

  predicate ValidTuple(t: seq<Datum>) {
    forall i :: 0 <= i < |t| ==> ValidDatum(t[i])
  }

  // ----- Equality

  /** The representative of all decimals equal to `d`: no trailing zeros, no negative zero. */
  function CanonDecimal(d: Decimal): (r: Decimal) {
    var (m, s) := Strip(d.mantissa, d.scale);
    Decimal(d.negative && m > 0, m, s)
  }

  function Canon(d: Datum): (r: Datum) {
    if d.Dec? then Dec(CanonDecimal(d.d)) else d
  }

  function CanonTuple(t: seq<Datum>): (r: seq<Datum>)
    ensures |r| == |t|
    ensures forall i :: 0 <= i < |t| ==> r[i] == Canon(t[i])
  {
    seq(|t|, i requires 0 <= i < |t| => Canon(t[i]))
  }

  /** `Datum::sql_eq`: null equals null only when asked to. */
  predicate SqlEq(a: Datum, b: Datum, nullSafe: bool) {
    if a.Null? then b.Null? && nullSafe else Canon(a) == Canon(b)
  }

  lemma {:induction false} StripNormal(m: nat, s: nat)
    ensures Strip(m, s).1 > 0 ==> Strip(m, s).0 % 10 != 0
  {
    if s > 0 && m % 10 == 0 { StripNormal(m / 10, s - 1); }
  }

  lemma StripMagnitude(m: nat, s: nat)
    requires s <= 55
    ensures Magnitude(Strip(m, s).0, Strip(m, s).1) == Magnitude(m, s)
    ensures m == 0 <==> Strip(m, s).0 == 0
  {
    StripValue(m, s);
    MagnitudeShift(Strip(m, s).0, Strip(m, s).1, s - Strip(m, s).1);
  }

  lemma NormalUnique(m: nat, s: nat, n: nat, t: nat)
    requires s <= 55 && t <= 55 && Magnitude(m, s) == Magnitude(n, t)
    requires (s > 0 ==> m % 10 != 0) && (t > 0 ==> n % 10 != 0)
    ensures m == n && s == t
  {
    if s < t {
      NotNormal(m, s, n, t);
    } else if t < s {
      NotNormal(n, t, m, s);
    } else if m < n {
      MulStrict(m, n, Pow10(55 - s));
    } else if n < m {
      MulStrict(n, m, Pow10(55 - s));
    }
  }

  lemma NotNormal(m: nat, s: nat, n: nat, t: nat)
    requires s < t <= 55 && Magnitude(m, s) == Magnitude(n, t)
    ensures n % 10 == 0
  {
    var k := t - s;
    MagnitudeShift(m, s, k);
    MulCancel(m * Pow10(k), n, Pow10(55 - t));
    MulTen(m, Pow10(k - 1));
  }

  lemma MulCancel(a: nat, b: nat, p: nat)
    requires a * p == b * p && p > 0
    ensures a == b
  {
    if a < b { MulStrict(a, b, p); } else if b < a { MulStrict(b, a, p); }
  }

  lemma MulTen(m: nat, p: nat)
    ensures m * (10 * p) == 10 * (m * p) && (10 * (m * p)) % 10 == 0
  {
  }

  /** Canonical decimals coincide exactly when the numbers do. */
  lemma CanonValue(a: Decimal, b: Decimal)
    requires a.scale <= 28 && b.scale <= 28
    ensures CanonDecimal(a) == CanonDecimal(b) <==> Value(a) == Value(b)
  {
    StripMagnitude(a.mantissa, a.scale);
    StripMagnitude(b.mantissa, b.scale);
    StripNormal(a.mantissa, a.scale);
    StripNormal(b.mantissa, b.scale);
    var (m, s) := Strip(a.mantissa, a.scale);
    var (n, t) := Strip(b.mantissa, b.scale);
    MulAtLeast(m, Pow10(55 - s));
    MulAtLeast(n, Pow10(55 - t));
    if Value(a) == Value(b) { NormalUnique(m, s, n, t); }
  }

  // ----- Order

  /** `Datum::cmp`, specified for values of one type and nulls. */
  function DatumCmp(a: Datum, b: Datum): (r: int)
    requires ValidDatum(a) && ValidDatum(b)
  {
    match a
    case Null => if b.Null? then 0 else -1
    case Boolean(x) => if b.Boolean? then if x == b.b then 0 else if b.b then -1 else 1 else 1
    case Integer(x) => if b.Integer? then Sign(x - b.i) else 1
    case BigInt(x) => if b.BigInt? then Sign(x - b.i) else 1
    case Dec(x) => if b.Dec? then Sign(Value(x) - Value(b.d)) else 1
    case ByteA(x) => if b.ByteA? then Cmp(x, b.bytes) else 1
    case JsonPath(x) => if b.JsonPath? then Cmp(x, b.original) else 1
  }

  /** Values of one type are equal under `sql_eq` exactly when they compare equal. */
  lemma CmpIsEqual(a: Datum, b: Datum)
    requires ValidDatum(a) && ValidDatum(b) && Comparable(a, b) && !a.Null? && !b.Null?
    ensures SqlEq(a, b, false) <==> DatumCmp(a, b) == 0
  {
    match a
    case Dec(x) => CanonValue(x, b.d);
    case _ =>
  }

  function Kind(d: Datum): (r: nat) {
    match d
    case Null => 0
    case Boolean(_) => 1
    case Integer(_) => 2
    case BigInt(_) => 3
    case Dec(_) => 4
    case ByteA(_) => 5
    case JsonPath(_) => 6
  }

  predicate Comparable(a: Datum, b: Datum) {
    Kind(a) == Kind(b) || a.Null? || b.Null?
  }

  // ----- Encoding

  function Tag(d: Datum): (r: byte)
    ensures 1 <= r <= 8
  {
    match d
    case Null => 1
    case Boolean(b) => if b then 3 else 2
    case Integer(_) => 4
    case BigInt(_) => 5
    case Dec(_) => 6
    case ByteA(_) => 7
    case JsonPath(_) => 8
  }

  function Body(d: Datum, o: SortOrder): (r: seq<byte>)
    requires ValidDatum(d)
  {
    match d
    case Null => []
    case Boolean(_) => []
    case Integer(i) => WriteSigned(i, o)
    case BigInt(i) => WriteSigned(i, o)
    case Dec(d) => WriteDecimal(d, o)
    case ByteA(bytes) => WriteBytes(bytes, o)
    case JsonPath(original) => WriteBytes(original, o)
  }

  function WriteDatum(d: Datum, o: SortOrder): (r: seq<byte>)
    requires ValidDatum(d)
    ensures r != [] && r[0] == (if o.Asc? then Tag(d) else 255 - Tag(d))
  {
    [if o.Asc? then Tag(d) else 255 - Tag(d)] + Body(d, o)
  }

  /** What the codes of two datums compare as, whatever their types. */
  function CodeCmp(a: Datum, b: Datum): (r: int)
    requires ValidDatum(a) && ValidDatum(b)
  {
    if Kind(a) == Kind(b) then DatumCmp(a, b) else Sign(Kind(a) - Kind(b))
  }

  lemma CodeCmpIsCmp(a: Datum, b: Datum)
    requires ValidDatum(a) && ValidDatum(b)
    ensures Comparable(a, b) ==> CodeCmp(a, b) == DatumCmp(a, b)
    ensures CodeCmp(a, b) == 0 <==> SqlEq(a, b, true)
    ensures SqlEq(a, b, true) <==> Canon(a) == Canon(b)
  {
    if a.Dec? && b.Dec? { CanonValue(a.d, b.d); }
  }

  /** One column decides a comparison exactly as `Datum::cmp` does, reversed for Desc; equal
      values have equal codes, and no code is a prefix of another. */
  lemma DatumOrder(a: Datum, b: Datum, o: SortOrder, x: seq<byte>, y: seq<byte>)
    requires ValidDatum(a) && ValidDatum(b)
    ensures Cmp(WriteDatum(a, o) + x, WriteDatum(b, o) + y) ==
      if CodeCmp(a, b) == 0 then Cmp(x, y) else Directed(o, CodeCmp(a, b))
  {
    TagsDecide(a, b);
    CmpTagged(if o.Asc? then Tag(a) else 255 - Tag(a), if o.Asc? then Tag(b) else 255 - Tag(b),
              Body(a, o), Body(b, o), x, y);
    if Tag(a) == Tag(b) { BodyOrder(a, b, o, x, y); }
  }

  lemma TagsDecide(a: Datum, b: Datum)
    requires ValidDatum(a) && ValidDatum(b)
    ensures Tag(a) != Tag(b) ==> CodeCmp(a, b) == Sign(Tag(a) as int - Tag(b) as int)
    ensures Tag(a) == Tag(b) ==> CodeCmp(a, b) == DatumCmp(a, b)
  {
  }

  lemma CmpTagged(c: byte, d: byte, u: seq<byte>, v: seq<byte>, x: seq<byte>, y: seq<byte>)
    ensures Cmp([c] + u + x, [d] + v + y) == if c < d then -1 else if c > d then 1 else Cmp(u + x, v + y)
  {
    assert [c] + u + x == [c] + (u + x) && [d] + v + y == [d] + (v + y);
    CmpHead(c, d, u + x, v + y);
  }

  lemma BodyOrder(a: Datum, b: Datum, o: SortOrder, x: seq<byte>, y: seq<byte>)
    requires ValidDatum(a) && ValidDatum(b) && Tag(a) == Tag(b)
    ensures Cmp(Body(a, o) + x, Body(b, o) + y) ==
      if DatumCmp(a, b) == 0 then Cmp(x, y) else Directed(o, DatumCmp(a, b))
  {
    match a
    case Null => assert [] + x == x && [] + y == y;
    case Boolean(_) => assert [] + x == x && [] + y == y;
    case Integer(i) => SignedOrder(i, b.i, o, x, y);
    case BigInt(i) => SignedOrder(i, b.i, o, x, y);
    case Dec(d) => DecimalOrder(d, b.d, o, x, y);
    case ByteA(s) => BytesOrder(s, b.bytes, o, x, y);
    case JsonPath(s) => BytesOrder(s, b.original, o, x, y);
  }

  /** `i64 as i32`. */
  function ToI32(i: int): (r: int) {
    var u := i % U32;
    if u < 0x8000_0000 then u else u - U32
  }

  /** The payload that follows tag `t`. */
  function ReadBody(t: byte, o: SortOrder, rem: seq<byte>): (r: Option<(Datum, seq<byte>)>)
  {
    if t == 1 then Some((Null, rem))
    else if t == 2 then Some((Boolean(false), rem))
    else if t == 3 then Some((Boolean(true), rem))
    else if t == 4 then match ReadSigned(o, rem) case None => None case Some((i, r)) => Some((Integer(ToI32(i)), r))
    else if t == 5 then match ReadSigned(o, rem) case None => None case Some((i, r)) => Some((BigInt(i), r))
    else if t == 6 then match ReadDecimal(o, rem) case None => None case Some((d, r)) => Some((Dec(d), r))
    else if t == 7 then match ReadBytes(o, rem) case None => None case Some((s, r)) => Some((ByteA(s), r))
    else if t == 8 then match ReadBytes(o, rem) case None => None case Some((s, r)) => Some((JsonPath(s), r))
    else None
  }

  /** The datum at the front of a buffer and the rest; the order is read off the first byte. */
  function ReadDatum(buffer: seq<byte>): (r: Option<(Datum, seq<byte>)>)
  {
    if buffer == [] then None
    else if buffer[0] < 127 then ReadBody(buffer[0], Asc, buffer[1..])
    else ReadBody(255 - buffer[0], Desc, buffer[1..])
  }

  lemma DecimalBody(v: Decimal, o: SortOrder, rest: seq<byte>)
    requires v.Valid()
    ensures
      var r := ReadDecimal(o, WriteDecimal(v, o) + rest);
      r.Some? && r.value.1 == rest && r.value.0.Valid() && CanonDecimal(r.value.0) == CanonDecimal(v)
  {
    DecimalRoundTrip(v, o, rest);
    CanonValue(ReadDecimal(o, WriteDecimal(v, o) + rest).value.0, v);
  }

  predicate ReadsBack(r: Option<(Datum, seq<byte>)>, d: Datum, rest: seq<byte>) {
    r.Some? && r.value.1 == rest && ValidDatum(r.value.0) && Canon(r.value.0) == Canon(d)
      && (!d.Dec? ==> r.value.0 == d)
  }

  lemma BodyRoundTrip(d: Datum, o: SortOrder, rest: seq<byte>)
    requires ValidDatum(d)
    ensures ReadsBack(ReadBody(Tag(d), o, Body(d, o) + rest), d, rest)
  {
    hide ReadSigned, ReadDecimal, ReadBytes, WriteSigned, WriteDecimal, WriteBytes, CanonDecimal;
    if d.Null? || d.Boolean? {
      assert [] + rest == rest;
    } else if d.Integer? || d.BigInt? {
      SignedRoundTrip(d.i, o, rest);
    } else if d.Dec? {
      DecimalBody(d.d, o, rest);
    } else {
      BytesRoundTrip(if d.ByteA? then d.bytes else d.original, o, rest);
    }
  }

  /** Decoding a datum followed by anything returns an equal datum and exactly what followed. */
  lemma DatumRoundTrip(d: Datum, o: SortOrder, rest: seq<byte>)
    requires ValidDatum(d)
    ensures ReadsBack(ReadDatum(WriteDatum(d, o) + rest), d, rest)
  {
    var t := if o.Asc? then Tag(d) else 255 - Tag(d);
    assert ([t] + Body(d, o) + rest)[1..] == Body(d, o) + rest;
    BodyRoundTrip(d, o, rest);
  }

  // ----- Tuples

  /** The concatenated codes of a tuple's columns, one sort order a column. */
  function WriteTuple(t: seq<Datum>, orders: seq<SortOrder>): (r: seq<byte>)
    requires |t| == |orders| && ValidTuple(t)
  {
    if t == [] then [] else WriteDatum(t[0], orders[0]) + WriteTuple(t[1..], orders[1..])
  }

  /** Column-by-column comparison, descending columns reversed. */
  function TupleCmp(a: seq<Datum>, b: seq<Datum>, orders: seq<SortOrder>): (r: int)
    requires |a| == |b| == |orders| && ValidTuple(a) && ValidTuple(b)
  {
    if a == [] then 0
    else if CodeCmp(a[0], b[0]) != 0 then Directed(orders[0], CodeCmp(a[0], b[0]))
    else TupleCmp(a[1..], b[1..], orders[1..])
  }

  function Reversed(o: SortOrder): (r: SortOrder) { if o.Asc? then Desc else Asc }

  /** Turning every direction round turns the order round, and nulls come first going up. */
  lemma {:induction false} TupleReversed(a: seq<Datum>, b: seq<Datum>, orders: seq<SortOrder>, turned: seq<SortOrder>)
    requires |a| == |b| == |orders| == |turned| && ValidTuple(a) && ValidTuple(b)
    requires forall i :: 0 <= i < |orders| ==> turned[i] == Reversed(orders[i])
    ensures TupleCmp(a, b, turned) == -TupleCmp(a, b, orders)
    ensures |a| > 0 && orders[0].Asc? && a[0].Null? && !b[0].Null? ==> TupleCmp(a, b, orders) < 0
  {
    if a != [] { TupleReversed(a[1..], b[1..], orders[1..], turned[1..]); }
  }

  /** Lexicographic byte order of whole tuples is their column order, and a tuple's code is
      never a proper prefix of another's. */
  lemma {:induction false} TupleOrder(a: seq<Datum>, b: seq<Datum>, orders: seq<SortOrder>, x: seq<byte>, y: seq<byte>)
    requires |a| == |b| == |orders| && ValidTuple(a) && ValidTuple(b)
    ensures Cmp(WriteTuple(a, orders) + x, WriteTuple(b, orders) + y) ==
      if TupleCmp(a, b, orders) == 0 then Cmp(x, y) else TupleCmp(a, b, orders)
  {
    if a == [] {
      assert [] + x == x && [] + y == y;
    } else {
      var x', y' := WriteTuple(a[1..], orders[1..]) + x, WriteTuple(b[1..], orders[1..]) + y;
      WriteTupleUnfold(a, orders, x);
      WriteTupleUnfold(b, orders, y);
      DatumOrder(a[0], b[0], orders[0], x', y');
      TupleOrder(a[1..], b[1..], orders[1..], x, y);
    }
  }

  /** Codes are canonical and injective up to datum equality. */
  lemma {:induction false} TupleCanonical(a: seq<Datum>, b: seq<Datum>, orders: seq<SortOrder>)
    requires |a| == |b| == |orders| && ValidTuple(a) && ValidTuple(b)
    ensures WriteTuple(a, orders) == WriteTuple(b, orders) <==> CanonTuple(a) == CanonTuple(b)
    ensures TupleCmp(a, b, orders) == 0 <==> CanonTuple(a) == CanonTuple(b)
  {
    TupleOrder(a, b, orders, [], []);
    assert WriteTuple(a, orders) + [] == WriteTuple(a, orders) && WriteTuple(b, orders) + [] == WriteTuple(b, orders);
    TupleCmpZero(a, b, orders);
  }

  lemma {:induction false} TupleCmpZero(a: seq<Datum>, b: seq<Datum>, orders: seq<SortOrder>)
    requires |a| == |b| == |orders| && ValidTuple(a) && ValidTuple(b)
    ensures TupleCmp(a, b, orders) == 0 <==> CanonTuple(a) == CanonTuple(b)
  {
    if a != [] {
      CodeCmpIsCmp(a[0], b[0]);
      TupleCmpZero(a[1..], b[1..], orders[1..]);
      CanonSplit(a, b);
    }
  }

  /** Reads `n` datums off the front of a buffer. */
  function ReadTuple(n: nat, buffer: seq<byte>): (r: Option<(seq<Datum>, seq<byte>)>)
    ensures r.Some? ==> |r.value.0| == n
  {
    if n == 0 then Some(([], buffer))
    else match ReadDatum(buffer)
      case None => None
      case Some((d, rem)) =>
        match ReadTuple(n - 1, rem)
        case None => None
        case Some((t, rest)) => Some(([d] + t, rest))
  }

  /** A sequence of codes of any length and any mix of orders decodes uniquely. */
  lemma {:induction false} TupleRoundTrip(t: seq<Datum>, orders: seq<SortOrder>, rest: seq<byte>)
    requires |t| == |orders| && ValidTuple(t)
    ensures
      var r := ReadTuple(|t|, WriteTuple(t, orders) + rest);
      r.Some? && r.value.1 == rest && ValidTuple(r.value.0) && CanonTuple(r.value.0) == CanonTuple(t)
  {
    hide ReadDatum, WriteDatum;
    if t == [] {
      assert [] + rest == rest;
    } else {
      var more := WriteTuple(t[1..], orders[1..]) + rest;
      WriteTupleUnfold(t, orders, rest);
      DatumRoundTrip(t[0], orders[0], more);
      TupleRoundTrip(t[1..], orders[1..], rest);
      var d := ReadDatum(WriteDatum(t[0], orders[0]) + more).value.0;
      CanonSplit([d] + ReadTuple(|t| - 1, more).value.0, t);
    }
  }

  lemma WriteTupleUnfold(t: seq<Datum>, orders: seq<SortOrder>, rest: seq<byte>)
    requires t != [] && |t| == |orders| && ValidTuple(t)
    ensures WriteTuple(t, orders) + rest == WriteDatum(t[0], orders[0]) + (WriteTuple(t[1..], orders[1..]) + rest)
  {
  }

  lemma CanonSplit(a: seq<Datum>, b: seq<Datum>)
    requires a != [] && |a| == |b|
    ensures CanonTuple(a) == CanonTuple(b) <==> Canon(a[0]) == Canon(b[0]) && CanonTuple(a[1..]) == CanonTuple(b[1..])
  {
    assert CanonTuple(a)[1..] == CanonTuple(a[1..]) && CanonTuple(b)[1..] == CanonTuple(b[1..]);
    assert CanonTuple(a) == [CanonTuple(a)[0]] + CanonTuple(a)[1..]
      && CanonTuple(b) == [CanonTuple(b)[0]] + CanonTuple(b)[1..];
  }
}
