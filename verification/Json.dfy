/** The JSON tape: length-prefixed binary JSON, how it is read, and exactly which trees survive it. */
module Json {
  import opened Bytes

  /** A number is a signed mantissa over a power of ten. */
  datatype Json =
    | JsonNull
    | JsonBool(b: bool)
    | JsonNumber(m: int, scale: nat)
    | JsonString(s: seq<byte>)
    | JsonArray(items: seq<Json>)
    | JsonObject(entries: seq<Entry>)

  datatype Entry = Entry(key: seq<byte>, value: Json)

  const P96: int := 0x1_0000_0000_0000_0000_0000_0000
  const P95: int := 0x8000_0000_0000_0000_0000_0000
  const U32_MAX: int := 0xFFFF_FFFF

  // ----- Little-endian two's complement

  function Signed(s: seq<byte>): (r: int)
    requires s != []
  {
    if s[|s| - 1] >= 128 then UnLe(s) - Pow256(|s|) else UnLe(s)
  }

  lemma {:induction false} UnLeNegative(n: nat, x: int)
    requires 0 - Pow256(n) <= x < 0
    ensures UnLe(Le(n, x)) == x + Pow256(n)
  {
    if n > 0 { UnLeNegative(n - 1, x / 256); }
  }

  lemma {:induction false} TopBit(s: seq<byte>)
    requires s != []
    ensures UnLe(s) < Pow256(|s|)
    ensures s[|s| - 1] >= 128 <==> UnLe(s) >= 128 * Pow256(|s| - 1)
  {
    if |s| > 1 {
      TopBit(s[1..]);
      assert s[1..][|s| - 2] == s[|s| - 1];
    } else {
      assert s[1..] == [];
      assert Pow256(1) == 256 * Pow256(0);
    }
  }

  lemma SignedRange(s: seq<byte>)
    requires s != []
    ensures -128 * Pow256(|s| - 1) <= Signed(s) < 128 * Pow256(|s| - 1)
  {
    TopBit(s);
  }

  lemma SignedLe(n: nat, m: int)
    requires n > 0 && -128 * Pow256(n - 1) <= m < 128 * Pow256(n - 1)
    ensures Signed(Le(n, m)) == m
  {
    if m >= 0 { UnLeLe(n, m); } else { UnLeNegative(n, m); }
    TopBit(Le(n, m));
  }

  lemma Powers()
    ensures Pow256(0) == 1 && Pow256(1) == 0x100 && Pow256(2) == 0x1_0000 && Pow256(3) == 0x100_0000
      && Pow256(4) == 0x1_0000_0000
    ensures Pow256(7) == 0x100_0000_0000_0000 && Pow256(8) == 0x1_0000_0000_0000_0000
    ensures Pow256(11) == 0x100_0000_0000_0000_0000_0000 && Pow256(12) == P96
  {
    assert Pow256(2) == 256 * Pow256(1);
    assert Pow256(3) == 256 * Pow256(2);
    assert Pow256(5) == 256 * Pow256(4) && Pow256(6) == 256 * Pow256(5) && Pow256(7) == 256 * Pow256(6);
    assert Pow256(8) == 256 * Pow256(7) && Pow256(9) == 256 * Pow256(8) && Pow256(10) == 256 * Pow256(9);
    assert Pow256(11) == 256 * Pow256(10) && Pow256(12) == 256 * Pow256(11);
  }

  // ----- Numbers

  /** Bytes of mantissa for each of the five tags of a scale. */
  function Width(w: nat): (r: nat)
    requires w < 5
    ensures 1 <= r <= 12
  {
    if w == 0 then 1 else if w == 1 then 2 else if w == 2 then 4 else if w == 3 then 8 else 12
  }

  /** The narrowest mantissa that holds `m`. */
  function WidthFor(m: int): (r: nat)
    ensures r < 5
  {
    if -0x80 <= m < 0x80 then 0
    else if -0x8000 <= m < 0x8000 then 1
    else if -0x8000_0000 <= m < 0x8000_0000 then 2
    else if -0x8000_0000_0000_0000 <= m < 0x8000_0000_0000_0000 then 3
    else 4
  }

  /** Twelve bytes are cut from sixteen, and the sign is copied over the top bit. */
  function Mantissa(w: nat, m: int): (r: seq<byte>)
    requires w < 5
    ensures |r| == Width(w)
  {
    var s := Le(Width(w), m);
    if w == 4 && m < 0 && s[11] < 128 then s[11 := s[11] + 128] else s
  }

  function NumberTag(scale: nat, w: nat): (r: byte)
    requires w < 5
  {
    3 + 5 * (if scale < 3 then scale else 3) + w
  }

  predicate ValidNumber(m: int, scale: nat) {
    -P96 < m < P96 && scale <= 28
  }

  function NumberTape(m: int, scale: nat): (r: seq<byte>) {
    var w := WidthFor(m);
    [NumberTag(scale, w)] + (if scale < 3 then [] else [scale % 256]) + Mantissa(w, m)
  }

  /** The mantissa comes back exactly when it fits 95 bits and a sign. */
  lemma MantissaExact(m: int)
    ensures Signed(Mantissa(WidthFor(m), m)) == m <==> -P95 <= m < P95
  {
    hide Le, Signed, UnLe, Pow256;
    Powers();
    var w := WidthFor(m);
    if -P95 <= m < P95 {
      SignedLe(Width(w), m);
      if w == 4 && m < 0 { TopByte(m); }
    } else {
      SignedRange(Mantissa(w, m));
    }
  }

  lemma TopByte(m: int)
    requires -P95 <= m < 0
    ensures Le(12, m)[11] >= 128
  {
    hide Le, UnLe, Pow256;
    Powers();
    UnLeNegative(12, m);
    TopBit(Le(12, m));
  }

  // ----- Containers and strings

  /** A body behind the narrowest length that fits; nothing but a tag when it is empty. */
  function Packed(empty: byte, body: seq<byte>): (r: seq<byte>)
    requires empty <= 0x1f
  {
    var len := |body|;
    if len == 0 then [empty]
    else if len <= 0xFF then [empty + 1, len] + body
    else if len <= 0xFFFF then [empty + 2] + Le(2, len) + body
    else [empty + 3] + Le(4, len) + body
  }

  // ----- Trees

  function Tape(j: Json): (r: seq<byte>) {
    match j
    case JsonNull => [0x00]
    case JsonBool(b) => [if b then 0x02 else 0x01]
    case JsonNumber(m, scale) => NumberTape(m, scale)
    case JsonString(s) => Packed(0x17, s)
    case JsonArray(items) => Packed(0x1b, TapeAll(items))
    case JsonObject(entries) => Packed(0x1f, TapeEntries(entries))
  }

  function TapeAll(js: seq<Json>): (r: seq<byte>) {
    if js == [] then [] else Tape(js[0]) + TapeAll(js[1..])
  }

  function TapeEntries(es: seq<Entry>): (r: seq<byte>) {
    if es == [] then [] else Packed(0x17, es[0].key) + (Tape(es[0].value) + TapeEntries(es[1..]))
  }

  /** What the builder accepts: decimals of 96 bits, and no string or container beyond four gigabytes. */
  predicate Buildable(j: Json) {
    match j
    case JsonNumber(m, scale) => ValidNumber(m, scale)
    case JsonString(s) => |s| <= U32_MAX
    case JsonArray(items) => (forall i :: 0 <= i < |items| ==> Buildable(items[i])) && |TapeAll(items)| <= U32_MAX
    case JsonObject(entries) =>
      && (forall i :: 0 <= i < |entries| ==> |entries[i].key| <= U32_MAX && Buildable(entries[i].value))
      && |TapeEntries(entries)| <= U32_MAX
    case _ => true
  }

  // ----- Reading

  /** The length in bytes of the node at the front; none where the code panics. */
  function Size(b: seq<byte>): (r: Option<nat>) {
    if b == [] then Some(0)
    else
      var t := b[0];
      if t <= 0x02 then Some(1)
      else if t <= 0x11 then Some(1 + Width((t - 3) % 5))
      else if t == 0x13 then Some(5)
      else if t <= 0x16 then Some(2 + Width(t - 0x12))
      else if t == 0x17 || t == 0x1b || t == 0x1f then Some(1)
      else if t < 0x1b then PackedSize(b, 0x18)
      else if t < 0x1f then PackedSize(b, 0x1c)
      else if t <= 0x22 then PackedSize(b, 0x20)
      else None
  }

  /** How many bytes the length takes. */
  function LenBytes(t: byte, base: byte): (r: nat) {
    if t == base then 1 else if t == base + 1 then 2 else 4
  }

  function PackedSize(b: seq<byte>, base: byte): (r: Option<nat>)
    requires b != []
  {
    var k := LenBytes(b[0], base);
    if |b| <= k then None else Some(UnLe(b[1..1 + k]) + 1 + k)
  }

  /** Everything after the length; a node is read from a slice that ends where it does. */
  function PackedBody(b: seq<byte>, base: byte): (r: Option<seq<byte>>)
    requires b != []
    ensures r.Some? ==> |r.value| < |b|
  {
    var k := LenBytes(b[0], base);
    if |b| <= k then None else Some(b[1 + k..])
  }

  function ReadNumber(b: seq<byte>): (r: Option<Json>)
    requires b != [] && 0x03 <= b[0] <= 0x16
  {
    var group, w := (b[0] - 3) / 5, (b[0] - 3) % 5;
    var at := if group < 3 then 1 else 2;
    if |b| < at + Width(w) then None
    else
      var scale := if group < 3 then group else b[1];
      if scale > 28 then None else Some(JsonNumber(Signed(b[at..at + Width(w)]), scale))
  }

  function ReadString(b: seq<byte>): (r: Option<seq<byte>>) {
    if b == [] || !(0x17 <= b[0] <= 0x1a) then None
    else if b[0] == 0x17 then Some([])
    else PackedBody(b, 0x18)
  }

  /** One step of an iterator over nodes laid end to end. */
  datatype Step = Finished | Panic | Node(node: seq<byte>, rest: seq<byte>)

  function Next(b: seq<byte>): (r: Step)
    ensures r.Node? ==> 0 < |r.node| && b == r.node + r.rest
  {
    match Size(b)
    case None => Panic
    case Some(size) => if size == 0 then Finished else if size > |b| then Panic else Node(b[..size], b[size..])
  }

  function Read(b: seq<byte>): (r: Option<Json>)
    decreases |b|, 0
  {
    if b == [] || b[0] == 0x00 then Some(JsonNull)
    else if b[0] <= 0x02 then Some(JsonBool(b[0] == 0x02))
    else if b[0] <= 0x16 then ReadNumber(b)
    else if b[0] <= 0x1a then
      match ReadString(b) case None => None case Some(s) => Some(JsonString(s))
    else if b[0] <= 0x1e then
      match (if b[0] == 0x1b then Some([]) else PackedBody(b, 0x1c))
      case None => None
      case Some(body) => match ReadItems(body) case None => None case Some(items) => Some(JsonArray(items))
    else if b[0] <= 0x22 then
      match (if b[0] == 0x1f then Some([]) else PackedBody(b, 0x20))
      case None => None
      case Some(body) => match ReadEntries(body) case None => None case Some(entries) => Some(JsonObject(entries))
    else None
  }

  function ReadItems(b: seq<byte>): (r: Option<seq<Json>>)
    decreases |b|, 1
  {
    match Next(b)
    case Panic => None
    case Finished => Some([])
    case Node(node, rest) =>
      match Read(node)
      case None => None
      case Some(item) => match ReadItems(rest) case None => None case Some(items) => Some([item] + items)
  }

  /** Keys and values in turn; a key without a value ends the object. */
  function ReadEntries(b: seq<byte>): (r: Option<seq<Entry>>)
    decreases |b|, 1
  {
    match Next(b)
    case Panic => None
    case Finished => Some([])
    case Node(key, after) =>
      match Next(after)
      case Panic => None
      case Finished => Some([])
      case Node(node, rest) =>
        match ReadString(key)
        case None => None
        case Some(k) =>
          match Read(node)
          case None => None
          case Some(value) => match ReadEntries(rest) case None => None case Some(es) => Some([Entry(k, value)] + es)
  }

  // ----- Sizes

  /** A two-byte mantissa with its own scale byte: tag 0x13, whose size is miscounted by one. */
  predicate Miscounted(j: Json) {
    j.JsonNumber? && j.scale >= 3 && WidthFor(j.m) == 1
  }

  predicate IsEmptyTag(t: byte) { t == 0x17 || t == 0x1b || t == 0x1f }

  function PackedLenBytes(len: nat): (r: nat) {
    if len <= 0xFF then 1 else if len <= 0xFFFF then 2 else 4
  }

  lemma PackedParts(empty: byte, body: seq<byte>, rest: seq<byte>)
    requires IsEmptyTag(empty) && 0 < |body| <= U32_MAX
    ensures
      var b, k := Packed(empty, body) + rest, PackedLenBytes(|body|);
      && |Packed(empty, body)| == 1 + k + |body| && empty < b[0] <= empty + 3 && LenBytes(b[0], empty + 1) == k
      && b[1..1 + k] == Le(k, |body|) && UnLe(b[1..1 + k]) == |body| && b[1 + k..] == body + rest
  {
    hide UnLe, Le;
    Powers();
    var len, k := |body|, PackedLenBytes(|body|);
    UnLeLe(k, len);
    PackedShape(empty, body);
    HeaderParts(Packed(empty, body)[0], Le(k, len), body, rest);
  }

  lemma PackedShape(empty: byte, body: seq<byte>)
    requires IsEmptyTag(empty) && 0 < |body| <= U32_MAX
    ensures
      var t, k := Packed(empty, body)[0], PackedLenBytes(|body|);
      && Packed(empty, body) == [t] + Le(k, |body|) + body && empty < t <= empty + 3 && LenBytes(t, empty + 1) == k
  {
    hide Le;
    var len := |body|;
    if len <= 0xFF {
      OneByte(len);
      assert [empty + 1, len as byte] == [empty + 1] + Le(1, len);
    }
  }

  lemma OneByte(x: nat)
    requires x < 256
    ensures Le(1, x) == [x as byte]
  {
    assert Le(1, x) == [x % 256] + Le(0, x / 256);
  }

  lemma HeaderParts(t: byte, len: seq<byte>, body: seq<byte>, rest: seq<byte>)
    ensures
      var b := [t] + len + body + rest;
      b[0] == t && b[1..1 + |len|] == len && b[1 + |len|..] == body + rest
  {
  }

  lemma PackedSizes(empty: byte, body: seq<byte>, rest: seq<byte>)
    requires IsEmptyTag(empty) && |body| <= U32_MAX
    ensures Size(Packed(empty, body) + rest) == Some(|Packed(empty, body)|)
  {
    hide UnLe, Le;
    if body != [] { PackedParts(empty, body, rest); }
  }

  lemma PackedReads(empty: byte, body: seq<byte>)
    requires IsEmptyTag(empty) && 0 < |body| <= U32_MAX
    ensures PackedBody(Packed(empty, body), empty + 1) == Some(body)
  {
    hide UnLe, Le;
    PackedParts(empty, body, []);
    assert Packed(empty, body) + [] == Packed(empty, body) && body + [] == body;
  }

  /** The size of a built node is its length, but for tag 0x13. */
  lemma SizeOfTape(j: Json, rest: seq<byte>)
    requires Buildable(j)
    ensures Tape(j) != []
    ensures Size(Tape(j) + rest) == Some(|Tape(j)| + if Miscounted(j) then 1 else 0)
  {
    hide TapeAll, TapeEntries, Packed, Mantissa;
    match j
    case JsonString(s) => PackedSizes(0x17, s, rest); PackedNotEmpty(0x17, s);
    case JsonArray(items) => PackedSizes(0x1b, TapeAll(items), rest); PackedNotEmpty(0x1b, TapeAll(items));
    case JsonObject(entries) =>
      PackedSizes(0x1f, TapeEntries(entries), rest);
      PackedNotEmpty(0x1f, TapeEntries(entries));
    case _ =>
  }

  lemma PackedNotEmpty(empty: byte, body: seq<byte>)
    requires IsEmptyTag(empty)
    ensures Packed(empty, body) != []
  {
  }

  // ----- Reading what was built

  lemma NumberReads(m: int, scale: nat)
    requires ValidNumber(m, scale)
    ensures Read(NumberTape(m, scale)) == Some(JsonNumber(Signed(Mantissa(WidthFor(m), m)), scale))
  {
    hide Mantissa, Signed;
    var w, b := WidthFor(m), NumberTape(m, scale);
    var at := if scale < 3 then 1 else 2;
    assert b[at..at + Width(w)] == Mantissa(w, m);
  }

  /** Trees that survive: mantissas of at most 95 bits, and no miscounted number inside a container. */
  predicate Exact(j: Json) {
    match j
    case JsonNumber(m, _) => -P95 <= m < P95
    case JsonArray(items) => forall i :: 0 <= i < |items| ==> Exact(items[i]) && !Miscounted(items[i])
    case JsonObject(entries) => forall i :: 0 <= i < |entries| ==>
      Exact(entries[i].value) && !Miscounted(entries[i].value)
    case _ => true
  }

  lemma NextTape(j: Json, rest: seq<byte>)
    requires Buildable(j)
    ensures !Miscounted(j) ==> Next(Tape(j) + rest) == Node(Tape(j), rest)
    ensures Miscounted(j) ==> Next(Tape(j) + rest) == if rest == [] then Panic else Node(Tape(j) + rest[..1], rest[1..])
  {
    hide Tape, Size;
    SizeOfTape(j, rest);
    var b := Tape(j) + rest;
    assert b[..|Tape(j)|] == Tape(j) && b[|Tape(j)|..] == rest;
    if rest != [] { assert b[..|Tape(j)| + 1] == Tape(j) + rest[..1] && b[|Tape(j)| + 1..] == rest[1..]; }
  }

  // ----- No encoding is shorter than the builder's

  lemma SizeOfNode(b: seq<byte>)
    requires Next(b).Node?
    ensures Size(Next(b).node) == Some(|Next(b).node|)
  {
    hide UnLe;
    var size := Size(b).value;
    var node := b[..size];
    var t := b[0];
    if 0x17 < t < 0x1b { assert node[1..1 + LenBytes(t, 0x18)] == b[1..1 + LenBytes(t, 0x18)]; }
    else if 0x1b < t < 0x1f { assert node[1..1 + LenBytes(t, 0x1c)] == b[1..1 + LenBytes(t, 0x1c)]; }
    else if 0x1f < t <= 0x22 { assert node[1..1 + LenBytes(t, 0x20)] == b[1..1 + LenBytes(t, 0x20)]; }
  }

  lemma NarrowEnough(s: seq<byte>, w: nat)
    requires w < 5 && |s| == Width(w)
    ensures WidthFor(Signed(s)) <= w
  {
    hide Signed, Pow256;
    SignedRange(s);
    Powers();
  }

  lemma NumberMinimal(b: seq<byte>, j: Json)
    requires b != [] && 0x03 <= b[0] <= 0x16 && Size(b) == Some(|b|) && Read(b) == Some(j)
    ensures |Tape(j)| <= |b|
  {
    hide Signed, Mantissa;
    var group, w := (b[0] - 3) / 5, (b[0] - 3) % 5;
    var at := if group < 3 then 1 else 2;
    NarrowEnough(b[at..at + Width(w)], w);
  }

  lemma {:induction false} LenRange(s: seq<byte>)
    ensures UnLe(s) < Pow256(|s|)
  {
    if s != [] { LenRange(s[1..]); }
  }

  /** A packed node's length byte count is at least what its body needs. */
  lemma PackedMinimal(b: seq<byte>, empty: byte, body: seq<byte>)
    requires b != [] && IsEmptyTag(empty) && empty < b[0] <= empty + 3 && Size(b) == Some(|b|)
    requires PackedBody(b, empty + 1).Some? && |body| <= |PackedBody(b, empty + 1).value|
    ensures |Packed(empty, body)| <= |b|
  {
    hide UnLe, Le, Pow256;
    var k := LenBytes(b[0], empty + 1);
    assert PackedSize(b, empty + 1) == Some(|b|);
    LenRange(b[1..1 + k]);
    Powers();
  }

  lemma StringMinimal(b: seq<byte>, s: seq<byte>)
    requires Size(b) == Some(|b|) && ReadString(b) == Some(s)
    ensures |Packed(0x17, s)| <= |b|
  {
    hide UnLe;
    if b[0] != 0x17 { PackedMinimal(b, 0x17, s); }
  }

  lemma {:induction false} Minimal(b: seq<byte>, j: Json)
    requires b != [] && Size(b) == Some(|b|) && Read(b) == Some(j)
    ensures |Tape(j)| <= |b|
    decreases |b|, 0
  {
    hide UnLe, Packed, Size, PackedBody, TapeAll, TapeEntries, ReadItems, ReadEntries, ReadNumber, ReadString;
    hide NumberTape;
    var t := b[0];
    if t <= 0x02 {
    } else if t <= 0x16 {
      NumberMinimal(b, j);
    } else if t <= 0x1a {
      StringMinimal(b, j.s);
    } else if t <= 0x1e {
      if t == 0x1b {
        EmptyPacked(0x1b);
      } else {
        ItemsMinimal(PackedBody(b, 0x1c).value, j.items);
        PackedMinimal(b, 0x1b, TapeAll(j.items));
      }
    } else {
      if t == 0x1f {
        EmptyPacked(0x1f);
      } else {
        EntriesMinimal(PackedBody(b, 0x20).value, j.entries);
        PackedMinimal(b, 0x1f, TapeEntries(j.entries));
      }
    }
  }

  lemma EmptyPacked(empty: byte)
    requires IsEmptyTag(empty)
    ensures |Packed(empty, [])| == 1 && ReadItems([]) == Some([]) && ReadEntries([]) == Some([]) && TapeAll([]) == []
      && TapeEntries([]) == []
  {
  }

  lemma {:induction false} ItemsMinimal(b: seq<byte>, js: seq<Json>)
    requires ReadItems(b) == Some(js)
    ensures |TapeAll(js)| <= |b|
    decreases |b|, 1
  {
    hide Size, Tape, Read;
    match Next(b)
    case Node(node, rest) =>
      SizeOfNode(b);
      var item, items := Read(node).value, ReadItems(rest).value;
      assert js == [item] + items && js[1..] == items;
      Minimal(node, item);
      ItemsMinimal(rest, items);
    case _ =>
  }

  lemma {:induction false} EntriesMinimal(b: seq<byte>, es: seq<Entry>)
    requires ReadEntries(b) == Some(es)
    ensures |TapeEntries(es)| <= |b|
    decreases |b|, 1
  {
    hide Size, Tape, Read, Packed, Next, ReadString;
    match Next(b)
    case Node(key, after) =>
      match Next(after) {
        case Node(node, rest) =>
          SizeOfNode(b);
          SizeOfNode(after);
          var k, value, later := ReadString(key).value, Read(node).value, ReadEntries(rest).value;
          assert es == [Entry(k, value)] + later && es[1..] == later;
          StringMinimal(key, k);
          Minimal(node, value);
          EntriesMinimal(rest, later);
        case _ =>
      }
    case _ =>
  }

  // ----- The round trip, exactly

  /** A tree is read back from its tape exactly when it is one that survives. */
  lemma {:induction false} RoundTrip(j: Json)
    requires Buildable(j)
    ensures Read(Tape(j)) == Some(j) <==> Exact(j)
    decreases j
  {
    hide Packed, PackedBody, TapeAll, TapeEntries, ReadItems, ReadEntries, ReadNumber, NumberTape, Mantissa, Signed;
    match j
    case JsonNumber(m, scale) =>
      NumberReads(m, scale);
      MantissaExact(m);
    case JsonString(s) => StringReads(s);
    case JsonArray(items) =>
      ItemsRoundTrip(items);
      ArrayReads(items);
    case JsonObject(entries) =>
      EntriesRoundTrip(entries);
      ObjectReads(entries);
    case _ =>
  }

  lemma StringReads(s: seq<byte>)
    requires |s| <= U32_MAX
    ensures ReadString(Packed(0x17, s)) == Some(s) && Read(Packed(0x17, s)) == Some(JsonString(s))
  {
    hide UnLe, PackedBody;
    if s != [] {
      PackedReads(0x17, s);
      PackedParts(0x17, s, []);
      assert Packed(0x17, s) + [] == Packed(0x17, s);
    }
  }

  lemma ArrayReads(items: seq<Json>)
    requires |TapeAll(items)| <= U32_MAX
    ensures Read(Tape(JsonArray(items))) ==
      match ReadItems(TapeAll(items)) case None => None case Some(js) => Some(JsonArray(js))
  {
    hide UnLe, PackedBody, TapeAll, ReadItems;
    var body := TapeAll(items);
    if body != [] {
      PackedReads(0x1b, body);
      PackedParts(0x1b, body, []);
      assert Packed(0x1b, body) + [] == Packed(0x1b, body);
    }
  }

  lemma ObjectReads(entries: seq<Entry>)
    requires |TapeEntries(entries)| <= U32_MAX
    ensures Read(Tape(JsonObject(entries))) ==
      match ReadEntries(TapeEntries(entries)) case None => None case Some(es) => Some(JsonObject(es))
  {
    hide UnLe, PackedBody, TapeEntries, ReadEntries;
    var body := TapeEntries(entries);
    if body != [] {
      PackedReads(0x1f, body);
      PackedParts(0x1f, body, []);
      assert Packed(0x1f, body) + [] == Packed(0x1f, body);
    }
  }

  lemma {:induction false} ItemsRoundTrip(js: seq<Json>)
    requires forall i :: 0 <= i < |js| ==> Buildable(js[i])
    ensures ReadItems(TapeAll(js)) == Some(js) <==> forall i :: 0 <= i < |js| ==> Exact(js[i]) && !Miscounted(js[i])
    decreases js
  {
    hide Tape, Read, Exact, Miscounted, Next, Buildable;
    if js == [] {
      EmptyPacked(0x1b);
    } else {
      var x, rest := js[0], TapeAll(js[1..]);
      assert js == [x] + js[1..];
      ItemsRoundTrip(js[1..]);
      RoundTrip(x);
      NextTape(x, rest);
      assert (forall i :: 0 <= i < |js| ==> Exact(js[i]) && !Miscounted(js[i])) <==>
        Exact(x) && !Miscounted(x) && forall i :: 0 <= i < |js[1..]| ==>
          Exact(js[1..][i]) && !Miscounted(js[1..][i]) by {
        HeadAndTail(js);
      }
      if Miscounted(x) && ReadItems(TapeAll(js)) == Some(js) {
        var later := ReadItems(rest[1..]).value;
        assert ([Read(Tape(x) + rest[..1]).value] + later)[1..] == later;
        ItemsMinimal(rest[1..], js[1..]);
      }
    }
  }

  lemma HeadAndTail(js: seq<Json>)
    requires js != []
    ensures (forall i :: 0 <= i < |js| ==> Exact(js[i]) && !Miscounted(js[i])) <==>
      Exact(js[0]) && !Miscounted(js[0]) && forall i :: 0 <= i < |js[1..]| ==>
        Exact(js[1..][i]) && !Miscounted(js[1..][i])
  {
    hide Exact, Miscounted;
    assert forall i :: 0 < i < |js| ==> js[i] == js[1..][i - 1];
  }

  ghost predicate EntriesExact(es: seq<Entry>) {
    forall i :: 0 <= i < |es| ==> Exact(es[i].value) && !Miscounted(es[i].value)
  }

  lemma NoEntries()
    ensures EntriesExact([])
  {
  }

  lemma EntriesHeadTail(es: seq<Entry>)
    requires es != []
    ensures EntriesExact(es) <==> Exact(es[0].value) && !Miscounted(es[0].value) && EntriesExact(es[1..])
  {
    hide Exact, Miscounted;
    assert forall i :: 0 < i < |es| ==> es[i] == es[1..][i - 1];
  }

  lemma {:induction false} EntriesRoundTrip(es: seq<Entry>)
    requires forall i :: 0 <= i < |es| ==> |es[i].key| <= U32_MAX && Buildable(es[i].value)
    ensures ReadEntries(TapeEntries(es)) == Some(es) <==> EntriesExact(es)
    decreases es
  {
    hide Tape, Read, Exact, Miscounted, Next, Buildable, Packed, ReadString, EntriesExact;
    if es == [] {
      EmptyPacked(0x1f);
      NoEntries();
    } else {
      var x, rest := es[0], TapeEntries(es[1..]);
      assert es == [x] + es[1..];
      EntriesRoundTrip(es[1..]);
      EntriesHeadTail(es);
      RoundTrip(x.value);
      KeyNext(x.key, Tape(x.value) + rest);
      StringReads(x.key);
      NextTape(x.value, rest);
      if Miscounted(x.value) && ReadEntries(TapeEntries(es)) == Some(es) {
        var later := ReadEntries(rest[1..]).value;
        assert ([Entry(x.key, Read(Tape(x.value) + rest[..1]).value)] + later)[1..] == later;
        EntriesMinimal(rest[1..], es[1..]);
      }
    }
  }

  lemma KeyNext(key: seq<byte>, rest: seq<byte>)
    requires |key| <= U32_MAX
    ensures Next(Packed(0x17, key) + rest) == Node(Packed(0x17, key), rest)
  {
    hide Packed;
    NextTape(JsonString(key), rest);
  }
}
