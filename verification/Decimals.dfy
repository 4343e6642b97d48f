/** Decimals as sortable bytes: the mantissa is scaled to exactly 28 digits, so that the inverted
    scale followed by the mantissa orders the same way as the numbers themselves. */
module Decimals {
  import opened Bytes
  import opened Varint
  import opened ByteChunks

  /** A `rust_decimal` value: (-1)^negative * mantissa / 10^scale. */
  datatype Decimal = Decimal(negative: bool, mantissa: nat, scale: nat) {
    /** At most 28 digits, the largest precision a DECIMAL column may have. */
    predicate Valid() {
      mantissa < TEN_28 && scale <= 28
    }
  }

  const TEN_12 := 1_000_000_000_000
  const TEN_15 := 1_000_000_000_000_000
  const TEN_21 := 1_000_000_000_000_000_000_000
  const TEN_24 := 1_000_000_000_000_000_000_000_000
  const TEN_27 := 1_000_000_000_000_000_000_000_000_000
  const TEN_28 := 10_000_000_000_000_000_000_000_000_000
  const U96 := 0x1_0000_0000_0000_0000_0000_0000

  function Pow10(n: nat): (r: nat)
    ensures r > 0
  {
    if n == 0 then 1 else 10 * Pow10(n - 1)
  }

  lemma {:induction false} Pow10Add(a: nat, b: nat)
    ensures Pow10(a + b) == Pow10(a) * Pow10(b)
  {
    if a > 0 {
      Pow10Add(a - 1, b);
      assert 10 * (Pow10(a - 1) * Pow10(b)) == (10 * Pow10(a - 1)) * Pow10(b);
    }
  }

  lemma Pow10Small()
    ensures Pow10(1) == 10 && Pow10(3) == 1000 && Pow10(6) == 1_000_000 && Pow10(12) == TEN_12
  {
    assert Pow10(3) == 10 * (10 * Pow10(1));
    Pow10Add(3, 3);
    Pow10Add(6, 6);
  }

  /** |d| * 10^55, which is an integer for every scale the encoding meets. */
  function Magnitude(mantissa: nat, scale: nat): (r: nat)
    requires scale <= 55
  {
    mantissa * Pow10(55 - scale)
  }

  /** d * 10^55: decimals are equal or ordered as these integers are. */
  function Value(d: Decimal): (r: int)
    requires d.scale <= 55
  {
    var m: int := Magnitude(d.mantissa, d.scale);
    if d.negative then -m else m
  }

  lemma MagnitudeShift(mantissa: nat, scale: nat, k: nat)
    requires scale + k <= 55
    ensures Magnitude(mantissa * Pow10(k), scale + k) == Magnitude(mantissa, scale)
  {
    Pow10Add(k, 55 - scale - k);
    MulAssoc(mantissa, Pow10(k), Pow10(55 - scale - k));
  }

  lemma MulAssoc(a: nat, b: nat, c: nat)
    ensures a * b * c == a * (b * c)
  {
  }

  // ----- Normalising

  /** How many times a mantissa is multiplied by ten before it has 28 digits. */
  function Shift(m: nat): (r: nat)
    requires m > 0
    decreases TEN_27 - m
  {
    if m >= TEN_27 then 0 else 1 + Shift(10 * m)
  }

  lemma {:induction false} ShiftBounds(m: nat)
    requires 0 < m < TEN_28
    ensures TEN_27 <= m * Pow10(Shift(m)) < TEN_28
    decreases TEN_27 - m
  {
    if m < TEN_27 {
      ShiftBounds(10 * m);
      assert 10 * m * Pow10(Shift(10 * m)) == m * (10 * Pow10(Shift(10 * m)));
    }
  }

  lemma {:induction false} ShiftUnique(m: nat, k: nat)
    requires 0 < m && TEN_27 <= m * Pow10(k) < TEN_28
    ensures Shift(m) == k
    decreases k
  {
    if k > 0 {
      assert m * Pow10(k) == 10 * (m * Pow10(k - 1));
      assert m * Pow10(k) == 10 * m * Pow10(k - 1);
      MulAtLeast(m, Pow10(k - 1));
      ShiftUnique(10 * m, k - 1);
    }
  }

  lemma MulAtLeast(m: nat, p: nat)
    requires p > 0
    ensures m * p >= m
  {
  }

  lemma {:induction false} ShiftAtMost27(m: nat)
    requires 0 < m < TEN_28
    ensures Shift(m) <= 27
  {
    ShiftBounds(m);
    var k := Shift(m);
    if k > 27 {
      Pow10Add(28, k - 28);
      Pow10Is28();
      MulAtLeast(TEN_28, Pow10(k - 28));
      MulAtLeast(Pow10(k), m);
      assert false;
    }
  }

  lemma Pow10Is28()
    ensures Pow10(28) == TEN_28
  {
    Pow10Small();
    Pow10Add(12, 12);
    Pow10Add(24, 3);
    Pow10Add(27, 1);
  }

  /** The four scaling loops: multiply by large powers first, count what was multiplied. */
  method Normalize(mantissa: nat, initialScale: nat) returns (d: nat, scale: nat)
    requires 0 < mantissa < TEN_28
    ensures d == mantissa * Pow10(Shift(mantissa)) && TEN_27 <= d < TEN_28
    ensures scale == initialScale + Shift(mantissa) && scale <= initialScale + 27
  {
    d, scale := mantissa, initialScale;
    ghost var k := 0;
    while d < TEN_15
      invariant 0 < d < TEN_28 && Scaled(mantissa, initialScale, k, d, scale)
      decreases TEN_15 - d
    {
      Rescale(mantissa, initialScale, k, d, scale, 12);
      d, scale, k := d * TEN_12, scale + 12, k + 12;
    }
    while d < TEN_21
      invariant 0 < d < TEN_28 && Scaled(mantissa, initialScale, k, d, scale)
      decreases TEN_21 - d
    {
      Rescale(mantissa, initialScale, k, d, scale, 6);
      d, scale, k := d * 1_000_000, scale + 6, k + 6;
    }
    while d < TEN_24
      invariant 0 < d < TEN_28 && Scaled(mantissa, initialScale, k, d, scale)
      decreases TEN_24 - d
    {
      Rescale(mantissa, initialScale, k, d, scale, 3);
      d, scale, k := d * 1000, scale + 3, k + 3;
    }
    while d < TEN_27
      invariant 0 < d < TEN_28 && Scaled(mantissa, initialScale, k, d, scale)
      decreases TEN_27 - d
    {
      Rescale(mantissa, initialScale, k, d, scale, 1);
      d, scale, k := d * 10, scale + 1, k + 1;
    }
    ShiftUnique(mantissa, k);
    ShiftAtMost27(mantissa);
  }

  ghost predicate Scaled(mantissa: nat, initialScale: nat, k: nat, d: nat, scale: nat) {
    d == mantissa * Pow10(k) && scale == initialScale + k
  }

  lemma Rescale(mantissa: nat, initialScale: nat, k: nat, d: nat, scale: nat, j: nat)
    requires Scaled(mantissa, initialScale, k, d, scale) && j in {1, 3, 6, 12}
    ensures Scaled(mantissa, initialScale, k + j, d * Pow10(j), scale + j)
    ensures Pow10(1) == 10 && Pow10(3) == 1000 && Pow10(6) == 1_000_000 && Pow10(12) == TEN_12
  {
    Pow10Small();
    Pow10Add(k, j);
    assert mantissa * Pow10(k) * Pow10(j) == mantissa * (Pow10(k) * Pow10(j));
  }

  // ----- The mantissa as up to three 32-bit words

  function Word(v: nat, o: SortOrder): (r: seq<byte>)
    ensures |r| == 4
  {
    Oriented(o, Be(4, v))
  }

  function Flag(more: bool, o: SortOrder): (r: byte) {
    if o.Asc? then if more then 1 else 0 else if more then 255 - 1 else 255 - 0
  }

  function LowWord(lo: nat, o: SortOrder): (r: seq<byte>) {
    if lo != 0 then [Flag(true, o)] + Word(lo, o) else [Flag(false, o)]
  }

  function MidWords(mid: nat, lo: nat, o: SortOrder): (r: seq<byte>) {
    if mid != 0 || lo != 0 then [Flag(true, o)] + Word(mid, o) + LowWord(lo, o) else [Flag(false, o)]
  }

  function Words(m: nat, o: SortOrder): (r: seq<byte>)
  {
    Word(m / U64, o) + MidWords(m / U32 % U32, m % U32, o)
  }

  lemma WordOrder(a: nat, b: nat, o: SortOrder, x: seq<byte>, y: seq<byte>)
    requires a < U32 && b < U32
    ensures Cmp(Word(a, o) + x, Word(b, o) + y) == if a == b then Cmp(x, y) else Directed(o, Sign(a - b))
  {
    hide Be, Cmp;
    PowConstants();
    if o.Asc? {
      BeOrder(4, a, b, x, y);
    } else {
      FlipBe(4, a);
      FlipBe(4, b);
      BeOrder(4, U32 - 1 - a, U32 - 1 - b, x, y);
    }
  }

  lemma LowOrder(a: nat, b: nat, o: SortOrder, x: seq<byte>, y: seq<byte>)
    requires a < U32 && b < U32
    ensures Cmp(LowWord(a, o) + x, LowWord(b, o) + y) == if a == b then Cmp(x, y) else Directed(o, Sign(a - b))
  {
    var x', y' := if a != 0 then Word(a, o) + x else x, if b != 0 then Word(b, o) + y else y;
    assert LowWord(a, o) + x == [Flag(a != 0, o)] + x' && LowWord(b, o) + y == [Flag(b != 0, o)] + y';
    CmpHead(Flag(a != 0, o), Flag(b != 0, o), x', y');
    if a != 0 && b != 0 { WordOrder(a, b, o, x, y); }
  }

  lemma MidOrder(a: nat, a': nat, b: nat, b': nat, o: SortOrder, x: seq<byte>, y: seq<byte>)
    requires a < U32 && b < U32 && a' < U32 && b' < U32
    ensures Cmp(MidWords(a, a', o) + x, MidWords(b, b', o) + y) ==
      if a != b then Directed(o, Sign(a - b)) else if a' != b' then Directed(o, Sign(a' - b')) else Cmp(x, y)
  {
    var xx := MidUnfold(a, a', o, x);
    var yy := MidUnfold(b, b', o, y);
    CmpHead(Flag(a != 0 || a' != 0, o), Flag(b != 0 || b' != 0, o), xx, yy);
    if (a != 0 || a' != 0) && (b != 0 || b' != 0) {
      WordOrder(a, b, o, LowWord(a', o) + x, LowWord(b', o) + y);
      LowOrder(a', b', o, x, y);
    }
  }

  lemma MidUnfold(a: nat, a': nat, o: SortOrder, x: seq<byte>) returns (xx: seq<byte>)
    ensures xx == if a != 0 || a' != 0 then Word(a, o) + (LowWord(a', o) + x) else x
    ensures MidWords(a, a', o) + x == [Flag(a != 0 || a' != 0, o)] + xx
  {
    hide Word, LowWord, Flag;
    xx := if a != 0 || a' != 0 then Word(a, o) + (LowWord(a', o) + x) else x;
    assert [Flag(true, o)] + Word(a, o) + LowWord(a', o) + x == [Flag(true, o)] + (Word(a, o) + (LowWord(a', o) + x));
  }

  lemma WordsOrder(a: nat, b: nat, o: SortOrder, x: seq<byte>, y: seq<byte>)
    requires a < U96 && b < U96
    ensures Cmp(Words(a, o) + x, Words(b, o) + y) == if a == b then Cmp(x, y) else Directed(o, Sign(a - b))
  {
    hide MidWords, Word, Cmp;
    var ha, ma, la := a / U64, a / U32 % U32, a % U32;
    var hb, mb, lb := b / U64, b / U32 % U32, b % U32;
    ThreeWords(a);
    ThreeWords(b);
    assert Words(a, o) + x == Word(ha, o) + (MidWords(ma, la, o) + x);
    assert Words(b, o) + y == Word(hb, o) + (MidWords(mb, lb, o) + y);
    WordOrder(ha, hb, o, MidWords(ma, la, o) + x, MidWords(mb, lb, o) + y);
    MidOrder(ma, la, mb, lb, o, x, y);
  }

  lemma ThreeWords(a: nat)
    requires a < U96
    ensures a == a / U64 * U64 + a / U32 % U32 * U32 + a % U32 && a / U64 < U32
  {
  }

  // ----- Writing

  /** Whether a non-zero decimal is written in the upper half of the byte range. */
  predicate WrittenUpper(d: Decimal, o: SortOrder) {
    !d.negative <==> o.Asc?
  }

  function NormalMantissa(d: Decimal): (r: nat)
    requires d.Valid() && d.mantissa > 0
    ensures TEN_27 <= r < TEN_28
  {
    ShiftBounds(d.mantissa);
    d.mantissa * Pow10(Shift(d.mantissa))
  }

  function NormalScale(d: Decimal): (r: nat)
    requires d.Valid() && d.mantissa > 0
    ensures r <= 55
  {
    ShiftAtMost27(d.mantissa);
    d.scale + Shift(d.mantissa)
  }

  function WriteDecimal(d: Decimal, o: SortOrder): (r: seq<byte>)
    requires d.Valid()
    ensures r != []
  {
    if d.mantissa == 0 then [127]
    else if WrittenUpper(d, o) then [128 + (100 - NormalScale(d))] + Words(NormalMantissa(d), Asc)
    else [126 - (100 - NormalScale(d))] + Words(NormalMantissa(d), Desc)
  }

  /** Appends the code of a decimal, running the scaling loops on its mantissa. */
  method WriteSortableDecimal(d: Decimal, o: SortOrder, buffer: ByteBuffer)
    requires d.Valid()
    modifies buffer
    ensures buffer.bytes == old(buffer.bytes) + WriteDecimal(d, o)
  {
    if d.mantissa == 0 {
      buffer.bytes := buffer.bytes + [127];
      return;
    }
    var m, scale := Normalize(d.mantissa, d.scale);
    scale := 100 - scale;
    if WrittenUpper(d, o) {
      buffer.bytes := buffer.bytes + ([128 + scale] + Words(m, Asc));
    } else {
      buffer.bytes := buffer.bytes + ([126 - scale] + Words(m, Desc));
    }
  }

  // ----- Order

  lemma MagnitudeOrder(m: nat, s: nat, n: nat, t: nat)
    requires TEN_27 <= m < TEN_28 && TEN_27 <= n < TEN_28 && s <= 55 && t <= 55
    ensures s < t ==> Magnitude(m, s) > Magnitude(n, t)
    ensures s == t && m < n ==> Magnitude(m, s) < Magnitude(n, t)
  {
    if s < t {
      Pow10Add(t - s, 55 - t);
      MulAtLeast(10, Pow10(t - s - 1));
      MulAssoc(m, Pow10(t - s), Pow10(55 - t));
      LongerExceeds(m, Pow10(t - s), n, Pow10(55 - t));
    } else if s == t && m < n {
      MulStrict(m, n, Pow10(55 - s));
    }
  }

  lemma LongerExceeds(m: nat, q: nat, n: nat, p: nat)
    requires TEN_27 <= m && 10 <= q && n < TEN_28 && 0 < p
    ensures m * q * p > n * p
  {
    MulMono(TEN_27, m, q);
    MulMono(10, q, TEN_27);
    MulStrict(n, m * q, p);
  }

  lemma MulMono(a: nat, b: nat, p: nat)
    requires a <= b
    ensures a * p <= b * p && p * a <= p * b
  {
  }

  lemma MulStrict(a: nat, b: nat, p: nat)
    requires a < b && p > 0
    ensures a * p < b * p
  {
  }

  /** Magnitudes of two non-zero decimals compare as their normalised scale and mantissa do. */
  lemma UpperOrder(a: Decimal, b: Decimal, o: SortOrder, x: seq<byte>, y: seq<byte>)
    requires a.Valid() && b.Valid() && a.mantissa > 0 && b.mantissa > 0
    requires WrittenUpper(a, o) == WrittenUpper(b, o)
    ensures
      var c := Sign(Magnitude(a.mantissa, a.scale) - Magnitude(b.mantissa, b.scale));
      Cmp(WriteDecimal(a, o) + x, WriteDecimal(b, o) + y) ==
        if c == 0 then Cmp(x, y) else if WrittenUpper(a, o) then c else -c
  {
    var m, s, n, t := NormalMantissa(a), NormalScale(a), NormalMantissa(b), NormalScale(b);
    MagnitudeShift(a.mantissa, a.scale, Shift(a.mantissa));
    MagnitudeShift(b.mantissa, b.scale, Shift(b.mantissa));
    MagnitudeOrder(m, s, n, t);
    MagnitudeOrder(n, t, m, s);
    var wo := if WrittenUpper(a, o) then Asc else Desc;
    TaggedOrder(WriteDecimal(a, o)[0], m, WriteDecimal(b, o)[0], n, wo, x, y);
  }

  lemma TaggedOrder(ta: byte, m: nat, tb: byte, n: nat, o: SortOrder, x: seq<byte>, y: seq<byte>)
    requires m < U96 && n < U96
    ensures Cmp([ta] + Words(m, o) + x, [tb] + Words(n, o) + y) ==
      if ta != tb then Sign(ta - tb) else if m != n then Directed(o, Sign(m - n)) else Cmp(x, y)
  {
    assert [ta] + Words(m, o) + x == [ta] + (Words(m, o) + x);
    assert [tb] + Words(n, o) + y == [tb] + (Words(n, o) + y);
    CmpHead(ta, tb, Words(m, o) + x, Words(n, o) + y);
    WordsOrder(m, n, o, x, y);
  }

  lemma FirstByte(d: Decimal, o: SortOrder)
    requires d.Valid()
    ensures d.mantissa == 0 ==> WriteDecimal(d, o)[0] == 127
    ensures d.mantissa > 0 && WrittenUpper(d, o) ==> WriteDecimal(d, o)[0] > 127
    ensures d.mantissa > 0 && !WrittenUpper(d, o) ==> WriteDecimal(d, o)[0] < 127
    ensures d.mantissa == 0 <==> Value(d) == 0
    ensures d.mantissa > 0 ==> (Value(d) < 0 <==> d.negative)
  {
    if d.mantissa > 0 {
      ShiftAtMost27(d.mantissa);
      MulAtLeast(d.mantissa, Pow10(55 - d.scale));
    }
  }

  /** Byte order is numeric order, reversed for Desc, and equal bytes are equal numbers (1.2 is 1.20). */
  lemma DecimalOrder(a: Decimal, b: Decimal, o: SortOrder, x: seq<byte>, y: seq<byte>)
    requires a.Valid() && b.Valid()
    ensures Cmp(WriteDecimal(a, o) + x, WriteDecimal(b, o) + y) ==
      if Value(a) == Value(b) then Cmp(x, y) else Directed(o, Sign(Value(a) - Value(b)))
  {
    FirstByte(a, o);
    FirstByte(b, o);
    if a.mantissa > 0 && b.mantissa > 0 && a.negative == b.negative {
      UpperOrder(a, b, o, x, y);
    } else if a.mantissa == 0 && b.mantissa == 0 {
      CmpHead(127, 127, x, y);
    } else {
      FirstByteDecides(WriteDecimal(a, o), WriteDecimal(b, o), x, y);
    }
  }

  lemma FirstByteDecides(a: seq<byte>, b: seq<byte>, x: seq<byte>, y: seq<byte>)
    requires a != [] && b != [] && a[0] != b[0]
    ensures Cmp(a + x, b + y) == Sign(a[0] as int - b[0] as int)
  {
    assert a + x == [a[0]] + (a[1..] + x) && b + y == [b[0]] + (b[1..] + y);
    CmpHead(a[0], b[0], a[1..] + x, b[1..] + y);
  }

  // ----- Mantissas of 29 digits

  /** `q / 10^s` is exactly a tenth of `m`, as dividing by ten returns it. */
  predicate Tenth(m: nat, q: nat, s: nat) {
    10 * q == m * Pow10(s)
  }

  predicate Wide(d: Decimal) {
    TEN_28 <= d.mantissa < U96 && d.scale <= 28
  }

  /** An exact tenth of a 29-digit mantissa, in 96 bits, is the mantissa itself with one decimal place,
      unless it ends in zero; then the place can be spared, and only then is the lowered scale right. */
  lemma TenthOfWide(d: Decimal, q: nat, s: nat)
    requires Wide(d) && q < U96 && Tenth(d.mantissa, q, s)
    ensures s == 0 || (s == 1 && q == d.mantissa)
    ensures d.mantissa % 10 != 0 ==> s == 1
    ensures TEN_27 <= q < TEN_28 <==> s == 0
    ensures d.scale > 0 ==> (Magnitude(q, d.scale - 1) == Magnitude(d.mantissa, d.scale) <==> s == 0)
  {
    var m := d.mantissa;
    if s >= 2 {
      Pow10Small();
      Pow10Add(2, s - 2);
      MulAtLeast(100, Pow10(s - 2));
      MulMono(100, Pow10(s), m);
      assert false;
    }
    assert s == 1 ==> m * Pow10(s) == 10 * m;
    assert s == 0 ==> m * Pow10(s) == m;
    if d.scale > 0 {
      var p := Pow10(55 - d.scale);
      assert Magnitude(q, d.scale - 1) == q * (10 * p) == 10 * q * p;
      if s == 1 { MulStrict(m, 10 * q, p); }
    }
  }

  /** The digits that a division by ten returns, with no more decimal places than it needs. */
  function TenthDigits(m: nat): (q: nat)
    ensures Tenth(m, q, if m % 10 == 0 then 0 else 1)
  {
    Pow10Small();
    if m % 10 == 0 then m / 10 else m
  }

  /** Arithmetic of a `u8`, which wraps where overflow is not checked. */
  function U8(x: int): (r: byte) { x % 256 }

  /** What is written for such a decimal: the digits of its tenth, behind the inverted scale less one. */
  function WriteWide(d: Decimal, o: SortOrder): (r: seq<byte>)
    requires Wide(d)
    ensures r != []
  {
    var inverted: int := U8(100 - U8(d.scale - 1));
    if WrittenUpper(d, o) then [U8(128 + inverted)] + Words(TenthDigits(d.mantissa), Asc)
    else [U8(126 - inverted)] + Words(TenthDigits(d.mantissa), Desc)
  }

  lemma WideShape(d: Decimal, o: SortOrder)
    requires Wide(d)
    ensures WriteWide(d, o) ==
      if WrittenUpper(d, o) then [229 - d.scale] + Words(TenthDigits(d.mantissa), Asc)
      else [25 + d.scale] + Words(TenthDigits(d.mantissa), Desc)
  {
    hide Words, TenthDigits;
    assert U8(d.scale - 1) == if d.scale == 0 then 255 else d.scale - 1;
    assert U8(100 - U8(d.scale - 1)) == 101 - d.scale;
  }

  /** A mantissa ending in zero is written as the equal decimal of 28 digits is, and any other is written
      as no decimal of 28 digits is. */
  lemma WideExact(d: Decimal, o: SortOrder)
    requires Wide(d) && d.scale > 0
    ensures d.mantissa % 10 == 0 ==>
      var e := Decimal(d.negative, d.mantissa / 10, d.scale - 1);
      e.Valid() && Value(e) == Value(d) && WriteWide(d, o) == WriteDecimal(e, o)
    ensures d.mantissa % 10 != 0 ==> forall e: Decimal :: e.Valid() ==> WriteWide(d, o) != WriteDecimal(e, o)
  {
    hide Magnitude, Words;
    var q := TenthDigits(d.mantissa);
    TenthOfWide(d, q, if d.mantissa % 10 == 0 then 0 else 1);
    if d.mantissa % 10 == 0 {
      assert Shift(q) == 0 && q * Pow10(0) == q;
    } else {
      forall e: Decimal | e.Valid() ensures WriteWide(d, o) != WriteDecimal(e, o) { NoValidCode(d, e, o); }
    }
  }

  lemma NoValidCode(d: Decimal, e: Decimal, o: SortOrder)
    requires Wide(d) && TEN_28 <= TenthDigits(d.mantissa) < U96 && e.Valid()
    ensures WriteWide(d, o) != WriteDecimal(e, o)
  {
    hide Words, Magnitude, Cmp, WriteWide, TenthDigits, Shift;
    FirstByte(e, o);
    WideShape(d, o);
    var a, b := WriteWide(d, o), WriteDecimal(e, o);
    CmpSelf(a);
    if a[0] == b[0] {
      var wo := if WrittenUpper(d, o) then Asc else Desc;
      TaggedOrder(a[0], TenthDigits(d.mantissa), b[0], NormalMantissa(e), wo, [], []);
      assert a + [] == a && b + [] == b;
    }
  }

  /** 10^28 + 1 with one decimal place is less than 10^27 + 5, but its code sorts above. */
  lemma WideMisordered()
    ensures
      var a, b := Decimal(false, TEN_28 + 1, 1), Decimal(false, TEN_27 + 5, 0);
      && Wide(a) && b.Valid() && Value(a) < Value(b)
      && Cmp(WriteWide(a, Asc), WriteDecimal(b, Asc)) > 0
  {
    hide Words, Cmp;
    var a, b := Decimal(false, TEN_28 + 1, 1), Decimal(false, TEN_27 + 5, 0);
    var p := Pow10(54);
    assert Pow10(55) == 10 * p && (TEN_27 + 5) * (10 * p) == (TEN_28 + 50) * p;
    MulStrict(TEN_28 + 1, TEN_28 + 50, p);
    assert Shift(b.mantissa) == 0 && b.mantissa * Pow10(0) == b.mantissa;
    TaggedOrder(228, a.mantissa, 228, b.mantissa, Asc, [], []);
    var u, v := WriteWide(a, Asc), WriteDecimal(b, Asc);
    assert u + [] == u && v + [] == v;
  }

  /** Without decimal places the scale falls below zero. Checked, that is a panic; wrapped, the code is
      still in order with all others, though no decimal of 28 digits has it. */
  lemma WideWhole(d: Decimal, e: Decimal, o: SortOrder)
    requires Wide(d) && d.scale == 0 && e.Valid()
    ensures d.scale - 1 < 0 && U8(d.scale - 1) == 255
    ensures Cmp(WriteWide(d, o), WriteDecimal(e, o)) == Directed(o, Sign(Value(d) - Value(e)))
  {
    hide Words, Cmp;
    FirstByte(e, o);
    var a, b := WriteWide(d, o), WriteDecimal(e, o);
    assert a[0] == if WrittenUpper(d, o) then 229 else 25;
    assert b[0] != a[0] by { TagBounds(e, o); }
    TagBounds(e, o);
    FirstByteDecides(a, b, [], []);
    assert a + [] == a && b + [] == b;
    WideLargest(d, e);
  }

  lemma TagBounds(e: Decimal, o: SortOrder)
    requires e.Valid()
    ensures 25 < WriteDecimal(e, o)[0] < 229
  {
  }

  lemma WideLargest(d: Decimal, e: Decimal)
    requires Wide(d) && d.scale == 0 && e.Valid()
    ensures if d.negative then Value(d) < Value(e) else Value(d) > Value(e)
  {
    hide Pow10;
    Pow10Add(e.scale, 55 - e.scale);
    LargerByAll(e.mantissa, d.mantissa, Pow10(55 - e.scale), Pow10(e.scale));
  }

  lemma LargerByAll(m: nat, n: nat, q: nat, r: nat)
    requires m < n && q > 0 && r > 0
    ensures m * q < n * (r * q)
  {
    MulAtLeast(q, r);
    MulMono(q, r * q, m);
    MulStrict(m, n, r * q);
  }

  // ----- Reading

  /** `Decimal::normalize`: trailing zeros of the fraction removed. */
  function Strip(m: nat, s: nat): (r: (nat, nat))
    ensures r.1 <= s
  {
    if s > 0 && m % 10 == 0 then Strip(m / 10, s - 1) else (m, s)
  }

  lemma {:induction false} StripValue(m: nat, s: nat)
    ensures m == Strip(m, s).0 * Pow10(s - Strip(m, s).1)
  {
    if s > 0 && m % 10 == 0 {
      StripValue(m / 10, s - 1);
      var r := Strip(m / 10, s - 1);
      assert 10 * (r.0 * Pow10(s - 1 - r.1)) == r.0 * (10 * Pow10(s - 1 - r.1));
    }
  }

  lemma {:induction false} StripAtMost(m: nat, s: nat)
    ensures Strip(m, s).0 <= m
  {
    if s > 0 && m % 10 == 0 { StripAtMost(m / 10, s - 1); }
  }

  lemma {:induction false} StripTakes(m: nat, k: nat, s: nat)
    requires k <= s
    ensures Strip(m * Pow10(k), s).1 <= s - k
  {
    if k > 0 {
      assert m * Pow10(k) == 10 * (m * Pow10(k - 1));
      StripTakes(m, k - 1, s - 1);
    }
  }

  /** The decimal for a stored mantissa and scale; None where `set_scale` would fail. */
  function FromParts(m: nat, negative: bool, scale: nat): (r: Option<Decimal>)
  {
    if scale <= 28 then Some(Decimal(negative, m, scale))
    else
      var (m', s') := Strip(m, 28);
      if scale - 28 + s' <= 28 then Some(Decimal(negative, m', scale - 28 + s')) else None
  }

  function UnWord(s: seq<byte>, o: SortOrder): (r: nat)
    requires |s| == 4
  {
    UnBe(Oriented(o, s))
  }

  function ReadLow(o: SortOrder, rem: seq<byte>): (r: Option<(nat, seq<byte>)>)
  {
    if rem == [] then None
    else if rem[0] == Flag(false, o) then Some((0, rem[1..]))
    else if |rem| < 5 then None
    else Some((UnWord(rem[1..5], o), rem[5..]))
  }

  function ReadMid(o: SortOrder, rem: seq<byte>): (r: Option<(nat, seq<byte>)>)
  {
    if rem == [] then None
    else if rem[0] == Flag(false, o) then Some((0, rem[1..]))
    else if |rem| < 5 then None
    else match ReadLow(o, rem[5..])
      case None => None
      case Some((lo, rest)) => Some((UnWord(rem[1..5], o) * U32 + lo, rest))
  }

  /** The mantissa words at the front of a buffer. */
  function ReadWords(o: SortOrder, rem: seq<byte>): (r: Option<(nat, seq<byte>)>)
  {
    if |rem| < 4 then None
    else match ReadMid(o, rem[4..])
      case None => None
      case Some((low, rest)) => Some((UnWord(rem[..4], o) * U64 + low, rest))
  }

  function ReadDecimal(o: SortOrder, buffer: seq<byte>): (r: Option<(Decimal, seq<byte>)>)
  {
    if buffer == [] then None
    else if buffer[0] == 127 then Some((Decimal(false, 0, 0), buffer[1..]))
    else
      var upper := buffer[0] > 127;
      var tag: int := buffer[0];
      var scale := if upper then 100 - (tag - 128) else 100 - (126 - tag);
      if buffer[0] == 255 || scale < 0 then None else
      match ReadWords(if upper then Asc else Desc, buffer[1..])
      case None => None
      case Some((m, rest)) =>
        match FromParts(m, if upper then o.Desc? else o.Asc?, scale)
        case None => None
        case Some(d) => Some((d, rest))
  }

  lemma UnWordWord(v: nat, o: SortOrder)
    requires v < U32
    ensures UnWord(Word(v, o), o) == v
  {
    PowConstants();
    FlipFlip(Be(4, v));
    UnBeBe(4, v);
  }

  lemma AfterTag(t: byte, w: seq<byte>, rest: seq<byte>)
    ensures ([t] + w + rest)[1..1 + |w|] == w && ([t] + w + rest)[1 + |w|..] == rest
  {
  }

  lemma LowRoundTrip(lo: nat, o: SortOrder, rest: seq<byte>)
    requires lo < U32
    ensures ReadLow(o, LowWord(lo, o) + rest) == Some((lo, rest))
  {
    if lo == 0 {
      assert ([Flag(false, o)] + rest)[1..] == rest;
    } else {
      UnWordWord(lo, o);
      AfterTag(Flag(true, o), Word(lo, o), rest);
    }
  }

  lemma MidRoundTrip(mid: nat, lo: nat, o: SortOrder, rest: seq<byte>)
    requires mid < U32 && lo < U32
    ensures ReadMid(o, MidWords(mid, lo, o) + rest) == Some((mid * U32 + lo, rest))
  {
    hide Word, UnWord, LowWord, ReadLow;
    if mid == 0 && lo == 0 {
      assert ([Flag(false, o)] + rest)[1..] == rest;
    } else {
      UnWordWord(mid, o);
      AfterTag(Flag(true, o), Word(mid, o), LowWord(lo, o) + rest);
      var xx := MidUnfold(mid, lo, o, rest);
      assert [Flag(true, o)] + xx == [Flag(true, o)] + Word(mid, o) + (LowWord(lo, o) + rest);
      LowRoundTrip(lo, o, rest);
    }
  }

  lemma WordsRoundTrip(m: nat, o: SortOrder, rest: seq<byte>)
    requires m < U96
    ensures ReadWords(o, Words(m, o) + rest) == Some((m, rest))
  {
    hide MidWords, ReadMid, Word, UnWord;
    var hi, mid, lo := m / U64, m / U32 % U32, m % U32;
    assert m == hi * U64 + mid * U32 + lo;
    UnWordWord(hi, o);
    var buffer := Words(m, o) + rest;
    assert buffer[..4] == Word(hi, o) && buffer[4..] == MidWords(mid, lo, o) + rest;
    MidRoundTrip(mid, lo, o, rest);
  }

  /** Putting the normalised mantissa back under a legal scale keeps the number. */
  lemma PartsValue(mantissa: nat, scale: nat, k: nat, negative: bool)
    requires scale <= 28 && k <= 27 && mantissa * Pow10(k) < TEN_28
    ensures
      var r := FromParts(mantissa * Pow10(k), negative, scale + k);
      r.Some? && r.value.negative == negative && r.value.Valid()
      && Magnitude(r.value.mantissa, r.value.scale) == Magnitude(mantissa, scale)
  {
    hide Pow10, Strip, Magnitude;
    var m := mantissa * Pow10(k);
    MagnitudeShift(mantissa, scale, k);
    if scale + k > 28 {
      StripTakes(mantissa, k, 28);
      StripAtMost(m, 28);
      StripValue(m, 28);
      var (m', s') := Strip(m, 28);
      MagnitudeShift(m', scale + k - 28 + s', 28 - s');
    }
  }

  /** Decoding returns an equal number with a legal scale, and exactly the bytes that followed. */
  lemma DecimalRoundTrip(d: Decimal, o: SortOrder, rest: seq<byte>)
    requires d.Valid()
    ensures
      var r := ReadDecimal(o, WriteDecimal(d, o) + rest);
      r.Some? && r.value.1 == rest && r.value.0.Valid() && Value(r.value.0) == Value(d)
  {
    hide Words, ReadWords, FromParts, Shift, Pow10;
    var code := WriteDecimal(d, o);
    assert (code + rest)[1..] == code[1..] + rest;
    if d.mantissa > 0 {
      var wo := if WrittenUpper(d, o) then Asc else Desc;
      assert code[1..] == Words(NormalMantissa(d), wo);
      WordsRoundTrip(NormalMantissa(d), wo, rest);
      ShiftAtMost27(d.mantissa);
      PartsValue(d.mantissa, d.scale, Shift(d.mantissa), d.negative);
    } else {
      assert code[1..] + rest == rest;
    }
  }
}
