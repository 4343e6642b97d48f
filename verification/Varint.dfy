/** Variable-length integers: the first byte carries the size (and sign), the rest is big-endian. */
module Varint {
  import opened Bytes

  const U16 := 0x1_0000
  const U32 := 0x1_0000_0000
  const U64 := 0x1_0000_0000_0000_0000
  const I64_MIN := -0x8000_0000_0000_0000
  const I64_LIMIT := 0x8000_0000_0000_0000

  /** The sign of a comparison as a column of the given order shows it. */
  function Directed(o: SortOrder, c: int): (r: int) {
    if o.Asc? then c else -c
  }

  // ----- Unsigned

  function WriteUnsigned(i: nat, o: SortOrder): (r: seq<byte>)
    requires i < U64
    ensures r != []
  {
    if o.Desc? then
      if i < 253 then [255 - i]
      else if i < U16 then [255 - 253] + Be(2, U16 - 1 - i)
      else if i < U32 then [255 - 254] + Be(4, U32 - 1 - i)
      else [255 - 255] + Be(8, U64 - 1 - i)
    else
      if i < 253 then [i]
      else if i < U16 then [253] + Be(2, i)
      else if i < U32 then [254] + Be(4, i)
      else [255] + Be(8, i)
  }

  /** The value at the front of a buffer and the bytes after it; None where indexing would panic. */
  function ReadUnsigned(o: SortOrder, buffer: seq<byte>): (r: Option<(nat, seq<byte>)>)
  {
    if buffer == [] then None else
    var rem := buffer[1..];
    if o.Desc? then
      if buffer[0] == 2 then
        if |rem| < 2 then None else Some((Complement(U16, rem[..2]), rem[2..]))
      else if buffer[0] == 1 then
        if |rem| < 4 then None else Some((Complement(U32, rem[..4]), rem[4..]))
      else if buffer[0] == 0 then
        if |rem| < 8 then None else Some((Complement(U64, rem[..8]), rem[8..]))
      else Some((255 - buffer[0], rem))
    else
      if buffer[0] == 253 then
        if |rem| < 2 then None else Some((UnBe(rem[..2]), rem[2..]))
      else if buffer[0] == 254 then
        if |rem| < 4 then None else Some((UnBe(rem[..4]), rem[4..]))
      else if buffer[0] == 255 then
        if |rem| < 8 then None else Some((UnBe(rem[..8]), rem[8..]))
      else Some((buffer[0], rem))
  }

  /** `!uN::from_be_bytes(s)`, the complement in a width of `limit` values. */
  function Complement(limit: nat, s: seq<byte>): (r: nat)
    requires UnBe(s) < limit || (|s| == 2 && limit == U16) || (|s| == 4 && limit == U32) || (|s| == 8 && limit == U64)
  {
    BeUnBe(s);
    PowConstants();
    limit - 1 - UnBe(s)
  }

  lemma UnsignedRoundTrip(i: nat, o: SortOrder, rest: seq<byte>)
    requires i < U64
    ensures ReadUnsigned(o, WriteUnsigned(i, o) + rest) == Some((i, rest))
  {
    PowConstants();
    var code := WriteUnsigned(i, o);
    var n := |code| - 1;
    assert (code + rest)[1..] == code[1..] + rest;
    assert (code[1..] + rest)[..n] == code[1..] && (code[1..] + rest)[n..] == rest;
    if i >= 253 {
      UnBeBe(n, if o.Asc? then i else Pow256(n) - 1 - i);
      assert code[1..] == Be(n, if o.Asc? then i else Pow256(n) - 1 - i);
    }
  }

  /** Every code is a discriminator followed by a fixed number of big-endian bytes. */
  lemma UnsignedParts(i: nat, o: SortOrder) returns (n: nat, u: nat)
    requires i < U64
    ensures WriteUnsigned(i, o)[1..] == Be(n, u) && u < Pow256(n)
    ensures n == UnsignedWidth(o, WriteUnsigned(i, o)[0])
    ensures n == 0 ==> WriteUnsigned(i, o)[0] == if o.Asc? then i else 255 - i
    ensures n > 0 ==> u == if o.Asc? then i else Pow256(n) - 1 - i
  {
    PowConstants();
    n := |WriteUnsigned(i, o)| - 1;
    u := if n == 0 then 0 else if o.Asc? then i else Pow256(n) - 1 - i;
  }

  /** How many bytes follow an unsigned discriminator. */
  function UnsignedWidth(o: SortOrder, t: byte): (r: nat) {
    var d := if o.Asc? then t else 255 - t;
    if d == 253 then 2 else if d == 254 then 4 else if d == 255 then 8 else 0
  }

  lemma UnsignedOrder(a: nat, b: nat, o: SortOrder, x: seq<byte>, y: seq<byte>)
    requires a < U64 && b < U64
    ensures Cmp(WriteUnsigned(a, o) + x, WriteUnsigned(b, o) + y)
         == if a == b then Cmp(x, y) else Directed(o, Sign(a - b))
  {
    hide Be, Pow256;
    var ca, cb := WriteUnsigned(a, o), WriteUnsigned(b, o);
    assert ca + x == [ca[0]] + (ca[1..] + x) && cb + y == [cb[0]] + (cb[1..] + y);
    CmpHead(ca[0], cb[0], ca[1..] + x, cb[1..] + y);
    if ca[0] == cb[0] {
      var n, u := UnsignedParts(a, o);
      var m, v := UnsignedParts(b, o);
      BeOrder(n, u, v, x, y);
    }
  }

  // ----- Signed

  predicate IsI64(i: int) { I64_MIN <= i < I64_LIMIT }

  /** `i64 as u64`. */
  function Twos(i: int): (r: nat)
    requires IsI64(i)
    ensures r < U64
  {
    if i >= 0 then i else i + U64
  }

  /** `u64 as i64`. */
  function FromTwos(u: nat): (r: int)
    requires u < U64
    ensures IsI64(r) && Twos(r) == u
  {
    if u < I64_LIMIT then u else u - U64
  }

  function WriteSigned(i: int, o: SortOrder): (r: seq<byte>)
    requires IsI64(i)
    ensures r != []
  {
    if o.Desc? && i == I64_MIN then [255] + Be(8, U64 - 1)
    else SignedBody(if o.Desc? then -i else i)
  }

  function SignedBody(i: int): (r: seq<byte>)
    requires IsI64(i)
    ensures r != []
  {
    if i >= 0 then
      if i <= 148 then [i + 103]
      else if i < 0x100 then [252, i]
      else if i < U16 then [253] + Be(2, i)
      else if i < U32 then [254] + Be(4, i)
      else [255] + Be(8, Twos(i))
    else
      if i >= -99 then [i + 103]
      else if i > -0x100 then [3, 255 - (-i)]
      else if i > -U16 then [2] + Be(2, U16 - 1 - (-i))
      else if i > -U32 then [1] + Be(4, U32 - 1 - (-i))
      else [0] + Be(8, Twos(i))
  }

  function ReadSigned(o: SortOrder, buffer: seq<byte>): (r: Option<(int, seq<byte>)>)
  {
    if buffer == [] then None else
    var rem := buffer[1..];
    var t := buffer[0];
    var n := SignedWidth(t);
    if |rem| < n then None else
    PowConstants();
    BeUnBe(rem[..n]);
    var u := UnBe(rem[..n]);
    if t == 255 && o.Desc? && u == U64 - 1 then Some((I64_MIN, rem[8..]))
    else
      var i := SignedValue(t, u);
      Some((if o.Desc? then -i else i, rem[n..]))
  }

  function SignedValue(t: byte, u: nat): (r: int)
    requires u < Pow256(SignedWidth(t))
  {
    PowConstants();
    if t == 0 || t == 255 then FromTwos(u)
    else if t == 1 then -(U32 - 1 - u)
    else if t == 2 then -(U16 - 1 - u)
    else if t == 3 then -(255 - u)
    else if t >= 252 then u
    else t - 103
  }

  /** How many bytes follow a signed discriminator. */
  function SignedWidth(t: byte): (r: nat) {
    if t == 0 || t == 255 then 8
    else if t == 1 || t == 254 then 4
    else if t == 2 || t == 253 then 2
    else if t == 3 || t == 252 then 1
    else 0
  }

  lemma SignedBodyParts(i: int) returns (u: nat)
    requires IsI64(i)
    ensures SignedBody(i)[1..] == Be(SignedWidth(SignedBody(i)[0]), u)
    ensures u < Pow256(SignedWidth(SignedBody(i)[0]))
    ensures SignedWidth(SignedBody(i)[0]) == 0 ==> SignedBody(i)[0] == i + 103
    ensures SignedBody(i)[0] in {252, 253, 254, 255} ==> u == i && 149 <= i
    ensures SignedBody(i)[0] == 0 ==> u == i + U64 && i <= -U32
    ensures SignedBody(i)[0] in {1, 2, 3} ==>
      u == Pow256(SignedWidth(SignedBody(i)[0])) - 1 + i && i <= -100
  {
    PowConstants();
    var n := |SignedBody(i)| - 1;
    u := if i < -99 then Pow256(n) + i - (if i <= -U32 then 0 else 1) else if i > 148 then i else 0;
    if n == 1 {
      assert Be(1, u) == Be(0, u / 256) + [u % 256];
    }
  }

  lemma ReadSignedParts(t: byte, u: nat, o: SortOrder, rest: seq<byte>)
    requires u < Pow256(SignedWidth(t))
    ensures ReadSigned(o, [t] + Be(SignedWidth(t), u) + rest) ==
      if t == 255 && o.Desc? && u == U64 - 1 then Some((I64_MIN, rest))
      else Some((Directed(o, SignedValue(t, u)), rest))
  {
    hide UnBe, Be, Pow256;
    var n := SignedWidth(t);
    UnBeBe(n, u);
    assert ([t] + Be(n, u) + rest)[1..] == Be(n, u) + rest;
    assert (Be(n, u) + rest)[..n] == Be(n, u) && (Be(n, u) + rest)[n..] == rest;
  }

  /** Decoding undoes encoding and consumes exactly the code, i64::MIN under Desc included. */
  lemma SignedRoundTrip(i: int, o: SortOrder, rest: seq<byte>)
    requires IsI64(i)
    ensures ReadSigned(o, WriteSigned(i, o) + rest) == Some((i, rest))
  {
    PowConstants();
    if o.Desc? && i == I64_MIN {
      ReadSignedParts(255, U64 - 1, o, rest);
    } else {
      var code := WriteSigned(i, o);
      var u := SignedBodyParts(Directed(o, i));
      assert code == [code[0]] + Be(SignedWidth(code[0]), u);
      ReadSignedParts(code[0], u, o, rest);
    }
  }

  lemma SignedBodyOrder(a: int, b: int, x: seq<byte>, y: seq<byte>)
    requires IsI64(a) && IsI64(b)
    ensures Cmp(SignedBody(a) + x, SignedBody(b) + y) == if a == b then Cmp(x, y) else Sign(a - b)
  {
    hide Be, Pow256;
    var ca, cb := SignedBody(a), SignedBody(b);
    assert ca + x == [ca[0]] + (ca[1..] + x) && cb + y == [cb[0]] + (cb[1..] + y);
    CmpHead(ca[0], cb[0], ca[1..] + x, cb[1..] + y);
    if ca[0] == cb[0] {
      var u := SignedBodyParts(a);
      var v := SignedBodyParts(b);
      BeOrder(SignedWidth(ca[0]), u, v, x, y);
    }
  }

  lemma SignedOrder(a: int, b: int, o: SortOrder, x: seq<byte>, y: seq<byte>)
    requires IsI64(a) && IsI64(b)
    ensures Cmp(WriteSigned(a, o) + x, WriteSigned(b, o) + y)
         == if a == b then Cmp(x, y) else Directed(o, Sign(a - b))
  {
    if o.Asc? {
      SignedBodyOrder(a, b, x, y);
    } else if a != I64_MIN && b != I64_MIN {
      SignedBodyOrder(-a, -b, x, y);
    } else if a == b {
      CmpPrefix(WriteSigned(a, o), x, y);
    } else if a == I64_MIN {
      MinAboveAll(-b, x, y);
    } else {
      MinAboveAll(-a, y, x);
      CmpAntisymmetric(WriteSigned(a, o) + x, WriteSigned(b, o) + y);
    }
  }

  /** The special descending code of i64::MIN sorts after every negated value. */
  lemma MinAboveAll(i: int, x: seq<byte>, y: seq<byte>)
    requires IsI64(i)
    ensures Cmp([255] + Be(8, U64 - 1) + x, SignedBody(i) + y) == 1
  {
    PowConstants();
    var c := SignedBody(i);
    assert [255] + Be(8, U64 - 1) + x == [255] + (Be(8, U64 - 1) + x) && c + y == [c[0]] + (c[1..] + y);
    CmpHead(255, c[0], Be(8, U64 - 1) + x, c[1..] + y);
    if c[0] == 255 {
      var u := SignedBodyParts(i);
      BeOrder(8, U64 - 1, u, x, y);
    }
  }
}
