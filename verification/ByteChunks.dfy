/** Byte strings in chunks of eight: each chunk is zero-padded and followed by how many of its
    bytes are used, or by 9 when another chunk follows. Descending columns store the complement. */
module ByteChunks {
  import opened Bytes
  import opened Varint

  /** The growing `Vec<u8>` that encoders append to. */
  class ByteBuffer {
    var bytes: seq<byte>

    constructor ()
      ensures bytes == []
    {
      bytes := [];
    }
  }

  function Oriented(o: SortOrder, s: seq<byte>): (r: seq<byte>)
    ensures |r| == |s|
  {
    if o.Asc? then s else Flip(s)
  }

  /** `a` cut or zero-padded to `n` bytes. */
  function Pad(n: nat, a: seq<byte>): (r: seq<byte>)
    ensures |r| == n
    ensures forall i :: 0 <= i < n ==> r[i] == if i < |a| then a[i] else 0
  {
    seq(n, i requires 0 <= i < n => if i < |a| then a[i] else 0)
  }

  /** The nine bytes that start the code of `a`. */
  function Block(a: seq<byte>): (r: seq<byte>)
    ensures |r| == 9
  {
    Pad(8, a) + [if |a| > 8 then 9 else |a|]
  }

  function WriteBytes(a: seq<byte>, o: SortOrder): (r: seq<byte>)
  {
    Oriented(o, Block(a)) + if |a| > 8 then WriteBytes(a[8..], o) else []
  }

  lemma WriteBytesUnfold(a: seq<byte>, o: SortOrder, rest: seq<byte>)
    ensures WriteBytes(a, o) + rest == Oriented(o, Block(a)) + if |a| > 8 then WriteBytes(a[8..], o) + rest else rest
  {
    hide Block, Oriented;
    if |a| <= 8 {
      assert Oriented(o, Block(a)) + [] == Oriented(o, Block(a));
    } else {
      assert Oriented(o, Block(a)) + WriteBytes(a[8..], o) + rest ==
        Oriented(o, Block(a)) + (WriteBytes(a[8..], o) + rest);
    }
  }

  lemma FullBlock(a: seq<byte>, o: SortOrder)
    requires |a| > 8
    ensures Oriented(o, Block(a)) == Oriented(o, a[..8]) + [if o.Asc? then 9 else 255 - 9]
  {
    assert Block(a) == a[..8] + [9];
    FlipConcat(a[..8], [9]);
  }

  lemma LastBlock(a: seq<byte>, o: SortOrder)
    requires |a| <= 8
    ensures Oriented(o, Block(a)) == Oriented(o, a) + seq(8 - |a|, _ => if o.Asc? then 0 else 255)
                                   + [if o.Asc? then |a| else 255 - |a|]
  {
    var zeros: seq<byte> := seq(8 - |a|, _ => 0);
    assert Block(a) == a + zeros + [|a|];
    hide Block;
    if o.Desc? {
      FlipConcat(a + zeros, [|a|]);
      FlipConcat(a, zeros);
      assert Flip(zeros) == seq(8 - |a|, _ => 255);
      assert Flip([|a|]) == [255 - |a|];
    }
  }

  method WriteSortableBytes(input: seq<byte>, o: SortOrder, buffer: ByteBuffer)
    modifies buffer
    ensures buffer.bytes == old(buffer.bytes) + WriteBytes(input, o)
  {
    hide Block, Flip, WriteBytes;
    var bytes := input;
    while |bytes| > 8
      invariant buffer.bytes + WriteBytes(bytes, o) == old(buffer.bytes) + WriteBytes(input, o)
    {
      FullBlock(bytes, o);
      AppendBlock(buffer.bytes, bytes, o);
      buffer.bytes := buffer.bytes + (Oriented(o, bytes[..8]) + [if o.Asc? then 9 else 255 - 9]);
      bytes := bytes[8..];
    }
    LastBlock(bytes, o);
    AppendBlock(buffer.bytes, bytes, o);
    WriteLastChunk(bytes, o, buffer);
  }

  lemma AppendBlock(done: seq<byte>, a: seq<byte>, o: SortOrder)
    ensures done + WriteBytes(a, o) ==
      done + Oriented(o, Block(a)) + if |a| > 8 then WriteBytes(a[8..], o) else []
  {
    hide Block, Oriented;
    var more := if |a| > 8 then WriteBytes(a[8..], o) else [];
    assert done + (Oriented(o, Block(a)) + more) == done + Oriented(o, Block(a)) + more;
  }

  /** The final chunk: what is left, padding, and how much of it counts. */
  method WriteLastChunk(bytes: seq<byte>, o: SortOrder, buffer: ByteBuffer)
    requires |bytes| <= 8
    modifies buffer
    ensures buffer.bytes == old(buffer.bytes) + Oriented(o, Block(bytes))
  {
    LastBlock(bytes, o);
    hide Block, Flip;
    buffer.bytes := buffer.bytes + Oriented(o, bytes);
    var filler: byte := if o.Asc? then 0 else 255;
    for k := 0 to 8 - |bytes|
      invariant buffer.bytes == old(buffer.bytes) + (Oriented(o, bytes) + seq(k, _ => filler))
    {
      buffer.bytes := buffer.bytes + [filler];
    }
    buffer.bytes := buffer.bytes + [if o.Asc? then |bytes| else 255 - |bytes|];
  }

  // ----- Reading

  /** The chunk at the front of a buffer: its payload, and whether another chunk follows. */
  function Chunk(o: SortOrder, buffer: seq<byte>): (r: (seq<byte>, bool))
    requires |buffer| >= 9
  {
    var t := if o.Asc? then buffer[8] else 255 - buffer[8];
    (Oriented(o, buffer[..if t < 8 then t else 8]), t == 9)
  }

  function ReadBytes(o: SortOrder, buffer: seq<byte>): (r: Option<(seq<byte>, seq<byte>)>)
  {
    if |buffer| < 9 then None
    else if !Chunk(o, buffer).1 then Some((Chunk(o, buffer).0, buffer[9..]))
    else Prepend(Chunk(o, buffer).0, ReadBytes(o, buffer[9..]))
  }

  function Prepend(chunk: seq<byte>, r: Option<(seq<byte>, seq<byte>)>): (p: Option<(seq<byte>, seq<byte>)>) {
    match r
    case None => None
    case Some((tail, rest)) => Some((chunk + tail, rest))
  }

  method ReadSortableBytes(o: SortOrder, buffer: seq<byte>) returns (r: Option<(seq<byte>, seq<byte>)>)
    ensures r == ReadBytes(o, buffer)
  {
    var rem, bytes := buffer, [];
    PrependNothing(ReadBytes(o, buffer));
    while true
      invariant ReadBytes(o, buffer) == Prepend(bytes, ReadBytes(o, rem))
      decreases |rem|
    {
      if |rem| < 9 { return None; }
      var t := if o.Asc? then rem[8] else 255 - rem[8];
      var n := if t < 8 then t else 8;
      var chunk := Oriented(o, rem[..n]);
      ghost var before := bytes;
      bytes := bytes + chunk;
      if t != 9 { return Some((bytes, rem[9..])); }
      PrependTwice(before, chunk, ReadBytes(o, rem[9..]));
      rem := rem[9..];
    }
  }

  lemma PrependTwice(a: seq<byte>, b: seq<byte>, r: Option<(seq<byte>, seq<byte>)>)
    ensures Prepend(a, Prepend(b, r)) == Prepend(a + b, r)
  {
    if r.Some? { assert a + (b + r.value.0) == a + b + r.value.0; }
  }

  lemma PrependNothing(r: Option<(seq<byte>, seq<byte>)>)
    ensures Prepend([], r) == r
  {
    if r.Some? { assert [] + r.value.0 == r.value.0; }
  }

  lemma ChunkOfBlock(a: seq<byte>, o: SortOrder, rest: seq<byte>)
    ensures Chunk(o, Oriented(o, Block(a)) + rest) == (if |a| > 8 then a[..8] else a, |a| > 8)
  {
    var block := Oriented(o, Block(a));
    var n := if |a| > 8 then 8 else |a|;
    assert (block + rest)[..n] == block[..n] && (block + rest)[8] == block[8];
    OrientedTwice(o, Block(a), n);
    BlockStart(a, n);
  }

  lemma OrientedTwice(o: SortOrder, s: seq<byte>, n: nat)
    requires n <= |s|
    ensures Oriented(o, Oriented(o, s)[..n]) == s[..n]
  {
  }

  lemma BlockStart(a: seq<byte>, n: nat)
    requires n == if |a| > 8 then 8 else |a|
    ensures Block(a)[..n] == if |a| > 8 then a[..8] else a
  {
  }

  lemma ReadBlock(a: seq<byte>, o: SortOrder, more: seq<byte>)
    ensures ReadBytes(o, Oriented(o, Block(a)) + more) ==
      if |a| > 8 then Prepend(a[..8], ReadBytes(o, more)) else Some((a, more))
  {
    hide Block, Oriented, Chunk;
    ChunkOfBlock(a, o, more);
    assert (Oriented(o, Block(a)) + more)[9..] == more;
  }

  lemma {:induction false} BytesRoundTrip(a: seq<byte>, o: SortOrder, rest: seq<byte>)
    ensures ReadBytes(o, WriteBytes(a, o) + rest) == Some((a, rest))
  {
    hide Block, Oriented, ReadBytes, WriteBytes;
    WriteBytesUnfold(a, o, rest);
    if |a| > 8 {
      ReadBlock(a, o, WriteBytes(a[8..], o) + rest);
      BytesRoundTrip(a[8..], o, rest);
      assert a == a[..8] + a[8..];
    } else {
      ReadBlock(a, o, rest);
    }
  }

  // ----- Order

  lemma {:induction false} PadOrder(n: nat, a: seq<byte>, b: seq<byte>)
    requires Pad(n, a) != Pad(n, b)
    ensures Cmp(Pad(n, a), Pad(n, b)) == Cmp(a, b)
  {
    PadHead(n, a);
    PadHead(n, b);
    var a', b' := if a == [] then a else a[1..], if b == [] then b else b[1..];
    var c, d := Pad(n, a)[0], Pad(n, b)[0];
    CmpHead(c, d, Pad(n - 1, a'), Pad(n - 1, b'));
    if c == d { PadOrder(n - 1, a', b'); }
    if a == [] { EmptyLeast(b'); } else if b == [] { EmptyLeast(a'); }
  }

  lemma PadHead(n: nat, a: seq<byte>)
    requires n > 0
    ensures Pad(n, a) == [if a == [] then 0 else a[0]] + Pad(n - 1, if a == [] then a else a[1..])
  {
  }

  lemma EmptyLeast(b: seq<byte>)
    ensures Cmp([], b) == (if b == [] then 0 else -1) && Cmp(b, []) == if b == [] then 0 else 1
  {
  }

  lemma {:induction false} PrefixLess(a: seq<byte>, b: seq<byte>)
    requires |a| < |b| && b[..|a|] == a
    ensures Cmp(a, b) == -1 && Cmp(b, a) == 1
  {
    if a != [] {
      assert a[0] == b[0] && b[1..][..|a| - 1] == a[1..];
      PrefixLess(a[1..], b[1..]);
    }
  }

  lemma BlockOrder(a: seq<byte>, b: seq<byte>)
    requires Block(a) != Block(b)
    ensures Cmp(Block(a), Block(b)) == Cmp(a, b)
  {
    var pa, pb := Pad(8, a), Pad(8, b);
    var ta, tb := if |a| > 8 then 9 else |a|, if |b| > 8 then 9 else |b|;
    CmpSameLength(pa, pb, [ta], [tb]);
    if pa != pb {
      PadOrder(8, a, b);
    } else {
      CmpHead(ta, tb, [], []);
      assert [ta] + [] == [ta] && [tb] + [] == [tb];
      if ta < tb { PrefixOfPad(a, b); PrefixLess(a, b); } else { PrefixOfPad(b, a); PrefixLess(b, a); }
    }
  }

  lemma BlockInjective(a: seq<byte>, b: seq<byte>)
    requires Block(a) == Block(b)
    ensures |a| > 8 <==> |b| > 8
    ensures if |a| > 8 then a[..8] == b[..8] else a == b
  {
    assert Block(a)[..8] == Pad(8, a) && Block(b)[..8] == Pad(8, b);
    assert Block(a)[8] == Block(b)[8];
    if |a| > 8 {
      assert a[..8] == Pad(8, a) && b[..8] == Pad(8, b);
    } else {
      assert a == Pad(8, a)[..|a|] && b == Pad(8, b)[..|b|];
    }
  }

  lemma PrefixOfPad(a: seq<byte>, b: seq<byte>)
    requires Pad(8, a) == Pad(8, b) && |a| <= 8 && |a| < |b|
    ensures b[..|a|] == a
  {
    assert a == Pad(8, a)[..|a|] && b[..|a|] == Pad(8, b)[..|a|];
  }

  /** The chunked code orders byte strings as they order themselves, reversed when descending,
      and no code is a prefix of another. */
  lemma {:induction false} BytesOrder(a: seq<byte>, b: seq<byte>, o: SortOrder, x: seq<byte>, y: seq<byte>)
    ensures Cmp(WriteBytes(a, o) + x, WriteBytes(b, o) + y) == if a == b then Cmp(x, y) else Directed(o, Cmp(a, b))
  {
    hide Block, Flip, WriteBytes, Cmp;
    var ba, bb := Oriented(o, Block(a)), Oriented(o, Block(b));
    var x' := if |a| > 8 then WriteBytes(a[8..], o) + x else x;
    var y' := if |b| > 8 then WriteBytes(b[8..], o) + y else y;
    WriteBytesUnfold(a, o, x);
    WriteBytesUnfold(b, o, y);
    CmpSameLength(ba, bb, x', y');
    FlipFlip(Block(a));
    FlipFlip(Block(b));
    CmpFlip(Block(a), Block(b));
    if Block(a) != Block(b) {
      BlockOrder(a, b);
      return;
    }
    BlockInjective(a, b);
    if |a| > 8 {
      BytesOrder(a[8..], b[8..], o, x, y);
      CmpPrefix(a[..8], a[8..], b[8..]);
      assert a == a[..8] + a[8..] && b == b[..8] + b[8..];
    }
  }
}
