/** Building the tape: containers reserve a one-byte length and widen it in place once their body is written. */
module JsonBuilder {
  import opened Bags
  import opened Bytes
  import opened Json

  lemma {:induction false} TapeAllSnoc(js: seq<Json>, i: nat)
    requires i < |js|
    ensures TapeAll(js[..i + 1]) == TapeAll(js[..i]) + Tape(js[i])
  {
    hide Tape;
    if i == 0 {
      assert js[..1] == [js[0]] && [js[0]][1..] == [] && js[..0] == [];
      assert Tape(js[0]) + [] == Tape(js[0]) && [] + Tape(js[0]) == Tape(js[0]);
    } else {
      TapeAllSnoc(js[1..], i - 1);
      assert js[..i + 1][1..] == js[1..][..i] && js[..i][1..] == js[1..][..i - 1] && js[1..][i - 1] == js[i];
      assert Tape(js[0]) + (TapeAll(js[1..][..i - 1]) + Tape(js[i])) ==
        (Tape(js[0]) + TapeAll(js[1..][..i - 1])) + Tape(js[i]);
    }
  }

  function EntryTape(e: Entry): (r: seq<byte>) { Packed(0x17, e.key) + Tape(e.value) }

  lemma {:induction false} TapeEntriesSnoc(es: seq<Entry>, i: nat)
    requires i < |es|
    ensures TapeEntries(es[..i + 1]) == TapeEntries(es[..i]) + EntryTape(es[i])
  {
    hide Tape, Packed;
    EntryFirst(es[..i + 1]);
    if i == 0 {
      assert es[..1] == [es[0]] && [es[0]][1..] == [] && es[..0] == [];
      assert EntryTape(es[0]) + [] == EntryTape(es[0]) && [] + EntryTape(es[0]) == EntryTape(es[0]);
    } else {
      TapeEntriesSnoc(es[1..], i - 1);
      EntryFirst(es[..i]);
      assert es[..i + 1][1..] == es[1..][..i] && es[..i][1..] == es[1..][..i - 1] && es[1..][i - 1] == es[i];
      Regroup(EntryTape(es[0]), TapeEntries(es[1..][..i - 1]), EntryTape(es[i]));
    }
  }

  lemma EntryFirst(es: seq<Entry>)
    requires es != []
    ensures TapeEntries(es) == EntryTape(es[0]) + TapeEntries(es[1..])
  {
    hide Tape, Packed;
    Regroup(Packed(0x17, es[0].key), Tape(es[0].value), TapeEntries(es[1..]));
  }

  class Builder {
    var bytes: seq<byte>

    constructor ()
      ensures bytes == []
    {
      bytes := [];
    }

    method PushNull()
      modifies this
      ensures bytes == old(bytes) + Tape(JsonNull)
    {
      bytes := bytes + [0x00];
    }

    method PushBool(b: bool)
      modifies this
      ensures bytes == old(bytes) + Tape(JsonBool(b))
    {
      if b { bytes := bytes + [0x02]; } else { bytes := bytes + [0x01]; }
    }

    /** An integer is a decimal of scale zero. */
    method PushInt(i: int)
      requires -0x8000_0000_0000_0000 <= i < 0x8000_0000_0000_0000
      modifies this
      ensures bytes == old(bytes) + Tape(JsonNumber(i, 0))
    {
      hide Le;
      if -0x80 <= i < 0x80 {
        bytes := bytes + [0x03] + Le(1, i);
      } else if -0x8000 <= i < 0x8000 {
        bytes := bytes + [0x04] + Le(2, i);
      } else if -0x8000_0000 <= i < 0x8000_0000 {
        bytes := bytes + [0x05] + Le(4, i);
      } else {
        bytes := bytes + [0x06] + Le(8, i);
      }
    }

    method PushDecimal(m: int, scale: nat)
      requires ValidNumber(m, scale)
      modifies this
      ensures bytes == old(bytes) + Tape(JsonNumber(m, scale))
    {
      hide Le;
      var tags := if scale < 3 then 3 + 5 * scale else 0x12;
      var extra := if scale < 3 then [] else [scale as byte];
      if -0x80 <= m < 0x80 {
        bytes := bytes + ([tags] + extra + Le(1, m));
      } else if -0x8000 <= m < 0x8000 {
        bytes := bytes + ([tags + 1] + extra + Le(2, m));
      } else if -0x8000_0000 <= m < 0x8000_0000 {
        bytes := bytes + ([tags + 2] + extra + Le(4, m));
      } else if -0x8000_0000_0000_0000 <= m < 0x8000_0000_0000_0000 {
        bytes := bytes + ([tags + 3] + extra + Le(8, m));
      } else {
        var cut := Le(12, m);
        if m < 0 && cut[11] < 128 { cut := cut[11 := cut[11] + 128]; }
        bytes := bytes + ([tags + 4] + extra + cut);
      }
    }

    method PushString(s: seq<byte>)
      requires |s| <= U32_MAX
      modifies this
      ensures bytes == old(bytes) + Packed(0x17, s)
    {
      hide Le;
      var len := |s|;
      if len == 0 {
        bytes := bytes + [0x17];
      } else if len <= 0xFF {
        bytes := bytes + ([0x18, len as byte] + s);
      } else if len <= 0xFFFF {
        bytes := bytes + ([0x19] + Le(2, len) + s);
      } else {
        bytes := bytes + ([0x1a] + Le(4, len) + s);
      }
    }

    /** The body is in place behind a tag and one reserved byte; the header is made to fit it. */
    method CloseContainer(empty: byte, lenBefore: nat)
      requires IsEmptyTag(empty) && 2 <= lenBefore <= |bytes| && |bytes| - lenBefore <= U32_MAX
      requires bytes[lenBefore - 2] == empty
      modifies this
      ensures bytes == old(bytes)[..lenBefore - 2] + Packed(empty, old(bytes)[lenBefore..])
    {
      hide Le;
      var lenAfter := |bytes|;
      var len := lenAfter - lenBefore;
      ghost var start, body := bytes[..lenBefore - 2], bytes[lenBefore..];
      if len == 0 {
        bytes := bytes[..lenAfter - 1];
        assert bytes == start + [empty];
      } else if len <= 0xFF {
        bytes := bytes[lenBefore - 2 := empty + 1][lenBefore - 1 := len as byte];
        assert bytes == start + ([empty + 1, len as byte] + body);
      } else if len <= 0xFFFF {
        WidenToTwo(empty, lenBefore, len);
      } else {
        WidenToFour(empty, lenBefore, len);
      }
    }

    /** Inserts one byte in front of the body and writes a two-byte length. */
    method WidenToTwo(empty: byte, lenBefore: nat, len: nat)
      requires IsEmptyTag(empty) && 2 <= lenBefore <= |bytes|
      modifies this
      ensures bytes == old(bytes)[..lenBefore - 2] + ([empty + 2] + Le(2, len) + old(bytes)[lenBefore..])
    {
      hide Le;
      ghost var start, body := bytes[..lenBefore - 2], bytes[lenBefore..];
      bytes := bytes[lenBefore - 2 := empty + 2];
      bytes := bytes[..lenBefore - 1] + [0x00] + bytes[lenBefore - 1..];
      assert bytes[lenBefore + 1..] == body && bytes[..lenBefore - 1] == start + [empty + 2];
      bytes := bytes[..lenBefore - 1] + Le(2, len) + bytes[lenBefore + 1..];
    }

    /** Makes room for three bytes, moves the body over and writes a four-byte length. */
    method WidenToFour(empty: byte, lenBefore: nat, len: nat)
      requires IsEmptyTag(empty) && 2 <= lenBefore <= |bytes| && len == |bytes| - lenBefore
      modifies this
      ensures bytes == old(bytes)[..lenBefore - 2] + ([empty + 3] + Le(4, len) + old(bytes)[lenBefore..])
    {
      hide Le;
      var lenAfter := |bytes|;
      ghost var start, body := bytes[..lenBefore - 2], bytes[lenBefore..];
      bytes := bytes[lenBefore - 2 := empty + 3];
      bytes := bytes + [0x00, 0x00, 0x00];
      bytes := bytes[..lenBefore + 3] + bytes[lenBefore..lenAfter];
      assert bytes[lenBefore + 3..] == body && bytes[..lenBefore - 1] == start + [empty + 3];
      bytes := bytes[..lenBefore - 1] + Le(4, len) + bytes[lenBefore + 3..];
    }

    /** Builds a whole tree at the end of the tape. */
    method PushTree(j: Json)
      requires Buildable(j)
      modifies this
      ensures bytes == old(bytes) + Tape(j)
      decreases j, 1
    {
      hide Packed, NumberTape, TapeAll, TapeEntries;
      match j {
        case JsonNull => PushNull();
        case JsonBool(b) => PushBool(b);
        case JsonNumber(m, scale) => PushDecimal(m, scale);
        case JsonString(s) => PushString(s);
        case JsonArray(items) => PushArray(items);
        case JsonObject(entries) => PushObject(entries);
      }
    }

    method PushArray(items: seq<Json>)
      requires Buildable(JsonArray(items))
      modifies this
      ensures bytes == old(bytes) + Packed(0x1b, TapeAll(items))
      decreases items
    {
      hide Packed, Tape, TapeAll;
      ghost var start := bytes;
      bytes := bytes + [0x1b, 0x00];
      var lenBefore := |bytes|;
      ghost var begun := bytes;
      assert items[..0] == [];
      NoItems();
      assert begun + [] == begun;
      for i := 0 to |items|
        invariant bytes == begun + TapeAll(items[..i])
      {
        TapeAllSnoc(items, i);
        Regroup(begun, TapeAll(items[..i]), Tape(items[i]));
        PushTree(items[i]);
      }
      assert items[..|items|] == items;
      assert bytes[lenBefore..] == TapeAll(items) && bytes[..lenBefore - 2] == start;
      CloseContainer(0x1b, lenBefore);
    }

    method PushObject(entries: seq<Entry>)
      requires Buildable(JsonObject(entries))
      modifies this
      ensures bytes == old(bytes) + Packed(0x1f, TapeEntries(entries))
      decreases entries
    {
      hide Packed, Tape, TapeEntries;
      ghost var start := bytes;
      bytes := bytes + [0x1f, 0x00];
      var lenBefore := |bytes|;
      ghost var begun := bytes;
      assert entries[..0] == [];
      NoItems();
      assert begun + [] == begun;
      for i := 0 to |entries|
        invariant bytes == begun + TapeEntries(entries[..i])
      {
        TapeEntriesSnoc(entries, i);
        Regroup(begun, TapeEntries(entries[..i]), EntryTape(entries[i]));
        Regroup(begun + TapeEntries(entries[..i]), Packed(0x17, entries[i].key), Tape(entries[i].value));
        PushString(entries[i].key);
        PushTree(entries[i].value);
      }
      assert entries[..|entries|] == entries;
      assert bytes[lenBefore..] == TapeEntries(entries) && bytes[..lenBefore - 2] == start;
      CloseContainer(0x1f, lenBefore);
    }
  }

  lemma NoItems()
    ensures TapeAll([]) == [] && TapeEntries([]) == []
  {
  }

  /** Building and reading: the tape has the size it says, and is the tree again, exactly for the trees that survive. */
  method BuildAndRead(j: Json) returns (tape: seq<byte>)
    requires Buildable(j)
    ensures Size(tape) == Some(|tape|) <==> !Miscounted(j)
    ensures Read(tape) == Some(j) <==> Exact(j)
  {
    hide Tape, Read, Size, Exact, Miscounted, Buildable;
    var builder := new Builder();
    builder.PushTree(j);
    tape := builder.bytes;
    SizeOfTape(j, []);
    assert Tape(j) + [] == Tape(j) && [] + Tape(j) == Tape(j);
    RoundTrip(j);
  }

  // ----- Iterating

  /** The iterator over nodes laid end to end: a slice that shrinks from the front. */
  class JsonIter {
    var json: seq<byte>

    constructor (json: seq<byte>)
      ensures this.json == json
    {
      this.json := json;
    }

    method Advance() returns (step: Step)
      modifies this
      ensures step == Next(old(json))
      ensures json == if step.Node? then step.rest else old(json)
    {
      var size := Size(json);
      if size.None? { return Panic; }
      if size.value == 0 { return Finished; }
      if size.value > |json| { return Panic; }
      step := Node(json[..size.value], json[size.value..]);
      json := json[size.value..];
    }
  }

  /** Walking an array with the iterator reads its items. */
  method IterArray(body: seq<byte>) returns (r: Option<seq<Json>>)
    ensures r == ReadItems(body)
  {
    hide Read, Size;
    var iter := new JsonIter(body);
    var items: seq<Json> := [];
    NothingRead(ReadItems(body));
    while true
      invariant ReadItems(body) == After(items, ReadItems(iter.json))
      decreases |iter.json|
    {
      var step := iter.Advance();
      match step {
        case Panic => return None;
        case Finished =>
          assert items + [] == items;
          return Some(items);
        case Node(node, rest) =>
          var item := Read(node);
          if item.None? { return None; }
          OneMore(items, item.value, ReadItems(rest));
          items := items + [item.value];
      }
    }
  }

  /** Items already read, followed by the rest. */
  ghost function After(items: seq<Json>, rest: Option<seq<Json>>): (r: Option<seq<Json>>) {
    match rest case None => None case Some(js) => Some(items + js)
  }

  lemma NothingRead(rest: Option<seq<Json>>)
    ensures After([], rest) == rest
  {
    if rest.Some? { assert [] + rest.value == rest.value; }
  }

  lemma OneMore(items: seq<Json>, item: Json, rest: Option<seq<Json>>)
    ensures After(items + [item], rest) == After(items, match rest case None => None case Some(js) => Some([item] + js))
  {
    if rest.Some? { assert items + [item] + rest.value == items + ([item] + rest.value); }
  }

  /** 1.000 in front of a null: its size swallows the null. */
  lemma MiscountedLost()
    ensures
      var j := JsonArray([JsonNumber(1000, 3), JsonNull]);
      Buildable(j) && !Exact(j) && Read(Tape(j)) != Some(j)
  {
    var items := [JsonNumber(1000, 3), JsonNull];
    hide Tape, Read;
    assert Miscounted(items[0]);
    SizeOfTape(items[0], []);
    SmallItems(items);
    RoundTrip(JsonArray(items));
  }

  lemma SmallItems(items: seq<Json>)
    requires items == [JsonNumber(1000, 3), JsonNull]
    ensures Buildable(JsonArray(items))
  {
    assert items[1..] == [JsonNull] && [JsonNull][1..] == [];
    assert |Tape(items[0])| == 4 && |Tape(items[1])| == 1;
    assert TapeAll([JsonNull]) == Tape(JsonNull) + TapeAll([]);
    assert TapeAll(items) == Tape(items[0]) + TapeAll([JsonNull]);
    assert Buildable(items[0]) && Buildable(items[1]);
  }

  /** A mantissa of 2^95 comes back negative. */
  lemma WideMantissaLost()
    ensures
      var j := JsonNumber(P95, 0);
      Buildable(j) && !Exact(j) && Read(Tape(j)) != Some(j)
  {
    hide Tape, Read;
    RoundTrip(JsonNumber(P95, 0));
  }
}
