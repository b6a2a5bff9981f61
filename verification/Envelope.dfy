/**
 The envelope reader of src/envelope.rs as the loop over a cursor that it is, proved against the
 recursive reading; the bounded read of a decompressed body; and a printer with its round trip.
 */
module Envelope {
  import opened Wrappers
  import opened EnvelopeGrammar

  /** No slice is longer than this on a 64-bit machine. */
  const MAX_SLICE := 0x7FFF_FFFF_FFFF_FFFF

  /** Fills a buffer from a stream, taking one byte more than the limit at most. */
  method ReadLimited(stream: Bytes) returns (r: Result<Bytes, Error>)
    ensures |stream| <= MAX_DECOMPRESSED_BYTES ==> r == Ok(stream)
    ensures |stream| > MAX_DECOMPRESSED_BYTES ==> r == Err(PayloadTooLarge)
  {
    var output: Bytes := [];
    while |output| < |stream| && |output| < MAX_DECOMPRESSED_BYTES + 1
      invariant |output| <= |stream| && |output| <= MAX_DECOMPRESSED_BYTES + 1
      invariant output == stream[..|output|]
    {
      output := output + [stream[|output|]];
    }
    assert |output| == |stream| ==> output == stream;
    if |output| > MAX_DECOMPRESSED_BYTES {
      return Err(PayloadTooLarge);
    }
    return Ok(output);
  }

  /** The line that starts at `start`: where it ends, and where the next one starts. */
  method Line(input: Bytes, start: Usize) returns (end: Usize, next: Usize)
    requires |input| <= MAX_SLICE && start as int <= |input|
    ensures start <= end <= next && next as int <= |input|
    ensures start as int < |input| ==> start < next
    ensures FirstLine(input[start..]) == Split(input[start..end], end < next, input[next..])
  {
    end := start;
    while (end as int) < |input| && input[end] != NL
      invariant start <= end && end as int <= |input|
      invariant forall i :: start as int <= i < end as int ==> input[i] != NL
    {
      end := end + 1;
    }
    next := if (end as int) < |input| then end + 1 else end;
    assert input[start..] == input[start..end] + Newline(end < next) + input[next..];
    FirstLineIs(input[start..], Split(input[start..end], end < next, input[next..]));
  }

  /** `cursor.checked_add(length)`, kept only if it is inside the input. */
  method CheckedEnd(input: Bytes, cursor: Usize, length: Usize) returns (end: Option<Usize>)
    requires |input| <= MAX_SLICE && cursor as int <= |input|
    ensures end == if cursor as int + length as int <= |input| then Some((cursor as int + length as int) as Usize)
            else None
  {
    if length as int > 0xFFFF_FFFF_FFFF_FFFF - cursor as int {
      return None;
    }
    var sum := cursor + length;
    return if sum as int <= |input| then Some(sum) else None;
  }

  /** Past the one newline that a payload from `start` to `end` may have after it. */
  method SkipNewline(input: Bytes, start: Usize, end: Usize) returns (next: Usize)
    requires |input| <= MAX_SLICE && start <= end && end as int <= |input|
    ensures end <= next && next as int <= |input|
    ensures Sized(input[start..], (end - start) as nat) == Split(input[start..end], end < next, input[next..])
  {
    next := end;
    if (next as int) < |input| && input[next] == NL {
      next := next + 1;
    }
    SliceSplits(input, start as int, end as int, next as int);
    SizedIs(input[start..], (end - start) as nat, Split(input[start..end], end < next, input[next..]));
  }

  lemma SliceSplits(input: Bytes, start: nat, end: nat, next: nat)
    requires start <= end <= next <= |input| && (next == end || (next == end + 1 && input[end] == NL))
    ensures input[start..] == input[start..end] + Newline(end < next) + input[next..]
  {
    assert input[start..] == input[start..end] + input[end..];
    assert next > end ==> input[end..] == [NL] + input[next..];
  }

  /** The payload of an item whose header line ended before `cursor`, and where the next item starts. */
  method Payload(input: Bytes, header: Header, cursor: Usize) returns (r: Option<(Bytes, Usize)>)
    requires |input| <= MAX_SLICE && cursor as int <= |input|
    ensures r.None? <==> TakePayload(input[cursor..], header).Truncated?
    ensures r.Some? ==>
              && cursor <= r.value.1 && r.value.1 as int <= |input|
              && TakePayload(input[cursor..], header) == Taken(r.value.0, input[r.value.1..])
  {
    if header.length.Some? {
      var end := CheckedEnd(input, cursor, header.length.value);
      if end.None? {
        return None;
      }
      var next := SkipNewline(input, cursor, end.value);
      return Some((input[cursor..end.value], next));
    }
    hide FirstLine, Sized;
    var end, next := Line(input, cursor);
    return Some((input[cursor..end], next));
  }

  /** The item whose header is the line [cursor, headerEnd), and where the next item starts. */
  method Item(codec: Codec, input: Bytes, cursor: Usize, headerEnd: Usize, afterHeader: Usize)
    returns (r: Result<(Item, Usize), Error>)
    requires |input| <= MAX_SLICE && cursor <= headerEnd <= afterHeader && afterHeader as int <= |input|
    ensures r.Err? ==> ReadItem(codec, input[cursor..headerEnd], input[afterHeader..]) == Rejected(r.error)
    ensures r.Ok? ==>
              && afterHeader <= r.value.1 && r.value.1 as int <= |input|
              && ReadItem(codec, input[cursor..headerEnd], input[afterHeader..]) == Read(r.value.0, input[r.value.1..])
  {
    var header := codec.itemHeader(input[cursor..headerEnd]);
    if header.None? {
      return Err(BadRequest);
    }
    var payload := Payload(input, header.value, afterHeader);
    if payload.None? {
      return Err(BadRequest);
    }
    if header.value.itemType in {"event", "transaction"} && |payload.value.0| > MAX_EVENT_BYTES {
      return Err(PayloadTooLarge);
    }
    return Ok((EnvelopeGrammar.Item(header.value.itemType, payload.value.0), payload.value.1));
  }

  /** One turn of the loop that is not a blank line, when `count` items have been read. */
  method NextItem(codec: Codec, input: Bytes, cursor: Usize, count: nat) returns (r: Result<(Item, Usize), Error>)
    requires |input| <= MAX_SLICE && (cursor as int) < |input| && input[cursor] != NL && count <= MAX_ITEMS
    ensures r.Err? ==> ReadItems(codec, input[cursor..], MAX_ITEMS - count) == Err(r.error)
    ensures r.Ok? ==>
              && count < MAX_ITEMS && cursor < r.value.1 && r.value.1 as int <= |input|
              && ReadItems(codec, input[cursor..], MAX_ITEMS - count)
                 == Prepend([r.value.0], ReadItems(codec, input[r.value.1..], MAX_ITEMS - count - 1))
  {
    var headerEnd, afterHeader := Line(input, cursor);
    ReadUnfolds(codec, input, cursor as int, headerEnd as int, MAX_ITEMS - count);
    if count >= MAX_ITEMS {
      return Err(PayloadTooLarge);
    }
    r := Item(codec, input, cursor, headerEnd, afterHeader);
  }

  method Parse(codec: Codec, input: Bytes) returns (r: Result<seq<Item>, Error>)
    requires |input| <= MAX_SLICE
    ensures r == ReadEnvelope(codec, input)
  {
    var end, cursor := Line(input, 0);
    assert input[0..] == input;
    if !codec.isJson(input[0..end]) {
      return Err(BadRequest);
    }
    r := ItemsFrom(codec, input, cursor);
  }

  /** The loop over the items. */
  method ItemsFrom(codec: Codec, input: Bytes, start: Usize) returns (r: Result<seq<Item>, Error>)
    requires |input| <= MAX_SLICE && start as int <= |input|
    ensures r == ReadItems(codec, input[start..], MAX_ITEMS)
  {
    hide ReadItems;
    var cursor := start;
    var items: seq<Item> := [];
    ghost var answer := ReadItems(codec, input[start..], MAX_ITEMS);
    ghost var left := answer;
    PrependNothing(items, left);
    while (cursor as int) < |input|
      invariant cursor as int <= |input| && |items| <= MAX_ITEMS
      invariant left == ReadItems(codec, input[cursor..], MAX_ITEMS - |items|)
      invariant answer == Prepend(items, left)
      decreases |input| - cursor as int
    {
      if input[cursor] == NL {
        BlankTurn(codec, input, cursor as int, MAX_ITEMS - |items|);
        cursor := cursor + 1;
        continue;
      }
      var next := NextItem(codec, input, cursor, |items|);
      if next.Err? {
        return Err(next.error);
      }
      left := ReadItems(codec, input[next.value.1..], MAX_ITEMS - |items| - 1);
      PrependTwice(items, next.value.0, left);
      items := items + [next.value.0];
      cursor := next.value.1;
    }
    NothingLeft(codec, input, cursor as int, MAX_ITEMS - |items|);
    PrependNothing(items, Ok([]));
    return Ok(items);
  }

  lemma NothingLeft(codec: Codec, input: Bytes, cursor: nat, room: nat)
    requires cursor == |input|
    ensures ReadItems(codec, input[cursor..], room) == Ok([])
  {
  }

  lemma BlankTurn(codec: Codec, input: Bytes, cursor: nat, room: nat)
    requires cursor < |input| && input[cursor] == NL
    ensures ReadItems(codec, input[cursor..], room) == ReadItems(codec, input[cursor + 1..], room)
  {
    assert input[cursor..] == [NL] + input[cursor + 1..];
    BlankIsSkipped(codec, input[cursor + 1..], room);
  }

  /** One turn of the loop that is not a blank line, seen from the recursive reading. */
  lemma ReadUnfolds(codec: Codec, input: Bytes, cursor: nat, headerEnd: nat, room: nat)
    requires cursor < |input| && input[cursor] != NL && cursor <= headerEnd <= |input|
    requires FirstLine(input[cursor..]).line == input[cursor..headerEnd]
    ensures room == 0 ==> ReadItems(codec, input[cursor..], room) == Err(PayloadTooLarge)
    ensures room > 0 ==>
              match ReadItem(codec, input[cursor..headerEnd], FirstLine(input[cursor..]).rest)
              case Rejected(e) => ReadItems(codec, input[cursor..], room) == Err(e)
              case Read(item, rest) =>
                ReadItems(codec, input[cursor..], room) == Prepend([item], ReadItems(codec, rest, room - 1))
  {
    assert input[cursor..][0] == input[cursor];
    assert FirstLine(input[cursor..]).line != [];
  }

  lemma PrependNothing(items: seq<Item>, r: Result<seq<Item>, Error>)
    ensures items == [] ==> Prepend(items, r) == r
    ensures r == Ok([]) ==> Prepend(items, r) == Ok(items)
  {
    if r.Ok? {
      assert [] + r.value == r.value;
      assert items + [] == items;
    }
  }

  lemma PrependTwice(items: seq<Item>, item: Item, r: Result<seq<Item>, Error>)
    ensures Prepend(items, Prepend([item], r)) == Prepend(items + [item], r)
  {
    if r.Ok? {
      assert items + ([item] + r.value) == items + [item] + r.value;
    }
  }

  // ----- printing -----

  /** An encoder whose header lines the decoder reads back; JSON text holds no raw newline. */
  ghost predicate Encodes(codec: Codec, encode: Header -> Bytes)
  {
    forall h :: encode(h) != [] && OneLine(encode(h)) && codec.itemHeader(encode(h)) == Some(h)
  }

  /** An item to print: blank lines before it, and whether its payload is framed by its length or its line. */
  datatype Framed = Framed(blanks: nat, item: Item, byLength: bool, newline: bool)
  {
    ghost predicate Printable()
    {
      && |item.payload| <= MAX_DECOMPRESSED_BYTES
      && FitsLimit(item.itemType, item.payload)
      && (!byLength ==> OneLine(item.payload))
    }

    /** The header of the item; the length is a machine word. */
    function Header(): EnvelopeGrammar.Header
    {
      EnvelopeGrammar.Header(item.itemType,
                             if byLength then Some((|item.payload| % 0x1_0000_0000_0000_0000) as Usize) else None)
    }
  }

  function Blanks(n: nat, b: Body): Body
  {
    if n == 0 then b else Blank(Blanks(n - 1, b))
  }

  /** The body that prints the items; the newline after a line-framed payload may be left out only at the end. */
  function Arrange(encode: Header -> Bytes, framed: seq<Framed>): Body
  {
    if framed == [] then End
    else
      var f := framed[0];
      var raw := encode(f.Header());
      var last := |framed| == 1;
      var p := if f.byLength then SizedItem(raw, f.item.payload, f.newline)
          else LinedItem(raw, f.item.payload, f.newline || !last);
      Blanks(f.blanks, Then(p, Arrange(encode, framed[1..])))
  }

  function ItemsOf(framed: seq<Framed>): seq<Item>
  {
    if framed == [] then [] else [framed[0].item] + ItemsOf(framed[1..])
  }

  lemma {:induction false} BlanksMeanNothing(codec: Codec, n: nat, b: Body, room: nat)
    requires WellFormed(codec, b, room)
    ensures WellFormed(codec, Blanks(n, b), room) && Meaning(codec, Blanks(n, b), room) == Meaning(codec, b, room)
  {
    if n > 0 {
      BlanksMeanNothing(codec, n - 1, b, room);
    }
  }

  lemma {:induction false} ArrangedMeansItems(codec: Codec, encode: Header -> Bytes, framed: seq<Framed>, room: nat)
    requires Encodes(codec, encode) && |framed| <= room
    requires forall i :: 0 <= i < |framed| ==> framed[i].Printable()
    ensures var b := Arrange(encode, framed);
            WellFormed(codec, b, room) && Meaning(codec, b, room) == ItemsOf(framed)
    ensures framed == [] ==> Arrange(encode, framed) == End
  {
    if framed != [] {
      var f := framed[0];
      ArrangedMeansItems(codec, encode, framed[1..], room - 1);
      var raw := encode(f.Header());
      var p := if f.byLength then SizedItem(raw, f.item.payload, f.newline)
               else LinedItem(raw, f.item.payload, f.newline || |framed| != 1);
      assert codec.itemHeader(raw) == Some(f.Header());
      BlanksMeanNothing(codec, f.blanks, Then(p, Arrange(encode, framed[1..])), room);
    }
  }

  /** A whole envelope as text. */
  function PrintEnvelope(header: Bytes, encode: Header -> Bytes, framed: seq<Framed>): Bytes
  {
    header + [NL] + Print(Arrange(encode, framed))
  }

  /**
   Round trip: up to a hundred items with arbitrary payload bytes, each framed by its length or, if it
   has no newline, by its line, with any number of blank lines between them and with or without the
   final newline, are read back exactly.
   */
  lemma PrintedEnvelopeIsRead(codec: Codec, header: Bytes, encode: Header -> Bytes, framed: seq<Framed>)
    requires OneLine(header) && codec.isJson(header)
    requires Encodes(codec, encode)
    requires |framed| <= MAX_ITEMS && forall i :: 0 <= i < |framed| ==> framed[i].Printable()
    ensures ReadEnvelope(codec, PrintEnvelope(header, encode, framed)) == Ok(ItemsOf(framed))
  {
    ArrangedMeansItems(codec, encode, framed, MAX_ITEMS);
    var b := Arrange(encode, framed);
    DerivedIsRead(codec, PrintEnvelope(header, encode, framed), header, b, ItemsOf(framed));
  }

  /** Length framing with a newline suits every item. */
  function BySize(items: seq<Item>): (framed: seq<Framed>)
    ensures |framed| == |items| && forall i :: 0 <= i < |items| ==> framed[i] == Framed(0, items[i], true, true)
  {
    seq(|items|, i requires 0 <= i < |items| => Framed(0, items[i], true, true))
  }

  lemma {:induction false} ItemsOfBySize(items: seq<Item>)
    ensures ItemsOf(BySize(items)) == items
  {
    if items != [] {
      ItemsOfBySize(items[1..]);
      assert BySize(items)[1..] == BySize(items[1..]);
    }
  }

  /** Printing what was read and reading it again changes nothing: parse, print, parse is parse. */
  lemma ReprintedEnvelopeIsRead(codec: Codec, input: Bytes, header: Bytes, encode: Header -> Bytes)
    requires |input| <= MAX_DECOMPRESSED_BYTES && ReadEnvelope(codec, input).Ok?
    requires OneLine(header) && codec.isJson(header) && Encodes(codec, encode)
    ensures var items := ReadEnvelope(codec, input).value;
            && (forall i :: 0 <= i < |items| ==> BySize(items)[i].Printable())
            && ReadEnvelope(codec, PrintEnvelope(header, encode, BySize(items))) == Ok(items)
  {
    var items := ReadEnvelope(codec, input).value;
    var starts := ItemsAreSlices(codec, input);
    forall i | 0 <= i < |items|
      ensures BySize(items)[i].Printable()
    {
      assert SliceAt(input, items[i], starts[i]);
    }
    PrintedEnvelopeIsRead(codec, header, encode, BySize(items));
    ItemsOfBySize(items);
  }
}
