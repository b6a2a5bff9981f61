/**
 The text form of a Sentry envelope (Sentry developer documentation, "Envelopes", section
 "Serialization Format"), with the tolerance and the limits of src/envelope.rs: the data model,
 a recursive reading of the bytes, and the grammar as a tree that prints itself.
 */
module EnvelopeGrammar {
  import opened Wrappers

  newtype Byte = x: int | 0 <= x < 256

  newtype Usize = x: int | 0 <= x < 0x1_0000_0000_0000_0000

  type Bytes = seq<Byte>

  const NL: Byte := 10
  const MAX_DECOMPRESSED_BYTES := 20 * 1024 * 1024
  const MAX_ITEMS := 100
  const MAX_EVENT_BYTES := 1024 * 1024

  datatype Error = BadRequest | PayloadTooLarge

  datatype Item = Item(itemType: string, payload: Bytes)

  datatype Header = Header(itemType: string, length: Option<Usize>)

  /** The JSON decoder: which lines are a JSON value, and what an item header line says. */
  datatype Codec = Codec(isJson: Bytes -> bool, itemHeader: Bytes -> Option<Header>)

  predicate OneLine(s: Bytes)
  {
    forall i :: 0 <= i < |s| ==> s[i] != NL
  }

  function Newline(present: bool): Bytes
  {
    if present then [NL] else []
  }

  /** The first line of an input, whether a newline ends it, and what follows. */
  datatype Split = Split(line: Bytes, newline: bool, rest: Bytes)

  /** Only the last line of an input may lack its newline. */
  ghost predicate IsFirstLine(input: Bytes, s: Split)
  {
    && OneLine(s.line) && (s.newline || s.rest == [])
    && input == s.line + Newline(s.newline) + s.rest
  }

  ghost function FirstLine(input: Bytes): (s: Split)
    ensures IsFirstLine(input, s)
  {
    FirstLineExists(input);
    var s :| IsFirstLine(input, s);
    s
  }

  lemma {:induction false} FirstLineExists(input: Bytes)
    ensures exists s :: IsFirstLine(input, s)
  {
    if input == [] {
      assert IsFirstLine(input, Split([], false, []));
    } else if input[0] == NL {
      assert input == [] + Newline(true) + input[1..];
      assert IsFirstLine(input, Split([], true, input[1..]));
    } else {
      FirstLineExists(input[1..]);
      var s :| IsFirstLine(input[1..], s);
      assert input == [input[0]] + s.line + Newline(s.newline) + s.rest;
      assert IsFirstLine(input, s.(line := [input[0]] + s.line));
    }
  }

  lemma FirstLineIs(input: Bytes, s: Split)
    requires IsFirstLine(input, s)
    ensures FirstLine(input) == s
  {
    var t := FirstLine(input);
    assert |s.line| < |input| ==> input[|s.line|] == NL;
    assert |t.line| < |input| ==> input[|t.line|] == NL;
    assert forall i :: 0 <= i < |s.line| ==> input[i] == s.line[i];
    assert forall i :: 0 <= i < |t.line| ==> input[i] == t.line[i];
    assert |s.line| == |t.line|;
    assert s.newline == (|s.line| < |input|) && t.newline == (|t.line| < |input|);
    assert s.line == input[..|s.line|] && t.line == input[..|t.line|];
    assert s.rest == input[|s.line| + |Newline(s.newline)|..] && t.rest == input[|t.line| + |Newline(t.newline)|..];
  }

  predicate FitsLimit(itemType: string, payload: Bytes)
  {
    itemType in {"event", "transaction"} ==> |payload| <= MAX_EVENT_BYTES
  }

  predicate StartsBlank(input: Bytes)
  {
    input != [] && input[0] == NL
  }

  /** A payload of `length` bytes at the start of the input; a newline right after it belongs to it. */
  ghost predicate IsSized(input: Bytes, length: nat, s: Split)
  {
    && |s.line| == length && (s.newline || !StartsBlank(s.rest))
    && input == s.line + Newline(s.newline) + s.rest
  }

  ghost function Sized(input: Bytes, length: nat): (s: Split)
    requires length <= |input|
    ensures IsSized(input, length, s)
  {
    SizedExists(input, length);
    var s :| IsSized(input, length, s);
    s
  }

  lemma SizedExists(input: Bytes, length: nat)
    requires length <= |input|
    ensures exists s :: IsSized(input, length, s)
  {
    var tail := input[length..];
    assert input == input[..length] + tail;
    if StartsBlank(tail) {
      assert input == input[..length] + Newline(true) + tail[1..];
      assert IsSized(input, length, Split(input[..length], true, tail[1..]));
    } else {
      assert IsSized(input, length, Split(input[..length], false, tail));
    }
  }

  lemma SizedIs(input: Bytes, length: nat, s: Split)
    requires IsSized(input, length, s)
    ensures length <= |input| && Sized(input, length) == s
  {
    var t := Sized(input, length);
    assert s.line == input[..length] && t.line == input[..length];
    assert Newline(s.newline) + s.rest == input[length..] && Newline(t.newline) + t.rest == input[length..];
    assert s.newline == StartsBlank(input[length..]) && t.newline == StartsBlank(input[length..]);
    assert s.rest == input[length + |Newline(s.newline)|..] && t.rest == input[length + |Newline(t.newline)|..];
  }

  /** A payload and what follows it. */
  datatype Taken = Truncated | Taken(payload: Bytes, rest: Bytes)

  /** An item and what follows it. */
  datatype ReadOne = Rejected(error: Error) | Read(item: Item, rest: Bytes)

  /** The payload of the item whose header line has just been read. */
  ghost function TakePayload(input: Bytes, header: Header): (r: Taken)
    ensures r.Taken? ==> |r.rest| <= |input|
  {
    match header.length
    case Some(length) =>
      if length as nat > |input| then Truncated
      else Taken(Sized(input, length as nat).line, Sized(input, length as nat).rest)
    case None => Taken(FirstLine(input).line, FirstLine(input).rest)
  }

  /** Reads the item whose header line is `raw` and what comes after that line. */
  ghost function ReadItem(codec: Codec, raw: Bytes, after: Bytes): (r: ReadOne)
    ensures r.Read? ==> |r.rest| <= |after|
  {
    match codec.itemHeader(raw)
    case None => Rejected(BadRequest)
    case Some(header) =>
      match TakePayload(after, header)
      case Truncated => Rejected(BadRequest)
      case Taken(payload, rest) =>
        if FitsLimit(header.itemType, payload) then Read(Item(header.itemType, payload), rest)
        else Rejected(PayloadTooLarge)
  }

  function Prepend(items: seq<Item>, r: Result<seq<Item>, Error>): Result<seq<Item>, Error>
  {
    match r
    case Ok(more) => Ok(items + more)
    case Err(e) => Err(e)
  }

  /** Reads the items of `input`, of which there may be at most `room`; an empty line is skipped. */
  ghost function ReadItems(codec: Codec, input: Bytes, room: nat): Result<seq<Item>, Error>
    decreases |input|
  {
    if input == [] then Ok([])
    else
      var s := FirstLine(input);
      if s.line == [] then ReadItems(codec, s.rest, room)
      else if room == 0 then Err(PayloadTooLarge)
      else
        match ReadItem(codec, s.line, s.rest)
        case Rejected(e) => Err(e)
        case Read(item, rest) => Prepend([item], ReadItems(codec, rest, room - 1))
  }

  ghost function ReadEnvelope(codec: Codec, input: Bytes): Result<seq<Item>, Error>
  {
    var s := FirstLine(input);
    if codec.isJson(s.line) then ReadItems(codec, s.rest, MAX_ITEMS) else Err(BadRequest)
  }

  // ----- the grammar -----

  /**
   One item as text, where `raw` is its header line. A sized payload may or may not be followed by a
   newline. A payload framed by its line, or a header line alone, needs no newline at the end of the input.
   */
  datatype Piece =
    | SizedItem(raw: Bytes, payload: Bytes, newline: bool)
    | LinedItem(raw: Bytes, payload: Bytes, newline: bool)
    | LoneHeader(raw: Bytes)
  {
    predicate Closed() { SizedItem? || (LinedItem? && newline) }
  }

  /** The body of an envelope: blank lines and items in any order. */
  datatype Body = End | Blank(rest: Body) | Then(piece: Piece, rest: Body)

  function PrintPiece(p: Piece): Bytes
  {
    if p.LoneHeader? then p.raw else p.raw + [NL] + p.payload + Newline(p.newline)
  }

  function Print(b: Body): Bytes
  {
    match b
    case End => []
    case Blank(rest) => [NL] + Print(rest)
    case Then(p, rest) => PrintPiece(p) + Print(rest)
  }

  /** An item whose header line decodes, agrees with its framing, and whose payload fits its limit. */
  predicate PieceOk(codec: Codec, p: Piece)
  {
    && p.raw != [] && OneLine(p.raw) && codec.itemHeader(p.raw).Some?
    && var header := codec.itemHeader(p.raw).value;
       match p
       case SizedItem(_, payload, _) =>
         header.length.Some? && header.length.value as int == |payload| && FitsLimit(header.itemType, payload)
       case LinedItem(_, payload, _) =>
         header.length.None? && OneLine(payload) && FitsLimit(header.itemType, payload)
       case LoneHeader(_) =>
         header.length.None? || header.length.value == 0
  }

  function PieceItem(codec: Codec, p: Piece): Item
    requires PieceOk(codec, p)
  {
    Item(codec.itemHeader(p.raw).value.itemType, if p.LoneHeader? then [] else p.payload)
  }

  /** The well-formed bodies of at most `room` items. */
  predicate WellFormed(codec: Codec, b: Body, room: nat)
  {
    match b
    case End => true
    case Blank(rest) => WellFormed(codec, rest, room)
    case Then(p, rest) =>
      room > 0 && PieceOk(codec, p) && (p.Closed() || rest == End) && WellFormed(codec, rest, room - 1)
  }

  /** The items a well-formed body stands for. */
  function Meaning(codec: Codec, b: Body, room: nat): seq<Item>
    requires WellFormed(codec, b, room)
  {
    match b
    case End => []
    case Blank(rest) => Meaning(codec, rest, room)
    case Then(p, rest) => [PieceItem(codec, p)] + Meaning(codec, rest, room - 1)
  }

  /** `left` is what follows, up to one newline that a sized payload may have taken with it. */
  ghost predicate UpToNewline(left: Bytes, tail: Bytes)
  {
    left == tail || [NL] + left == tail
  }

  lemma SizedIsTaken(payload: Bytes, newline: bool, tail: Bytes)
    ensures var input := payload + Newline(newline) + tail;
            && Sized(input, |payload|).line == payload
            && UpToNewline(Sized(input, |payload|).rest, tail)
  {
    var input := payload + Newline(newline) + tail;
    if newline || !StartsBlank(tail) {
      SizedIs(input, |payload|, Split(payload, newline, tail));
    } else {
      assert tail == [NL] + tail[1..];
      assert input == payload + Newline(true) + tail[1..];
      SizedIs(input, |payload|, Split(payload, true, tail[1..]));
    }
  }

  /** The payload of a printed item is taken back, whatever follows it. */
  lemma PayloadIsTaken(p: Piece, header: Header, tail: Bytes)
    requires !p.LoneHeader? && (p.newline || p.SizedItem? || tail == [])
    requires if p.SizedItem? then header.length.Some? && header.length.value as int == |p.payload|
             else header.length.None? && OneLine(p.payload)
    ensures var taken := TakePayload(p.payload + Newline(p.newline) + tail, header);
            taken.Taken? && taken.payload == p.payload && UpToNewline(taken.rest, tail)
  {
    var input := p.payload + Newline(p.newline) + tail;
    if p.SizedItem? {
      SizedIsTaken(p.payload, p.newline, tail);
    } else {
      FirstLineIs(input, Split(p.payload, p.newline, tail));
    }
  }

  lemma Regroup(raw: Bytes, payload: Bytes, newline: bool, rest: Bytes)
    ensures (raw + [NL] + payload + Newline(newline)) + rest == raw + [NL] + (payload + Newline(newline) + rest)
  {
  }

  /** A printed item is read back, whatever follows it. */
  lemma PieceIsRead(codec: Codec, p: Piece, tail: Bytes) returns (after: Bytes)
    requires PieceOk(codec, p) && (p.Closed() || tail == [])
    ensures FirstLine(PrintPiece(p) + tail) == Split(p.raw, !p.LoneHeader?, after)
    ensures var r := ReadItem(codec, p.raw, after);
            r.Read? && r.item == PieceItem(codec, p) && UpToNewline(r.rest, tail)
  {
    var header := codec.itemHeader(p.raw).value;
    if p.LoneHeader? {
      after := [];
      assert PrintPiece(p) + tail == p.raw + Newline(false) + after;
      EmptyIsTaken(header);
    } else {
      after := p.payload + Newline(p.newline) + tail;
      Regroup(p.raw, p.payload, p.newline, tail);
      PayloadIsTaken(p, header, tail);
    }
    FirstLineIs(PrintPiece(p) + tail, Split(p.raw, !p.LoneHeader?, after));
  }

  lemma EmptyIsTaken(header: Header)
    requires header.length.None? || header.length.value == 0
    ensures TakePayload([], header) == Taken([], [])
  {
    FirstLineIs([], Split([], false, []));
    SizedIs([], 0, Split([], false, []));
  }

  /** Whatever is read as an item was printed by one. */
  lemma PieceOfItem(codec: Codec, input: Bytes) returns (p: Piece)
    requires input != [] && FirstLine(input).line != []
    requires ReadItem(codec, FirstLine(input).line, FirstLine(input).rest).Read?
    ensures var r := ReadItem(codec, FirstLine(input).line, FirstLine(input).rest);
            && PieceOk(codec, p) && PieceItem(codec, p) == r.item
            && PrintPiece(p) + r.rest == input
            && (p.Closed() || r.rest == [])
  {
    var s := FirstLine(input);
    var header := codec.itemHeader(s.line).value;
    var Taken(payload, rest) := TakePayload(s.rest, header);
    if !s.newline {
      p := LoneHeader(s.line);
      assert s.line == input;
    } else if header.length.Some? {
      var newline := Sized(s.rest, header.length.value as nat).newline;
      p := SizedItem(s.line, payload, newline);
      Regroup(s.line, payload, newline, rest);
    } else {
      var newline := FirstLine(s.rest).newline;
      p := LinedItem(s.line, payload, newline);
      Regroup(s.line, payload, newline, rest);
    }
  }

  lemma BlankIsSkipped(codec: Codec, tail: Bytes, room: nat)
    ensures ReadItems(codec, [NL] + tail, room) == ReadItems(codec, tail, room)
  {
    assert [NL] + tail == [] + Newline(true) + tail;
    FirstLineIs([NL] + tail, Split([], true, tail));
  }

  /** Soundness: what the grammar derives is read, and read as what the derivation means. */
  lemma {:induction false} GrammarIsRead(codec: Codec, b: Body, room: nat)
    requires WellFormed(codec, b, room)
    ensures ReadItems(codec, Print(b), room) == Ok(Meaning(codec, b, room))
    decreases b
  {
    match b
    case End =>
    case Blank(rest) =>
      GrammarIsRead(codec, rest, room);
      BlankIsSkipped(codec, Print(rest), room);
    case Then(p, rest) =>
      GrammarIsRead(codec, rest, room - 1);
      var after := PieceIsRead(codec, p, Print(rest));
      var left := ReadItem(codec, p.raw, after).rest;
      BlankIsSkipped(codec, left, room - 1);
  }

  /** Completeness: whatever is read comes from a derivation with that meaning. */
  lemma {:induction false} ReadIsDerived(codec: Codec, input: Bytes, room: nat) returns (b: Body)
    requires ReadItems(codec, input, room).Ok?
    ensures WellFormed(codec, b, room) && Print(b) == input
    ensures ReadItems(codec, input, room) == Ok(Meaning(codec, b, room))
    decreases |input|
  {
    var s := FirstLine(input);
    if input == [] {
      b := End;
    } else if s.line == [] {
      var rest := ReadIsDerived(codec, s.rest, room);
      b := DeriveBlank(codec, input, s, room, rest);
    } else {
      var rest := ReadIsDerived(codec, ReadItem(codec, s.line, s.rest).rest, room - 1);
      b := DeriveThen(codec, input, s, room, rest);
    }
  }

  lemma DeriveBlank(codec: Codec, input: Bytes, s: Split, room: nat, rest: Body) returns (b: Body)
    requires input != [] && s == FirstLine(input) && s.line == []
    requires WellFormed(codec, rest, room) && Print(rest) == s.rest
    requires ReadItems(codec, s.rest, room) == Ok(Meaning(codec, rest, room))
    ensures WellFormed(codec, b, room) && Print(b) == input
    ensures ReadItems(codec, input, room) == Ok(Meaning(codec, b, room))
  {
    hide ReadItems, FirstLine;
    b := Blank(rest);
    BlankInput(input, s);
    BlankIsSkipped(codec, s.rest, room);
  }

  lemma BlankInput(input: Bytes, s: Split)
    requires input != [] && IsFirstLine(input, s) && s.line == []
    ensures input == [NL] + s.rest
  {
  }

  lemma DeriveThen(codec: Codec, input: Bytes, s: Split, room: nat, rest: Body) returns (b: Body)
    requires input != [] && s == FirstLine(input) && s.line != [] && room > 0
    requires ReadItem(codec, s.line, s.rest).Read?
    requires WellFormed(codec, rest, room - 1) && Print(rest) == ReadItem(codec, s.line, s.rest).rest
    requires ReadItems(codec, Print(rest), room - 1) == Ok(Meaning(codec, rest, room - 1))
    ensures WellFormed(codec, b, room) && Print(b) == input
    ensures ReadItems(codec, input, room) == Ok(Meaning(codec, b, room))
  {
    var p := PieceOfItem(codec, input);
    DerivesNothing(codec, rest, room - 1);
    b := Then(p, rest);
  }

  lemma DerivesNothing(codec: Codec, b: Body, room: nat)
    requires WellFormed(codec, b, room)
    ensures Print(b) == [] ==> b == End
  {
    if b.Then? {
      assert |Print(b)| >= |PrintPiece(b.piece)| >= |b.piece.raw|;
    }
  }

  /** An envelope: its header line, the newline after it unless the input ends there, and its body. */
  ghost predicate Derives(codec: Codec, input: Bytes, header: Bytes, b: Body, items: seq<Item>)
  {
    && OneLine(header) && codec.isJson(header)
    && WellFormed(codec, b, MAX_ITEMS) && Meaning(codec, b, MAX_ITEMS) == items
    && (input == header + [NL] + Print(b) || (input == header && b == End))
  }

  lemma DerivedIsRead(codec: Codec, input: Bytes, header: Bytes, b: Body, items: seq<Item>)
    requires Derives(codec, input, header, b, items)
    ensures ReadEnvelope(codec, input) == Ok(items)
  {
    GrammarIsRead(codec, b, MAX_ITEMS);
    if input == header && b == End {
      assert input == header + Newline(false) + [];
      FirstLineIs(input, Split(header, false, []));
    } else {
      FirstLineIs(input, Split(header, true, Print(b)));
    }
  }

  /**
   The reader accepts exactly the language of the grammar and gives every input one meaning, although
   the grammar derives some inputs in several ways.
   */
  lemma ReadsExactlyTheGrammar(codec: Codec, input: Bytes, items: seq<Item>)
    ensures ReadEnvelope(codec, input) == Ok(items) <==> exists header, b :: Derives(codec, input, header, b, items)
  {
    if ReadEnvelope(codec, input) == Ok(items) {
      var s := FirstLine(input);
      var b := ReadIsDerived(codec, s.rest, MAX_ITEMS);
      DerivesNothing(codec, b, MAX_ITEMS);
      assert Derives(codec, input, s.line, b, items);
    }
    if exists header, b :: Derives(codec, input, header, b, items) {
      var header, b :| Derives(codec, input, header, b, items);
      DerivedIsRead(codec, input, header, b, items);
    }
  }

  // ----- what a successful reading guarantees -----

  /** Where each payload starts in the printed body, whose first byte is at `base`. */
  function Starts(b: Body, base: nat): seq<nat>
  {
    match b
    case End => []
    case Blank(rest) => Starts(rest, base + 1)
    case Then(p, rest) =>
      [base + |p.raw| + (if p.LoneHeader? then 0 else 1)] + Starts(rest, base + |PrintPiece(p)|)
  }

  ghost predicate SliceAt(input: Bytes, item: Item, start: nat)
  {
    && start + |item.payload| <= |input|
    && input[start..start + |item.payload|] == item.payload
    && FitsLimit(item.itemType, item.payload)
  }

  /** The items are slices of the input at increasing positions that never overlap, within every limit. */
  ghost predicate Slices(input: Bytes, items: seq<Item>, starts: seq<nat>)
  {
    && |starts| == |items|
    && (forall i :: 0 <= i < |items| ==> SliceAt(input, items[i], starts[i]))
    && (forall i, j :: 0 <= i < j < |items| ==> starts[i] + |items[i].payload| <= starts[j])
  }

  lemma PieceIsSlice(codec: Codec, before: Bytes, p: Piece, tail: Bytes)
    requires PieceOk(codec, p)
    ensures SliceAt(before + PrintPiece(p) + tail, PieceItem(codec, p),
                    |before| + |p.raw| + (if p.LoneHeader? then 0 else 1))
  {
    hide Newline;
    var input := before + PrintPiece(p) + tail;
    if !p.LoneHeader? {
      var start := |before| + |p.raw| + 1;
      assert input == (before + p.raw + [NL]) + p.payload + (Newline(p.newline) + tail);
      assert input[start..start + |p.payload|] == p.payload;
    }
  }

  lemma SlicesCons(input: Bytes, item: Item, start: nat, items: seq<Item>, starts: seq<nat>)
    requires SliceAt(input, item, start) && Slices(input, items, starts)
    requires forall i :: 0 <= i < |starts| ==> start + |item.payload| <= starts[i]
    ensures Slices(input, [item] + items, [start] + starts)
  {
  }

  lemma {:induction false} MeaningIsSlices(codec: Codec, before: Bytes, b: Body, room: nat)
    requires WellFormed(codec, b, room)
    ensures Slices(before + Print(b), Meaning(codec, b, room), Starts(b, |before|))
    ensures |Meaning(codec, b, room)| <= room
    ensures forall i :: 0 <= i < |Starts(b, |before|)| ==> |before| <= Starts(b, |before|)[i]
    decreases b
  {
    match b
    case End =>
    case Blank(rest) =>
      MeaningIsSlices(codec, before + [NL], rest, room);
      assert before + Print(b) == before + [NL] + Print(rest);
    case Then(p, rest) =>
      var front := before + PrintPiece(p);
      assert before + Print(b) == front + Print(rest);
      PieceIsSlice(codec, before, p, Print(rest));
      MeaningIsSlices(codec, front, rest, room - 1);
      SlicesCons(front + Print(rest), PieceItem(codec, p), Starts(b, |before|)[0],
                 Meaning(codec, rest, room - 1), Starts(rest, |front|));
  }

  /** On success the payloads are ordered, disjoint slices of the input and all limits are met. */
  lemma ItemsAreSlices(codec: Codec, input: Bytes) returns (starts: seq<nat>)
    requires ReadEnvelope(codec, input).Ok?
    ensures Slices(input, ReadEnvelope(codec, input).value, starts)
    ensures |ReadEnvelope(codec, input).value| <= MAX_ITEMS
  {
    var s := FirstLine(input);
    var b := ReadIsDerived(codec, s.rest, MAX_ITEMS);
    var front := s.line + Newline(s.newline);
    MeaningIsSlices(codec, front, b, MAX_ITEMS);
    return Starts(b, |front|);
  }
}
