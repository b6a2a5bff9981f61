/**
 The items of one envelope are processed one after the other, each in its own transaction, up to the first
 that fails (src/api.rs:269-292). A client that gets an error sends the whole envelope again.
 */
module Replay {
  import opened DedupKeys
  import opened Fingerprinting
  import opened EventStore
  import opened EventStoreLaws
  import EventStoreRuns
  import opened EventTables

  /** Items of other types are only stored raw, which does not show in these tables. */
  datatype Item = EventItem(incoming: Incoming) | LogItem(lines: seq<LogLine>) | OtherItem | MalformedItem

  ghost function ItemOutcome(db: Db, item: Item): Outcome
  {
    match item
    case EventItem(i) => IngestOutcome(db, i)
    case LogItem(lines) => if FreshLines(db, lines) then Done else ConstraintViolation
    case OtherItem => Done
    case MalformedItem => BadRequest
  }

  ghost function ItemEffect(db: Db, item: Item): Db
  {
    match item
    case EventItem(i) => Ingest(db, i)
    case LogItem(lines) => if FreshLines(db, lines) then AddLogs(db, lines) else db
    case OtherItem => db
    case MalformedItem => db
  }

  predicate Accepted(o: Outcome)
  {
    o == Done || o == Duplicate
  }

  ghost function IngestItems(db: Db, items: seq<Item>): Db
    decreases |items|
  {
    if items == [] then db
    else if Accepted(ItemOutcome(db, items[0])) then IngestItems(ItemEffect(db, items[0]), items[1..])
    else db
  }

  /** Every item of a list is accepted, one after the other. */
  ghost predicate AllAccepted(db: Db, items: seq<Item>)
    decreases |items|
  {
    items == [] || (Accepted(ItemOutcome(db, items[0])) && AllAccepted(ItemEffect(db, items[0]), items[1..]))
  }

  /** The item loop: how many items were accepted. */
  method IngestEnvelope(tables: Tables, items: seq<Item>) returns (accepted: nat)
    requires tables.Valid()
    modifies tables
    ensures tables.Valid() && tables.View() == IngestItems(old(tables.View()), items)
    ensures accepted <= |items| && AllAccepted(old(tables.View()), items[..accepted])
    ensures accepted < |items| ==> !Accepted(ItemOutcome(tables.View(), items[accepted]))
  {
    accepted := 0;
    assert items[0..] == items;
    while accepted < |items|
      invariant accepted <= |items| && tables.Valid()
      invariant IngestItems(tables.View(), items[accepted..]) == IngestItems(old(tables.View()), items)
      invariant AllAccepted(old(tables.View()), items[..accepted])
      invariant tables.View() == IngestItems(old(tables.View()), items[..accepted])
    {
      ghost var before := tables.View();
      var rest := items[accepted..];
      assert rest[0] == items[accepted] && rest[1..] == items[accepted + 1..];
      var outcome := Process(tables, items[accepted]);
      if !Accepted(outcome) {
        return;
      }
      OneMore(old(tables.View()), items, accepted);
      accepted := accepted + 1;
    }
  }

  method Process(tables: Tables, item: Item) returns (outcome: Outcome)
    requires tables.Valid()
    modifies tables
    ensures tables.Valid()
    ensures outcome == ItemOutcome(old(tables.View()), item) && tables.View() == ItemEffect(old(tables.View()), item)
    ensures !Accepted(outcome) ==> tables.View() == old(tables.View())
  {
    match item
    case EventItem(i) => outcome := tables.PersistEvent(i);
    case LogItem(lines) => outcome := tables.PersistLogBatch(lines);
    case OtherItem => outcome := Done;
    case MalformedItem => outcome := BadRequest;
  }

  lemma {:induction false} AcceptedThen(db: Db, front: seq<Item>, back: seq<Item>)
    requires AllAccepted(db, front)
    ensures IngestItems(db, front + back) == IngestItems(IngestItems(db, front), back)
    ensures AllAccepted(db, front + back) <==> AllAccepted(IngestItems(db, front), back)
    decreases |front|
  {
    if front == [] {
      assert front + back == back;
    } else {
      assert (front + back)[1..] == front[1..] + back;
      AcceptedThen(ItemEffect(db, front[0]), front[1..], back);
    }
  }

  lemma OneMore(db: Db, items: seq<Item>, k: nat)
    requires k < |items| && AllAccepted(db, items[..k]) && Accepted(ItemOutcome(IngestItems(db, items[..k]), items[k]))
    ensures AllAccepted(db, items[..k + 1])
    ensures IngestItems(db, items[..k + 1]) == ItemEffect(IngestItems(db, items[..k]), items[k])
  {
    assert items[..k + 1] == items[..k] + [items[k]];
    AcceptedThen(db, items[..k], [items[k]]);
    var t := IngestItems(db, items[..k]);
    assert [items[k]][1..] == [];
    assert AllAccepted(ItemEffect(t, items[k]), []) &&
           IngestItems(ItemEffect(t, items[k]), []) == ItemEffect(t, items[k]);
  }

  // ----- replay -----

  /** An event item whose event is stored in its project, as sent again. */
  predicate Known(db: Db, item: Item)
  {
    item.EventItem? && !AllSpace(item.incoming.message) && item.incoming.event in db.events
    && db.events[item.incoming.event].project == item.incoming.project
  }

  /** Sending stored events again changes nothing: no counter, and no resolved issue reopens. */
  lemma {:induction false} KnownItemsChangeNothing(db: Db, items: seq<Item>)
    requires forall k :: 0 <= k < |items| ==> Known(db, items[k])
    ensures AllAccepted(db, items) && IngestItems(db, items) == db
    decreases |items|
  {
    if items != [] {
      assert Known(db, items[0]);
      KnownItemsChangeNothing(db, items[1..]);
    }
  }

  /** The same event sent again; identifiers and times that the server fills in may differ. */
  predicate Resent(a: Item, b: Item)
  {
    a.EventItem? && b.EventItem? && a.incoming.event == b.incoming.event && a.incoming.project == b.incoming.project
    && !AllSpace(b.incoming.message)
  }

  lemma {:induction false} ItemsKeepEvents(db: Db, items: seq<Item>, e: Uuid)
    requires e in db.events
    ensures e in IngestItems(db, items).events && IngestItems(db, items).events[e] == db.events[e]
    decreases |items|
  {
    if items != [] && Accepted(ItemOutcome(db, items[0])) {
      if items[0].LogItem? {
        EventStoreRuns.LogsKeepEvents(db, items[0].lines);
      }
      ItemsKeepEvents(ItemEffect(db, items[0]), items[1..], e);
    }
  }

  lemma {:induction false} AcceptedItemsAreKnown(db: Db, first: seq<Item>, again: seq<Item>, k: nat)
    requires AllAccepted(db, first) && k < |first| == |again|
    requires forall n {:trigger again[n]} :: 0 <= n < |first| ==> Resent(first[n], again[n])
    ensures Known(IngestItems(db, first), again[k])
    decreases |first|
  {
    assert Resent(first[0], again[0]) && Resent(first[k], again[k]);
    var t := ItemEffect(db, first[0]);
    if k == 0 {
      assert first[0].incoming.event in t.events;
      ItemsKeepEvents(t, first[1..], first[0].incoming.event);
    } else {
      forall n {:trigger again[1..][n]} | 0 <= n < |first[1..]| ensures Resent(first[1..][n], again[1..][n]) {
        assert Resent(first[n + 1], again[n + 1]);
      }
      AcceptedItemsAreKnown(t, first[1..], again[1..], k - 1);
    }
  }

  /**
   Replay converges: after any accepted prefix, sending the whole list again gives what sending it once would
   have given, and gets as far.
   */
  lemma ReplayConverges(db: Db, first: seq<Item>, again: seq<Item>, rest: seq<Item>)
    requires AllAccepted(db, first) && |first| == |again|
    requires forall n {:trigger again[n]} :: 0 <= n < |first| ==> Resent(first[n], again[n])
    ensures IngestItems(IngestItems(db, first), again + rest) == IngestItems(db, first + rest)
    ensures AllAccepted(IngestItems(db, first), again + rest) <==> AllAccepted(db, first + rest)
  {
    var t := IngestItems(db, first);
    forall k | 0 <= k < |again| ensures Known(t, again[k]) { AcceptedItemsAreKnown(db, first, again, k); }
    KnownItemsChangeNothing(t, again);
    AcceptedThen(t, again, rest);
    AcceptedThen(db, first, rest);
  }

  /** Whatever happens to the issues in between, short of losing events, a replay of accepted items changes nothing. */
  lemma LateReplayChangesNothing(db: Db, first: seq<Item>, ops: seq<Op>, again: seq<Item>)
    requires Agrees(db, true) && AllAccepted(db, first) && |first| == |again|
    requires forall n {:trigger again[n]} :: 0 <= n < |first| ==> Resent(first[n], again[n])
    requires forall k :: 0 <= k < |ops| ==> Lossless(ops[k])
    ensures var t := DoAll(IngestItems(db, first), ops);
            IngestItems(t, again) == t
  {
    var s := IngestItems(db, first);
    var t := DoAll(s, ops);
    ItemsAgree(db, first);
    EventStoreRuns.NoEventIsLost(s, ops);
    forall k | 0 <= k < |again| ensures Known(t, again[k]) {
      AcceptedItemsAreKnown(db, first, again, k);
      assert t.events[again[k].incoming.event].project == s.events[again[k].incoming.event].project;
    }
    KnownItemsChangeNothing(t, again);
  }

  lemma {:induction false} ItemsAgree(db: Db, items: seq<Item>)
    requires Agrees(db, true)
    ensures Agrees(IngestItems(db, items), true)
    decreases |items|
  {
    if items != [] && Accepted(ItemOutcome(db, items[0])) {
      match items[0] {
        case EventItem(i) => IngestAgrees(db, true, i);
        case LogItem(lines) => EventStoreRuns.LogsAgree(db, true, lines);
        case _ =>
      }
      ItemsAgree(ItemEffect(db, items[0]), items[1..]);
    }
  }

  /** Logs carry no identifier of their own: sent again, they are stored and counted again. */
  lemma LogsAreCountedAgain(db: Db, line: LogLine, again: LogLine)
    requires line.id !in db.logs && again == line.(id := again.id) && again.id !in db.logs && again.id != line.id
    ensures AllAccepted(db, [LogItem([line]), LogItem([again])])
    ensures var once, twice := IngestItems(db, [LogItem([line])]), IngestItems(db, [LogItem([line]), LogItem([again])]);
            line.service in once.services && line.service in twice.services
            && twice.services[line.service].logs == once.services[line.service].logs + 1
  {
    var t := AddLog(db, line);
    assert [line][1..] == [] && [again][1..] == [];
    assert AddLogs(t, []) == t && AddLogs(AddLog(t, again), []) == AddLog(t, again);
    assert FreshLines(db, [line]) && FreshLines(t, [again]);
    assert ItemEffect(db, LogItem([line])) == t && ItemEffect(t, LogItem([again])) == AddLog(t, again);
    assert [LogItem([line]), LogItem([again])][1..] == [LogItem([again])];
    assert [LogItem([again])][1..] == [] && [LogItem([line])][1..] == [];
    assert IngestItems(t, []) == t && IngestItems(AddLog(t, again), []) == AddLog(t, again);
    assert AllAccepted(AddLog(t, again), []);
  }
}
