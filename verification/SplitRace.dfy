/**
 A split that an ingest overtakes (src/api.rs:1202-1221 against src/api.rs:366-435). Nothing locks the split issue
 until the last statement of the split, so an ingest can commit after the new issue has been inserted: before the
 chosen events are moved, before the remaining ones are counted, after that, or while the last statement waits for the
 row that the ingest has locked. In the last case the statement goes on with the new row, but its subqueries still see
 the events as they were when it began.
 */
module SplitRace {
  import opened Wrappers
  import opened DedupKeys
  import opened Projections
  import opened EventStore
  import opened EventStoreLaws
  import opened IssueMoves
  import MergeRace

  /** When the ingest commits. */
  datatype Moment = BeforeMove | BeforeCount | AfterCount | DuringLast

  datatype Request = Request(issue: Uuid, chosen: set<Uuid>, fingerprint: string, title: Option<string>, newIssue: Uuid)

  ghost predicate Goes(db: Db, r: Request)
  {
    SplitOutcome(db, r.issue, r.chosen, r.fingerprint, r.newIssue) == Done
  }

  // ----- the statements of a split -----

  ghost function Inserted(db: Db, r: Request): Db
    requires r.issue in db.issues && Chosen(db, r.issue, r.chosen) != {}
  {
    db.(issues := db.issues[r.newIssue := SplitOff(db, r.issue, r.chosen, r.fingerprint, r.title)])
  }

  function MovedOut(t: Db, r: Request): Db
  {
    MoveEvents(t, Chosen(t, r.issue, r.chosen), r.newIssue)
  }

  /** The last statement on the tables `t`: by the number that was counted, with subqueries that see `snapshot`. */
  ghost function Concluded(t: Db, snapshot: Db, r: Request, remaining: nat): Db
    requires r.issue in t.issues
  {
    if remaining == 0 then DeleteIssues(t, {r.issue})
    else if EventsOf(snapshot, r.issue) == {} then t
    else
      var s := Recount(EventsOf(snapshot, r.issue), EventTimes(snapshot));
      t.(issues := t.issues[r.issue := t.issues[r.issue].(seen := Summary(remaining, s.first, s.last))])
  }

  /** Undisturbed, the statements make a split. */
  lemma StatementsSplit(db: Db, r: Request)
    requires Goes(db, r)
    ensures var t := MovedOut(Inserted(db, r), r);
            r.issue in t.issues
            && Concluded(t, t, r, |EventsOf(t, r.issue)|) ==
               Split(db, r.issue, r.chosen, r.fingerprint, r.title, r.newIssue)
  {
    var t := MovedOut(Inserted(db, r), r);
    assert Chosen(Inserted(db, r), r.issue, r.chosen) == Chosen(db, r.issue, r.chosen);
    assert t == SplitMoved(db, r.issue, r.chosen, r.fingerprint, r.title, r.newIssue);
    if EventsOf(t, r.issue) != {} {
      var s := Recount(EventsOf(t, r.issue), EventTimes(t));
      assert Summary(|EventsOf(t, r.issue)|, s.first, s.last) == s;
    }
  }

  ghost function RacedSplit(db: Db, r: Request, i: Incoming, moment: Moment): Db
    requires Goes(db, r)
  {
    var inserted := Inserted(db, r);
    var moved := MovedOut(inserted, r);
    match moment
    case BeforeMove =>
      var t := MovedOut(Ingest(inserted, i), r);
      Concluded(t, t, r, |EventsOf(t, r.issue)|)
    case BeforeCount =>
      var t := Ingest(moved, i);
      Concluded(t, t, r, |EventsOf(t, r.issue)|)
    case AfterCount =>
      var t := Ingest(moved, i);
      Concluded(t, t, r, |EventsOf(moved, r.issue)|)
    case DuringLast =>
      var t := Ingest(moved, i);
      Concluded(t, moved, r, |EventsOf(moved, r.issue)|)
  }

  // ----- the race -----

  predicate ForSplit(db: Db, r: Request, i: Incoming)
    requires r.issue in db.issues
  {
    HasFingerprint(db.issues[r.issue], i.project, i.fingerprint)
  }

  /** An ingest for the new issue waits for the end of the split, which holds the key of that issue. */
  predicate Possible(db: Db, r: Request, i: Incoming)
    requires r.issue in db.issues
  {
    !(i.project == db.issues[r.issue].project && i.fingerprint == r.fingerprint)
  }

  ghost predicate Race(db: Db, r: Request, i: Incoming)
  {
    && Agrees(db, true) && Goes(db, r) && IngestOutcome(db, i) == Done && i.newIssue != r.newIssue && Possible(db, r, i)
  }

  predicate Late(moment: Moment)
  {
    moment.AfterCount? || moment.DuringLast?
  }

  /** The event comes after the count has found nothing that remains, so that its issue is deleted. */
  predicate Unnoticed(db: Db, r: Request, i: Incoming, moment: Moment)
    requires r.issue in db.issues
  {
    ForSplit(db, r, i) && Late(moment) && EventsOf(db, r.issue) - r.chosen == {}
  }

  /**
   The event comes after the count of what remains, or it is one of the chosen ones and comes after these have been
   counted for the new issue but before they are moved.
   */
  predicate Miscounted(db: Db, r: Request, i: Incoming, moment: Moment)
    requires r.issue in db.issues
  {
    && ForSplit(db, r, i)
    && ((Late(moment) && EventsOf(db, r.issue) - r.chosen != {}) || (moment.BeforeMove? && i.event in r.chosen))
  }

  // ----- what the race leaves -----

  /** The tables `more` with a new issue and some events moved to it. */
  function WithMoved(more: Db, r: Request, off: Issue, moved: set<Uuid>): Db
  {
    MoveEvents(more.(issues := more.issues[r.newIssue := off]), moved, r.newIssue)
  }

  /** With the split issue gone, or left with some summary. */
  function SplitInto(more: Db, r: Request, off: Issue, moved: set<Uuid>, gone: bool, seen: Summary): Db
    requires r.issue in more.issues
  {
    var t := WithMoved(more, r, off, moved);
    if gone then DeleteIssues(t, {r.issue})
    else t.(issues := t.issues[r.issue := t.issues[r.issue].(seen := seen)])
  }

  /** The events that are moved, one of which may be the new one. */
  function MovedThen(db: Db, r: Request, i: Incoming, moment: Moment): set<Uuid>
    requires r.issue in db.issues
  {
    Chosen(db, r.issue, r.chosen) +
    if ForSplit(db, r, i) && moment.BeforeMove? && i.event in r.chosen then {i.event} else {}
  }

  ghost function NewIssue(db: Db, r: Request): Issue
    requires Goes(db, r)
  {
    SplitOff(db, r.issue, r.chosen, r.fingerprint, r.title)
  }

  /** The new issue is not one that an ingest at this time could be for. */
  lemma FindsAlike(db: Db, t: Db, r: Request, i: Incoming)
    requires Race(db, r, i) && t.issues == db.issues[r.newIssue := NewIssue(db, r)] && i.event !in t.events
    ensures IngestOutcome(t, i) == Done && IssueFor(t, i) == IssueFor(db, i) != r.newIssue
  {
    var a, b := FindIssue(db.issues, i.project, i.fingerprint), FindIssue(t.issues, i.project, i.fingerprint);
    assert !HasFingerprint(t.issues[r.newIssue], i.project, i.fingerprint);
    if a.Some? {
      assert HasFingerprint(t.issues[a.value], i.project, i.fingerprint);
      assert SameFingerprint(db.issues[a.value], db.issues[b.value]);
    }
  }

  lemma WhereItGoes(db: Db, r: Request, i: Incoming)
    requires Race(db, r, i)
    ensures IssueFor(db, i) == r.issue <==> ForSplit(db, r, i)
    ensures i.event !in db.events && r.issue in Ingest(db, i).issues
    ensures EventAdded(db, Ingest(db, i), i.event, EventOf(i, IssueFor(db, i)))
    ensures r.newIssue !in Ingest(db, i).issues
  {
    IngestIssue(db, i);
    StoredAdds(db, i, IssueFor(db, i));
    if ForSplit(db, r, i) {
      assert SameFingerprint(db.issues[r.issue], db.issues[IssueFor(db, i)]);
    }
    FindsAlike(db, db.(issues := db.issues[r.newIssue := NewIssue(db, r)]), r, i);
  }

  lemma InsertCommutes(db: Db, i: Incoming, id: Uuid, issue: Uuid, row: Issue)
    requires id != issue
    ensures var t := Stored(db, i, id);
            Stored(db.(issues := db.issues[issue := row]), i, id) == t.(issues := t.issues[issue := row])
  {
    hide UpsertIssue, UpsertService, AddRelease;
  }

  lemma InsertedThenStored(db: Db, r: Request, i: Incoming)
    requires Race(db, r, i)
    ensures var more := Ingest(db, i);
            Ingest(Inserted(db, r), i) == more.(issues := more.issues[r.newIssue := NewIssue(db, r)])
  {
    InsertedIssues(db, r);
    hide Agrees, IssueFor, NewIssue, Stored, Inserted;
    FindsAlike(db, Inserted(db, r), r, i);
    InsertCommutes(db, i, IssueFor(db, i), r.newIssue, NewIssue(db, r));
  }

  lemma MoreChosen(db: Db, more: Db, r: Request, i: Incoming, id: Uuid)
    requires r.issue in db.issues && EventAdded(db, more, i.event, EventOf(i, id))
    requires id == r.issue <==> ForSplit(db, r, i)
    ensures Chosen(more, r.issue, r.chosen) == MovedThen(db, r, i, BeforeMove)
  {
    hide ForSplit;
    AddedToIssue(db, more, i.event, EventOf(i, id), r.issue);
  }

  lemma StoredThenMovedOut(db: Db, r: Request, i: Incoming)
    requires Race(db, r, i)
    ensures MovedOut(Ingest(Inserted(db, r), i), r) ==
            WithMoved(Ingest(db, i), r, NewIssue(db, r), MovedThen(db, r, i, BeforeMove))
  {
    assert r.issue in db.issues && Chosen(db, r.issue, r.chosen) != {};
    hide Race, Ingest, Inserted, NewIssue, ForSplit, MovedThen, IssueFor, EventAdded;
    WhereItGoes(db, r, i);
    InsertedThenStored(db, r, i);
    MoreChosen(db, Ingest(db, i), r, i, IssueFor(db, i));
    assert Chosen(Ingest(Inserted(db, r), i), r.issue, r.chosen) == Chosen(Ingest(db, i), r.issue, r.chosen);
  }

  lemma MoveCommutes(t: Db, i: Incoming, id: Uuid, moved: set<Uuid>, issue: Uuid)
    requires i.event !in t.events && i.event !in moved
    ensures Stored(MoveEvents(t, moved, issue), i, id) == MoveEvents(Stored(t, i, id), moved, issue)
  {
    hide UpsertIssue, UpsertService, AddRelease;
    var a, b := Stored(MoveEvents(t, moved, issue), i, id), MoveEvents(Stored(t, i, id), moved, issue);
    assert a.events == b.events;
  }

  lemma StoredAfterInsert(db: Db, r: Request, i: Incoming)
    requires Race(db, r, i)
    ensures i.event !in Inserted(db, r).events && i.event !in Chosen(db, r.issue, r.chosen)
    ensures Ingest(Inserted(db, r), i) == Stored(Inserted(db, r), i, IssueFor(db, i))
    ensures MovedOut(Inserted(db, r), r) == MoveEvents(Inserted(db, r), Chosen(db, r.issue, r.chosen), r.newIssue)
    ensures Ingest(MovedOut(Inserted(db, r), r), i) == Stored(MovedOut(Inserted(db, r), r), i, IssueFor(db, i))
  {
    InsertedIssues(db, r);
    hide Agrees, IssueFor, NewIssue, Stored;
    assert Chosen(Inserted(db, r), r.issue, r.chosen) == Chosen(db, r.issue, r.chosen);
    assert Inserted(db, r).issues == db.issues[r.newIssue := NewIssue(db, r)];
    FindsAlike(db, Inserted(db, r), r, i);
    FindsAlike(db, MovedOut(Inserted(db, r), r), r, i);
  }

  lemma InsertedIssues(db: Db, r: Request)
    requires Goes(db, r)
    ensures Inserted(db, r) == db.(issues := db.issues[r.newIssue := NewIssue(db, r)])
  {
  }

  lemma MovedOutThenStored(db: Db, r: Request, i: Incoming, moment: Moment)
    requires Race(db, r, i) && !moment.BeforeMove?
    ensures Ingest(MovedOut(Inserted(db, r), r), i) ==
            WithMoved(Ingest(db, i), r, NewIssue(db, r), MovedThen(db, r, i, moment))
  {
    assert r.issue in db.issues && Chosen(db, r.issue, r.chosen) != {};
    assert MovedThen(db, r, i, moment) == Chosen(db, r.issue, r.chosen);
    hide Race, Ingest, Inserted, NewIssue, ForSplit, MovedThen, IssueFor, MoveEvents, Stored, MovedOut, Chosen;
    StoredAfterInsert(db, r, i);
    InsertedThenStored(db, r, i);
    MoveCommutes(Inserted(db, r), i, IssueFor(db, i), Chosen(db, r.issue, r.chosen), r.newIssue);
  }

  lemma RestOf(more: Db, r: Request, off: Issue, moved: set<Uuid>)
    requires r.issue != r.newIssue
    ensures EventsOf(WithMoved(more, r, off, moved), r.issue) == EventsOf(more, r.issue) - moved
    ensures EventTimes(WithMoved(more, r, off, moved)) == EventTimes(more)
  {
  }

  /** The events that stay with the split issue: those not chosen, and the new one unless it is moved with them. */
  lemma RestIs(db: Db, r: Request, i: Incoming, moment: Moment)
    requires Race(db, r, i)
    ensures EventsOf(Ingest(db, i), r.issue) - MovedThen(db, r, i, moment) ==
            EventsOf(db, r.issue) - r.chosen +
            if ForSplit(db, r, i) && !(moment.BeforeMove? && i.event in r.chosen) then {i.event} else {}
    ensures i.event !in EventsOf(db, r.issue)
  {
    WhereItGoes(db, r, i);
    AddedToIssue(db, Ingest(db, i), i.event, EventOf(i, IssueFor(db, i)), r.issue);
  }

  lemma MovedOutRest(db: Db, r: Request)
    requires Goes(db, r)
    ensures EventsOf(MovedOut(Inserted(db, r), r), r.issue) == EventsOf(db, r.issue) - r.chosen
    ensures EventTimes(MovedOut(Inserted(db, r), r)) == EventTimes(db)
  {
    InsertedIssues(db, r);
    hide NewIssue;
    assert Chosen(Inserted(db, r), r.issue, r.chosen) == Chosen(db, r.issue, r.chosen);
  }

  /** The tables after the first three statements and the ingest, and what the last statement counts by. */
  lemma BeforeLast(db: Db, r: Request, i: Incoming, moment: Moment) returns (snapshot: Db, remaining: nat)
    requires Race(db, r, i)
    ensures var t := WithMoved(Ingest(db, i), r, NewIssue(db, r), MovedThen(db, r, i, moment));
            r.issue in t.issues && RacedSplit(db, r, i, moment) == Concluded(t, snapshot, r, remaining)
    ensures remaining == |if Late(moment) then EventsOf(db, r.issue) - r.chosen
                          else EventsOf(Ingest(db, i), r.issue) - MovedThen(db, r, i, moment)|
    ensures EventsOf(snapshot, r.issue) ==
            if moment.DuringLast? then EventsOf(db, r.issue) - r.chosen
            else EventsOf(Ingest(db, i), r.issue) - MovedThen(db, r, i, moment)
    ensures EventTimes(snapshot) == EventTimes(if moment.DuringLast? then db else Ingest(db, i))
  {
    WhereItGoes(db, r, i);
    assert r.issue != r.newIssue;
    hide Race, Ingest, Inserted, NewIssue, ForSplit, MovedThen, IssueFor, EventAdded, MovedOut, EventsOf, EventTimes,
         Concluded;
    var t := WithMoved(Ingest(db, i), r, NewIssue(db, r), MovedThen(db, r, i, moment));
    RestOf(Ingest(db, i), r, NewIssue(db, r), MovedThen(db, r, i, moment));
    MovedOutRest(db, r);
    if moment.BeforeMove? {
      StoredThenMovedOut(db, r, i);
    } else {
      MovedOutThenStored(db, r, i, moment);
    }
    snapshot := if moment.DuringLast? then MovedOut(Inserted(db, r), r) else t;
    remaining := |EventsOf(if Late(moment) then MovedOut(Inserted(db, r), r) else t, r.issue)|;
  }

  lemma ConcludedIs(more: Db, r: Request, off: Issue, moved: set<Uuid>, snapshot: Db, remaining: nat)
    returns (seen: Summary)
    requires r.issue in more.issues && r.issue != r.newIssue && (remaining > 0 ==> EventsOf(snapshot, r.issue) != {})
    ensures Concluded(WithMoved(more, r, off, moved), snapshot, r, remaining) ==
            SplitInto(more, r, off, moved, remaining == 0, seen)
    ensures remaining > 0 ==> seen.count == remaining
    ensures remaining > 0 && |EventsOf(snapshot, r.issue)| == remaining ==>
              Exact(seen, EventsOf(snapshot, r.issue), EventTimes(snapshot))
  {
    hide EventsOf, EventTimes;
    seen := Summary(0, 0, 0);
    if remaining > 0 {
      SnapshotTimes(snapshot, r.issue);
      var s := Recount(EventsOf(snapshot, r.issue), EventTimes(snapshot));
      seen := Summary(remaining, s.first, s.last);
    }
  }

  lemma SnapshotTimes(db: Db, issue: Uuid)
    ensures EventsOf(db, issue) <= EventTimes(db).Keys
  {
  }

  /** What the race leaves is a split of the tables with the new event, if not always one that counts right. */
  lemma RacedIs(db: Db, r: Request, i: Incoming, moment: Moment) returns (gone: bool, seen: Summary)
    requires Race(db, r, i)
    ensures r.issue in Ingest(db, i).issues && r.newIssue !in Ingest(db, i).issues
    ensures RacedSplit(db, r, i, moment) ==
            SplitInto(Ingest(db, i), r, NewIssue(db, r), MovedThen(db, r, i, moment), gone, seen)
    ensures var rest := EventsOf(Ingest(db, i), r.issue) - MovedThen(db, r, i, moment);
            && (gone <==> (if Late(moment) then EventsOf(db, r.issue) - r.chosen else rest) == {})
            && (!gone && Late(moment) ==> seen.count == |EventsOf(db, r.issue) - r.chosen|)
            && (!gone && !(Late(moment) && ForSplit(db, r, i)) ==> Exact(seen, rest, EventTimes(Ingest(db, i))))
  {
    WhereItGoes(db, r, i);
    RestIs(db, r, i, moment);
    assert r.issue != r.newIssue;
    hide Race, Ingest, NewIssue, ForSplit, MovedThen, IssueFor, EventsOf, EventTimes, RacedSplit, Concluded, Exact,
         SplitInto, WithMoved, EventAdded;
    var left, rest := EventsOf(db, r.issue) - r.chosen, EventsOf(Ingest(db, i), r.issue) - MovedThen(db, r, i, moment);
    assert left <= rest && (!ForSplit(db, r, i) ==> left == rest);
    var snapshot, remaining := BeforeLast(db, r, i, moment);
    seen := ConcludedIs(Ingest(db, i), r, NewIssue(db, r), MovedThen(db, r, i, moment), snapshot, remaining);
    gone := remaining == 0;
    if moment.DuringLast? && !gone && !ForSplit(db, r, i) {
      SameTimes(db, r, i, seen);
    }
  }

  lemma SameTimes(db: Db, r: Request, i: Incoming, seen: Summary)
    requires Race(db, r, i) && Exact(seen, EventsOf(db, r.issue) - r.chosen, EventTimes(db))
    ensures Exact(seen, EventsOf(db, r.issue) - r.chosen, EventTimes(Ingest(db, i)))
  {
    WhereItGoes(db, r, i);
    AddedTimes(db, Ingest(db, i), i.event, EventOf(i, IssueFor(db, i)));
    FitsElsewhere(true, seen, EventsOf(db, r.issue) - r.chosen, EventTimes(db), EventTimes(Ingest(db, i)));
  }

  // ----- when such a split agrees -----

  /** A new issue whose fingerprint is free, in the project of the split issue. */
  ghost predicate Splittable(more: Db, r: Request, off: Issue, moved: set<Uuid>)
  {
    && r.issue in more.issues && r.newIssue !in more.issues && moved <= EventsOf(more, r.issue)
    && off.project == more.issues[r.issue].project
    && forall x :: x in more.issues ==> !HasFingerprint(more.issues[x], off.project, off.fingerprint)
  }

  lemma IntoEvents(more: Db, r: Request, off: Issue, moved: set<Uuid>, gone: bool, seen: Summary)
    requires Splittable(more, r, off, moved)
    ensures var t := SplitInto(more, r, off, moved, gone, seen);
            && t.events.Keys == more.events.Keys - (if gone then EventsOf(more, r.issue) - moved else {})
            && (forall e {:trigger t.events[e]} :: e in t.events ==>
                  t.events[e] == SplitEvent(e, more.events[e], moved, r.newIssue))
            && t.services == more.services && t.releases == more.releases && t.logs == more.logs
  {
    hide HasFingerprint;
  }

  lemma IntoIssues(more: Db, r: Request, off: Issue, moved: set<Uuid>, gone: bool, seen: Summary)
    requires Splittable(more, r, off, moved)
    ensures var t := SplitInto(more, r, off, moved, gone, seen);
            && t.issues.Keys == more.issues.Keys + {r.newIssue} - (if gone then {r.issue} else {})
            && t.issues[r.newIssue] == off
            && (!gone ==> t.issues[r.issue] == more.issues[r.issue].(seen := seen))
            && forall id {:trigger t.issues[id]} :: id in t.issues && id != r.newIssue && id != r.issue ==>
                 t.issues[id] == more.issues[id]
  {
    hide HasFingerprint, EventsOf;
  }

  lemma IntoEventsOf(more: Db, r: Request, off: Issue, moved: set<Uuid>, gone: bool, seen: Summary, id: Uuid)
    requires Linked(more) && Splittable(more, r, off, moved)
    ensures EventsOf(SplitInto(more, r, off, moved, gone, seen), id) ==
            if id == r.newIssue then moved
            else if id == r.issue then (if gone then {} else EventsOf(more, r.issue) - moved)
            else EventsOf(more, id)
  {
    IntoEvents(more, r, off, moved, gone, seen);
    NothingWithoutIssue(more, r.newIssue);
    var t := SplitInto(more, r, off, moved, gone, seen);
    hide SplitInto, HasFingerprint;
    forall e
      ensures e in EventsOf(t, id) <==>
              e in (if id == r.newIssue then moved
                    else if id == r.issue then (if gone then {} else EventsOf(more, r.issue) - moved)
                    else EventsOf(more, id))
    {
      assert e !in EventsOf(more, r.newIssue);
      assert e in moved ==> e in EventsOf(more, r.issue);
    }
  }

  lemma IntoThins(more: Db, r: Request, off: Issue, moved: set<Uuid>, gone: bool, seen: Summary)
    requires Splittable(more, r, off, moved)
    ensures Thinned(more, SplitInto(more, r, off, moved, gone, seen))
    ensures !gone || EventsOf(more, r.issue) <= moved ==> Whole(more, SplitInto(more, r, off, moved, gone, seen))
  {
    IntoEvents(more, r, off, moved, gone, seen);
    hide SplitInto, HasFingerprint;
  }

  /** What the summaries of the new issue and of the split one have to be. */
  ghost predicate Summed(more: Db, exact: bool, r: Request, off: Issue, moved: set<Uuid>, gone: bool, seen: Summary)
  {
    && Fits(exact, off.seen, moved, EventTimes(more))
    && (!gone ==> Fits(exact, seen, EventsOf(more, r.issue) - moved, EventTimes(more)))
    && (gone && exact ==> EventsOf(more, r.issue) <= moved)
  }

  lemma IntoIssueAgrees(more: Db, exact: bool, r: Request, off: Issue, moved: set<Uuid>, gone: bool, seen: Summary,
                        id: Uuid)
    requires Agrees(more, exact) && Splittable(more, r, off, moved) && Summed(more, exact, r, off, moved, gone, seen)
    requires id in SplitInto(more, r, off, moved, gone, seen).issues
    ensures IssueAgrees(SplitInto(more, r, off, moved, gone, seen), exact, id)
  {
    var t := SplitInto(more, r, off, moved, gone, seen);
    IntoIssues(more, r, off, moved, gone, seen);
    IntoEventsOf(more, r, off, moved, gone, seen, id);
    IntoThins(more, r, off, moved, gone, seen);
    ThinnedTimes(more, t);
    var before := if id == r.newIssue then off.seen else if id == r.issue then seen else more.issues[id].seen;
    var ids := if id == r.newIssue then moved
               else if id == r.issue then EventsOf(more, id) - moved
               else EventsOf(more, id);
    if id != r.newIssue && id != r.issue {
      assert IssueAgrees(more, exact, id);
    }
    hide SplitInto, Splittable, Summed, Thinned, Agrees, Fits;
    assert EventsOf(t, id) == ids;
    EventsAreThere(t, id);
    FitsElsewhere(exact, before, ids, EventTimes(more), EventTimes(t));
  }

  lemma EventsAreThere(db: Db, id: Uuid)
    ensures EventsOf(db, id) <= db.events.Keys
  {
  }

  lemma IntoLinked(more: Db, r: Request, off: Issue, moved: set<Uuid>, gone: bool, seen: Summary)
    requires Linked(more) && Splittable(more, r, off, moved)
    ensures Linked(SplitInto(more, r, off, moved, gone, seen))
  {
    var t := SplitInto(more, r, off, moved, gone, seen);
    IntoEvents(more, r, off, moved, gone, seen);
    IntoIssues(more, r, off, moved, gone, seen);
    IntoThins(more, r, off, moved, gone, seen);
    hide SplitInto, HasFingerprint;
    forall e {:trigger t.events[e]} | e in t.events
      ensures t.events[e].issue in t.issues && t.issues[t.events[e].issue].project == t.events[e].project
    {
      assert EventLinked(more, more.events[e]);
      assert e in moved ==> e in EventsOf(more, r.issue);
    }
    ThinnedLinked(more, t);
  }

  lemma IntoFingerprints(more: Db, r: Request, off: Issue, moved: set<Uuid>, gone: bool, seen: Summary)
    requires FingerprintsUnique(more) && Splittable(more, r, off, moved)
    ensures FingerprintsUnique(SplitInto(more, r, off, moved, gone, seen))
  {
    IntoIssues(more, r, off, moved, gone, seen);
    var t := SplitInto(more, r, off, moved, gone, seen);
    hide SplitInto;
    AddedFingerprint(more, t, r.newIssue);
  }

  lemma IntoAgrees(more: Db, exact: bool, r: Request, off: Issue, moved: set<Uuid>, gone: bool, seen: Summary)
    requires Agrees(more, exact) && Splittable(more, r, off, moved) && Summed(more, exact, r, off, moved, gone, seen)
    ensures Agrees(SplitInto(more, r, off, moved, gone, seen), exact)
  {
    var t := SplitInto(more, r, off, moved, gone, seen);
    IntoThins(more, r, off, moved, gone, seen);
    IntoLinked(more, r, off, moved, gone, seen);
    IntoFingerprints(more, r, off, moved, gone, seen);
    ThinnedAgrees(more, t, exact);
    hide SplitInto, Splittable, Linked, FingerprintsUnique, IssueAgrees;
    forall id | id in t.issues ensures IssueAgrees(t, exact, id) {
      IntoIssueAgrees(more, exact, r, off, moved, gone, seen, id);
    }
  }

  // ----- what a race does -----

  lemma RaceIsSplittable(db: Db, r: Request, i: Incoming, moment: Moment)
    requires Race(db, r, i)
    ensures Agrees(Ingest(db, i), true)
    ensures Splittable(Ingest(db, i), r, NewIssue(db, r), MovedThen(db, r, i, moment))
  {
    var more := Ingest(db, i);
    IngestAgrees(db, true, i);
    WhereItGoes(db, r, i);
    AddedToIssue(db, more, i.event, EventOf(i, IssueFor(db, i)), r.issue);
    forall x | x in more.issues
      ensures !HasFingerprint(more.issues[x], db.issues[r.issue].project, r.fingerprint)
    {
      if x in db.issues {
        assert SameFingerprint(more.issues[x], db.issues[x]);
      }
    }
  }

  /** The new issue counts the events that were chosen when it was inserted. */
  lemma ChosenAreCounted(db: Db, r: Request, i: Incoming)
    requires Race(db, r, i)
    ensures Exact(NewIssue(db, r).seen, Chosen(db, r.issue, r.chosen), EventTimes(Ingest(db, i)))
    ensures i.event !in Chosen(db, r.issue, r.chosen)
  {
    WhereItGoes(db, r, i);
    AddedTimes(db, Ingest(db, i), i.event, EventOf(i, IssueFor(db, i)));
    FitsElsewhere(true, NewIssue(db, r).seen, Chosen(db, r.issue, r.chosen), EventTimes(db), EventTimes(Ingest(db, i)));
  }

  lemma IntoKeys(more: Db, r: Request, off: Issue, moved: set<Uuid>, gone: bool, seen: Summary)
    requires Splittable(more, r, off, moved)
    ensures SplitInto(more, r, off, moved, gone, seen).events.Keys ==
            more.events.Keys - (if gone then EventsOf(more, r.issue) - moved else {})
  {
    IntoEvents(more, r, off, moved, gone, seen);
  }

  lemma IngestKeys(db: Db, r: Request, i: Incoming)
    requires Race(db, r, i)
    ensures Ingest(db, i).events.Keys == db.events.Keys + {i.event} && EventsOf(db, r.issue) <= db.events.Keys
    ensures i.event !in db.events && r.issue in db.issues
  {
    WhereItGoes(db, r, i);
  }

  /** Only with the split issue can an event go, and then only if nothing that was there before remains. */
  lemma GoesWithIssue(before: set<Uuid>, left: set<Uuid>, rest: set<Uuid>, e: Uuid, stays: bool, gone: bool, late: bool)
    requires left <= before && e !in before && rest == left + (if stays then {e} else {})
    requires gone <==> (if late then left else rest) == {}
    ensures var t := before + {e} - (if gone then rest else {});
            before <= t <= before + {e} && (e !in t <==> stays && late && left == {})
  {
  }

  /** Which events survive: all of them, unless the split issue goes with the new one. */
  lemma RaceEvents(db: Db, r: Request, i: Incoming, moment: Moment)
    requires Race(db, r, i)
    ensures var t := RacedSplit(db, r, i, moment);
            && db.events.Keys <= t.events.Keys <= db.events.Keys + {i.event}
            && (i.event !in t.events <==> Unnoticed(db, r, i, moment))
  {
    hide Race, Goes, Ingest, NewIssue, ForSplit, IssueFor, EventsOf, RacedSplit, Exact, SplitInto, Splittable,
         MovedThen, EventTimes, Agrees;
    RaceGoes(db, r, i);
    IngestKeys(db, r, i);
    var gone, seen := RacedIs(db, r, i, moment);
    RaceIsSplittable(db, r, i, moment);
    RestIs(db, r, i, moment);
    IntoKeys(Ingest(db, i), r, NewIssue(db, r), MovedThen(db, r, i, moment), gone, seen);
    GoesWithIssue(db.events.Keys, EventsOf(db, r.issue) - r.chosen,
                  EventsOf(Ingest(db, i), r.issue) - MovedThen(db, r, i, moment), i.event,
                  ForSplit(db, r, i) && !(moment.BeforeMove? && i.event in r.chosen), gone, Late(moment));
  }

  lemma SumsUp(more: Db, exact: bool, r: Request, off: Issue, moved: set<Uuid>, gone: bool, seen: Summary)
    requires Exact(off.seen, moved, EventTimes(more))
    requires !gone ==> Exact(seen, EventsOf(more, r.issue) - moved, EventTimes(more))
    requires gone && exact ==> EventsOf(more, r.issue) - moved == {}
    ensures Summed(more, exact, r, off, moved, gone, seen)
  {
    hide EventsOf, EventTimes, Reached;
    if gone && exact {
      assert forall e :: e in EventsOf(more, r.issue) && e !in moved ==> e in EventsOf(more, r.issue) - moved;
    }
  }

  lemma RightSums(db: Db, r: Request, i: Incoming, moment: Moment, gone: bool, seen: Summary)
    requires Race(db, r, i) && !Miscounted(db, r, i, moment)
    requires var rest := EventsOf(Ingest(db, i), r.issue) - MovedThen(db, r, i, moment);
             && (gone <==> (if Late(moment) then EventsOf(db, r.issue) - r.chosen else rest) == {})
             && (!gone && !(Late(moment) && ForSplit(db, r, i)) ==> Exact(seen, rest, EventTimes(Ingest(db, i))))
    ensures Summed(Ingest(db, i), !Unnoticed(db, r, i, moment), r, NewIssue(db, r), MovedThen(db, r, i, moment), gone,
                   seen)
  {
    hide EventsOf, Ingest, Chosen;
    assert Goes(db, r) && MovedThen(db, r, i, moment) == Chosen(db, r.issue, r.chosen);
    hide Race, Goes, NewIssue, ForSplit, MovedThen, EventTimes, Exact, Summed;
    ChosenAreCounted(db, r, i);
    RestIs(db, r, i, moment);
    SumsUp(Ingest(db, i), !Unnoticed(db, r, i, moment), r, NewIssue(db, r), MovedThen(db, r, i, moment), gone, seen);
  }

  lemma CountedRace(db: Db, r: Request, i: Incoming, moment: Moment)
    requires Race(db, r, i) && !Miscounted(db, r, i, moment)
    ensures Agrees(RacedSplit(db, r, i, moment), !Unnoticed(db, r, i, moment))
  {
    assert r.issue in db.issues;
    hide Race, Ingest, NewIssue, ForSplit, EventsOf, RacedSplit, Exact, SplitInto, Splittable, MovedThen, Agrees,
         Summed, Unnoticed, Miscounted, EventTimes;
    var gone, seen := RacedIs(db, r, i, moment);
    RaceIsSplittable(db, r, i, moment);
    RightSums(db, r, i, moment, gone, seen);
    MergeRace.ExactIsBound(Ingest(db, i));
    IntoAgrees(Ingest(db, i), !Unnoticed(db, r, i, moment), r, NewIssue(db, r), MovedThen(db, r, i, moment), gone,
               seen);
  }

  lemma TooFew(t: Db, id: Uuid, size: nat)
    requires id in t.issues && t.issues[id].seen.count == size < |EventsOf(t, id)|
    ensures !Agrees(t, false)
  {
    assert !IssueAgrees(t, false, id);
  }

  lemma IntoShort(more: Db, r: Request, off: Issue, moved: set<Uuid>, gone: bool, seen: Summary, before: set<Uuid>,
                  e: Uuid)
    requires Linked(more) && Splittable(more, r, off, moved) && e !in before
    requires || (off.seen.count == |before| && moved == before + {e})
             || (!gone && seen.count == |before| && EventsOf(more, r.issue) - moved == before + {e})
    ensures !Agrees(SplitInto(more, r, off, moved, gone, seen), false)
  {
    hide EventsOf;
    IntoIssues(more, r, off, moved, gone, seen);
    IntoEventsOf(more, r, off, moved, gone, seen, r.newIssue);
    IntoEventsOf(more, r, off, moved, gone, seen, r.issue);
    hide SplitInto, Agrees, Linked;
    assert |before + {e}| == |before| + 1;
    if off.seen.count == |before| && moved == before + {e} {
      TooFew(SplitInto(more, r, off, moved, gone, seen), r.newIssue, |before|);
    } else {
      TooFew(SplitInto(more, r, off, moved, gone, seen), r.issue, |before|);
    }
  }

  lemma LateMiscount(db: Db, r: Request, i: Incoming, moment: Moment)
    requires Race(db, r, i) && ForSplit(db, r, i) && Late(moment) && EventsOf(db, r.issue) - r.chosen != {}
    ensures !Agrees(RacedSplit(db, r, i, moment), false)
  {
    assert Goes(db, r);
    hide Race, Goes, Ingest, NewIssue, RacedSplit, SplitInto, Splittable, Linked, EventsOf, Exact, MovedThen,
         EventTimes, ForSplit;
    var gone, seen := RacedIs(db, r, i, moment);
    RaceIsSplittable(db, r, i, moment);
    RestIs(db, r, i, moment);
    IntoShort(Ingest(db, i), r, NewIssue(db, r), MovedThen(db, r, i, moment), gone, seen,
              EventsOf(db, r.issue) - r.chosen, i.event);
  }

  lemma EarlyMiscount(db: Db, r: Request, i: Incoming)
    requires Race(db, r, i) && ForSplit(db, r, i) && i.event in r.chosen
    ensures !Agrees(RacedSplit(db, r, i, BeforeMove), false)
  {
    assert Goes(db, r) && MovedThen(db, r, i, BeforeMove) == Chosen(db, r.issue, r.chosen) + {i.event};
    hide Race, Goes, Ingest, NewIssue, RacedSplit, SplitInto, Splittable, Linked, Chosen, MovedThen, ForSplit;
    var gone, seen := RacedIs(db, r, i, BeforeMove);
    RaceIsSplittable(db, r, i, BeforeMove);
    ChosenAreCounted(db, r, i);
    IntoShort(Ingest(db, i), r, NewIssue(db, r), MovedThen(db, r, i, BeforeMove), gone, seen,
              Chosen(db, r.issue, r.chosen), i.event);
  }

  lemma MiscountedRace(db: Db, r: Request, i: Incoming, moment: Moment)
    requires Race(db, r, i) && Miscounted(db, r, i, moment)
    ensures !Agrees(RacedSplit(db, r, i, moment), false)
  {
    hide RacedSplit, Agrees, EventsOf;
    if Late(moment) {
      LateMiscount(db, r, i, moment);
    } else {
      EarlyMiscount(db, r, i);
    }
  }

  lemma IntoServiceEvents(more: Db, r: Request, off: Issue, moved: set<Uuid>, gone: bool, seen: Summary, k: ServiceKey)
    requires Splittable(more, r, off, moved)
    ensures var t := SplitInto(more, r, off, moved, gone, seen);
            t.services == more.services && ServiceEvents(t, k) == ServiceEvents(more, k) * t.events.Keys
  {
    IntoEvents(more, r, off, moved, gone, seen);
    hide SplitInto, Splittable;
  }

  lemma IngestService(db: Db, i: Incoming)
    requires IngestOutcome(db, i) == Done
    ensures ServiceOf(i) in Ingest(db, i).services
    ensures Ingest(db, i).services[ServiceOf(i)] == UpsertService(Lookup(db.services, ServiceOf(i)), i.at, true)
    ensures ServiceEvents(Ingest(db, i), ServiceOf(i)) * db.events.Keys == ServiceEvents(db, ServiceOf(i))
  {
  }

  lemma RaceServices(db: Db, r: Request, i: Incoming, moment: Moment, k: ServiceKey)
    requires Race(db, r, i)
    ensures var t := RacedSplit(db, r, i, moment);
            && t.services == Ingest(db, i).services
            && ServiceEvents(t, k) == ServiceEvents(Ingest(db, i), k) * t.events.Keys
  {
    assert Goes(db, r);
    hide Race, Goes, Ingest, NewIssue, RacedSplit, SplitInto, Splittable, Agrees, MovedThen, ServiceEvents, Exact,
         EventsOf, EventTimes, ForSplit, Late;
    var gone, seen := RacedIs(db, r, i, moment);
    RaceIsSplittable(db, r, i, moment);
    IntoServiceEvents(Ingest(db, i), r, NewIssue(db, r), MovedThen(db, r, i, moment), gone, seen, k);
  }

  lemma RaceGoes(db: Db, r: Request, i: Incoming)
    requires Race(db, r, i)
    ensures Goes(db, r) && IngestOutcome(db, i) == Done && r.issue in db.issues
  {
  }

  lemma OnlyOldRemain(t: Db, db: Db, more: Db, k: ServiceKey)
    requires ServiceEvents(t, k) == ServiceEvents(more, k) * t.events.Keys && t.events.Keys == db.events.Keys
    requires ServiceEvents(more, k) * db.events.Keys == ServiceEvents(db, k)
    ensures ServiceEvents(t, k) == ServiceEvents(db, k)
  {
    hide ServiceEvents;
  }

  lemma UnnoticedService(db: Db, r: Request, i: Incoming, moment: Moment)
    requires Race(db, r, i) && Unnoticed(db, r, i, moment)
    ensures var t, k := RacedSplit(db, r, i, moment), ServiceOf(i);
            && k in t.services && t.services[k] == UpsertService(Lookup(db.services, k), i.at, true)
            && ServiceEvents(t, k) == ServiceEvents(db, k)
  {
    hide Race, Goes, Ingest, RacedSplit, Agrees, Unnoticed, ServiceEvents, UpsertService, ServiceOf, IngestOutcome;
    RaceGoes(db, r, i);
    IngestService(db, i);
    RaceServices(db, r, i, moment, ServiceOf(i));
    RaceEvents(db, r, i, moment);
    assert RacedSplit(db, r, i, moment).events.Keys == db.events.Keys;
    OnlyOldRemain(RacedSplit(db, r, i, moment), db, Ingest(db, i), ServiceOf(i));
  }

  lemma UnnoticedRace(db: Db, r: Request, i: Incoming, moment: Moment)
    requires Race(db, r, i) && Unnoticed(db, r, i, moment)
    ensures !Agrees(RacedSplit(db, r, i, moment), true)
  {
    hide Goes, RacedSplit, Agrees, Unnoticed, ServiceEvents, UpsertService, ServiceOf, IngestOutcome, Possible, Lookup;
    UnnoticedService(db, r, i, moment);
    MergeRace.OneTooMany(db, RacedSplit(db, r, i, moment), ServiceOf(i), i.at);
  }

  /**
   A split that an ingest overtakes loses the event exactly when it is for the split issue and commits after the count
   has found nothing that remains. The counters are exact afterwards unless the event is lost or miscounted, and bounds
   unless it is miscounted. Every other event survives.
   */
  lemma RaceLosesEventIffUnnoticed(db: Db, r: Request, i: Incoming, moment: Moment)
    requires Race(db, r, i)
    ensures var t := RacedSplit(db, r, i, moment);
            && (i.event !in t.events <==> Unnoticed(db, r, i, moment))
            && (Agrees(t, true) <==> !Unnoticed(db, r, i, moment) && !Miscounted(db, r, i, moment))
            && (Agrees(t, false) <==> !Miscounted(db, r, i, moment))
            && db.events.Keys <= t.events.Keys
  {
    assert Goes(db, r) && r.issue in db.issues;
    hide Race, Goes, RacedSplit, Agrees, Unnoticed, Miscounted;
    RaceEvents(db, r, i, moment);
    if Miscounted(db, r, i, moment) {
      MiscountedRace(db, r, i, moment);
      MergeRace.BoundIsNeeded(RacedSplit(db, r, i, moment));
    } else {
      CountedRace(db, r, i, moment);
      if Unnoticed(db, r, i, moment) {
        UnnoticedRace(db, r, i, moment);
      } else {
        MergeRace.ExactIsBound(RacedSplit(db, r, i, moment));
      }
    }
  }
}
