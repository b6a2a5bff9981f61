/**
 A merge that an ingest overtakes (src/api.rs:1152-1170 against src/api.rs:366-435). Nothing locks the source
 issues until they are deleted, so an ingest can commit between the statement that moves the events and the one
 that deletes the sources: before the target is counted again, after it, or while the counting statement waits for
 the target's row that the ingest has locked. In the last case the statement goes on with the new row, but its
 subqueries still count the events as they were when it began. After the counting, the merge holds the target's row,
 so an ingest for the target then waits for the end of the merge.
 */
module MergeRace {
  import opened Wrappers
  import opened DedupKeys
  import opened Projections
  import opened EventStore
  import opened EventStoreLaws
  import opened IssueMoves

  /** When the ingest commits. */
  datatype Moment = BeforeCount | DuringCount | AfterCount

  /** The counting statement on the tables `t`, whose subqueries see the events of `snapshot`. */
  ghost function CountedAs(t: Db, snapshot: Db, target: Uuid): Db
    requires target in t.issues
  {
    if EventsOf(snapshot, target) == {} then t
    else t.(issues := t.issues[target :=
                               t.issues[target].(seen := Recount(EventsOf(snapshot, target), EventTimes(snapshot)))])
  }

  /** The tables when the merge deletes its sources. */
  ghost function Overtaken(db: Db, target: Uuid, sources: set<Uuid>, i: Incoming, moment: Moment): Db
    requires target in db.issues
  {
    var moved := AfterMove(db, target, sources);
    match moment
    case BeforeCount => CountedAs(Ingest(moved, i), Ingest(moved, i), target)
    case DuringCount => CountedAs(Ingest(moved, i), moved, target)
    case AfterCount => Ingest(CountedAs(moved, moved, target), i)
  }

  ghost function RacedMerge(db: Db, target: Uuid, sources: set<Uuid>, i: Incoming, moment: Moment): Db
    requires target in db.issues
  {
    var t := Overtaken(db, target, sources, i, moment);
    DeleteIssues(t, Absorbed(t, sources, db.issues[target].project))
  }

  /** The new event is for an issue that the merge is about to delete. */
  ghost predicate ForSource(db: Db, target: Uuid, sources: set<Uuid>, i: Incoming)
    requires target in db.issues
  {
    var gone := Absorbed(db, sources, db.issues[target].project);
    exists s :: s in gone && HasFingerprint(db.issues[s], i.project, i.fingerprint)
  }

  predicate ForTarget(db: Db, target: Uuid, i: Incoming)
    requires target in db.issues
  {
    HasFingerprint(db.issues[target], i.project, i.fingerprint)
  }

  /** An ingest for the target waits for the merge once the target has been counted. */
  predicate Possible(db: Db, target: Uuid, i: Incoming, moment: Moment)
    requires target in db.issues
  {
    moment.AfterCount? ==> !ForTarget(db, target, i)
  }

  /** The event is for the target and commits under the eyes of the count, which does not see it. */
  predicate Unseen(db: Db, target: Uuid, i: Incoming, moment: Moment)
    requires target in db.issues
  {
    moment.DuringCount? && ForTarget(db, target, i)
  }

  /** An overtaken merge whose target and sources are issues as the request demands, and an event that is stored. */
  ghost predicate Race(db: Db, target: Uuid, sources: set<Uuid>, i: Incoming, moment: Moment)
  {
    && Agrees(db, true) && target in db.issues && sources != {} && target !in sources
    && IngestOutcome(db, i) == Done && i.newIssue !in sources && Possible(db, target, i, moment)
  }

  /** On exact tables every issue has an event, so a merge into one of them goes through. */
  lemma MergeGoesThrough(db: Db, target: Uuid, sources: set<Uuid>)
    requires Agrees(db, true) && target in db.issues && sources != {} && target !in sources
    ensures EventsOf(AfterMove(db, target, sources), target) != {}
    ensures MergeOutcome(db, target, sources) == Done
  {
    assert IssueAgrees(db, true, target);
    var e :| e in EventsOf(db, target);
    Moved(db, target, sources);
    assert e in EventsOf(AfterMove(db, target, sources), target);
  }

  /** Issues by fingerprint do not depend on where events are or how they are counted. */
  lemma SameFindings(db: Db, t: Db, i: Incoming)
    requires FingerprintsUnique(db) && t.issues.Keys == db.issues.Keys && t.events.Keys == db.events.Keys
    requires forall id {:trigger t.issues[id]} :: id in t.issues ==> SameFingerprint(t.issues[id], db.issues[id])
    requires forall e {:trigger t.events[e]} :: e in t.events ==> t.events[e].project == db.events[e].project
    ensures IngestOutcome(t, i) == IngestOutcome(db, i) && IssueFor(t, i) == IssueFor(db, i)
  {
    var a, b := FindIssue(db.issues, i.project, i.fingerprint), FindIssue(t.issues, i.project, i.fingerprint);
    assert b.Some? ==> SameFingerprint(t.issues[b.value], db.issues[b.value]);
    if a.Some? {
      assert SameFingerprint(t.issues[a.value], db.issues[a.value]);
      assert HasFingerprint(t.issues[a.value], i.project, i.fingerprint);
      assert SameFingerprint(db.issues[a.value], db.issues[b.value]);
    }
  }

  /** Moving events away from the sources and storing a new one elsewhere commute. */
  lemma StoredThenMoved(db: Db, target: Uuid, sources: set<Uuid>, i: Incoming, id: Uuid)
    requires target in db.issues && i.event !in db.events
    requires id == target ==> i.project == db.issues[target].project
    requires id in sources ==> i.project != db.issues[target].project
    ensures AfterMove(Stored(db, i, id), target, sources) == Stored(AfterMove(db, target, sources), i, id)
  {
    Moved(db, target, sources);
    Moved(Stored(db, i, id), target, sources);
    var a, b := AfterMove(Stored(db, i, id), target, sources), Stored(AfterMove(db, target, sources), i, id);
    assert Stored(db, i, id).issues[target].project == db.issues[target].project;
    assert a.events == b.events;
  }

  /** Storing an event under another issue does not change what counting an issue gives. */
  lemma StoredElsewhere(db: Db, target: Uuid, i: Incoming, id: Uuid)
    requires target in db.issues && id != target && i.event !in db.events && EventsOf(db, target) != {}
    ensures EventsOf(Stored(db, i, id), target) == EventsOf(db, target)
    ensures Recount(EventsOf(Stored(db, i, id), target), EventTimes(Stored(db, i, id))) ==
            Recount(EventsOf(db, target), EventTimes(db))
  {
    var t := Stored(db, i, id);
    StoredAdds(db, i, id);
    AddedTimes(db, t, i.event, EventOf(i, id));
    AddedToIssue(db, t, i.event, EventOf(i, id), target);
    var s := Recount(EventsOf(db, target), EventTimes(db));
    FitsElsewhere(true, s, EventsOf(db, target), EventTimes(db), EventTimes(t));
    ExactIsUnique(s, Recount(EventsOf(t, target), EventTimes(t)), EventsOf(db, target), EventTimes(t));
  }

  /** Counting one issue again and storing an event under another commute. */
  lemma StoredThenCounted(db: Db, target: Uuid, i: Incoming, id: Uuid)
    requires target in db.issues && id != target && i.event !in db.events && EventsOf(db, target) != {}
    ensures EventsOf(Stored(db, i, id), target) != {}
    ensures CountedAs(Stored(db, i, id), db, target) == RecountIssue(Stored(db, i, id), target)
    ensures Stored(CountedAs(db, db, target), i, id) == RecountIssue(Stored(db, i, id), target)
  {
    StoredElsewhere(db, target, i, id);
    assert Stored(CountedAs(db, db, target), i, id).issues == RecountIssue(Stored(db, i, id), target).issues;
  }

  lemma IngestAfterMove(db: Db, target: Uuid, sources: set<Uuid>, i: Incoming)
    requires FingerprintsUnique(db) && target in db.issues
    ensures IngestOutcome(AfterMove(db, target, sources), i) == IngestOutcome(db, i)
    ensures IssueFor(AfterMove(db, target, sources), i) == IssueFor(db, i)
  {
    Moved(db, target, sources);
    SameFindings(db, AfterMove(db, target, sources), i);
  }

  lemma IngestAfterCount(db: Db, target: Uuid, i: Incoming)
    requires FingerprintsUnique(db) && target in db.issues
    ensures IngestOutcome(CountedAs(db, db, target), i) == IngestOutcome(db, i)
    ensures IssueFor(CountedAs(db, db, target), i) == IssueFor(db, i)
  {
    SameFindings(db, CountedAs(db, db, target), i);
  }

  /** Where the new event goes, and whether that is an issue the merge deletes. */
  lemma WhereItGoes(db: Db, target: Uuid, sources: set<Uuid>, i: Incoming)
    requires FingerprintsUnique(db) && target in db.issues && IngestOutcome(db, i) == Done && i.newIssue !in sources
    ensures ForSource(db, target, sources, i) <==> IssueFor(db, i) in sources && i.project == db.issues[target].project
    ensures IssueFor(db, i) == target <==> ForTarget(db, target, i)
  {
    IngestIssue(db, i);
    var id := IssueFor(db, i);
    var gone := Absorbed(db, sources, db.issues[target].project);
    if s :| s in gone && HasFingerprint(db.issues[s], i.project, i.fingerprint) {
      assert SameFingerprint(db.issues[s], db.issues[id]);
    }
    if HasFingerprint(db.issues[target], i.project, i.fingerprint) {
      assert SameFingerprint(db.issues[target], db.issues[id]);
    }
  }

  lemma MovedKnows(db: Db, target: Uuid, sources: set<Uuid>, i: Incoming)
    requires Agrees(db, true) && target in db.issues && sources != {} && target !in sources &&
             IngestOutcome(db, i) == Done
    ensures var moved := AfterMove(db, target, sources);
            && FingerprintsUnique(moved) && target in moved.issues
            && i.event !in moved.events && EventsOf(moved, target) != {}
            && IngestOutcome(moved, i) == Done && IssueFor(moved, i) == IssueFor(db, i)
  {
    hide IssueFor, AfterMove, FingerprintsUnique, Linked;
    IngestAfterMove(db, target, sources, i);
    MergeGoesThrough(db, target, sources);
    Moved(db, target, sources);
    FewerFingerprints(db, AfterMove(db, target, sources));
  }

  lemma CountedBefore(moved: Db, target: Uuid, i: Incoming)
    requires target in moved.issues && EventsOf(moved, target) != {} && i.event !in moved.events &&
             IngestOutcome(moved, i) == Done
    ensures var t := Stored(moved, i, IssueFor(moved, i));
            && EventsOf(t, target) != {}
            && CountedAs(Ingest(moved, i), Ingest(moved, i), target) == RecountIssue(t, target)
  {
    var id := IssueFor(moved, i);
    StoredAdds(moved, i, id);
    AddedToIssue(moved, Stored(moved, i, id), i.event, EventOf(i, id), target);
  }

  lemma CountedLater(moved: Db, target: Uuid, i: Incoming)
    requires FingerprintsUnique(moved) && target in moved.issues && EventsOf(moved, target) != {}
    requires i.event !in moved.events && IngestOutcome(moved, i) == Done && IssueFor(moved, i) != target
    ensures var t := Stored(moved, i, IssueFor(moved, i));
            && EventsOf(t, target) != {} && CountedAs(Ingest(moved, i), moved, target) == RecountIssue(t, target)
            && Ingest(CountedAs(moved, moved, target), i) == RecountIssue(t, target)
  {
    StoredThenCounted(moved, target, i, IssueFor(moved, i));
    IngestAfterCount(moved, target, i);
  }

  /** Unless the count misses the event, the merge deletes its sources from tables with the event stored and counted. */
  lemma OvertakenIs(db: Db, target: Uuid, sources: set<Uuid>, i: Incoming, moment: Moment)
    requires Race(db, target, sources, i, moment) && !Unseen(db, target, i, moment)
    ensures var t := Stored(AfterMove(db, target, sources), i, IssueFor(db, i));
            EventsOf(t, target) != {} && Overtaken(db, target, sources, i, moment) == RecountIssue(t, target)
  {
    MovedKnows(db, target, sources, i);
    WhereItGoes(db, target, sources, i);
    if moment.BeforeCount? {
      CountedBefore(AfterMove(db, target, sources), target, i);
    } else {
      CountedLater(AfterMove(db, target, sources), target, i);
    }
  }

  lemma SameAbsorbed(a: Db, b: Db, sources: set<Uuid>, project: Uuid)
    requires a.issues.Keys == b.issues.Keys
    requires forall id {:trigger a.issues[id]} :: id in a.issues ==> a.issues[id].project == b.issues[id].project
    ensures Absorbed(a, sources, project) == Absorbed(b, sources, project)
  {
  }

  /** A merge, with the sources looked up when they are deleted. */
  lemma MergeIs(db: Db, target: Uuid, sources: set<Uuid>)
    requires target in db.issues && sources != {} && EventsOf(AfterMove(db, target, sources), target) != {}
    ensures var t := RecountIssue(AfterMove(db, target, sources), target);
            Merge(db, target, sources) == DeleteIssues(t, Absorbed(t, sources, db.issues[target].project))
  {
    var t := RecountIssue(AfterMove(db, target, sources), target);
    SameAbsorbed(t, db, sources, db.issues[target].project);
  }

  lemma IngestThenMove(db: Db, target: Uuid, sources: set<Uuid>, i: Incoming)
    requires FingerprintsUnique(db) && target in db.issues && IngestOutcome(db, i) == Done
    requires i.newIssue !in sources && !ForSource(db, target, sources, i)
    ensures target in Ingest(db, i).issues && Ingest(db, i).issues[target].project == db.issues[target].project
    ensures AfterMove(Ingest(db, i), target, sources) == Stored(AfterMove(db, target, sources), i, IssueFor(db, i))
  {
    WhereItGoes(db, target, sources, i);
    StoredThenMoved(db, target, sources, i, IssueFor(db, i));
  }

  /** An ingest for any issue that stays, unless the count misses it, is as good as one that came before the merge. */
  lemma HarmlessRace(db: Db, target: Uuid, sources: set<Uuid>, i: Incoming, moment: Moment)
    requires Race(db, target, sources, i, moment)
    requires !ForSource(db, target, sources, i) && !Unseen(db, target, i, moment)
    ensures RacedMerge(db, target, sources, i, moment) == Merge(Ingest(db, i), target, sources)
  {
    OvertakenIs(db, target, sources, i, moment);
    IngestThenMove(db, target, sources, i);
    MergeIs(Ingest(db, i), target, sources);
  }

  lemma StoredAbsorbed(db: Db, i: Incoming, id: Uuid, sources: set<Uuid>, project: Uuid)
    requires id in db.issues
    ensures Absorbed(Stored(db, i, id), sources, project) == Absorbed(db, sources, project)
  {
    SameAbsorbed(Stored(db, i, id), db, sources, project);
  }

  /** After the move, no event is left under an issue that the merge deletes. */
  lemma NoneLeftBehind(db: Db, target: Uuid, sources: set<Uuid>, e: Uuid)
    requires Linked(db) && target in db.issues && target !in sources && e in db.events
    ensures AfterMove(db, target, sources).events[e].issue !in Absorbed(db, sources, db.issues[target].project)
  {
    Moved(db, target, sources);
    assert EventLinked(db, db.events[e]);
  }

  lemma DroppedIssues(db: Db, target: Uuid, sources: set<Uuid>, i: Incoming, id: Uuid)
    requires target in db.issues && id in db.issues
    requires EventsOf(Stored(AfterMove(db, target, sources), i, id), target) != {}
    ensures Absorbed(RecountIssue(Stored(AfterMove(db, target, sources), i, id), target), sources,
                     db.issues[target].project) ==
            Absorbed(db, sources, db.issues[target].project)
  {
    var project := db.issues[target].project;
    var moved := AfterMove(db, target, sources);
    SameAbsorbed(RecountIssue(Stored(moved, i, id), target), Stored(moved, i, id), sources, project);
    StoredAbsorbed(moved, i, id, sources, project);
    SameAbsorbed(moved, db, sources, project);
  }

  lemma HarmfulServices(db: Db, target: Uuid, sources: set<Uuid>, i: Incoming, moment: Moment)
    requires Race(db, target, sources, i, moment) && !Unseen(db, target, i, moment)
    ensures RacedMerge(db, target, sources, i, moment).services ==
            db.services[ServiceOf(i) := UpsertService(Lookup(db.services, ServiceOf(i)), i.at, true)]
  {
    OvertakenIs(db, target, sources, i, moment);
  }

  lemma SourceIsNotTarget(db: Db, target: Uuid, sources: set<Uuid>, i: Incoming)
    requires FingerprintsUnique(db) && target in db.issues && target !in sources && IngestOutcome(db, i) == Done &&
             i.newIssue !in sources
    ensures ForSource(db, target, sources, i) ==> !ForTarget(db, target, i)
  {
    WhereItGoes(db, target, sources, i);
  }

  /** With the sources goes the issue that the new event is stored under. */
  lemma HarmfulMerge(db: Db, target: Uuid, sources: set<Uuid>, i: Incoming, moment: Moment)
    requires Race(db, target, sources, i, moment) && ForSource(db, target, sources, i)
    ensures IssueFor(db, i) in Absorbed(db, sources, db.issues[target].project)
    ensures i.project == db.issues[target].project && i.event !in db.events
    ensures EventsOf(Stored(AfterMove(db, target, sources), i, IssueFor(db, i)), target) != {}
    ensures RacedMerge(db, target, sources, i, moment) ==
            DeleteIssues(RecountIssue(Stored(AfterMove(db, target, sources), i, IssueFor(db, i)), target),
                         Absorbed(db, sources, db.issues[target].project))
  {
    SourceIsNotTarget(db, target, sources, i);
    OvertakenIs(db, target, sources, i, moment);
    WhereItGoes(db, target, sources, i);
    IsOld(db, sources, i);
    DroppedIssues(db, target, sources, i, IssueFor(db, i));
  }

  lemma OnlyNewGoes(db: Db, target: Uuid, sources: set<Uuid>, i: Incoming, id: Uuid)
    requires Linked(db) && target in db.issues && target !in sources && i.event !in db.events
    requires id in Absorbed(db, sources, db.issues[target].project) &&
             EventsOf(Stored(AfterMove(db, target, sources), i, id), target) != {}
    ensures DeleteIssues(RecountIssue(Stored(AfterMove(db, target, sources), i, id), target),
                         Absorbed(db, sources, db.issues[target].project)).events ==
                             AfterMove(db, target, sources).events
  {
    var moved := AfterMove(db, target, sources);
    Moved(db, target, sources);
    OnlyNewIsDropped(RecountIssue(Stored(moved, i, id), target), moved,
                     Absorbed(db, sources, db.issues[target].project), i.event, EventOf(i, id), target, db, sources);
  }

  /** The events that are left are those of the merge alone. */
  lemma HarmfulEvents(db: Db, target: Uuid, sources: set<Uuid>, i: Incoming, moment: Moment)
    requires Race(db, target, sources, i, moment) && ForSource(db, target, sources, i)
    ensures RacedMerge(db, target, sources, i, moment).events == AfterMove(db, target, sources).events
  {
    HarmfulMerge(db, target, sources, i, moment);
    OnlyNewGoes(db, target, sources, i, IssueFor(db, i));
  }

  lemma IsOld(db: Db, sources: set<Uuid>, i: Incoming)
    requires IngestOutcome(db, i) == Done && i.newIssue !in sources && IssueFor(db, i) in sources
    ensures IssueFor(db, i) in db.issues && db.issues[IssueFor(db, i)].project == i.project
  {
    IngestIssue(db, i);
  }

  lemma OnlyNewIsDropped(t: Db, moved: Db, gone: set<Uuid>, e: Uuid, v: Event, target: Uuid, db: Db, sources: set<Uuid>)
    requires Linked(db) && target in db.issues && target !in sources && moved == AfterMove(db, target, sources)
    requires e !in moved.events && t.events == moved.events[e := v] && v.issue in gone
    requires gone == Absorbed(db, sources, db.issues[target].project)
    ensures DeleteIssues(t, gone).events == moved.events
  {
    Moved(db, target, sources);
    forall x | x in moved.events ensures moved.events[x].issue !in gone { NoneLeftBehind(db, target, sources, x); }
  }

  /** A service that counts one event more than it has. */
  lemma OneTooMany(db: Db, t: Db, k: ServiceKey, at: int)
    requires Agrees(db, true) && k in t.services && t.services[k] == UpsertService(Lookup(db.services, k), at, true)
    requires ServiceEvents(t, k) == ServiceEvents(db, k)
    ensures !Agrees(t, true)
  {
    if k in db.services {
      assert ServiceAgrees(db, true, k);
    } else {
      NothingWithoutService(db, k);
      NothingOfService(db, k);
    }
    assert !ServiceAgrees(t, true, k);
  }

  lemma MovedServiceEvents(db: Db, target: Uuid, sources: set<Uuid>, t: Db, k: ServiceKey)
    requires target in db.issues && t.events == AfterMove(db, target, sources).events
    ensures ServiceEvents(t, k) == ServiceEvents(db, k)
  {
    Moved(db, target, sources);
    forall e | e in db.events ensures t.events[e].service == db.events[e].service {
      assert t.events[e] == Merged(db.events[e], target, sources, db.issues[target].project);
    }
  }

  lemma HarmfulRace(db: Db, target: Uuid, sources: set<Uuid>, i: Incoming, moment: Moment)
    requires Race(db, target, sources, i, moment) && ForSource(db, target, sources, i)
    ensures RacedMerge(db, target, sources, i, moment).events.Keys == db.events.Keys && i.event !in db.events
    ensures !Agrees(RacedMerge(db, target, sources, i, moment), true)
  {
    hide Linked, FingerprintsUnique, IssuesAgree, ServicesAgree, ReleasesAgree, RacedMerge, ForSource;
    var t, k := RacedMerge(db, target, sources, i, moment), ServiceOf(i);
    SourceIsNotTarget(db, target, sources, i);
    HarmfulEvents(db, target, sources, i, moment);
    HarmfulServices(db, target, sources, i, moment);
    Moved(db, target, sources);
    MovedServiceEvents(db, target, sources, t, k);
    OneTooMany(db, t, k, i.at);
  }

  // ----- the count that misses an event -----

  lemma NothingIsDropped(db: Db, target: Uuid, sources: set<Uuid>, t: Db, e: Uuid, v: Event)
    requires Linked(db) && target in db.issues && target !in sources && v.issue == target
    requires t.events == AfterMove(db, target, sources).events[e := v]
    ensures DeleteIssues(t, Absorbed(db, sources, db.issues[target].project)).events == t.events
  {
    var moved, gone := AfterMove(db, target, sources), Absorbed(db, sources, db.issues[target].project);
    Moved(db, target, sources);
    forall x | x in moved.events ensures moved.events[x].issue !in gone { NoneLeftBehind(db, target, sources, x); }
  }

  lemma MissedCount(db: Db, target: Uuid, sources: set<Uuid>, i: Incoming)
    requires Linked(db) && target in db.issues && target !in sources && i.event !in db.events &&
             i.project == db.issues[target].project
    requires EventsOf(AfterMove(db, target, sources), target) != {}
    ensures var moved, project := AfterMove(db, target, sources), db.issues[target].project;
            var missed := CountedAs(Stored(moved, i, target), moved, target);
            var t := DeleteIssues(missed, Absorbed(missed, sources, project));
            && t.events == moved.events[i.event := EventOf(i, target)] && i.event !in moved.events
            && target in t.issues && t.issues[target].seen.count == |EventsOf(moved, target)|
  {
    var moved := AfterMove(db, target, sources);
    var missed := CountedAs(Stored(moved, i, target), moved, target);
    Moved(db, target, sources);
    SameAbsorbed(missed, db, sources, db.issues[target].project);
    NothingIsDropped(db, target, sources, missed, i.event, EventOf(i, target));
  }

  lemma UnseenMerge(db: Db, target: Uuid, sources: set<Uuid>, i: Incoming)
    requires Race(db, target, sources, i, DuringCount) && ForTarget(db, target, i)
    ensures var t, moved := RacedMerge(db, target, sources, i, DuringCount), AfterMove(db, target, sources);
            && t.events == moved.events[i.event := EventOf(i, target)] && i.event !in moved.events
            && target in t.issues && t.issues[target].seen.count == |EventsOf(moved, target)|
  {
    MovedKnows(db, target, sources, i);
    WhereItGoes(db, target, sources, i);
    MissedCount(db, target, sources, i);
  }

  /** An issue that counts too few events. */
  lemma OneTooFew(t: Db, id: Uuid, e: Uuid, v: Event, moved: Db)
    requires id in t.issues && v.issue == id && e !in moved.events && t.events == moved.events[e := v]
    requires t.issues[id].seen.count == |EventsOf(moved, id)|
    ensures !Agrees(t, false)
  {
    assert EventsOf(t, id) == EventsOf(moved, id) + {e};
    assert !IssueAgrees(t, false, id);
  }

  /** The target is short of one event, so that not even a bound is left. */
  lemma UnseenRace(db: Db, target: Uuid, sources: set<Uuid>, i: Incoming)
    requires Race(db, target, sources, i, DuringCount) && ForTarget(db, target, i)
    ensures RacedMerge(db, target, sources, i, DuringCount).events.Keys == db.events.Keys + {i.event}
    ensures !Agrees(RacedMerge(db, target, sources, i, DuringCount), false)
  {
    UnseenMerge(db, target, sources, i);
    Moved(db, target, sources);
    OneTooFew(RacedMerge(db, target, sources, i, DuringCount), target, i.event, EventOf(i, target),
              AfterMove(db, target, sources));
  }

  // ----- what is left of agreement -----

  lemma ExactIsBound(db: Db)
    requires Agrees(db, true)
    ensures Agrees(db, false)
  {
    forall id | id in db.issues ensures IssueAgrees(db, false, id) { assert IssueAgrees(db, true, id); }
    forall k | k in db.services ensures ServiceAgrees(db, false, k) { assert ServiceAgrees(db, true, k); }
    forall k | k in db.releases ensures ReleaseAgrees(db, false, k) { assert ReleaseAgrees(db, true, k); }
  }

  /** The tables of a merge, as far as events and issues go. */
  ghost predicate Gathered(db: Db, target: Uuid, sources: set<Uuid>, t: Db)
    requires target in db.issues
  {
    && t.events == AfterMove(db, target, sources).events
    && t.issues.Keys == db.issues.Keys - Absorbed(db, sources, db.issues[target].project)
    && (forall id {:trigger t.issues[id]} :: id in t.issues && id != target ==> t.issues[id] == db.issues[id])
    && target in t.issues && SameFingerprint(t.issues[target], db.issues[target])
    && Exact(t.issues[target].seen, EventsOf(t, target), EventTimes(t))
  }

  lemma RecountedElsewhere(moved: Db, target: Uuid, i: Incoming, id: Uuid, t: Db)
    requires target in moved.issues && id != target && i.event !in moved.events && EventsOf(moved, target) != {}
    requires EventsOf(Stored(moved, i, id), target) != {} && t.events == moved.events
    ensures Exact(RecountIssue(Stored(moved, i, id), target).issues[target].seen, EventsOf(t, target), EventTimes(t))
    ensures SameFingerprint(RecountIssue(Stored(moved, i, id), target).issues[target], moved.issues[target])
  {
    hide Exact, UpsertIssue;
    StoredElsewhere(moved, target, i, id);
    assert EventsOf(t, target) == EventsOf(moved, target) && EventTimes(t) == EventTimes(moved);
  }

  lemma RestOfIssues(moved: Db, target: Uuid, i: Incoming, id: Uuid, gone: set<Uuid>, issues: map<Uuid, Issue>)
    requires target in moved.issues && id in moved.issues && EventsOf(Stored(moved, i, id), target) != {}
    requires id in gone && issues == RecountIssue(Stored(moved, i, id), target).issues - gone
    ensures issues.Keys == moved.issues.Keys - gone
    ensures forall x {:trigger issues[x]} :: x in issues && x != target ==> issues[x] == moved.issues[x]
  {
    hide Recount, EventsOf, UpsertIssue;
  }

  lemma Regathered(db: Db, target: Uuid, sources: set<Uuid>, i: Incoming, id: Uuid, t: Db)
    requires target in db.issues && target !in sources && id != target && i.event !in db.events
    requires EventsOf(AfterMove(db, target, sources), target) != {}
    requires id in Absorbed(db, sources, db.issues[target].project) && i.project == db.issues[target].project
    requires t.events == AfterMove(db, target, sources).events
    requires EventsOf(Stored(AfterMove(db, target, sources), i, id), target) != {}
    requires t.issues ==
             RecountIssue(Stored(AfterMove(db, target, sources), i, id), target).issues
             - Absorbed(db, sources, db.issues[target].project)
    ensures Gathered(db, target, sources, t)
  {
    hide Exact, Recount, EventsOf, UpsertIssue;
    Moved(db, target, sources);
    RecountedElsewhere(AfterMove(db, target, sources), target, i, id, t);
    RestOfIssues(AfterMove(db, target, sources), target, i, id, Absorbed(db, sources, db.issues[target].project),
                 t.issues);
    assert t.issues[target] == RecountIssue(Stored(AfterMove(db, target, sources), i, id), target).issues[target];
  }

  lemma HarmfulIssues(db: Db, target: Uuid, sources: set<Uuid>, i: Incoming, moment: Moment)
    requires Race(db, target, sources, i, moment) && ForSource(db, target, sources, i)
    ensures Gathered(db, target, sources, RacedMerge(db, target, sources, i, moment))
  {
    HarmfulMerge(db, target, sources, i, moment);
    HarmfulEvents(db, target, sources, i, moment);
    MergeGoesThrough(db, target, sources);
    Regathered(db, target, sources, i, IssueFor(db, i), RacedMerge(db, target, sources, i, moment));
  }

  lemma OnlyMovedThins(db: Db, target: Uuid, sources: set<Uuid>, more: Db, t: Db)
    requires target in db.issues && t.events == AfterMove(db, target, sources).events
    requires db.events.Keys <= more.events.Keys
    requires forall e {:trigger more.events[e]} :: e in db.events ==> more.events[e] == db.events[e]
    requires t.logs == more.logs && t.services == more.services && t.releases == more.releases
    ensures Thinned(more, t)
  {
    Moved(db, target, sources);
    forall e | e in t.events ensures SameRecord(t.events[e], more.events[e]) {}
  }

  lemma HarmfulThins(db: Db, target: Uuid, sources: set<Uuid>, i: Incoming, moment: Moment)
    requires Race(db, target, sources, i, moment) && ForSource(db, target, sources, i)
    ensures Thinned(Ingest(db, i), RacedMerge(db, target, sources, i, moment))
  {
    hide Agrees, RacedMerge, ForSource, Thinned;
    HarmfulMerge(db, target, sources, i, moment);
    HarmfulEvents(db, target, sources, i, moment);
    OnlyMovedThins(db, target, sources, Ingest(db, i), RacedMerge(db, target, sources, i, moment));
  }

  lemma GatheredIssueAgrees(db: Db, target: Uuid, sources: set<Uuid>, t: Db, id: Uuid)
    requires target in db.issues && Gathered(db, target, sources, t) && id in t.issues
    requires IssueAgrees(db, false, id)
    ensures IssueAgrees(t, false, id)
  {
    Moved(db, target, sources);
    if id != target {
      FitsFewer(db.issues[id].seen, EventsOf(db, id), EventTimes(db), EventsOf(t, id), EventTimes(t));
    }
  }

  lemma GatheredLinks(db: Db, target: Uuid, sources: set<Uuid>, t: Db, e: Uuid)
    requires Linked(db) && target in db.issues && target !in sources && Gathered(db, target, sources, t) &&
             e in t.events
    ensures t.events[e].issue in t.issues && t.issues[t.events[e].issue].project == t.events[e].project
  {
    Moved(db, target, sources);
    NoneLeftBehind(db, target, sources, e);
    assert EventLinked(db, db.events[e]);
  }

  /** When the event of a source goes with it, the counters are still bounds. */
  lemma HarmfulBounds(db: Db, target: Uuid, sources: set<Uuid>, i: Incoming, moment: Moment)
    requires Race(db, target, sources, i, moment) && ForSource(db, target, sources, i)
    ensures Agrees(RacedMerge(db, target, sources, i, moment), false)
  {
    var t := RacedMerge(db, target, sources, i, moment);
    HarmfulThins(db, target, sources, i, moment);
    HarmfulIssues(db, target, sources, i, moment);
    IngestAgrees(db, true, i);
    ExactIsBound(Ingest(db, i));
    ExactIsBound(db);
    GatheredAgrees(db, target, sources, Ingest(db, i), t);
  }

  lemma GatheredIssuesAgree(db: Db, target: Uuid, sources: set<Uuid>, t: Db)
    requires IssuesAgree(db, false) && FingerprintsUnique(db) && target in db.issues && Gathered(db, target, sources, t)
    ensures IssuesAgree(t, false) && FingerprintsUnique(t)
  {
    FewerFingerprints(db, t);
    forall id | id in t.issues ensures IssueAgrees(t, false, id) {
      assert IssueAgrees(db, false, id);
      GatheredIssueAgrees(db, target, sources, t, id);
    }
  }

  lemma GatheredLinked(db: Db, target: Uuid, sources: set<Uuid>, more: Db, t: Db)
    requires Linked(db) && Linked(more) && target in db.issues && target !in sources
    requires Thinned(more, t) && Gathered(db, target, sources, t)
    ensures Linked(t)
  {
    forall e {:trigger t.events[e]} | e in t.events
      ensures t.events[e].issue in t.issues && t.issues[t.events[e].issue].project == t.events[e].project
    {
      GatheredLinks(db, target, sources, t, e);
    }
    ThinnedLinked(more, t);
  }

  lemma GatheredAgrees(db: Db, target: Uuid, sources: set<Uuid>, more: Db, t: Db)
    requires Agrees(db, false) && Agrees(more, false) && target in db.issues && target !in sources
    requires Thinned(more, t) && Gathered(db, target, sources, t)
    ensures Agrees(t, false)
  {
    GatheredLinked(db, target, sources, more, t);
    ThinnedAgrees(more, t, false);
    GatheredIssuesAgree(db, target, sources, t);
  }

  /**
   A merge that an ingest overtakes loses the event, after its acceptance and for good, exactly when the event is
   for one of the sources. The projections are exact afterwards unless it is, or the count missed it; in that last
   case they are not even bounds. Every other event survives the race.
   */
  lemma RaceLosesEventIffForSource(db: Db, target: Uuid, sources: set<Uuid>, i: Incoming, moment: Moment)
    requires Race(db, target, sources, i, moment)
    ensures var t := RacedMerge(db, target, sources, i, moment);
            && (i.event !in t.events <==> ForSource(db, target, sources, i))
            && (Agrees(t, true) <==> !ForSource(db, target, sources, i) && !Unseen(db, target, i, moment))
            && (Agrees(t, false) <==> !Unseen(db, target, i, moment))
            && db.events.Keys <= t.events.Keys
  {
    SourceIsNotTarget(db, target, sources, i);
    if ForSource(db, target, sources, i) {
      HarmfulRace(db, target, sources, i, moment);
      HarmfulBounds(db, target, sources, i, moment);
    } else if Unseen(db, target, i, moment) {
      UnseenRace(db, target, sources, i);
      BoundIsNeeded(RacedMerge(db, target, sources, i, moment));
    } else {
      HarmlessRace(db, target, sources, i, moment);
      IngestAgrees(db, true, i);
      MergeAgrees(Ingest(db, i), true, target, sources);
      MergeAfterIngest(db, target, sources, i);
      ExactIsBound(RacedMerge(db, target, sources, i, moment));
    }
  }

  lemma BoundIsNeeded(db: Db)
    requires !Agrees(db, false)
    ensures !Agrees(db, true)
  {
    if Agrees(db, true) {
      ExactIsBound(db);
    }
  }

  lemma MergeAfterIngest(db: Db, target: Uuid, sources: set<Uuid>, i: Incoming)
    requires Linked(Ingest(db, i)) && target in db.issues && target !in sources
    ensures Merge(Ingest(db, i), target, sources).events.Keys == Ingest(db, i).events.Keys
  {
    if MergeOutcome(Ingest(db, i), target, sources) == Done {
      MergeConservesEvents(Ingest(db, i), target, sources);
    }
  }
}
