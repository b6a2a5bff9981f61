/**
 What holds of the event tables in every run: referential integrity, unique fingerprints, and agreement of
 every projection with the stored events — exact as long as no operation drops events, bounds otherwise.
 */
module EventStoreLaws {
  import opened Wrappers
  import opened DedupKeys
  import opened Projections
  import opened EventStore

  // ----- agreement -----

  /** A summary agrees with its records exactly, or at least as a bound. */
  ghost predicate Fits<K(!new)>(exact: bool, s: Summary, ids: set<K>, at: map<K, int>)
  {
    if exact then Exact(s, ids, at) else Bounds(s, ids, at)
  }

  ghost predicate Counts(exact: bool, n: int, size: nat)
  {
    if exact then n == size else n >= size
  }

  /** The records a service is made of. */
  datatype Record = OfEvent(id: Uuid) | OfLog(id: Uuid)

  function ServiceEvents(db: Db, k: ServiceKey): set<Uuid>
  {
    set e | e in db.events && db.events[e].service == k
  }

  function ServiceLogs(db: Db, k: ServiceKey): set<Uuid>
  {
    set l | l in db.logs && db.logs[l].service == k
  }

  /** Events and logs of a service together have its first and last time. */
  function Seen(s: Service): Summary
  {
    Summary(s.events + s.logs, s.first, s.last)
  }

  predicate HasRecord(db: Db, r: Record)
  {
    match r
    case OfEvent(id) => id in db.events
    case OfLog(id) => id in db.logs
  }

  ghost function Records(db: Db): (rs: set<Record>)
    ensures forall r {:trigger r in rs} {:trigger HasRecord(db, r)} :: r in rs <==> HasRecord(db, r)
  {
    (set e | e in db.events :: OfEvent(e)) + (set l | l in db.logs :: OfLog(l))
  }

  function ServiceOfRecord(db: Db, r: Record): ServiceKey
    requires HasRecord(db, r)
  {
    match r
    case OfEvent(id) => db.events[id].service
    case OfLog(id) => db.logs[id].service
  }

  function TimeOfRecord(db: Db, r: Record): int
    requires HasRecord(db, r)
  {
    match r
    case OfEvent(id) => db.events[id].at
    case OfLog(id) => db.logs[id].at
  }

  ghost function RecordsOf(db: Db, k: ServiceKey): set<Record>
  {
    set r | r in Records(db) && ServiceOfRecord(db, r) == k
  }

  ghost function RecordTimes(db: Db): map<Record, int>
  {
    map r | r in Records(db) :: TimeOfRecord(db, r)
  }

  predicate InRelease(e: Event, k: ReleaseKey)
  {
    e.project == k.project && e.release == Some(k.version)
  }

  function ReleaseEvents(db: Db, k: ReleaseKey): set<Uuid>
  {
    set e | e in db.events && InRelease(db.events[e], k)
  }

  /** Every event belongs to an issue of its own project, to a service of it, and to the release it names. */
  ghost predicate EventLinked(db: Db, e: Event)
  {
    && e.issue in db.issues && db.issues[e.issue].project == e.project
    && e.service in db.services && e.service.project == e.project
    && (e.release.Some? ==> ReleaseKey(e.project, e.release.value) in db.releases)
  }

  ghost predicate Linked(db: Db)
  {
    && (forall e {:trigger db.events[e]} :: e in db.events ==> EventLinked(db, db.events[e]))
    && (forall l {:trigger db.logs[l]} :: l in db.logs ==> db.logs[l].service in db.services)
  }

  predicate SameFingerprint(i: Issue, j: Issue)
  {
    i.project == j.project && i.fingerprint == j.fingerprint
  }

  /** `UNIQUE (project_id, fingerprint)`. */
  ghost predicate FingerprintsUnique(db: Db)
  {
    forall a, b :: a in db.issues && b in db.issues && SameFingerprint(db.issues[a], db.issues[b]) ==> a == b
  }

  ghost predicate IssueAgrees(db: Db, exact: bool, id: Uuid)
    requires id in db.issues
  {
    Fits(exact, db.issues[id].seen, EventsOf(db, id), EventTimes(db))
  }

  ghost predicate ServiceAgrees(db: Db, exact: bool, k: ServiceKey)
    requires k in db.services
  {
    && Counts(exact, db.services[k].events, |ServiceEvents(db, k)|) &&
        Counts(exact, db.services[k].logs, |ServiceLogs(db, k)|)
    && Fits(exact, Seen(db.services[k]), RecordsOf(db, k), RecordTimes(db))
  }

  ghost predicate ReleaseAgrees(db: Db, exact: bool, k: ReleaseKey)
    requires k in db.releases
  {
    match db.releases[k].seen
    case None => ReleaseEvents(db, k) == {}
    case Some(s) => Fits(exact, s, ReleaseEvents(db, k), EventTimes(db))
  }

  ghost predicate IssuesAgree(db: Db, exact: bool)
  {
    forall id {:trigger IssueAgrees(db, exact, id)} :: id in db.issues ==> IssueAgrees(db, exact, id)
  }

  ghost predicate ServicesAgree(db: Db, exact: bool)
  {
    forall k {:trigger ServiceAgrees(db, exact, k)} :: k in db.services ==> ServiceAgrees(db, exact, k)
  }

  ghost predicate ReleasesAgree(db: Db, exact: bool)
  {
    forall k {:trigger ReleaseAgrees(db, exact, k)} :: k in db.releases ==> ReleaseAgrees(db, exact, k)
  }

  ghost predicate Agrees(db: Db, exact: bool)
  {
    Linked(db) && FingerprintsUnique(db) && IssuesAgree(db, exact) && ServicesAgree(db, exact) &&
        ReleasesAgree(db, exact)
  }

  /** Unchanged fingerprints of fewer issues are still unique. */
  lemma FewerFingerprints(db: Db, t: Db)
    requires FingerprintsUnique(db) && t.issues.Keys <= db.issues.Keys
    requires forall id {:trigger t.issues[id]} :: id in t.issues ==> SameFingerprint(t.issues[id], db.issues[id])
    ensures FingerprintsUnique(t)
  {
    forall a, b | a in t.issues && b in t.issues && SameFingerprint(t.issues[a], t.issues[b])
      ensures a == b
    {
      assert SameFingerprint(db.issues[a], db.issues[b]);
    }
  }

  /** A new issue whose fingerprint no issue of its project has. */
  lemma AddedFingerprint(db: Db, t: Db, id: Uuid)
    requires FingerprintsUnique(db) && id in t.issues && t.issues.Keys <= db.issues.Keys + {id}
    requires forall x {:trigger t.issues[x]} :: x in t.issues && x != id ==> SameFingerprint(t.issues[x], db.issues[x])
    requires forall x :: x in db.issues ==>
               !HasFingerprint(db.issues[x], t.issues[id].project, t.issues[id].fingerprint)
    ensures FingerprintsUnique(t)
  {
    forall a, b | a in t.issues && b in t.issues && SameFingerprint(t.issues[a], t.issues[b])
      ensures a == b
    {
      if a != id && b != id {
        assert SameFingerprint(db.issues[a], db.issues[b]);
      }
      assert a != id ==> SameFingerprint(t.issues[a], db.issues[a]);
      assert a != id ==> !HasFingerprint(db.issues[a], t.issues[id].project, t.issues[id].fingerprint);
      assert b != id ==> SameFingerprint(t.issues[b], db.issues[b]);
      assert b != id ==> !HasFingerprint(db.issues[b], t.issues[id].project, t.issues[id].fingerprint);
    }
  }

  // ----- summaries under changes -----

  lemma FitsOne<K(!new)>(exact: bool, e: K, at: map<K, int>)
    requires e in at
    ensures Fits(exact, Summary(1, at[e], at[e]), {e}, at)
  {
    ExactOne(e, at);
  }

  lemma FitsAdd<K(!new)>(exact: bool, s: Summary, ids: set<K>, at: map<K, int>, e: K)
    requires e in at && e !in ids && Fits(exact, s, ids, at)
    ensures Fits(exact, Plus(s, at[e]), ids + {e}, at)
  {
    if exact {
      ExactAdd(s, ids, at, e);
    } else {
      BoundsAdd(s, ids, at, e);
    }
  }

  /** Only the times of the group itself matter. */
  lemma FitsElsewhere<K(!new)>(exact: bool, s: Summary, ids: set<K>, at: map<K, int>, at': map<K, int>)
    requires Fits(exact, s, ids, at)
    requires forall e :: e in ids ==> e in at && e in at' && at[e] == at'[e]
    ensures Fits(exact, s, ids, at')
  {
    if exact {
      var lo :| lo in ids && lo in at && at[lo] == s.first;
      var hi :| hi in ids && hi in at && at[hi] == s.last;
      assert lo in at' && hi in at';
    }
  }

  lemma FitsFewer<K(!new)>(s: Summary, ids: set<K>, at: map<K, int>, fewer: set<K>, at': map<K, int>)
    requires Bounds(s, ids, at) && fewer <= ids
    requires forall e :: e in fewer ==> e in at && e in at' && at[e] == at'[e]
    ensures Bounds(s, fewer, at')
  {
    SubsetSize(fewer, ids);
    forall e | e in fewer && e in at'
      ensures s.first <= at'[e] <= s.last
    {
      assert e in ids && at[e] == at'[e];
    }
  }

  /** A summary of a group that an upsert has just added a record to. */
  lemma FitsUpsert<K(!new)>(exact: bool, before: Option<Summary>, ids: set<K>, at: map<K, int>, e: K, at': map<K, int>)
    requires if before.Some? then Fits(exact, before.value, ids, at) else ids == {}
    requires e !in ids && e in at' && forall x :: x in ids ==> x in at && x in at' && at[x] == at'[x]
    ensures Fits(exact, if before.Some? then Plus(before.value, at'[e]) else Summary(1, at'[e], at'[e]), ids + {e}, at')
  {
    if before.Some? {
      FitsElsewhere(exact, before.value, ids, at, at');
      FitsAdd(exact, before.value, ids, at', e);
    } else {
      FitsOne(exact, e, at');
      assert ids + {e} == {e};
    }
  }

  // ----- ingest -----

  /** `t` has one event more than `db`, and the same logs. */
  ghost predicate EventAdded(db: Db, t: Db, id: Uuid, e: Event)
  {
    id !in db.events && t.events == db.events[id := e] && t.logs == db.logs
  }

  lemma AddedTimes(db: Db, t: Db, id: Uuid, e: Event)
    requires EventAdded(db, t, id, e)
    ensures EventTimes(t) == EventTimes(db)[id := e.at]
  {
  }

  lemma AddedRecordTimes(db: Db, t: Db, id: Uuid, e: Event)
    requires EventAdded(db, t, id, e)
    ensures RecordTimes(t) == RecordTimes(db)[OfEvent(id) := e.at]
  {
    forall r ensures HasRecord(t, r) <==> HasRecord(db, r) || r == OfEvent(id) {}
    assert Records(t) == Records(db) + {OfEvent(id)};
  }

  lemma AddedToIssue(db: Db, t: Db, id: Uuid, e: Event, issue: Uuid)
    requires EventAdded(db, t, id, e)
    ensures EventsOf(t, issue) == EventsOf(db, issue) + if e.issue == issue then {id} else {}
  {
  }

  lemma AddedToService(db: Db, t: Db, id: Uuid, e: Event, k: ServiceKey)
    requires EventAdded(db, t, id, e)
    ensures ServiceEvents(t, k) == ServiceEvents(db, k) + if e.service == k then {id} else {}
    ensures ServiceLogs(t, k) == ServiceLogs(db, k)
  {
  }

  lemma AddedToServiceRecords(db: Db, t: Db, id: Uuid, e: Event, k: ServiceKey)
    requires EventAdded(db, t, id, e)
    ensures RecordsOf(t, k) == RecordsOf(db, k) + if e.service == k then {OfEvent(id)} else {}
  {
    forall r ensures r in RecordsOf(t, k) <==> r in RecordsOf(db, k) || (e.service == k && r == OfEvent(id)) {}
  }

  lemma AddedToRelease(db: Db, t: Db, id: Uuid, e: Event, k: ReleaseKey)
    requires EventAdded(db, t, id, e)
    ensures ReleaseEvents(t, k) == ReleaseEvents(db, k) + if InRelease(e, k) then {id} else {}
  {
  }

  lemma StoredAdds(db: Db, i: Incoming, issue: Uuid)
    requires i.event !in db.events
    ensures EventAdded(db, Stored(db, i, issue), i.event, EventOf(i, issue))
  {
  }

  /** The issue an event is stored under is an old one with its fingerprint, or a new one. */
  lemma IngestIssue(db: Db, i: Incoming)
    requires IngestOutcome(db, i) == Done
    ensures IssueFor(db, i) in db.issues ==> HasFingerprint(db.issues[IssueFor(db, i)], i.project, i.fingerprint)
    ensures IssueFor(db, i) !in db.issues ==> forall id :: id in db.issues ==>
              !HasFingerprint(db.issues[id], i.project, i.fingerprint)
  {
  }

  lemma IssueGrew(db: Db, t: Db, exact: bool, e: Uuid, v: Event)
    requires EventAdded(db, t, e, v) && v.issue in t.issues
    requires v.issue in db.issues ==>
               IssueAgrees(db, exact, v.issue) && t.issues[v.issue].seen == Plus(db.issues[v.issue].seen, v.at)
    requires v.issue !in db.issues ==> EventsOf(db, v.issue) == {} && t.issues[v.issue].seen == Summary(1, v.at, v.at)
    ensures IssueAgrees(t, exact, v.issue)
  {
    AddedTimes(db, t, e, v);
    AddedToIssue(db, t, e, v, v.issue);
    var before := if v.issue in db.issues then Some(db.issues[v.issue].seen) else None;
    FitsUpsert(exact, before, EventsOf(db, v.issue), EventTimes(db), e, EventTimes(t));
  }

  lemma IssueMissedIt(db: Db, t: Db, exact: bool, e: Uuid, v: Event, id: Uuid)
    requires EventAdded(db, t, e, v) && id != v.issue && id in db.issues && id in t.issues
    requires IssueAgrees(db, exact, id) && t.issues[id].seen == db.issues[id].seen
    ensures IssueAgrees(t, exact, id)
  {
    AddedTimes(db, t, e, v);
    AddedToIssue(db, t, e, v, id);
    FitsElsewhere(exact, db.issues[id].seen, EventsOf(db, id), EventTimes(db), EventTimes(t));
  }

  /** The times and the total of a service with one record more. */
  lemma ServiceSeenGrew(db: Db, t: Db, exact: bool, r: Record, at: int, event: bool, k: ServiceKey)
    requires k in t.services && r !in RecordsOf(db, k)
    requires RecordTimes(t) == RecordTimes(db)[r := at] && RecordsOf(t, k) == RecordsOf(db, k) + {r}
    requires k in db.services ==>
               Fits(exact, Seen(db.services[k]), RecordsOf(db, k), RecordTimes(db)) &&
                   t.services[k] == UpsertService(Some(db.services[k]), at, event)
    requires k !in db.services ==> RecordsOf(db, k) == {} && t.services[k] == UpsertService(None, at, event)
    ensures Fits(exact, Seen(t.services[k]), RecordsOf(t, k), RecordTimes(t))
  {
    var before := if k in db.services then Some(Seen(db.services[k])) else None;
    FitsUpsert(exact, before, RecordsOf(db, k), RecordTimes(db), r, RecordTimes(t));
  }

  lemma ServiceGrew(db: Db, t: Db, exact: bool, e: Uuid, v: Event)
    requires EventAdded(db, t, e, v) && v.service in t.services
    requires v.service in db.services ==>
               ServiceAgrees(db, exact, v.service) &&
                   t.services[v.service] == UpsertService(Some(db.services[v.service]), v.at, true)
    requires v.service !in db.services ==>
               RecordsOf(db, v.service) == {} && t.services[v.service] == UpsertService(None, v.at, true)
    ensures ServiceAgrees(t, exact, v.service)
  {
    var k := v.service;
    AddedRecordTimes(db, t, e, v);
    AddedToService(db, t, e, v, k);
    AddedToServiceRecords(db, t, e, v, k);
    ServiceSeenGrew(db, t, exact, OfEvent(e), v.at, true, k);
    if k !in db.services {
      NothingOfService(db, k);
    }
  }

  lemma NothingOfService(db: Db, k: ServiceKey)
    requires RecordsOf(db, k) == {}
    ensures ServiceEvents(db, k) == {} && ServiceLogs(db, k) == {}
  {
    forall e ensures e !in ServiceEvents(db, k) { assert OfEvent(e) !in RecordsOf(db, k); }
    forall l ensures l !in ServiceLogs(db, k) { assert OfLog(l) !in RecordsOf(db, k); }
  }

  lemma ServiceMissedIt(db: Db, t: Db, exact: bool, e: Uuid, v: Event, k: ServiceKey)
    requires EventAdded(db, t, e, v) && k != v.service && k in db.services && k in t.services
    requires ServiceAgrees(db, exact, k) && t.services[k] == db.services[k]
    ensures ServiceAgrees(t, exact, k)
  {
    AddedRecordTimes(db, t, e, v);
    AddedToService(db, t, e, v, k);
    AddedToServiceRecords(db, t, e, v, k);
    FitsElsewhere(exact, Seen(db.services[k]), RecordsOf(db, k), RecordTimes(db), RecordTimes(t));
  }

  lemma ReleaseGrew(db: Db, t: Db, exact: bool, e: Uuid, v: Event, k: ReleaseKey)
    requires EventAdded(db, t, e, v) && InRelease(v, k) && k in t.releases
    requires k in db.releases ==>
               ReleaseAgrees(db, exact, k) && t.releases[k] == UpsertRelease(Some(db.releases[k]), v.at)
    requires k !in db.releases ==> ReleaseEvents(db, k) == {} && t.releases[k] == UpsertRelease(None, v.at)
    ensures ReleaseAgrees(t, exact, k)
  {
    AddedTimes(db, t, e, v);
    AddedToRelease(db, t, e, v, k);
    var before := if k in db.releases then db.releases[k].seen else None;
    FitsUpsert(exact, before, ReleaseEvents(db, k), EventTimes(db), e, EventTimes(t));
  }

  lemma ReleaseMissedIt(db: Db, t: Db, exact: bool, e: Uuid, v: Event, k: ReleaseKey)
    requires EventAdded(db, t, e, v) && !InRelease(v, k) && k in db.releases && k in t.releases
    requires ReleaseAgrees(db, exact, k) && t.releases[k] == db.releases[k]
    ensures ReleaseAgrees(t, exact, k)
  {
    AddedTimes(db, t, e, v);
    AddedToRelease(db, t, e, v, k);
    if db.releases[k].seen.Some? {
      FitsElsewhere(exact, db.releases[k].seen.value, ReleaseEvents(db, k), EventTimes(db), EventTimes(t));
    }
  }

  /** Nothing belongs to an issue, a service or a release that is not there. */
  lemma NothingWithoutIssue(db: Db, id: Uuid)
    requires Linked(db) && id !in db.issues
    ensures EventsOf(db, id) == {}
  {
    forall e ensures e !in EventsOf(db, id) { if e in db.events { assert EventLinked(db, db.events[e]); } }
  }

  lemma NothingWithoutService(db: Db, k: ServiceKey)
    requires Linked(db) && k !in db.services
    ensures RecordsOf(db, k) == {}
  {
    forall r | HasRecord(db, r) ensures ServiceOfRecord(db, r) != k {
      if r.OfEvent? {
        assert EventLinked(db, db.events[r.id]);
      }
    }
  }

  lemma NothingWithoutRelease(db: Db, k: ReleaseKey)
    requires Linked(db) && k !in db.releases
    ensures ReleaseEvents(db, k) == {}
  {
    forall e ensures e !in ReleaseEvents(db, k) { if e in db.events { assert EventLinked(db, db.events[e]); } }
  }

  lemma StoredIssueAgrees(db: Db, exact: bool, i: Incoming, issue: Uuid, id: Uuid)
    requires Linked(db) && i.event !in db.events && id in Stored(db, i, issue).issues
    requires id in db.issues ==> IssueAgrees(db, exact, id)
    ensures IssueAgrees(Stored(db, i, issue), exact, id)
  {
    StoredAdds(db, i, issue);
    if id != issue {
      IssueMissedIt(db, Stored(db, i, issue), exact, i.event, EventOf(i, issue), id);
    } else {
      if id !in db.issues {
        NothingWithoutIssue(db, id);
      }
      IssueGrew(db, Stored(db, i, issue), exact, i.event, EventOf(i, issue));
    }
  }

  lemma StoredServiceAgrees(db: Db, exact: bool, i: Incoming, issue: Uuid, k: ServiceKey)
    requires Linked(db) && i.event !in db.events && k in Stored(db, i, issue).services
    requires k in db.services ==> ServiceAgrees(db, exact, k)
    ensures ServiceAgrees(Stored(db, i, issue), exact, k)
  {
    StoredAdds(db, i, issue);
    if k != ServiceOf(i) {
      ServiceMissedIt(db, Stored(db, i, issue), exact, i.event, EventOf(i, issue), k);
    } else {
      if k !in db.services {
        NothingWithoutService(db, k);
      }
      ServiceGrew(db, Stored(db, i, issue), exact, i.event, EventOf(i, issue));
    }
  }

  lemma StoredReleaseAgrees(db: Db, exact: bool, i: Incoming, issue: Uuid, k: ReleaseKey)
    requires Linked(db) && i.event !in db.events && k in Stored(db, i, issue).releases
    requires k in db.releases ==> ReleaseAgrees(db, exact, k)
    ensures ReleaseAgrees(Stored(db, i, issue), exact, k)
  {
    StoredAdds(db, i, issue);
    if !InRelease(EventOf(i, issue), k) {
      ReleaseMissedIt(db, Stored(db, i, issue), exact, i.event, EventOf(i, issue), k);
    } else {
      if k !in db.releases {
        NothingWithoutRelease(db, k);
      }
      ReleaseGrew(db, Stored(db, i, issue), exact, i.event, EventOf(i, issue), k);
    }
  }

  lemma StoredLinked(db: Db, i: Incoming, issue: Uuid)
    requires Linked(db) && i.event !in db.events
    requires issue in db.issues ==> db.issues[issue].project == i.project
    ensures Linked(Stored(db, i, issue))
  {
    var t := Stored(db, i, issue);
    forall e | e in t.events
      ensures EventLinked(t, t.events[e])
    {
      if e != i.event {
        assert EventLinked(db, db.events[e]);
      }
    }
  }

  lemma IngestFingerprints(db: Db, i: Incoming)
    requires FingerprintsUnique(db) && IngestOutcome(db, i) == Done
    ensures FingerprintsUnique(Stored(db, i, IssueFor(db, i)))
  {
    IngestIssue(db, i);
    if IssueFor(db, i) in db.issues {
      FewerFingerprints(db, Stored(db, i, IssueFor(db, i)));
    } else {
      AddedFingerprint(db, Stored(db, i, IssueFor(db, i)), i.newIssue);
    }
  }

  lemma IngestAgrees(db: Db, exact: bool, i: Incoming)
    requires Agrees(db, exact)
    ensures Agrees(Ingest(db, i), exact)
  {
    if IngestOutcome(db, i) == Done {
      var issue := IssueFor(db, i);
      var t := Stored(db, i, issue);
      IngestIssue(db, i);
      IngestFingerprints(db, i);
      StoredLinked(db, i, issue);
      forall id | id in t.issues ensures IssueAgrees(t, exact, id) { StoredIssueAgrees(db, exact, i, issue, id); }
      forall k | k in t.services ensures ServiceAgrees(t, exact, k) { StoredServiceAgrees(db, exact, i, issue, k); }
      forall k | k in t.releases ensures ReleaseAgrees(t, exact, k) { StoredReleaseAgrees(db, exact, i, issue, k); }
    }
  }
}
