/**
 What merging and splitting issues do to the stored events, and that they, the fingerprint and the status
 changes keep every projection in agreement with them.
 */
module IssueMoves {
  import opened Wrappers
  import opened DedupKeys
  import opened Projections
  import opened EventStore
  import opened EventStoreLaws

  // ----- operations that add no records -----

  predicate SameRecord(e: Event, f: Event)
  {
    e == f.(issue := e.issue)
  }

  /** `t` has some of the records of `db`; events may have changed issue. */
  ghost predicate Thinned(db: Db, t: Db)
  {
    && t.events.Keys <= db.events.Keys && t.logs.Keys <= db.logs.Keys
    && (forall e {:trigger t.events[e]} :: e in t.events ==> SameRecord(t.events[e], db.events[e]))
    && (forall l {:trigger t.logs[l]} :: l in t.logs ==> t.logs[l] == db.logs[l])
    && t.services == db.services && t.releases == db.releases
  }

  ghost predicate Whole(db: Db, t: Db)
  {
    Thinned(db, t) && t.events.Keys == db.events.Keys && t.logs == db.logs
  }

  lemma FitsThinned<K(!new)>(exact: bool, s: Summary, ids: set<K>, at: map<K, int>, fewer: set<K>, at': map<K, int>)
    requires Fits(exact, s, ids, at) && fewer <= ids && (exact ==> fewer == ids)
    requires forall e :: e in fewer ==> e in at && e in at' && at[e] == at'[e]
    ensures Fits(exact, s, fewer, at')
  {
    if exact {
      FitsElsewhere(exact, s, ids, at, at');
    } else {
      FitsFewer(s, ids, at, fewer, at');
    }
  }

  lemma ThinnedTimes(db: Db, t: Db)
    requires Thinned(db, t)
    ensures forall e :: e in t.events ==>
              e in EventTimes(db) && e in EventTimes(t) && EventTimes(db)[e] == EventTimes(t)[e]
  {
    forall e | e in t.events ensures t.events[e].at == db.events[e].at { assert SameRecord(t.events[e], db.events[e]); }
  }

  lemma ThinnedRecords(db: Db, t: Db, k: ServiceKey)
    requires Thinned(db, t)
    ensures ServiceEvents(t, k) <= ServiceEvents(db, k) && ServiceLogs(t, k) <= ServiceLogs(db, k) &&
            RecordsOf(t, k) <= RecordsOf(db, k)
    ensures Whole(db, t) ==>
              && ServiceEvents(t, k) == ServiceEvents(db, k) && ServiceLogs(t, k) == ServiceLogs(db, k)
              && RecordsOf(t, k) == RecordsOf(db, k)
    ensures forall r :: r in RecordsOf(t, k) ==>
              r in RecordTimes(db) && r in RecordTimes(t) && RecordTimes(db)[r] == RecordTimes(t)[r]
  {
    forall r | HasRecord(t, r)
      ensures HasRecord(db, r) && ServiceOfRecord(t, r) == ServiceOfRecord(db, r) &&
              TimeOfRecord(t, r) == TimeOfRecord(db, r)
    {
      if r.OfEvent? {
        assert SameRecord(t.events[r.id], db.events[r.id]);
      }
    }
    forall e | e in t.events ensures t.events[e].service == db.events[e].service {
      assert SameRecord(t.events[e], db.events[e]);
    }
    if Whole(db, t) {
      forall r ensures HasRecord(t, r) <==> HasRecord(db, r) {}
    }
  }

  lemma ThinnedReleaseEvents(db: Db, t: Db, k: ReleaseKey)
    requires Thinned(db, t)
    ensures ReleaseEvents(t, k) <= ReleaseEvents(db, k)
    ensures Whole(db, t) ==> ReleaseEvents(t, k) == ReleaseEvents(db, k)
  {
    forall e | e in t.events ensures InRelease(t.events[e], k) == InRelease(db.events[e], k) {
      assert SameRecord(t.events[e], db.events[e]);
    }
  }

  lemma ThinnedService(db: Db, t: Db, exact: bool, k: ServiceKey)
    requires Thinned(db, t) && (exact ==> Whole(db, t)) && k in db.services && ServiceAgrees(db, exact, k)
    ensures ServiceAgrees(t, exact, k)
  {
    ThinnedRecords(db, t, k);
    SubsetSize(ServiceEvents(t, k), ServiceEvents(db, k));
    SubsetSize(ServiceLogs(t, k), ServiceLogs(db, k));
    FitsThinned(exact, Seen(db.services[k]), RecordsOf(db, k), RecordTimes(db), RecordsOf(t, k), RecordTimes(t));
  }

  lemma ThinnedRelease(db: Db, t: Db, exact: bool, k: ReleaseKey)
    requires Thinned(db, t) && (exact ==> Whole(db, t)) && k in db.releases && ReleaseAgrees(db, exact, k)
    ensures ReleaseAgrees(t, exact, k)
  {
    ThinnedReleaseEvents(db, t, k);
    ThinnedTimes(db, t);
    if db.releases[k].seen.Some? {
      FitsThinned(exact, db.releases[k].seen.value, ReleaseEvents(db, k), EventTimes(db), ReleaseEvents(t, k),
                  EventTimes(t));
    }
  }

  /** Moving or dropping records leaves services and releases in agreement. */
  lemma ThinnedAgrees(db: Db, t: Db, exact: bool)
    requires Thinned(db, t) && (exact ==> Whole(db, t)) && ServicesAgree(db, exact) && ReleasesAgree(db, exact)
    ensures ServicesAgree(t, exact) && ReleasesAgree(t, exact)
  {
    forall k | k in t.services ensures ServiceAgrees(t, exact, k) { ThinnedService(db, t, exact, k); }
    forall k | k in t.releases ensures ReleaseAgrees(t, exact, k) { ThinnedRelease(db, t, exact, k); }
  }

  /** An issue that no event joined, and that no event left unless events may be lost. */
  lemma ThinnedIssue(db: Db, t: Db, exact: bool, id: Uuid)
    requires Thinned(db, t) && id in db.issues && id in t.issues && t.issues[id].seen == db.issues[id].seen
    requires EventsOf(t, id) <= EventsOf(db, id) && (exact ==> EventsOf(t, id) == EventsOf(db, id))
    requires IssueAgrees(db, exact, id)
    ensures IssueAgrees(t, exact, id)
  {
    ThinnedTimes(db, t);
    FitsThinned(exact, db.issues[id].seen, EventsOf(db, id), EventTimes(db), EventsOf(t, id), EventTimes(t));
  }

  /** Events stay linked when they keep their issue or move to another one of their project. */
  lemma ThinnedLinked(db: Db, t: Db)
    requires Thinned(db, t) && Linked(db)
    requires forall e {:trigger t.events[e]} :: e in t.events ==>
               t.events[e].issue in t.issues && t.issues[t.events[e].issue].project == t.events[e].project
    ensures Linked(t)
  {
    forall e | e in t.events ensures EventLinked(t, t.events[e]) {
      assert SameRecord(t.events[e], db.events[e]) && EventLinked(db, db.events[e]);
    }
  }

  // ----- merge -----

  /** What a merge makes of one event. */
  function Merged(e: Event, target: Uuid, sources: set<Uuid>, project: Uuid): Event
  {
    if e.issue in sources && e.project == project then e.(issue := target) else e
  }

  lemma Moved(db: Db, target: Uuid, sources: set<Uuid>)
    requires target in db.issues
    ensures AfterMove(db, target, sources).events.Keys == db.events.Keys
    ensures forall e :: e in db.events ==>
              AfterMove(db, target, sources).events[e] ==
                  Merged(db.events[e], target, sources, db.issues[target].project)
    ensures AfterMove(db, target, sources) == db.(events := AfterMove(db, target, sources).events)
  {
  }

  /** The events a merge does not delete by cascade, under their issue after it. */
  lemma MergeEvents(db: Db, target: Uuid, sources: set<Uuid>)
    requires Linked(db) && MergeOutcome(db, target, sources) == Done
    ensures Merge(db, target, sources).events ==
            map e | e in db.events && (target in sources ==>
                                       Merged(db.events[e], target, sources, db.issues[target].project).issue != target)
              :: Merged(db.events[e], target, sources, db.issues[target].project)
  {
    var project := db.issues[target].project;
    var gone := Absorbed(db, sources, project);
    Moved(db, target, sources);
    forall e | e in db.events
      ensures Merged(db.events[e], target, sources, project).issue in gone <==>
              target in sources && Merged(db.events[e], target, sources, project).issue == target
    {
      assert EventLinked(db, db.events[e]);
    }
  }

  lemma MergeIssues(db: Db, target: Uuid, sources: set<Uuid>)
    requires MergeOutcome(db, target, sources) == Done
    ensures Merge(db, target, sources).issues.Keys == db.issues.Keys - Absorbed(db, sources, db.issues[target].project)
    ensures forall id {:trigger Merge(db, target, sources).issues[id]} :: id in Merge(db, target, sources).issues ==>
              Merge(db, target, sources).issues[id] ==
                  db.issues[id].(seen := Merge(db, target, sources).issues[id].seen)
    ensures forall id {:trigger Merge(db, target, sources).issues[id]} ::
              id in Merge(db, target, sources).issues && id != target ==>
              Merge(db, target, sources).issues[id] == db.issues[id]
  {
  }

  lemma MergeKeepsTheRest(db: Db, target: Uuid, sources: set<Uuid>)
    ensures Merge(db, target, sources).services == db.services
    ensures Merge(db, target, sources).releases == db.releases
    ensures Merge(db, target, sources).logs == db.logs
  {
  }

  /**
   A merge keeps every event exactly when its target is not also a source. If it is, the issue deletes itself
   and the cascade takes every event that the merge has just gathered.
   */
  lemma MergeConservesEvents(db: Db, target: Uuid, sources: set<Uuid>)
    requires Linked(db) && MergeOutcome(db, target, sources) == Done
    ensures Merge(db, target, sources).events.Keys == db.events.Keys <==> target !in sources
    ensures target in Merge(db, target, sources).issues <==> target !in sources
    ensures target !in sources ==>
              Merge(db, target, sources).events == map e | e in db.events ::
                    Merged(db.events[e], target, sources, db.issues[target].project)
    ensures target in sources ==>
              Merge(db, target, sources).events.Keys ==
              db.events.Keys - Mergeable(db, sources, db.issues[target].project)
  {
    hide Merge;
    MergeEvents(db, target, sources);
    MergeIssues(db, target, sources);
    Moved(db, target, sources);
    var project := db.issues[target].project;
    var gathered := EventsOf(AfterMove(db, target, sources), target);
    var e :| e in gathered;
    assert Merged(db.events[e], target, sources, project).issue == target;
    forall x | x in db.events
      ensures target in sources ==>
                (Merged(db.events[x], target, sources, project).issue == target <==>
                 x in Mergeable(db, sources, project))
    {
      assert EventLinked(db, db.events[x]);
    }
  }

  /** Events of issues that are neither the target nor a source, and everything of other projects, stay as they were. */
  lemma MergeLeavesOthers(db: Db, target: Uuid, sources: set<Uuid>, e: Uuid)
    requires Linked(db) && target in db.issues && e in db.events
    requires db.events[e].project != db.issues[target].project || db.events[e].issue !in sources + {target}
    ensures e in Merge(db, target, sources).events && Merge(db, target, sources).events[e] == db.events[e]
    ensures db.events[e].issue in Merge(db, target, sources).issues
    ensures Merge(db, target, sources).issues[db.events[e].issue] == db.issues[db.events[e].issue]
  {
    assert EventLinked(db, db.events[e]);
    if MergeOutcome(db, target, sources) == Done {
      MergeEvents(db, target, sources);
      MergeIssues(db, target, sources);
    }
  }

  /** A source of another project is no source: it stays, and so does each of its events. */
  lemma ForeignSourceIsUntouched(db: Db, target: Uuid, sources: set<Uuid>, id: Uuid)
    requires Linked(db) && target in db.issues && id in sources && id in db.issues &&
             db.issues[id].project != db.issues[target].project
    ensures id in Merge(db, target, sources).issues && Merge(db, target, sources).issues[id] == db.issues[id]
    ensures EventsOf(Merge(db, target, sources), id) == EventsOf(db, id)
  {
    hide AfterMove, DeleteIssues;
    var t := Merge(db, target, sources);
    if MergeOutcome(db, target, sources) == Done {
      MergeEvents(db, target, sources);
      MergeIssues(db, target, sources);
      forall e ensures e in EventsOf(t, id) <==> e in EventsOf(db, id) {
        if e in db.events {
          assert EventLinked(db, db.events[e]);
        }
      }
    }
  }

  lemma MergeThins(db: Db, target: Uuid, sources: set<Uuid>)
    requires Linked(db) && MergeOutcome(db, target, sources) == Done
    ensures Thinned(db, Merge(db, target, sources))
    ensures target !in sources ==> Whole(db, Merge(db, target, sources))
  {
    MergeKeepsTheRest(db, target, sources);
    MergeEvents(db, target, sources);
    var t := Merge(db, target, sources);
    forall e | e in t.events ensures SameRecord(t.events[e], db.events[e]) {}
  }

  lemma MergeLinked(db: Db, target: Uuid, sources: set<Uuid>)
    requires Linked(db) && MergeOutcome(db, target, sources) == Done
    ensures Linked(Merge(db, target, sources))
  {
    MergeEvents(db, target, sources);
    MergeIssues(db, target, sources);
    MergeThins(db, target, sources);
    var t := Merge(db, target, sources);
    forall e {:trigger t.events[e]} | e in t.events
      ensures t.events[e].issue in t.issues && t.issues[t.events[e].issue].project == t.events[e].project
    {
      assert EventLinked(db, db.events[e]);
    }
    ThinnedLinked(db, t);
  }

  lemma MergeFingerprints(db: Db, target: Uuid, sources: set<Uuid>)
    requires FingerprintsUnique(db) && MergeOutcome(db, target, sources) == Done
    ensures FingerprintsUnique(Merge(db, target, sources))
  {
    MergeIssues(db, target, sources);
    FewerFingerprints(db, Merge(db, target, sources));
  }

  lemma MergeTarget(db: Db, exact: bool, target: Uuid, sources: set<Uuid>)
    requires Linked(db) && MergeOutcome(db, target, sources) == Done && target !in sources
    ensures target in Merge(db, target, sources).issues
    ensures IssueAgrees(Merge(db, target, sources), exact, target)
  {
    hide Linked;
    var moved := AfterMove(db, target, sources);
    var t := Merge(db, target, sources);
    MergeConservesEvents(db, target, sources);
    Moved(db, target, sources);
    assert t.events == moved.events;
    assert EventsOf(t, target) == EventsOf(moved, target) && EventTimes(t) == EventTimes(moved);
    assert t.issues[target].seen == Recount(EventsOf(moved, target), EventTimes(moved));
  }

  lemma MergeBystander(db: Db, exact: bool, target: Uuid, sources: set<Uuid>, id: Uuid)
    requires Linked(db) && MergeOutcome(db, target, sources) == Done && id in Merge(db, target, sources).issues &&
             id != target
    requires id in db.issues && IssueAgrees(db, exact, id) && (exact ==> target !in sources)
    ensures IssueAgrees(Merge(db, target, sources), exact, id)
  {
    hide MergeOutcome, Merge, IssueAgrees;
    var t := Merge(db, target, sources);
    MergeEvents(db, target, sources);
    MergeIssues(db, target, sources);
    MergeThins(db, target, sources);
    forall e ensures e in EventsOf(t, id) <==> e in EventsOf(db, id) {
      if e in db.events {
        assert EventLinked(db, db.events[e]);
      }
    }
    ThinnedIssue(db, t, exact, id);
  }

  lemma MergeAgrees(db: Db, exact: bool, target: Uuid, sources: set<Uuid>)
    requires Agrees(db, exact) && (exact ==> target !in sources)
    ensures Agrees(Merge(db, target, sources), exact)
  {
    if MergeOutcome(db, target, sources) == Done {
      var t := Merge(db, target, sources);
      MergeThins(db, target, sources);
      ThinnedAgrees(db, t, exact);
      MergeLinked(db, target, sources);
      MergeFingerprints(db, target, sources);
      MergeIssues(db, target, sources);
      MergeConservesEvents(db, target, sources);
      forall id | id in t.issues ensures IssueAgrees(t, exact, id) {
        if id == target {
          MergeTarget(db, exact, target, sources);
        } else {
          assert IssueAgrees(db, exact, id);
          MergeBystander(db, exact, target, sources, id);
        }
      }
    }
  }

  // ----- split -----

  /** What a split makes of one event. */
  function SplitEvent(e: Uuid, v: Event, moved: set<Uuid>, newIssue: Uuid): Event
  {
    if e in moved then v.(issue := newIssue) else v
  }

  lemma SplitMovedTables(db: Db, issue: Uuid, chosen: set<Uuid>, fingerprint: string, title: Option<string>,
                         newIssue: Uuid)
    requires SplitOutcome(db, issue, chosen, fingerprint, newIssue) == Done
    ensures var moved := SplitMoved(db, issue, chosen, fingerprint, title, newIssue);
            && moved.events == (map e | e in db.events ::
                                SplitEvent(e, db.events[e], Chosen(db, issue, chosen), newIssue))
            && moved == db.(events := moved.events,
                            issues := db.issues[newIssue := SplitOff(db, issue, chosen, fingerprint, title)])
            && EventTimes(moved) == EventTimes(db)
            && EventsOf(moved, issue) == EventsOf(db, issue) - chosen
  {
  }

  lemma SplitTables(db: Db, issue: Uuid, chosen: set<Uuid>, fingerprint: string, title: Option<string>, newIssue: Uuid)
    requires SplitOutcome(db, issue, chosen, fingerprint, newIssue) == Done
    ensures var t := Split(db, issue, chosen, fingerprint, title, newIssue);
            && t.events == (map e | e in db.events :: SplitEvent(e, db.events[e], Chosen(db, issue, chosen), newIssue))
            && t.services == db.services && t.releases == db.releases && t.logs == db.logs
  {
    SplitMovedTables(db, issue, chosen, fingerprint, title, newIssue);
    var moved := SplitMoved(db, issue, chosen, fingerprint, title, newIssue);
    if EventsOf(moved, issue) == {} {
      forall e | e in moved.events ensures moved.events[e].issue != issue { assert e !in EventsOf(moved, issue); }
    }
  }

  /**
   A split keeps every event: the chosen ones are under the new issue, the others of the split issue stay, and
   every other issue has the events it had.
   */
  lemma SplitConservesEvents(db: Db, issue: Uuid, chosen: set<Uuid>, fingerprint: string, title: Option<string>,
                             newIssue: Uuid, id: Uuid)
    requires Linked(db) && SplitOutcome(db, issue, chosen, fingerprint, newIssue) == Done
    ensures var t := Split(db, issue, chosen, fingerprint, title, newIssue);
            && t.events.Keys == db.events.Keys
            && EventsOf(t, id) == (if id == newIssue then Chosen(db, issue, chosen)
                                   else if id == issue then EventsOf(db, issue) - chosen
                                   else EventsOf(db, id))
  {
    SplitTables(db, issue, chosen, fingerprint, title, newIssue);
    NothingWithoutIssue(db, newIssue);
    var t := Split(db, issue, chosen, fingerprint, title, newIssue);
    forall e
      ensures e in EventsOf(t, id) <==> e in (if id == newIssue then Chosen(db, issue, chosen)
                                              else if id == issue then EventsOf(db, issue) - chosen
                                              else EventsOf(db, id))
    {
      assert e !in EventsOf(db, newIssue);
    }
  }

  /** The issues after a split: the new one, the old one while events remain, and the others as they were. */
  ghost predicate SplitRows(db: Db, issues: map<Uuid, Issue>, issue: Uuid, chosen: set<Uuid>, fingerprint: string,
                            newIssue: Uuid)
    requires issue in db.issues
  {
    var row := db.issues[issue];
    && newIssue in issues && issues[newIssue].project == row.project && issues[newIssue].fingerprint == fingerprint
    && issues[newIssue].level == row.level && issues[newIssue].status == Unresolved
    && issues[newIssue].regressedAt.None?
    && Exact(issues[newIssue].seen, Chosen(db, issue, chosen), EventTimes(db))
    && (issue in issues <==> EventsOf(db, issue) - chosen != {})
    && (issue in issues ==> issues[issue] == row.(seen := issues[issue].seen))
    && (issue in issues ==> Exact(issues[issue].seen, EventsOf(db, issue) - chosen, EventTimes(db)))
    && issues - {issue, newIssue} == db.issues - {issue}
  }

  lemma SplitIssues(db: Db, issue: Uuid, chosen: set<Uuid>, fingerprint: string, title: Option<string>, newIssue: Uuid)
    requires SplitOutcome(db, issue, chosen, fingerprint, newIssue) == Done
    ensures SplitRows(db, Split(db, issue, chosen, fingerprint, title, newIssue).issues, issue, chosen, fingerprint,
                      newIssue)
    ensures Split(db, issue, chosen, fingerprint, title, newIssue).issues[newIssue].title ==
            if title.Some? then title.value else db.issues[issue].title
  {
    SplitMovedTables(db, issue, chosen, fingerprint, title, newIssue);
    var t := Split(db, issue, chosen, fingerprint, title, newIssue);
    assert t.issues - {issue, newIssue} == db.issues - {issue};
  }

  /** Every issue that a split touches is counted exactly. */
  lemma SplitIssueAgrees(db: Db, t: Db, exact: bool, issue: Uuid, chosen: set<Uuid>, fingerprint: string,
                         newIssue: Uuid, id: Uuid)
    requires issue in db.issues && newIssue !in db.issues &&
             SplitRows(db, t.issues, issue, chosen, fingerprint, newIssue)
    requires Whole(db, t) && id in t.issues
    requires EventsOf(t, id) == (if id == newIssue then Chosen(db, issue, chosen)
                                 else if id == issue then EventsOf(db, issue) - chosen
                                 else EventsOf(db, id))
    requires id in db.issues ==> IssueAgrees(db, exact, id)
    ensures IssueAgrees(t, exact, id)
  {
    ThinnedTimes(db, t);
    assert EventTimes(t) == EventTimes(db);
    if id != issue && id != newIssue {
      assert id in t.issues - {issue, newIssue};
      assert t.issues[id] == (db.issues - {issue})[id];
    }
  }

  lemma SplitThins(db: Db, issue: Uuid, chosen: set<Uuid>, fingerprint: string, title: Option<string>, newIssue: Uuid)
    requires SplitOutcome(db, issue, chosen, fingerprint, newIssue) == Done
    ensures Whole(db, Split(db, issue, chosen, fingerprint, title, newIssue))
  {
    SplitTables(db, issue, chosen, fingerprint, title, newIssue);
    var t := Split(db, issue, chosen, fingerprint, title, newIssue);
    forall e | e in t.events ensures SameRecord(t.events[e], db.events[e]) {}
  }

  lemma SplitLinks(db: Db, issues: map<Uuid, Issue>, issue: Uuid, chosen: set<Uuid>, fingerprint: string,
                   newIssue: Uuid, e: Uuid)
    requires issue in db.issues && newIssue !in db.issues && e in db.events && EventLinked(db, db.events[e])
    requires SplitRows(db, issues, issue, chosen, fingerprint, newIssue)
    ensures var v := SplitEvent(e, db.events[e], Chosen(db, issue, chosen), newIssue);
            v.issue in issues && issues[v.issue].project == v.project
  {
    var v := db.events[e];
    if v.issue == issue {
      assert e in EventsOf(db, issue);
      assert e in Chosen(db, issue, chosen) || e in EventsOf(db, issue) - chosen;
    } else {
      assert v.issue in db.issues - {issue};
      assert v.issue in issues - {issue, newIssue};
      assert issues[v.issue] == (db.issues - {issue})[v.issue];
    }
  }

  lemma SplitLinked(db: Db, issue: Uuid, chosen: set<Uuid>, fingerprint: string, title: Option<string>, newIssue: Uuid)
    requires Linked(db) && SplitOutcome(db, issue, chosen, fingerprint, newIssue) == Done
    ensures Linked(Split(db, issue, chosen, fingerprint, title, newIssue))
  {
    SplitThins(db, issue, chosen, fingerprint, title, newIssue);
    SplitTables(db, issue, chosen, fingerprint, title, newIssue);
    SplitIssues(db, issue, chosen, fingerprint, title, newIssue);
    var t := Split(db, issue, chosen, fingerprint, title, newIssue);
    forall e {:trigger t.events[e]} | e in t.events
      ensures t.events[e].issue in t.issues && t.issues[t.events[e].issue].project == t.events[e].project
    {
      assert EventLinked(db, db.events[e]);
      SplitLinks(db, t.issues, issue, chosen, fingerprint, newIssue, e);
    }
    ThinnedLinked(db, t);
  }

  lemma SplitFingerprints(db: Db, t: Db, issue: Uuid, chosen: set<Uuid>, fingerprint: string, newIssue: Uuid)
    requires FingerprintsUnique(db) && issue in db.issues && newIssue !in db.issues
    requires FindIssue(db.issues, db.issues[issue].project, fingerprint).None?
    requires SplitRows(db, t.issues, issue, chosen, fingerprint, newIssue)
    ensures FingerprintsUnique(t)
  {
    forall x {:trigger t.issues[x]} | x in t.issues && x != newIssue
      ensures x in db.issues && SameFingerprint(t.issues[x], db.issues[x])
    {
      if x != issue {
        assert x in t.issues - {issue, newIssue};
        assert t.issues[x] == (db.issues - {issue})[x];
      }
    }
    AddedFingerprint(db, t, newIssue);
  }

  lemma SplitAgrees(db: Db, exact: bool, issue: Uuid, chosen: set<Uuid>, fingerprint: string, title: Option<string>,
                    newIssue: Uuid)
    requires Agrees(db, exact)
    ensures Agrees(Split(db, issue, chosen, fingerprint, title, newIssue), exact)
  {
    hide Chosen, DeleteIssues, SplitMoved, EventTimes;
    if SplitOutcome(db, issue, chosen, fingerprint, newIssue) == Done {
      var t := Split(db, issue, chosen, fingerprint, title, newIssue);
      SplitThins(db, issue, chosen, fingerprint, title, newIssue);
      SplitLinked(db, issue, chosen, fingerprint, title, newIssue);
      SplitIssues(db, issue, chosen, fingerprint, title, newIssue);
      SplitFingerprints(db, t, issue, chosen, fingerprint, newIssue);
      ThinnedAgrees(db, t, exact);
      forall id | id in t.issues ensures IssueAgrees(t, exact, id) {
        if id in db.issues {
          assert IssueAgrees(db, exact, id);
        }
        SplitConservesEvents(db, issue, chosen, fingerprint, title, newIssue, id);
        SplitIssueAgrees(db, t, exact, issue, chosen, fingerprint, newIssue, id);
      }
    }
  }

  lemma MovedBack(db: Db, t: Db, issue: Uuid, chosen: set<Uuid>, newIssue: Uuid)
    requires Linked(db) && issue in db.issues && newIssue !in db.issues
    requires issue in t.issues && t.issues[issue].project == db.issues[issue].project
    requires t.events == map e | e in db.events :: SplitEvent(e, db.events[e], Chosen(db, issue, chosen), newIssue)
    ensures AfterMove(t, issue, {newIssue}).events == db.events
  {
    Moved(t, issue, {newIssue});
    forall e | e in db.events
      ensures Merged(t.events[e], issue, {newIssue}, db.issues[issue].project) == db.events[e]
    {
      assert EventLinked(db, db.events[e]);
    }
  }

  lemma MergeBack(db: Db, t: Db, issue: Uuid, newIssue: Uuid)
    requires Linked(t) && issue in t.issues && newIssue in t.issues && issue != newIssue
    requires t.issues[newIssue].project == t.issues[issue].project
    requires AfterMove(t, issue, {newIssue}).events == db.events && EventsOf(db, issue) != {}
    ensures var u := Merge(t, issue, {newIssue});
            && u.events == db.events
            && issue in u.issues && u.issues[issue] == t.issues[issue].(seen := u.issues[issue].seen)
            && Exact(u.issues[issue].seen, EventsOf(db, issue), EventTimes(db))
            && u.issues - {issue} == t.issues - {issue, newIssue}
  {
    hide Linked, Exact;
    var moved := AfterMove(t, issue, {newIssue});
    assert EventsOf(moved, issue) == EventsOf(db, issue) && EventTimes(moved) == EventTimes(db);
    MergeConservesEvents(t, issue, {newIssue});
    Moved(t, issue, {newIssue});
    assert Absorbed(t, {newIssue}, t.issues[issue].project) == {newIssue};
    var u := Merge(t, issue, {newIssue});
    assert u.issues - {issue} == t.issues - {issue, newIssue};
  }

  lemma SameIssues(a: map<Uuid, Issue>, b: map<Uuid, Issue>, id: Uuid)
    requires id in a && id in b && a[id] == b[id] && a - {id} == b - {id}
    ensures a == b
  {
    forall x | x != id ensures (x in a <==> x in b) && (x in a ==> a[x] == b[x]) {
      assert x in a <==> x in a - {id};
      assert x in b <==> x in b - {id};
      assert x in a ==> a[x] == (a - {id})[x] == (b - {id})[x];
    }
  }

  /** Merging the new issue back undoes a split that left events behind. */
  lemma MergeUndoesSplit(db: Db, issue: Uuid, chosen: set<Uuid>, fingerprint: string, title: Option<string>,
                         newIssue: Uuid)
    requires Agrees(db, true) && SplitOutcome(db, issue, chosen, fingerprint, newIssue) == Done
    requires EventsOf(db, issue) - chosen != {}
    ensures Merge(Split(db, issue, chosen, fingerprint, title, newIssue), issue, {newIssue}) == db
  {
    hide Split, AfterMove, Linked;
    var t := Split(db, issue, chosen, fingerprint, title, newIssue);
    SplitTables(db, issue, chosen, fingerprint, title, newIssue);
    SplitIssues(db, issue, chosen, fingerprint, title, newIssue);
    SplitLinked(db, issue, chosen, fingerprint, title, newIssue);
    MovedBack(db, t, issue, chosen, newIssue);
    MergeBack(db, t, issue, newIssue);
    MergeKeepsTheRest(t, issue, {newIssue});
    assert IssueAgrees(db, true, issue);
    var u := Merge(t, issue, {newIssue});
    ExactIsUnique(db.issues[issue].seen, u.issues[issue].seen, EventsOf(db, issue), EventTimes(db));
    SameIssues(u.issues, db.issues, issue);
  }

  // ----- fingerprint and status -----

  /** Changing rows of issues without touching their records or projections. */
  lemma RelabelledAgrees(db: Db, exact: bool, t: Db)
    requires Agrees(db, exact) && t == db.(issues := t.issues) && t.issues.Keys == db.issues.Keys
    requires forall id {:trigger t.issues[id]} :: id in t.issues ==>
               t.issues[id].project == db.issues[id].project && t.issues[id].seen == db.issues[id].seen
    ensures Linked(t) && IssuesAgree(t, exact) && ServicesAgree(t, exact) && ReleasesAgree(t, exact)
  {
    forall e | e in t.events ensures SameRecord(t.events[e], db.events[e]) {}
    forall e {:trigger t.events[e]} | e in t.events
      ensures t.events[e].issue in t.issues && t.issues[t.events[e].issue].project == t.events[e].project
    {
      assert EventLinked(db, db.events[e]);
    }
    ThinnedLinked(db, t);
    ThinnedAgrees(db, t, exact);
    forall id | id in t.issues ensures IssueAgrees(t, exact, id) {
      assert IssueAgrees(db, exact, id);
      ThinnedIssue(db, t, exact, id);
    }
  }

  lemma StatusRelabels(db: Db, issue: Uuid, status: Status)
    ensures var t := SetStatus(db, issue, status);
            && t == db.(issues := t.issues) && t.issues.Keys == db.issues.Keys
            && forall id {:trigger t.issues[id]} :: id in t.issues ==>
                 SameFingerprint(t.issues[id], db.issues[id]) && t.issues[id].seen == db.issues[id].seen
  {
  }

  lemma StatusAgrees(db: Db, exact: bool, issue: Uuid, status: Status)
    requires Agrees(db, exact)
    ensures Agrees(SetStatus(db, issue, status), exact)
  {
    hide Linked, IssuesAgree, ServicesAgree, ReleasesAgree, FingerprintsUnique, SetStatus;
    StatusRelabels(db, issue, status);
    RelabelledAgrees(db, exact, SetStatus(db, issue, status));
    FewerFingerprints(db, SetStatus(db, issue, status));
  }

  lemma ChangedFingerprints(db: Db, issue: Uuid, fingerprint: string)
    requires FingerprintsUnique(db) && ChangeOutcome(db, issue, fingerprint) == Done
    ensures FingerprintsUnique(ChangeFingerprint(db, issue, fingerprint))
  {
    var t := ChangeFingerprint(db, issue, fingerprint);
    var rest := db.issues - {issue};
    assert HasFingerprint(t.issues[issue], db.issues[issue].project, fingerprint);
    forall a, b | a in t.issues && b in t.issues && SameFingerprint(t.issues[a], t.issues[b])
      ensures a == b
    {
      if a != issue && b != issue {
        assert SameFingerprint(db.issues[a], db.issues[b]);
      } else if a != b {
        var other := if a == issue then b else a;
        assert other in rest && HasFingerprint(rest[other], db.issues[issue].project, fingerprint);
      }
    }
  }

  lemma ChangeAgrees(db: Db, exact: bool, issue: Uuid, fingerprint: string)
    requires Agrees(db, exact)
    ensures Agrees(ChangeFingerprint(db, issue, fingerprint), exact)
  {
    RelabelledAgrees(db, exact, ChangeFingerprint(db, issue, fingerprint));
    if ChangeOutcome(db, issue, fingerprint) == Done {
      ChangedFingerprints(db, issue, fingerprint);
    }
  }
}
