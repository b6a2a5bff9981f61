/**
 Every run of the event store: every projection agrees with the stored records, exactly as long as nothing
 drops them; what that says about order, and how the projections add up.
 */
module EventStoreRuns {
  import opened Wrappers
  import opened DedupKeys
  import opened Projections
  import opened EventStore
  import opened EventStoreLaws
  import opened IssueMoves

  // ----- logs -----

  ghost predicate LogAdded(db: Db, t: Db, id: Uuid, v: Log)
  {
    id !in db.logs && t.logs == db.logs[id := v] && t.events == db.events
  }

  lemma LoggedRecords(db: Db, t: Db, id: Uuid, v: Log)
    requires LogAdded(db, t, id, v)
    ensures RecordTimes(t) == RecordTimes(db)[OfLog(id) := v.at]
  {
    forall r ensures HasRecord(t, r) <==> HasRecord(db, r) || r == OfLog(id) {}
    assert Records(t) == Records(db) + {OfLog(id)};
  }

  lemma LoggedService(db: Db, t: Db, id: Uuid, v: Log, k: ServiceKey)
    requires LogAdded(db, t, id, v)
    ensures RecordsOf(t, k) == RecordsOf(db, k) + if v.service == k then {OfLog(id)} else {}
    ensures ServiceEvents(t, k) == ServiceEvents(db, k)
    ensures ServiceLogs(t, k) == ServiceLogs(db, k) + if v.service == k then {id} else {}
  {
    forall r ensures r in RecordsOf(t, k) <==> r in RecordsOf(db, k) || (v.service == k && r == OfLog(id)) {}
  }

  lemma ServiceLogged(db: Db, t: Db, exact: bool, id: Uuid, v: Log)
    requires LogAdded(db, t, id, v) && v.service in t.services
    requires v.service in db.services ==>
               ServiceAgrees(db, exact, v.service) &&
                   t.services[v.service] == UpsertService(Some(db.services[v.service]), v.at, false)
    requires v.service !in db.services ==>
               RecordsOf(db, v.service) == {} && t.services[v.service] == UpsertService(None, v.at, false)
    ensures ServiceAgrees(t, exact, v.service)
  {
    var k := v.service;
    LoggedRecords(db, t, id, v);
    LoggedService(db, t, id, v, k);
    ServiceSeenGrew(db, t, exact, OfLog(id), v.at, false, k);
    if k !in db.services {
      NothingOfService(db, k);
    }
  }

  lemma ServiceMissedLog(db: Db, t: Db, exact: bool, id: Uuid, v: Log, k: ServiceKey)
    requires LogAdded(db, t, id, v) && k != v.service && k in db.services && k in t.services
    requires ServiceAgrees(db, exact, k) && t.services[k] == db.services[k]
    ensures ServiceAgrees(t, exact, k)
  {
    LoggedRecords(db, t, id, v);
    LoggedService(db, t, id, v, k);
    FitsElsewhere(exact, Seen(db.services[k]), RecordsOf(db, k), RecordTimes(db), RecordTimes(t));
  }

  /** Tables with the same events agree on issues and releases alike. */
  lemma SameEventsAgree(db: Db, t: Db, exact: bool)
    requires t.events == db.events && t.issues == db.issues && t.releases == db.releases
    requires IssuesAgree(db, exact) && ReleasesAgree(db, exact)
    ensures IssuesAgree(t, exact) && ReleasesAgree(t, exact)
  {
    assert EventTimes(t) == EventTimes(db);
    forall id | id in t.issues ensures IssueAgrees(t, exact, id) {
      assert IssueAgrees(db, exact, id) && EventsOf(t, id) == EventsOf(db, id);
    }
    forall k | k in t.releases ensures ReleaseAgrees(t, exact, k) {
      assert ReleaseAgrees(db, exact, k) && ReleaseEvents(t, k) == ReleaseEvents(db, k);
    }
  }

  lemma LogLinked(db: Db, line: LogLine)
    requires Linked(db)
    ensures Linked(AddLog(db, line))
  {
    var t := AddLog(db, line);
    forall e | e in t.events ensures EventLinked(t, t.events[e]) { assert EventLinked(db, db.events[e]); }
  }

  lemma LogServices(db: Db, exact: bool, line: LogLine, k: ServiceKey)
    requires Linked(db) && line.id !in db.logs && k in AddLog(db, line).services
    requires k in db.services ==> ServiceAgrees(db, exact, k)
    ensures ServiceAgrees(AddLog(db, line), exact, k)
  {
    var v := Log(line.service, line.at, line.received);
    if k != line.service {
      ServiceMissedLog(db, AddLog(db, line), exact, line.id, v, k);
    } else {
      if k !in db.services {
        NothingWithoutService(db, k);
      }
      ServiceLogged(db, AddLog(db, line), exact, line.id, v);
    }
  }

  lemma LogAgrees(db: Db, exact: bool, line: LogLine)
    requires Agrees(db, exact) && line.id !in db.logs
    ensures Agrees(AddLog(db, line), exact)
  {
    var t := AddLog(db, line);
    LogLinked(db, line);
    SameEventsAgree(db, t, exact);
    forall k | k in t.services ensures ServiceAgrees(t, exact, k) {
      if k in db.services {
        assert ServiceAgrees(db, exact, k);
      }
      LogServices(db, exact, line, k);
    }
  }

  lemma {:induction false} LogsAgree(db: Db, exact: bool, lines: seq<LogLine>)
    requires Agrees(db, exact) && FreshLines(db, lines)
    ensures Agrees(AddLogs(db, lines), exact)
    decreases |lines|
  {
    if lines != [] {
      LogAgrees(db, exact, lines[0]);
      assert FreshLines(AddLog(db, lines[0]), lines[1..]);
      LogsAgree(AddLog(db, lines[0]), exact, lines[1..]);
    }
  }

  // ----- releases and retention -----

  lemma RegisterAgrees(db: Db, exact: bool, key: ReleaseKey)
    requires Agrees(db, exact)
    ensures Agrees(RegisterRelease(db, key), exact)
  {
    var t := RegisterRelease(db, key);
    forall e | e in t.events ensures EventLinked(t, t.events[e]) { assert EventLinked(db, db.events[e]); }
    forall id | id in t.issues ensures IssueAgrees(t, exact, id) {
      assert IssueAgrees(db, exact, id) && EventsOf(t, id) == EventsOf(db, id);
    }
    forall k | k in t.services ensures ServiceAgrees(t, exact, k) { RegisterService(db, exact, key, k); }
    forall k | k in t.releases ensures ReleaseAgrees(t, exact, k) { RegisteredRelease(db, exact, key, k); }
    assert FingerprintsUnique(t);
  }

  lemma RegisterService(db: Db, exact: bool, key: ReleaseKey, k: ServiceKey)
    requires ServicesAgree(db, exact) && k in db.services
    ensures ServiceAgrees(RegisterRelease(db, key), exact, k)
  {
    hide Records;
    assert ServiceAgrees(db, exact, k);
    var t := RegisterRelease(db, key);
    forall r ensures HasRecord(t, r) <==> HasRecord(db, r) {}
    assert Records(t) == Records(db);
    assert RecordTimes(t) == RecordTimes(db) && RecordsOf(t, k) == RecordsOf(db, k);
  }

  lemma RegisteredRelease(db: Db, exact: bool, key: ReleaseKey, k: ReleaseKey)
    requires Linked(db) && ReleasesAgree(db, exact) && k in RegisterRelease(db, key).releases
    ensures ReleaseAgrees(RegisterRelease(db, key), exact, k)
  {
    if k in db.releases {
      assert ReleaseAgrees(db, exact, k);
    } else {
      NothingWithoutRelease(db, k);
    }
  }

  /** `t` has some of the records of `db` as they were, and everything else. */
  ghost predicate Reduced(db: Db, t: Db)
  {
    && t.events.Keys <= db.events.Keys && t.logs.Keys <= db.logs.Keys
    && (forall e {:trigger t.events[e]} :: e in t.events ==> t.events[e] == db.events[e])
    && (forall l {:trigger t.logs[l]} :: l in t.logs ==> t.logs[l] == db.logs[l])
    && t.issues == db.issues && t.services == db.services && t.releases == db.releases
  }

  lemma ReducedTwice(db: Db, t: Db, u: Db)
    requires Reduced(db, t) && Reduced(t, u)
    ensures Reduced(db, u)
  {
  }

  lemma RetainReduces(db: Db, pass: Pass, days: int, overrides: map<Uuid, nat>)
    ensures Reduced(db, Retain(db, pass, days, overrides))
  {
    var n := Statements(db, pass, days, overrides);
    var a := if n >= 1 then DropLogs(db, pass.logs, days, overrides) else db;
    var b := if n >= 2 then DropEvents(a, pass.events, days, overrides) else a;
    var c := if n >= 3 then DropItems(b, pass.items, days, overrides) else b;
    DropsReduce(db, pass.logs, days, overrides);
    DropsReduce(a, pass.events, days, overrides);
    DropsReduce(b, pass.items, days, overrides);
    hide Reduced, DropLogs, DropEvents, DropItems, Computable;
    ReducedTwice(db, a, b);
    ReducedTwice(db, b, c);
  }

  lemma DropsReduce(db: Db, now: int, days: int, overrides: map<Uuid, nat>)
    ensures Reduced(db, db) && Reduced(db, DropLogs(db, now, days, overrides))
    ensures Reduced(db, DropEvents(db, now, days, overrides)) && Reduced(db, DropItems(db, now, days, overrides))
  {
  }

  lemma ReducedThins(db: Db, t: Db)
    requires Reduced(db, t)
    ensures Thinned(db, t)
  {
    forall e | e in t.events ensures SameRecord(t.events[e], db.events[e]) {}
  }

  /** After retention, however far it came, the counts and times of an issue are still bounds of what is left. */
  lemma RetainAgrees(db: Db, pass: Pass, days: int, overrides: map<Uuid, nat>)
    requires Agrees(db, false)
    ensures Agrees(Retain(db, pass, days, overrides), false)
  {
    RetainReduces(db, pass, days, overrides);
    ReducedAgrees(db, Retain(db, pass, days, overrides));
  }

  lemma ReducedAgrees(db: Db, t: Db)
    requires Agrees(db, false) && Reduced(db, t)
    ensures Agrees(t, false)
  {
    ReducedThins(db, t);
    forall e {:trigger t.events[e]} | e in t.events
      ensures t.events[e].issue in t.issues && t.issues[t.events[e].issue].project == t.events[e].project
    {
      assert EventLinked(db, db.events[e]);
    }
    ThinnedLinked(db, t);
    ThinnedAgrees(db, t, false);
    FewerFingerprints(db, t);
    forall id | id in t.issues ensures IssueAgrees(t, false, id) {
      assert IssueAgrees(db, false, id);
      ThinnedIssue(db, t, false, id);
    }
  }

  // ----- every run -----

  lemma DoAgrees(db: Db, exact: bool, op: Op)
    requires Agrees(db, exact) && (exact ==> Lossless(op))
    ensures Agrees(Do(db, op), exact)
  {
    match op
    case IngestOp(i) => IngestAgrees(db, exact, i);
    case LogsOp(lines) => if FreshLines(db, lines) { LogsAgree(db, exact, lines); }
    case ReleaseOp(key) => RegisterAgrees(db, exact, key);
    case StatusOp(issue, status) => StatusAgrees(db, exact, issue, status);
    case FingerprintOp(issue, fingerprint) => ChangeAgrees(db, exact, issue, fingerprint);
    case MergeOp(target, sources) => MergeAgrees(db, exact, target, sources);
    case SplitOp(issue, chosen, fingerprint, title, newIssue) =>
      SplitAgrees(db, exact, issue, chosen, fingerprint, title, newIssue);
    case RetainOp(pass, days, overrides) => RetainAgrees(db, pass, days, overrides);
  }

  lemma {:induction false} DoAllAgrees(db: Db, exact: bool, ops: seq<Op>)
    requires Agrees(db, exact) && (exact ==> forall k :: 0 <= k < |ops| ==> Lossless(ops[k]))
    ensures Agrees(DoAll(db, ops), exact)
    decreases |ops|
  {
    if ops != [] {
      DoAgrees(db, exact, ops[0]);
      DoAllAgrees(Do(db, ops[0]), exact, ops[1..]);
    }
  }

  /**
   In every run, projections are bounds of the stored records, links hold and fingerprints are unique; in a run
   without retention and without a merge of an issue into itself they are exact.
   */
  lemma EveryRunAgrees(ops: seq<Op>)
    ensures Agrees(DoAll(EMPTY, ops), false)
    ensures (forall k :: 0 <= k < |ops| ==> Lossless(ops[k])) ==> Agrees(DoAll(EMPTY, ops), true)
  {
    DoAllAgrees(EMPTY, false, ops);
    if forall k :: 0 <= k < |ops| ==> Lossless(ops[k]) {
      DoAllAgrees(EMPTY, true, ops);
    }
  }

  // ----- no event is lost -----

  /** `t` has every event of `db`, changed at most in its issue. */
  ghost predicate EventsKept(db: Db, t: Db)
  {
    && db.events.Keys <= t.events.Keys
    && forall e {:trigger t.events[e]} :: e in db.events ==> SameRecord(t.events[e], db.events[e])
  }

  lemma {:induction false} LogsKeepEvents(db: Db, lines: seq<LogLine>)
    ensures AddLogs(db, lines).events == db.events
    decreases |lines|
  {
    if lines != [] {
      LogsKeepEvents(AddLog(db, lines[0]), lines[1..]);
    }
  }

  lemma LosslessKeepsEvents(db: Db, op: Op)
    requires Linked(db) && Lossless(op)
    ensures EventsKept(db, Do(db, op))
  {
    hide MergeOutcome, SplitOutcome, Linked, EventsOf;
    match op
    case IngestOp(i) =>
    case LogsOp(lines) => LogsKeepEvents(db, lines);
    case ReleaseOp(key) =>
    case StatusOp(issue, status) =>
    case FingerprintOp(issue, fingerprint) =>
    case MergeOp(target, sources) =>
      if MergeOutcome(db, target, sources) == Done { MergeThins(db, target, sources); }
    case SplitOp(issue, chosen, fingerprint, title, newIssue) =>
      if SplitOutcome(db, issue, chosen, fingerprint, newIssue) == Done {
        SplitThins(db, issue, chosen, fingerprint, title, newIssue);
      }
  }

  lemma {:induction false} NoEventIsLost(db: Db, ops: seq<Op>)
    requires Agrees(db, true) && forall k :: 0 <= k < |ops| ==> Lossless(ops[k])
    ensures EventsKept(db, DoAll(db, ops))
    decreases |ops|
  {
    if ops != [] {
      LosslessKeepsEvents(db, ops[0]);
      DoAgrees(db, true, ops[0]);
      NoEventIsLost(Do(db, ops[0]), ops[1..]);
      var t, u := Do(db, ops[0]), DoAll(db, ops);
      forall e | e in db.events ensures SameRecord(u.events[e], db.events[e]) {
        assert SameRecord(u.events[e], t.events[e]);
      }
    }
  }

  /** Retention keeps exact projections exact only when it finds nothing to drop. */
  lemma RetentionIsExactIffIdle(db: Db, pass: Pass, days: int, overrides: map<Uuid, nat>)
    requires Agrees(db, true)
    ensures Agrees(Retain(db, pass, days, overrides), true) <==> Retain(db, pass, days, overrides) == db
  {
    RetainReduces(db, pass, days, overrides);
    ReducedIsExactIffSame(db, Retain(db, pass, days, overrides));
  }

  lemma ReducedIsExactIffSame(db: Db, t: Db)
    requires Agrees(db, true) && Reduced(db, t)
    ensures Agrees(t, true) <==> t == db
  {
    if e :| e in db.events && e !in t.events {
      assert EventLinked(db, db.events[e]) && IssueAgrees(db, true, db.events[e].issue);
      DroppedEvent(db, t, e);
    } else if l :| l in db.logs && l !in t.logs {
      DroppedLog(db, t, l);
    } else {
      assert t.events == db.events && t.logs == db.logs;
    }
  }

  lemma DroppedEvent(db: Db, t: Db, e: Uuid)
    requires e in db.events && e !in t.events && t.events.Keys <= db.events.Keys && t.issues == db.issues
    requires forall x {:trigger t.events[x]} :: x in t.events ==> t.events[x] == db.events[x]
    requires db.events[e].issue in db.issues && IssueAgrees(db, true, db.events[e].issue)
    ensures !Agrees(t, true)
  {
    var id := db.events[e].issue;
    assert e in EventsOf(db, id);
    SubsetSize(EventsOf(t, id), EventsOf(db, id) - {e});
    assert !IssueAgrees(t, true, id);
  }

  lemma DroppedLog(db: Db, t: Db, l: Uuid)
    requires l in db.logs && l !in t.logs && t.logs.Keys <= db.logs.Keys && t.services == db.services
    requires forall x {:trigger t.logs[x]} :: x in t.logs ==> t.logs[x] == db.logs[x]
    requires Agrees(db, true)
    ensures !Agrees(t, true)
  {
    var k := db.logs[l].service;
    assert ServiceAgrees(db, true, k);
    assert ServiceLogs(t, k) <= ServiceLogs(db, k) - {l};
    SubsetSize(ServiceLogs(t, k), ServiceLogs(db, k) - {l});
    assert !ServiceAgrees(t, true, k);
  }

  /** A project without a number of its own keeps the configured days exactly when these fit 32 bits. */
  lemma DaysAreKeptIffTheyFit(days: int)
    ensures (forall overrides: map<Uuid, nat>, p {:trigger KeptDays(days, overrides, p)} :: p !in overrides ==>
               KeptDays(days, overrides, p) == Max(days, 1)) <==> Max(days, 1) < I32_RANGE / 2
    ensures Max(days, 1) >= I32_RANGE / 2 ==>
              forall overrides: map<Uuid, nat>, p {:trigger KeptDays(days, overrides, p)} :: p !in overrides ==>
                KeptDays(days, overrides, p) < Max(days, 1)
  {
    if Max(days, 1) >= I32_RANGE / 2 {
      var none: map<Uuid, nat>, p: Uuid := map[], 0;
      assert KeptDays(days, none, p) < Max(days, 1);
    }
  }

  /** The cutoff of every project without a number of its own is the configured one exactly when the days fit. */
  lemma CutoffIsConfiguredIffDaysFit(days: int)
    ensures (forall now, overrides: map<Uuid, nat>, p {:trigger Cutoff(now, days, overrides, p)} :: p !in overrides ==>
               Cutoff(now, days, overrides, p) == now - Max(days, 1) * DAY) <==> Max(days, 1) < I32_RANGE / 2
  {
    DaysAreKeptIffTheyFit(days);
    if Max(days, 1) >= I32_RANGE / 2 {
      var none: map<Uuid, nat>, p: Uuid := map[], 0;
      assert KeptDays(days, none, p) < Max(days, 1);
      assert Cutoff(0, days, none, p) != 0 - Max(days, 1) * DAY;
    }
  }

  /**
   What a pass keeps of the events, for any number of days: all of them if a cutoff it needs is no time, and otherwise
   those within the days that their projects keep.
   */
  lemma RetentionWindow(db: Db, pass: Pass, days: int, overrides: map<Uuid, nat>, e: Uuid)
    requires e in db.events
    ensures var t := Retain(db, pass, days, overrides);
            && (e in t.events <==>
                  Statements(db, pass, days, overrides) < 2
                  || pass.events - db.events[e].at <= KeptDays(days, overrides, db.events[e].project) * DAY)
            && (e in t.events ==> t.events[e] == db.events[e])
  {
    hide Computable, LogProjects, EventProjects;
  }

  lemma KeptLogs(db: Db, now: int, days: int, overrides: map<Uuid, nat>, l: Uuid)
    requires l in db.logs
    ensures var kept := KeptDays(days, overrides, db.logs[l].service.project) * DAY;
            && (l in DropLogs(db, now, days, overrides).logs <==> now - db.logs[l].at <= kept)
            && (l in DropItems(db, now, days, overrides).logs <==> now - db.logs[l].received <= kept)
    ensures l in DropLogs(db, now, days, overrides).logs ==> DropLogs(db, now, days, overrides).logs[l] == db.logs[l]
    ensures l in DropItems(db, now, days, overrides).logs ==> DropItems(db, now, days, overrides).logs[l] == db.logs[l]
    ensures DropEvents(db, now, days, overrides).logs == db.logs
  {
  }

  lemma NoLogBack(db: Db, now: int, days: int, overrides: map<Uuid, nat>, l: Uuid)
    requires l !in db.logs
    ensures l !in DropItems(db, now, days, overrides).logs && l !in DropEvents(db, now, days, overrides).logs
  {
  }

  /** A log goes with its own time or with the arrival of its envelope item, by different statements. */
  lemma LogRetentionWindow(db: Db, pass: Pass, days: int, overrides: map<Uuid, nat>, l: Uuid)
    requires l in db.logs
    ensures var t, log, n := Retain(db, pass, days, overrides), db.logs[l], Statements(db, pass, days, overrides);
            var kept := KeptDays(days, overrides, log.service.project) * DAY;
            && (l in t.logs <==> (n < 1 || pass.logs - log.at <= kept) && (n < 3 || pass.items - log.received <= kept))
            && (l in t.logs ==> t.logs[l] == log)
  {
    hide Statements, DropLogs, DropEvents, DropItems, KeptDays;
    var n := Statements(db, pass, days, overrides);
    var a := if n >= 1 then DropLogs(db, pass.logs, days, overrides) else db;
    var b := if n >= 2 then DropEvents(a, pass.events, days, overrides) else a;
    KeptLogs(db, pass.logs, days, overrides, l);
    if l in a.logs {
      KeptLogs(a, pass.events, days, overrides, l);
      KeptLogs(b, pass.items, days, overrides, l);
    } else {
      NoLogBack(a, pass.events, days, overrides, l);
      NoLogBack(b, pass.items, days, overrides, l);
    }
  }

  /** Days that fit and do not reach back beyond the calendar never fail. */
  lemma ReasonableDaysSucceed(db: Db, pass: Pass, days: int, overrides: map<Uuid, nat>, most: nat)
    requires Max(days, 1) <= most < I32_RANGE / 2 && forall p :: p in overrides ==> overrides[p] <= most
    requires EARLIEST + most * DAY <= pass.logs <= pass.events <= pass.items < LATEST
    ensures Statements(db, pass, days, overrides) == 3
  {
    DaysAreKeptIffTheyFit(days);
    forall p, now | pass.logs <= now <= pass.items
      ensures Representable(Cutoff(now, days, overrides, p))
    {
      assert 0 <= KeptDays(days, overrides, p) <= most;
    }
  }

  /** A log of the last day that came in on the last day. */
  predicate Recent(log: Log, pass: Pass)
  {
    log.at >= pass.logs - DAY && log.received >= pass.items - DAY
  }

  /** With days that fit 32 bits, what happened and came in within a day always stays. */
  lemma RecentRecordsSurvive(db: Db, pass: Pass, days: int, overrides: map<Uuid, nat>)
    requires Max(days, 1) < I32_RANGE / 2 && pass.logs <= pass.events <= pass.items
    requires forall p :: p in overrides ==> overrides[p] > 0
    ensures var t := Retain(db, pass, days, overrides);
            && (forall e :: e in db.events && db.events[e].at >= pass.events - DAY ==> e in t.events)
            && (forall l :: l in db.logs && Recent(db.logs[l], pass) ==> l in t.logs)
  {
    DaysAreKeptIffTheyFit(days);
    forall e | e in db.events && db.events[e].at >= pass.events - DAY
      ensures e in Retain(db, pass, days, overrides).events
    {
      assert KeptDays(days, overrides, db.events[e].project) >= 1;
      RetentionWindow(db, pass, days, overrides, e);
    }
    forall l | l in db.logs && Recent(db.logs[l], pass)
      ensures l in Retain(db, pass, days, overrides).logs
    {
      assert KeptDays(days, overrides, db.logs[l].service.project) >= 1;
      LogRetentionWindow(db, pass, days, overrides, l);
    }
  }

  /**
   With days that do not fit, a project without a number of its own loses events of the configured window: whenever the
   cutoff is a time at all, an event just before it is dropped.
   */
  lemma CutDaysDropTooMuch(pass: Pass, days: int, e: Uuid, v: Event)
    requires Max(days, 1) >= I32_RANGE / 2 && v.at == Cutoff(pass.events, days, map[], v.project) - 1
    requires Representable(Cutoff(pass.events, days, map[], v.project))
    ensures pass.events - v.at <= Max(days, 1) * DAY
    ensures e !in Retain(EMPTY.(events := map[e := v]), pass, days, map[]).events
  {
    DaysAreKeptIffTheyFit(days);
    var db := EMPTY.(events := map[e := v]);
    var none: map<Uuid, nat> := map[];
    assert KeptDays(days, none, v.project) < Max(days, 1);
    assert db.logs == map[] && db.events.Keys == {e};
    assert Statements(db, pass, days, none) >= 2;
    RetentionWindow(db, pass, days, none, e);
  }

  // ----- the records determine the projections -----

  /** Two exact stores with the same records have the same counts and times, however the records came in. */
  lemma RecordsDetermineIssues(db: Db, t: Db, id: Uuid)
    requires Agrees(db, true) && Agrees(t, true) && db.events == t.events
    ensures id in db.issues <==> id in t.issues
    ensures id in db.issues ==> db.issues[id].seen == t.issues[id].seen
  {
    assert EventsOf(db, id) == EventsOf(t, id) && EventTimes(db) == EventTimes(t);
    IssueHasEvents(db, id);
    IssueHasEvents(t, id);
    if id in db.issues && id in t.issues {
      assert IssueAgrees(db, true, id) && IssueAgrees(t, true, id);
      ExactIsUnique(db.issues[id].seen, t.issues[id].seen, EventsOf(db, id), EventTimes(db));
    }
  }

  lemma IssueHasEvents(db: Db, id: Uuid)
    requires Agrees(db, true)
    ensures id in db.issues <==> EventsOf(db, id) != {}
  {
    if id in db.issues {
      assert IssueAgrees(db, true, id);
    } else {
      NothingWithoutIssue(db, id);
    }
  }

  lemma RecordsDetermineServices(db: Db, t: Db, k: ServiceKey)
    requires Agrees(db, true) && Agrees(t, true) && db.events == t.events && db.logs == t.logs
    ensures k in db.services <==> k in t.services
    ensures k in db.services ==> db.services[k] == t.services[k]
  {
    hide Records;
    forall r ensures HasRecord(db, r) <==> HasRecord(t, r) {}
    assert Records(db) == Records(t);
    assert RecordsOf(db, k) == RecordsOf(t, k) && RecordTimes(db) == RecordTimes(t);
    assert ServiceEvents(db, k) == ServiceEvents(t, k) && ServiceLogs(db, k) == ServiceLogs(t, k);
    ServiceHasRecords(db, k);
    ServiceHasRecords(t, k);
    if k in db.services {
      assert ServiceAgrees(db, true, k) && ServiceAgrees(t, true, k);
      ExactIsUnique(Seen(db.services[k]), Seen(t.services[k]), RecordsOf(db, k), RecordTimes(db));
    }
  }

  lemma ServiceHasRecords(db: Db, k: ServiceKey)
    requires Agrees(db, true)
    ensures k in db.services <==> RecordsOf(db, k) != {}
  {
    if k in db.services {
      assert ServiceAgrees(db, true, k);
    } else {
      NothingWithoutService(db, k);
    }
  }

  lemma RecordsDetermineReleases(db: Db, t: Db, k: ReleaseKey)
    requires Agrees(db, true) && Agrees(t, true) && db.events == t.events
    requires k in db.releases && k in t.releases
    ensures db.releases[k] == t.releases[k]
  {
    assert ReleaseEvents(db, k) == ReleaseEvents(t, k) && EventTimes(db) == EventTimes(t);
    assert ReleaseAgrees(db, true, k) && ReleaseAgrees(t, true, k);
    if db.releases[k].seen.Some? && t.releases[k].seen.Some? {
      ExactIsUnique(db.releases[k].seen.value, t.releases[k].seen.value, ReleaseEvents(db, k), EventTimes(db));
    }
  }

  // ----- the projections add up -----

  function IssuesOfProject(db: Db, project: Uuid): set<Uuid>
  {
    set id | id in db.issues && db.issues[id].project == project
  }

  function ServicesOfProject(db: Db, project: Uuid): set<ServiceKey>
  {
    set k | k in db.services && k.project == project
  }

  function ReleasesOfProject(db: Db, project: Uuid): set<ReleaseKey>
  {
    set k | k in db.releases && k.project == project
  }

  function EventsOfProject(db: Db, project: Uuid): set<Uuid>
  {
    set e | e in db.events && db.events[e].project == project
  }

  function ReleasedEvents(db: Db, project: Uuid): set<Uuid>
  {
    set e | e in db.events && db.events[e].project == project && db.events[e].release.Some?
  }

  function IssueCounts(db: Db): map<Uuid, int>
  {
    map id | id in db.issues :: db.issues[id].seen.count
  }

  function ServiceCounts(db: Db): map<ServiceKey, int>
  {
    map k | k in db.services :: db.services[k].events
  }

  function ReleaseCount(r: Release): int
  {
    if r.seen.Some? then r.seen.value.count else 0
  }

  function ReleaseCounts(db: Db): map<ReleaseKey, int>
  {
    map k | k in db.releases :: ReleaseCount(db.releases[k])
  }

  lemma IssueCountsAddUp(db: Db, project: Uuid)
    requires Agrees(db, true)
    ensures Sum(IssuesOfProject(db, project), IssueCounts(db)) == |EventsOfProject(db, project)|
  {
    var owner := map e | e in db.events :: db.events[e].issue;
    var records := EventsOfProject(db, project);
    forall e | e in records ensures owner[e] in IssuesOfProject(db, project) { assert EventLinked(db, db.events[e]); }
    forall id | id in IssuesOfProject(db, project)
      ensures IssueCounts(db)[id] == |Group(records, owner, id)|
    {
      assert IssueAgrees(db, true, id);
      forall e ensures e in Group(records, owner, id) <==> e in EventsOf(db, id) {
        if e in db.events {
          assert EventLinked(db, db.events[e]);
        }
      }
      assert Group(records, owner, id) == EventsOf(db, id);
    }
    CountsAddUp(records, owner, IssuesOfProject(db, project), IssueCounts(db));
  }

  lemma ServiceCountsAddUp(db: Db, project: Uuid)
    requires Agrees(db, true)
    ensures Sum(ServicesOfProject(db, project), ServiceCounts(db)) == |EventsOfProject(db, project)|
  {
    var owner := map e | e in db.events :: db.events[e].service;
    var records := EventsOfProject(db, project);
    forall e | e in records ensures owner[e] in ServicesOfProject(db, project) { assert EventLinked(db, db.events[e]); }
    forall k | k in ServicesOfProject(db, project)
      ensures ServiceCounts(db)[k] == |Group(records, owner, k)|
    {
      assert ServiceAgrees(db, true, k);
      forall e ensures e in Group(records, owner, k) <==> e in ServiceEvents(db, k) {
        if e in db.events {
          assert EventLinked(db, db.events[e]);
        }
      }
      assert Group(records, owner, k) == ServiceEvents(db, k);
    }
    CountsAddUp(records, owner, ServicesOfProject(db, project), ServiceCounts(db));
  }

  lemma ReleaseCountsAddUp(db: Db, project: Uuid)
    requires Agrees(db, true)
    ensures Sum(ReleasesOfProject(db, project), ReleaseCounts(db)) == |ReleasedEvents(db, project)|
  {
    var owner := map e | e in db.events && db.events[e].release.Some? ::
          ReleaseKey(db.events[e].project, db.events[e].release.value);
    var records := ReleasedEvents(db, project);
    forall e | e in records ensures owner[e] in ReleasesOfProject(db, project) { assert EventLinked(db, db.events[e]); }
    forall k | k in ReleasesOfProject(db, project)
      ensures ReleaseCounts(db)[k] == |Group(records, owner, k)|
    {
      assert ReleaseAgrees(db, true, k);
      assert Group(records, owner, k) == ReleaseEvents(db, k);
    }
    CountsAddUp(records, owner, ReleasesOfProject(db, project), ReleaseCounts(db));
  }

  /**
   As long as nothing drops records, the events of a project, those counted by its issues and those counted by
   its services are as many, and its releases count the events that name one.
   */
  lemma ProjectionsAddUp(ops: seq<Op>, project: Uuid)
    requires forall k :: 0 <= k < |ops| ==> Lossless(ops[k])
    ensures var db := DoAll(EMPTY, ops);
            && Sum(IssuesOfProject(db, project), IssueCounts(db)) == |EventsOfProject(db, project)|
            && Sum(ServicesOfProject(db, project), ServiceCounts(db)) == |EventsOfProject(db, project)|
            && Sum(ReleasesOfProject(db, project), ReleaseCounts(db)) == |ReleasedEvents(db, project)|
  {
    EveryRunAgrees(ops);
    var db := DoAll(EMPTY, ops);
    IssueCountsAddUp(db, project);
    ServiceCountsAddUp(db, project);
    ReleaseCountsAddUp(db, project);
  }
}
