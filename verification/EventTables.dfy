/**
 The requests on the event tables, statement by statement. Each method is one transaction: it either does
 everything its specification in `EventStore` says, or gives an error and leaves every table as it was.
 */
module EventTables {
  import opened Wrappers
  import opened DedupKeys
  import opened Projections
  import opened Fingerprinting
  import opened EventStore
  import opened EventStoreLaws
  import IssueMoves

  /** `count(*)`, `min` and `max` over the times of some events. */
  method Aggregate(ids: set<Uuid>, events: map<Uuid, Event>) returns (s: Summary)
    requires ids != {} && ids <= events.Keys
    ensures s == Recount(ids, map e | e in events :: events[e].at)
  {
    ghost var times := map e | e in events :: events[e].at;
    var e :| e in ids;
    var done, left := {e}, ids - {e};
    s := Summary(1, events[e].at, events[e].at);
    ExactOne(e, times);
    while left != {}
      invariant done + left == ids && done !! left && Exact(s, done, times)
      decreases |left|
    {
      e :| e in left;
      ExactAdd(s, done, times, e);
      var at := events[e].at;
      s := Summary(s.count + 1, if at < s.first then at else s.first, if at > s.last then at else s.last);
      done, left := done + {e}, left - {e};
    }
    assert done == ids;
    ExactIsUnique(s, Recount(ids, times), ids, times);
  }

  /** Whether the cutoff of every project in question can be computed. */
  method CutoffsAreTimes(projects: set<Uuid>, now: int, days: int, overrides: map<Uuid, nat>) returns (ok: bool)
    ensures ok <==> Computable(projects, now, days, overrides)
  {
    var left := projects;
    while left != {}
      invariant left <= projects
      invariant forall p :: p in projects && p !in left ==> Representable(Cutoff(now, days, overrides, p))
      decreases |left|
    {
      var p :| p in left;
      if !Representable(Cutoff(now, days, overrides, p)) {
        return false;
      }
      left := left - {p};
    }
    return true;
  }

  lemma FreshStep(db: Db, lines: seq<LogLine>)
    requires lines != []
    ensures FreshLines(db, lines) <==> lines[0].id !in db.logs && FreshLines(AddLog(db, lines[0]), lines[1..])
  {
    var t, rest := AddLog(db, lines[0]), lines[1..];
    if lines[0].id !in db.logs && FreshLines(t, rest) {
      forall k | 0 <= k < |lines| ensures lines[k].id !in db.logs { assert k > 0 ==> rest[k - 1].id !in t.logs; }
      forall j, k | 0 <= j < k < |lines| ensures lines[j].id != lines[k].id { assert rest[k - 1].id !in t.logs; }
    }
  }

  class Tables {
    var issues: map<Uuid, Issue>
    var events: map<Uuid, Event>
    var services: map<ServiceKey, Service>
    var releases: map<ReleaseKey, Release>
    var logs: map<Uuid, Log>

    ghost function View(): Db
      reads this
    {
      Db(issues, events, services, releases, logs)
    }

    /** The unique constraint on project and fingerprint. */
    ghost predicate Valid()
      reads this
    {
      FingerprintsUnique(View())
    }

    constructor ()
      ensures Valid() && View() == EMPTY
    {
      issues, events, services, releases, logs := map[], map[], map[], map[], map[];
    }

    /** Looking up an issue by its unique fingerprint. */
    method Find(project: Uuid, fingerprint: string) returns (r: Option<Uuid>)
      requires Valid()
      ensures r == FindIssue(issues, project, fingerprint)
    {
      if id :| id in issues && HasFingerprint(issues[id], project, fingerprint) {
        r := Some(id);
        ghost var other := FindIssue(issues, project, fingerprint);
        assert SameFingerprint(issues[id], issues[other.value]);
      } else {
        r := None;
      }
    }

    /** `INSERT INTO issues … ON CONFLICT (project_id, fingerprint) DO UPDATE … RETURNING id`. */
    method UpsertIssueRow(i: Incoming) returns (issue: Option<Uuid>)
      requires Valid()
      modifies `issues
      ensures issue.None? <==> Clashes(old(View()), i)
      ensures issue.None? ==> issues == old(issues)
      ensures issue.Some? ==> issue.value == IssueFor(old(View()), i)
      ensures issue.Some? ==> issues == old(issues)[issue.value := UpsertIssue(Lookup(old(issues), issue.value), i)]
    {
      issue := Find(i.project, i.fingerprint);
      if issue.Some? {
        var row := issues[issue.value];
        var reopened := row.status == Resolved;
        issues := issues[issue.value :=
                         row.(seen := Summary(row.seen.count + 1, Min(row.seen.first, i.at), Max(row.seen.last, i.at)),
                                             level := i.level, title := i.message,
                                             regressedAt := if reopened then Some(i.at) else row.regressedAt,
                                             status := if reopened then Unresolved else row.status)];
      } else if i.newIssue !in issues {
        issues := issues[i.newIssue :=
                         Issue(i.project, i.fingerprint, i.message, i.level, Unresolved, Summary(1, i.at, i.at), None)];
        issue := Some(i.newIssue);
      }
    }

    method UpsertServiceRow(key: ServiceKey, at: int, event: bool)
      modifies `services
      ensures services == old(services)[key := UpsertService(Lookup(old(services), key), at, event)]
    {
      var e, l := if event then 1 else 0, if event then 0 else 1;
      if key in services {
        var row := services[key];
        services := services[key := row.(events := row.events + e, logs := row.logs + l,
                                         first := Min(row.first, at), last := Max(row.last, at))];
      } else {
        services := services[key := Service(e, l, at, at)];
      }
    }

    method UpsertReleaseRow(key: ReleaseKey, at: int)
      modifies `releases
      ensures releases == old(releases)[key := UpsertRelease(Lookup(old(releases), key), at)]
    {
      if key in releases && releases[key].seen.Some? {
        var s := releases[key].seen.value;
        releases := releases[key := Release(Some(Summary(s.count + 1, Min(s.first, at), Max(s.last, at))))];
      } else {
        releases := releases[key := Release(Some(Summary(1, at, at)))];
      }
    }

    /** Storing one event with its three projections. */
    method PersistEvent(i: Incoming) returns (outcome: Outcome)
      requires Valid()
      modifies this
      ensures Valid()
      ensures outcome == IngestOutcome(old(View()), i) && View() == Ingest(old(View()), i)
    {
      if AllSpace(i.message) {
        return BadRequest;
      }
      if i.event in events {
        return if events[i.event].project == i.project then Duplicate else Conflict;
      }
      var issue := UpsertIssueRow(i);
      if issue.None? {
        return ConstraintViolation;
      }
      UpsertServiceRow(ServiceOf(i), i.at, true);
      events := events[i.event := EventOf(i, issue.value)];
      if i.release.Some? {
        UpsertReleaseRow(ReleaseKey(i.project, i.release.value), i.at);
      }
      IngestFingerprints(old(View()), i);
      return Done;
    }

    method InsertLog(line: LogLine) returns (ok: bool)
      modifies `services, `logs
      ensures ok <==> line.id !in old(logs)
      ensures ok ==> View() == AddLog(old(View()), line)
    {
      UpsertServiceRow(line.service, line.at, false);
      ok := line.id !in logs;
      if ok {
        logs := logs[line.id := Log(line.service, line.at, line.received)];
      }
    }

    /** A batch of logs in one transaction: one taken identifier undoes it all. */
    method PersistLogBatch(lines: seq<LogLine>) returns (outcome: Outcome)
      requires Valid()
      modifies this
      ensures Valid()
      ensures outcome == if FreshLines(old(View()), lines) then Done else ConstraintViolation
      ensures View() == if FreshLines(old(View()), lines) then AddLogs(old(View()), lines) else old(View())
    {
      var savedServices, savedLogs := services, logs;
      for k := 0 to |lines|
        invariant issues == old(issues) && events == old(events) && releases == old(releases)
        invariant AddLogs(View(), lines[k..]) == AddLogs(old(View()), lines)
        invariant FreshLines(View(), lines[k..]) <==> FreshLines(old(View()), lines)
      {
        FreshStep(View(), lines[k..]);
        assert lines[k..][0] == lines[k] && lines[k..][1..] == lines[k + 1..];
        var ok := InsertLog(lines[k]);
        if !ok {
          services, logs := savedServices, savedLogs;
          return ConstraintViolation;
        }
      }
      return Done;
    }

    /**
     The update of count and times of an issue from its events: fails when no event is left, as the times are not null.
     */
    method Recounted(issue: Uuid) returns (ok: bool)
      requires issue in issues
      modifies `issues
      ensures ok <==> EventsOf(View(), issue) != {}
      ensures issues == if ok then RecountIssue(old(View()), issue).issues else old(issues)
    {
      var own := set e | e in events && events[e].issue == issue;
      assert own == EventsOf(View(), issue);
      ok := own != {};
      if ok {
        var seen := Aggregate(own, events);
        issues := issues[issue := issues[issue].(seen := seen)];
      }
    }

    /** `DELETE FROM issues`, and the cascade to their events. */
    method Delete(ids: set<Uuid>)
      modifies `issues, `events
      ensures View() == DeleteIssues(old(View()), ids)
    {
      issues := issues - ids;
      events := map e | e in events && events[e].issue !in ids :: events[e];
    }

    /** `UPDATE events SET issue_id = … WHERE issue_id = ANY(…) AND project_id = …`. */
    method MoveFrom(target: Uuid, sources: set<Uuid>)
      requires target in issues
      modifies `events
      ensures View() == AfterMove(old(View()), target, sources)
    {
      var project := issues[target].project;
      events := map e | e in events ::
        if events[e].issue in sources && events[e].project == project then events[e].(issue := target) else events[e];
    }

    method MergeIssues(target: Uuid, sources: set<Uuid>) returns (outcome: Outcome)
      requires Valid()
      modifies this
      ensures Valid()
      ensures outcome == MergeOutcome(old(View()), target, sources) && View() == Merge(old(View()), target, sources)
    {
      if target !in issues {
        return NotFound;
      }
      if sources == {} {
        return BadRequest;
      }
      var savedEvents := events;
      var project := issues[target].project;
      MoveFrom(target, sources);
      var ok := Recounted(target);
      if !ok {
        events := savedEvents;
        return ConstraintViolation;
      }
      var absorbed := set id | id in sources && id in issues && issues[id].project == project;
      assert absorbed == Absorbed(old(View()), sources, project);
      Delete(absorbed);
      IssueMoves.MergeFingerprints(old(View()), target, sources);
      return Done;
    }

    method SplitIssue(issue: Uuid, chosen: set<Uuid>, fingerprint: string, title: Option<string>,
                      newIssue: Uuid) returns (outcome: Outcome)
      requires Valid()
      modifies this
      ensures Valid()
      ensures outcome == SplitOutcome(old(View()), issue, chosen, fingerprint, newIssue)
      ensures View() == Split(old(View()), issue, chosen, fingerprint, title, newIssue)
    {
      if issue !in issues {
        return NotFound;
      }
      var matching := set e | e in events && events[e].issue == issue && e in chosen;
      assert matching == Chosen(View(), issue, chosen);
      if chosen == {} || AllSpace(fingerprint) || matching == {} {
        return BadRequest;
      }
      var row := issues[issue];
      var taken := Find(row.project, fingerprint);
      if taken.Some? || newIssue in issues {
        return ConstraintViolation;
      }
      var seen := Aggregate(matching, events);
      issues := issues[newIssue := Issue(row.project, fingerprint, if title.Some? then title.value else row.title,
                                         row.level, Unresolved, seen, None)];
      events := map e | e in events :: if e in matching then events[e].(issue := newIssue) else events[e];
      assert View() == SplitMoved(old(View()), issue, chosen, fingerprint, title, newIssue);
      var remaining := Recounted(issue);
      if !remaining {
        Delete({issue});
      }
      IssueMoves.SplitIssues(old(View()), issue, chosen, fingerprint, title, newIssue);
      IssueMoves.SplitFingerprints(old(View()), View(), issue, chosen, fingerprint, newIssue);
      return Done;
    }

    method ChangeIssueFingerprint(issue: Uuid, fingerprint: string) returns (outcome: Outcome)
      requires Valid()
      modifies this
      ensures Valid()
      ensures outcome == ChangeOutcome(old(View()), issue, fingerprint) &&
              View() == ChangeFingerprint(old(View()), issue, fingerprint)
    {
      if issue !in issues {
        return NotFound;
      }
      if AllSpace(fingerprint) {
        return BadRequest;
      }
      var project := issues[issue].project;
      if other :| other in issues && other != issue && HasFingerprint(issues[other], project, fingerprint) {
        ghost var rest := issues - {issue};
        assert other in rest && HasFingerprint(rest[other], project, fingerprint);
        return ConstraintViolation;
      }
      issues := issues[issue := issues[issue].(fingerprint := fingerprint)];
      IssueMoves.ChangedFingerprints(old(View()), issue, fingerprint);
      return Done;
    }

    /** The four statuses by name; any other name is a bad request, and an unknown issue is not found. */
    method MarkIssueStatus(issue: Uuid, name: string) returns (outcome: Outcome)
      requires Valid()
      modifies this
      ensures Valid()
      ensures outcome ==
              (if StatusNamed(name).None? then BadRequest else if issue !in old(issues) then NotFound else Done)
      ensures View() ==
              if StatusNamed(name).Some? then SetStatus(old(View()), issue, StatusNamed(name).value) else old(View())
    {
      var status := StatusNamed(name);
      if status.None? {
        return BadRequest;
      }
      if issue !in issues {
        return NotFound;
      }
      issues := issues[issue := issues[issue].(status := status.value)];
      FewerFingerprints(old(View()), View());
      return Done;
    }

    /** Each deletion fails as a whole when the cutoff of a project it meets is no time. */
    method DeleteOldLogs(now: int, days: int, overrides: map<Uuid, nat>) returns (ok: bool)
      modifies `logs
      ensures ok <==> Computable(LogProjects(old(View())), now, days, overrides)
      ensures View() == if ok then DropLogs(old(View()), now, days, overrides) else old(View())
    {
      ok := CutoffsAreTimes(set l | l in logs :: logs[l].service.project, now, days, overrides);
      if ok {
        logs := map l | l in logs && !(logs[l].at < Cutoff(now, days, overrides, logs[l].service.project)) :: logs[l];
      }
    }

    method DeleteOldEvents(now: int, days: int, overrides: map<Uuid, nat>) returns (ok: bool)
      modifies `events
      ensures ok <==> Computable(EventProjects(old(View())), now, days, overrides)
      ensures View() == if ok then DropEvents(old(View()), now, days, overrides) else old(View())
    {
      ok := CutoffsAreTimes(set e | e in events :: events[e].project, now, days, overrides);
      if ok {
        events := map e | e in events && !(events[e].at < Cutoff(now, days, overrides, events[e].project)) :: events[e];
      }
    }

    /** Of the envelope items, only the cascade to their logs shows here. */
    method DeleteOldItems(now: int, days: int, overrides: map<Uuid, nat>, itemProjects: set<Uuid>) returns (ok: bool)
      modifies `logs
      ensures ok <==> Computable(LogProjects(old(View())) + itemProjects, now, days, overrides)
      ensures View() == if ok then DropItems(old(View()), now, days, overrides) else old(View())
    {
      ok := CutoffsAreTimes((set l | l in logs :: logs[l].service.project) + itemProjects, now, days, overrides);
      if ok {
        logs := map l | l in logs && !(logs[l].received < Cutoff(now, days, overrides, logs[l].service.project)) ::
              logs[l];
      }
    }

    method RunRetentionOnce(pass: Pass, days: int, overrides: map<Uuid, nat>) returns (ok: bool)
      requires Valid()
      modifies this
      ensures Valid()
      ensures ok <==> Statements(old(View()), pass, days, overrides) == 3
      ensures View() == Retain(old(View()), pass, days, overrides)
    {
      ok := DeleteOldLogs(pass.logs, days, overrides);
      if !ok {
        return;
      }
      ok := DeleteOldEvents(pass.events, days, overrides);
      if !ok {
        return;
      }
      ok := DeleteOldItems(pass.items, days, overrides, pass.itemProjects);
    }
  }
}
