/**
 The event tables and what each request does to them as one transaction: ingest (src/api.rs with
 src/telemetry.rs), merge, split, fingerprint and status changes (src/api.rs, src/alert.rs), logs
 (src/telemetry.rs), releases, and retention (src/operations.rs). Issues, services and releases are
 projections of the stored events. Times are microseconds.
 */
module EventStore {
  import opened Wrappers
  import opened DedupKeys
  import opened Projections
  import opened Fingerprinting

  const DAY: int := 86_400_000_000

  datatype Status = Unresolved | InProgress | Resolved | Ignored

  datatype Issue = Issue(project: Uuid, fingerprint: string, title: string, level: string, status: Status,
                         seen: Summary, regressedAt: Option<int>)

  /** Services are unique by project, name and environment, releases by project and version. */
  datatype ServiceKey = ServiceKey(project: Uuid, name: string, environment: string)
  datatype ReleaseKey = ReleaseKey(project: Uuid, version: string)

  datatype Service = Service(events: int, logs: int, first: int, last: int)

  /** A release can be registered before its first event. */
  datatype Release = Release(seen: Option<Summary>)

  datatype Event = Event(project: Uuid, issue: Uuid, service: ServiceKey, release: Option<string>,
                         level: string, environment: Option<string>, at: int)

  /** `received` is when the envelope item that the log came in was stored. */
  datatype Log = Log(service: ServiceKey, at: int, received: int)

  datatype Db = Db(issues: map<Uuid, Issue>, events: map<Uuid, Event>, services: map<ServiceKey, Service>,
                   releases: map<ReleaseKey, Release>, logs: map<Uuid, Log>)

  const EMPTY := Db(map[], map[], map[], map[], map[])

  datatype Outcome = Done | Duplicate | NotFound | BadRequest | Conflict | ConstraintViolation | Internal

  // ----- looking things up -----

  predicate HasFingerprint(i: Issue, project: Uuid, fingerprint: string)
  {
    i.project == project && i.fingerprint == fingerprint
  }

  /** The issue of a project with a fingerprint, by the unique constraint on the two. */
  ghost function FindIssue(issues: map<Uuid, Issue>, project: Uuid, fingerprint: string): (r: Option<Uuid>)
    ensures r.Some? ==> r.value in issues && HasFingerprint(issues[r.value], project, fingerprint)
    ensures r.None? ==> forall id :: id in issues ==> !HasFingerprint(issues[id], project, fingerprint)
  {
    if exists id :: id in issues && HasFingerprint(issues[id], project, fingerprint) then
      var id :| id in issues && HasFingerprint(issues[id], project, fingerprint);
      Some(id)
    else None
  }

  function EventTimes(db: Db): map<Uuid, int>
  {
    map e | e in db.events :: db.events[e].at
  }

  function EventsOf(db: Db, issue: Uuid): set<Uuid>
  {
    set e | e in db.events && db.events[e].issue == issue
  }

  // ----- ingest -----

  /** An event that passed parsing, scrubbing and fingerprinting, with the identifier a new issue would get. */
  datatype Incoming = Incoming(event: Uuid, project: Uuid, fingerprint: string, message: string, level: string,
                               service: string, environment: Option<string>, release: Option<string>, at: int,
                                   newIssue: Uuid)

  function ServiceOf(i: Incoming): ServiceKey
  {
    ServiceKey(i.project, i.service, if i.environment.Some? then i.environment.value else "default")
  }

  function EventOf(i: Incoming, issue: Uuid): Event
  {
    Event(i.project, issue, ServiceOf(i), i.release, i.level, i.environment, i.at)
  }

  function UpsertIssue(before: Option<Issue>, i: Incoming): Issue
  {
    match before
    case None => Issue(i.project, i.fingerprint, i.message, i.level, Unresolved, Summary(1, i.at, i.at), None)
    case Some(row) =>
      row.(seen := Plus(row.seen, i.at), level := i.level, title := i.message,
           regressedAt := if row.status == Resolved then Some(i.at) else row.regressedAt,
           status := if row.status == Resolved then Unresolved else row.status)
  }

  function UpsertService(before: Option<Service>, at: int, event: bool): Service
  {
    var one := if event then 1 else 0;
    match before
    case None => Service(one, 1 - one, at, at)
    case Some(row) => Service(row.events + one, row.logs + 1 - one, Min(row.first, at), Max(row.last, at))
  }

  function UpsertRelease(before: Option<Release>, at: int): Release
  {
    if before.Some? && before.value.seen.Some? then Release(Some(Plus(before.value.seen.value, at)))
    else Release(Some(Summary(1, at, at)))
  }

  function Lookup<K, V>(m: map<K, V>, k: K): Option<V>
  {
    if k in m then Some(m[k]) else None
  }

  ghost function IssueFor(db: Db, i: Incoming): Uuid
  {
    var found := FindIssue(db.issues, i.project, i.fingerprint);
    if found.Some? then found.value else i.newIssue
  }

  function AddRelease(releases: map<ReleaseKey, Release>, i: Incoming): map<ReleaseKey, Release>
  {
    if i.release.None? then releases
    else
      var key := ReleaseKey(i.project, i.release.value);
      releases[key := UpsertRelease(Lookup(releases, key), i.at)]
  }

  /** The four tables after a new event has been stored under an issue. */
  function Stored(db: Db, i: Incoming, issue: Uuid): Db
  {
    db.(issues := db.issues[issue := UpsertIssue(Lookup(db.issues, issue), i)],
        services := db.services[ServiceOf(i) := UpsertService(Lookup(db.services, ServiceOf(i)), i.at, true)],
        events := db.events[i.event := EventOf(i, issue)], releases := AddRelease(db.releases, i))
  }

  /** Whether the identifier for a new issue is needed and already taken. */
  ghost predicate Clashes(db: Db, i: Incoming)
  {
    FindIssue(db.issues, i.project, i.fingerprint).None? && i.newIssue in db.issues
  }

  ghost function IngestOutcome(db: Db, i: Incoming): Outcome
  {
    if AllSpace(i.message) then BadRequest
    else if i.event in db.events then (if db.events[i.event].project == i.project then Duplicate else Conflict)
    else if Clashes(db, i) then ConstraintViolation
    else Done
  }

  ghost function Ingest(db: Db, i: Incoming): Db
  {
    if IngestOutcome(db, i) == Done then Stored(db, i, IssueFor(db, i)) else db
  }

  // ----- logs and releases -----

  datatype LogLine = LogLine(id: Uuid, service: ServiceKey, at: int, received: int)

  function AddLog(db: Db, line: LogLine): Db
  {
    db.(services := db.services[line.service := UpsertService(Lookup(db.services, line.service), line.at, false)],
        logs := db.logs[line.id := Log(line.service, line.at, line.received)])
  }

  predicate FreshLines(db: Db, lines: seq<LogLine>)
  {
    && (forall k :: 0 <= k < |lines| ==> lines[k].id !in db.logs)
    && (forall j, k :: 0 <= j < k < |lines| ==> lines[j].id != lines[k].id)
  }

  function AddLogs(db: Db, lines: seq<LogLine>): Db
    decreases |lines|
  {
    if lines == [] then db else AddLogs(AddLog(db, lines[0]), lines[1..])
  }

  function RegisterRelease(db: Db, key: ReleaseKey): Db
  {
    if key in db.releases then db else db.(releases := db.releases[key := Release(None)])
  }

  // ----- issues -----

  function StatusNamed(name: string): Option<Status>
  {
    if name == "unresolved" then Some(Unresolved)
    else if name == "in_progress" then Some(InProgress)
    else if name == "resolved" then Some(Resolved)
    else if name == "ignored" then Some(Ignored)
    else None
  }

  function SetStatus(db: Db, issue: Uuid, status: Status): Db
  {
    if issue in db.issues then db.(issues := db.issues[issue := db.issues[issue].(status := status)]) else db
  }

  ghost function ChangeOutcome(db: Db, issue: Uuid, fingerprint: string): Outcome
  {
    if issue !in db.issues then NotFound
    else if AllSpace(fingerprint) then BadRequest
    else
      var taken := FindIssue(db.issues - {issue}, db.issues[issue].project, fingerprint);
      if taken.Some? then ConstraintViolation else Done
  }

  ghost function ChangeFingerprint(db: Db, issue: Uuid, fingerprint: string): Db
  {
    if ChangeOutcome(db, issue, fingerprint) == Done
    then db.(issues := db.issues[issue := db.issues[issue].(fingerprint := fingerprint)])
    else db
  }

  /** `DELETE FROM issues`, with the cascade of the foreign key of the events. */
  function DeleteIssues(db: Db, issues: set<Uuid>): Db
  {
    db.(issues := db.issues - issues, events := map e | e in db.events && db.events[e].issue !in issues :: db.events[e])
  }

  function MoveEvents(db: Db, moved: set<Uuid>, issue: Uuid): Db
  {
    db.(events := map e | e in db.events :: if e in moved then db.events[e].(issue := issue) else db.events[e])
  }

  /** The count and times of an issue taken from its events again; an issue without events has no times. */
  ghost function RecountIssue(db: Db, issue: Uuid): Db
    requires issue in db.issues && EventsOf(db, issue) != {}
  {
    db.(issues := db.issues[issue := db.issues[issue].(seen := Recount(EventsOf(db, issue), EventTimes(db)))])
  }

  function Mergeable(db: Db, sources: set<Uuid>, project: Uuid): set<Uuid>
  {
    set e | e in db.events && db.events[e].issue in sources && db.events[e].project == project
  }

  function Absorbed(db: Db, sources: set<Uuid>, project: Uuid): set<Uuid>
  {
    set id | id in sources && id in db.issues && db.issues[id].project == project
  }

  function AfterMove(db: Db, target: Uuid, sources: set<Uuid>): Db
    requires target in db.issues
  {
    MoveEvents(db, Mergeable(db, sources, db.issues[target].project), target)
  }

  function MergeOutcome(db: Db, target: Uuid, sources: set<Uuid>): Outcome
  {
    if target !in db.issues then NotFound
    else if sources == {} then BadRequest
    else if EventsOf(AfterMove(db, target, sources), target) == {} then ConstraintViolation
    else Done
  }

  ghost function Merge(db: Db, target: Uuid, sources: set<Uuid>): Db
  {
    if MergeOutcome(db, target, sources) != Done then db
    else
      var moved := AfterMove(db, target, sources);
      DeleteIssues(RecountIssue(moved, target), Absorbed(db, sources, db.issues[target].project))
  }

  function Chosen(db: Db, issue: Uuid, chosen: set<Uuid>): set<Uuid>
  {
    EventsOf(db, issue) * chosen
  }

  ghost function SplitOutcome(db: Db, issue: Uuid, chosen: set<Uuid>, fingerprint: string, newIssue: Uuid): Outcome
  {
    if issue !in db.issues then NotFound
    else if chosen == {} || AllSpace(fingerprint) || Chosen(db, issue, chosen) == {} then BadRequest
    else if FindIssue(db.issues, db.issues[issue].project, fingerprint).Some? ||
        newIssue in db.issues then ConstraintViolation
    else Done
  }

  /** The issue that a split creates. */
  ghost function SplitOff(db: Db, issue: Uuid, chosen: set<Uuid>, fingerprint: string, title: Option<string>): Issue
    requires issue in db.issues && Chosen(db, issue, chosen) != {}
  {
    var row := db.issues[issue];
    Issue(row.project, fingerprint, if title.Some? then title.value else row.title, row.level, Unresolved,
          Recount(Chosen(db, issue, chosen), EventTimes(db)), None)
  }

  ghost function SplitMoved(db: Db, issue: Uuid, chosen: set<Uuid>, fingerprint: string, title: Option<string>,
                            newIssue: Uuid): Db
    requires issue in db.issues && Chosen(db, issue, chosen) != {}
  {
    MoveEvents(db.(issues := db.issues[newIssue := SplitOff(db, issue, chosen, fingerprint, title)]),
               Chosen(db, issue, chosen), newIssue)
  }

  ghost function Split(db: Db, issue: Uuid, chosen: set<Uuid>, fingerprint: string, title: Option<string>,
                       newIssue: Uuid): Db
  {
    if SplitOutcome(db, issue, chosen, fingerprint, newIssue) != Done then db
    else
      var moved := SplitMoved(db, issue, chosen, fingerprint, title, newIssue);
      if EventsOf(moved, issue) == {} then DeleteIssues(moved, {issue}) else RecountIssue(moved, issue)
  }

  // ----- retention -----

  const I32_RANGE: int := 0x1_0000_0000

  /** A 64-bit number of days cast to 32 bits. */
  function Truncated(days: int): int
  {
    (days + I32_RANGE / 2) % I32_RANGE - I32_RANGE / 2
  }

  /** How many days of records a project keeps: its own number, or else the general one, at least one, as it arrives. */
  function KeptDays(days: int, overrides: map<Uuid, nat>, project: Uuid): int
  {
    if project in overrides then overrides[project] else Truncated(Max(days, 1))
  }

  /** The time before which the records of a project are dropped. */
  function Cutoff(now: int, days: int, overrides: map<Uuid, nat>, project: Uuid): int
  {
    now - KeptDays(days, overrides, project) * DAY
  }

  /**
   The times that the database can represent, 4713 BC to 294276 AD (PostgreSQL documentation, section 8.5, "Date/Time
   Types"), in microseconds from the beginning of the year 2000.
   */
  const EARLIEST: int := -211_813_488_000_000_000
  const LATEST: int := 9_223_371_331_200_000_000

  predicate Representable(time: int)
  {
    EARLIEST <= time < LATEST
  }

  /** A statement fails as a whole when it meets a record of a project whose cutoff is no time. */
  predicate Computable(projects: set<Uuid>, now: int, days: int, overrides: map<Uuid, nat>)
  {
    forall p {:trigger Cutoff(now, days, overrides, p)} :: p in projects ==>
          Representable(Cutoff(now, days, overrides, p))
  }

  function LogProjects(db: Db): set<Uuid>
  {
    set l | l in db.logs :: db.logs[l].service.project
  }

  function EventProjects(db: Db): set<Uuid>
  {
    set e | e in db.events :: db.events[e].project
  }

  function DropLogs(db: Db, now: int, days: int, overrides: map<Uuid, nat>): Db
  {
    db.(logs := map l | l in db.logs && db.logs[l].at >= Cutoff(now, days, overrides, db.logs[l].service.project) ::
        db.logs[l])
  }

  function DropEvents(db: Db, now: int, days: int, overrides: map<Uuid, nat>): Db
  {
    db.(events := map e | e in db.events && db.events[e].at >= Cutoff(now, days, overrides, db.events[e].project) ::
        db.events[e])
  }

  /** Deleting envelope items takes the logs they brought along, whatever time these carry. */
  function DropItems(db: Db, now: int, days: int, overrides: map<Uuid, nat>): Db
  {
    db.(logs := map l | l in db.logs &&
        db.logs[l].received >= Cutoff(now, days, overrides, db.logs[l].service.project) :: db.logs[l])
  }

  /**
   One retention pass: the clock at each of its three statements, and the projects with envelope items besides logs.
   */
  datatype Pass = Pass(logs: int, events: int, items: int, itemProjects: set<Uuid>)

  /**
   How many of the three statements succeed; the first that fails ends the pass, and what was dropped stays dropped.
   */
  function Statements(db: Db, pass: Pass, days: int, overrides: map<Uuid, nat>): nat
  {
    if !Computable(LogProjects(db), pass.logs, days, overrides) then 0
    else if !Computable(EventProjects(db), pass.events, days, overrides) then 1
    else if !Computable(LogProjects(DropLogs(db, pass.logs, days, overrides)) + pass.itemProjects, pass.items, days,
                        overrides) then 2
    else 3
  }

  function Retain(db: Db, pass: Pass, days: int, overrides: map<Uuid, nat>): Db
  {
    var n := Statements(db, pass, days, overrides);
    var a := if n >= 1 then DropLogs(db, pass.logs, days, overrides) else db;
    var b := if n >= 2 then DropEvents(a, pass.events, days, overrides) else a;
    if n >= 3 then DropItems(b, pass.items, days, overrides) else b
  }

  // ----- runs -----

  datatype Op =
    | IngestOp(incoming: Incoming)
    | LogsOp(lines: seq<LogLine>)
    | ReleaseOp(release: ReleaseKey)
    | StatusOp(issue: Uuid, status: Status)
    | FingerprintOp(issue: Uuid, fingerprint: string)
    | MergeOp(target: Uuid, sources: set<Uuid>)
    | SplitOp(issue: Uuid, chosen: set<Uuid>, fingerprint: string, title: Option<string>, newIssue: Uuid)
    | RetainOp(pass: Pass, days: int, overrides: map<Uuid, nat>)

  ghost function Do(db: Db, op: Op): Db
  {
    match op
    case IngestOp(i) => Ingest(db, i)
    case LogsOp(lines) => if FreshLines(db, lines) then AddLogs(db, lines) else db
    case ReleaseOp(key) => RegisterRelease(db, key)
    case StatusOp(issue, status) => SetStatus(db, issue, status)
    case FingerprintOp(issue, fingerprint) => ChangeFingerprint(db, issue, fingerprint)
    case MergeOp(target, sources) => Merge(db, target, sources)
    case SplitOp(issue, chosen, fingerprint, title, newIssue) => Split(db, issue, chosen, fingerprint, title, newIssue)
    case RetainOp(pass, days, overrides) => Retain(db, pass, days, overrides)
  }

  ghost function DoAll(db: Db, ops: seq<Op>): Db
    decreases |ops|
  {
    if ops == [] then db else DoAll(Do(db, ops[0]), ops[1..])
  }

  /** The operations that never remove an event: no retention, and no issue merged into itself. */
  predicate Lossless(op: Op)
  {
    match op
    case RetainOp(_, _, _) => false
    case MergeOp(target, sources) => target !in sources
    case _ => true
  }
}
