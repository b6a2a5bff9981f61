/**
 Ingest requests as concurrent transactions (src/api.rs:366-435). A transaction takes the advisory lock of its
 event id, looks the event up, and upserts the issue, the service and the release; each upsert locks its row,
 or the key of a row to be, until the transaction ends, and computes from the committed row. Its writes are
 visible to others only when it commits, and it can abort anywhere. RuleLocks adds the locks on alert rules, which
 come last.
 */
module IngestTransactions {
  import opened Wrappers
  import opened DedupKeys
  import opened Fingerprinting
  import opened EventStore
  import opened EventStoreLaws
  import IssueMoves
  import EventStoreRuns

  type Tx = nat

  /** How far a transaction has come, and what it has written so far. */
  datatype Phase =
    | Started
    | Locked
    | Checked
    | Counted(id: Uuid, issue: Issue)
    | Served(id: Uuid, issue: Issue, service: Service)
    | Inserted(id: Uuid, issue: Issue, service: Service, stored: bool)
    | Finished(id: Uuid, issue: Issue, service: Service, stored: bool, release: Option<Release>)
    | Answered(outcome: Outcome)

  datatype Txn = Txn(i: Incoming, phase: Phase)

  /** `history` lists the committed requests in the order of their commits. */
  datatype State = State(db: Db, running: map<Tx, Txn>, history: seq<Op>)

  datatype Step =
    | Begin(tx: Tx, i: Incoming)
    | Advance(tx: Tx)
    | Commit(tx: Tx)
    | Abort(tx: Tx)
    | Mark(issue: Uuid, status: Status)

  // ----- locks -----

  /** The advisory lock is on a hash of the event id, so that different events may share it. */
  datatype Lock =
    | EventLock(hash: int)
    | IssueLock(project: Uuid, fingerprint: string)
    | ServiceLock(service: ServiceKey)
    | ReleaseLock(release: ReleaseKey)

  type Hash = Uuid -> int

  function Rank(p: Phase): nat
  {
    match p
    case Started => 0
    case Locked => 1
    case Checked => 2
    case Counted(_, _) => 3
    case Served(_, _, _) => 4
    case Inserted(_, _, _, _) => 5
    case Finished(_, _, _, _, _) => 6
    case Answered(_) => 1
  }

  predicate Holds(x: Txn, l: Lock, h: Hash)
  {
    match l
    case EventLock(hash) => Rank(x.phase) >= 1 && h(x.i.event) == hash
    case IssueLock(project, fingerprint) =>
      Rank(x.phase) >= 3 && x.i.project == project && x.i.fingerprint == fingerprint
    case ServiceLock(service) => Rank(x.phase) >= 4 && ServiceOf(x.i) == service
    case ReleaseLock(release) =>
      Rank(x.phase) >= 6 && x.i.project == release.project && x.i.release == Some(release.version)
  }

  ghost predicate Free(s: State, tx: Tx, l: Lock, h: Hash)
  {
    forall other {:trigger s.running[other]} :: other in s.running && other != tx ==> !Holds(s.running[other], l, h)
  }

  function NextLock(x: Txn, h: Hash): Option<Lock>
  {
    match x.phase
    case Started => Some(EventLock(h(x.i.event)))
    case Checked => Some(IssueLock(x.i.project, x.i.fingerprint))
    case Counted(_, _) => Some(ServiceLock(ServiceOf(x.i)))
    case Inserted(_, _, _, _) =>
      if x.i.release.Some? then Some(ReleaseLock(ReleaseKey(x.i.project, x.i.release.value))) else None
    case _ => None
  }

  // ----- the steps -----

  /** The next statement of a transaction, on the committed tables. */
  ghost function NextPhase(db: Db, x: Txn): Phase
  {
    match x.phase
    case Started => Locked
    case Locked =>
      if x.i.event !in db.events then Checked
      else Answered(if db.events[x.i.event].project == x.i.project then Duplicate else Conflict)
    case Checked => Counted(IssueFor(db, x.i), UpsertIssue(Lookup(db.issues, IssueFor(db, x.i)), x.i))
    case Counted(id, issue) => Served(id, issue, UpsertService(Lookup(db.services, ServiceOf(x.i)), x.i.at, true))
    case Served(id, issue, service) => Inserted(id, issue, service, x.i.event !in db.events)
    case Inserted(id, issue, service, stored) => Finished(id, issue, service, stored, ReleaseRow(db, x.i))
    case _ => x.phase
  }

  function ReleaseRow(db: Db, i: Incoming): Option<Release>
  {
    if i.release.None? then None
    else Some(UpsertRelease(Lookup(db.releases, ReleaseKey(i.project, i.release.value)), i.at))
  }

  predicate Over(p: Phase)
  {
    p.Finished? || p.Answered?
  }

  /** The identifiers of new issues are new. */
  ghost predicate FreshIssue(s: State, i: Incoming)
  {
    && i.newIssue !in s.db.issues
    && forall tx {:trigger s.running[tx]} :: tx in s.running ==> s.running[tx].i.newIssue != i.newIssue
  }

  ghost predicate Enabled(s: State, step: Step, h: Hash)
  {
    match step
    case Begin(tx, i) => tx !in s.running && !AllSpace(i.message) && FreshIssue(s, i)
    case Advance(tx) =>
      && tx in s.running && !Over(s.running[tx].phase)
      && (NextLock(s.running[tx], h).Some? ==> Free(s, tx, NextLock(s.running[tx], h).value, h))
    case Commit(tx) => tx in s.running && Over(s.running[tx].phase)
    case Abort(tx) => tx in s.running
    case Mark(issue, _) =>
      issue in s.db.issues && forall tx {:trigger s.running[tx]} :: tx in s.running ==>
        !Holds(s.running[tx], IssueLock(s.db.issues[issue].project, s.db.issues[issue].fingerprint), h)
  }

  /** The committed tables with the writes of a transaction. */
  function Written(db: Db, x: Txn): Db
  {
    if !x.phase.Finished? then db
    else
      var p := x.phase;
      db.(issues := db.issues[p.id := p.issue],
          services := db.services[ServiceOf(x.i) := p.service],
          events := if p.stored then db.events[x.i.event := EventOf(x.i, p.id)] else db.events,
          releases := if p.release.Some? && x.i.release.Some?
                      then db.releases[ReleaseKey(x.i.project, x.i.release.value) := p.release.value] else db.releases)
  }

  ghost function Apply(s: State, step: Step, h: Hash): State
    requires Enabled(s, step, h)
  {
    match step
    case Begin(tx, i) => s.(running := s.running[tx := Txn(i, Started)])
    case Advance(tx) => s.(running := s.running[tx := s.running[tx].(phase := NextPhase(s.db, s.running[tx]))])
    case Commit(tx) => State(Written(s.db, s.running[tx]), s.running - {tx}, s.history + [IngestOp(s.running[tx].i)])
    case Abort(tx) => s.(running := s.running - {tx})
    case Mark(issue, status) => s.(db := SetStatus(s.db, issue, status),
                                   history := s.history + [StatusOp(issue, status)])
  }

  ghost predicate Run(s: State, steps: seq<Step>, t: State, h: Hash)
    decreases |steps|
  {
    if steps == [] then s == t
    else Enabled(s, steps[0], h) && Run(Apply(s, steps[0], h), steps[1..], t, h)
  }

  ghost predicate Initial(s: State)
  {
    s == State(EMPTY, map[], [])
  }

  // ----- what every step keeps -----

  /** What a transaction has read and written still fits the committed tables. */
  ghost predicate Consistent(db: Db, x: Txn)
  {
    var i, p := x.i, x.phase;
    && !AllSpace(i.message) && i.newIssue !in db.issues
    && (Rank(p) >= 2 ==> i.event !in db.events)
    && (Rank(p) >= 3 ==> p.id == IssueFor(db, i) && p.issue == UpsertIssue(Lookup(db.issues, IssueFor(db, i)), i))
    && (Rank(p) >= 4 ==> p.service == UpsertService(Lookup(db.services, ServiceOf(i)), i.at, true))
    && (Rank(p) >= 5 ==> p.stored)
    && (Rank(p) >= 6 ==> p.release == ReleaseRow(db, i))
    && (p.Answered? ==> i.event in db.events && p.outcome == IngestOutcome(db, i))
  }

  /** Two running transactions hold no lock in common, and would create different issues. */
  ghost predicate Apart(x: Txn, y: Txn, h: Hash)
  {
    && x.i.newIssue != y.i.newIssue
    && forall l {:trigger Holds(x, l, h)} {:trigger Holds(y, l, h)} :: !(Holds(x, l, h) && Holds(y, l, h))
  }

  /** A transaction that commits acts as one atomic ingest on the tables it finds then. */
  lemma CommitIsIngest(db: Db, x: Txn)
    requires Consistent(db, x) && Over(x.phase)
    ensures Written(db, x) == Ingest(db, x.i)
    ensures x.phase.Answered? ==> x.phase.outcome == IngestOutcome(db, x.i)
    ensures x.phase.Finished? ==> IngestOutcome(db, x.i) == Done
  {
  }

  // ----- one step -----

  lemma FindSame(issues: map<Uuid, Issue>, issues': map<Uuid, Issue>, db: Db, t: Db, project: Uuid, fingerprint: string)
    requires db.issues == issues && t.issues == issues' && FingerprintsUnique(db) && FingerprintsUnique(t)
    requires forall id :: (id in issues && HasFingerprint(issues[id], project, fingerprint)) <==>
                          (id in issues' && HasFingerprint(issues'[id], project, fingerprint))
    ensures FindIssue(issues, project, fingerprint) == FindIssue(issues', project, fingerprint)
  {
    var a, b := FindIssue(issues, project, fingerprint), FindIssue(issues', project, fingerprint);
    if a.Some? && b.Some? {
      assert HasFingerprint(issues[b.value], project, fingerprint);
      assert SameFingerprint(issues[a.value], issues[b.value]);
    }
  }

  /** The commit of one transaction leaves the issue alone that another one has locked. */
  lemma CommitKeepsIssue(db: Db, a: Txn, b: Txn)
    requires a.phase.Finished? && Consistent(db, a) && Consistent(db, b) && Rank(b.phase) >= 3
    requires FingerprintsUnique(db) && FingerprintsUnique(Written(db, a))
    requires a.i.newIssue != b.i.newIssue && !(a.i.project == b.i.project && a.i.fingerprint == b.i.fingerprint)
    ensures IssueFor(Written(db, a), b.i) == IssueFor(db, b.i)
    ensures Lookup(Written(db, a).issues, IssueFor(db, b.i)) == Lookup(db.issues, IssueFor(db, b.i))
  {
    var t := Written(db, a);
    var id := a.phase.id;
    assert t.issues == db.issues[id := a.phase.issue];
    assert a.phase.issue.project == a.i.project && a.phase.issue.fingerprint == a.i.fingerprint;
    forall x
      ensures (x in db.issues && HasFingerprint(db.issues[x], b.i.project, b.i.fingerprint)) <==>
              (x in t.issues && HasFingerprint(t.issues[x], b.i.project, b.i.fingerprint))
    {
      if x == id && x in db.issues {
        assert HasFingerprint(db.issues[x], a.i.project, a.i.fingerprint);
      }
    }
    FindSame(db.issues, t.issues, db, t, b.i.project, b.i.fingerprint);
    assert IssueFor(db, b.i) != id;
  }

  lemma CommitKeepsRows(db: Db, a: Txn, b: Txn, h: Hash)
    requires a.phase.Finished? && Consistent(db, a) && Consistent(db, b) && Apart(a, b, h)
    ensures b.i.newIssue !in Written(db, a).issues
    ensures Rank(b.phase) >= 2 ==> b.i.event !in Written(db, a).events
    ensures Rank(b.phase) >= 4 ==>
              Lookup(Written(db, a).services, ServiceOf(b.i)) == Lookup(db.services, ServiceOf(b.i))
    ensures Rank(b.phase) >= 6 ==> ReleaseRow(Written(db, a), b.i) == ReleaseRow(db, b.i)
  {
    assert Holds(a, EventLock(h(a.i.event)), h) && Holds(a, ServiceLock(ServiceOf(a.i)), h);
    if a.i.release.Some? {
      assert Holds(a, ReleaseLock(ReleaseKey(a.i.project, a.i.release.value)), h);
    }
  }

  lemma IngestKeepsEvent(db: Db, i: Incoming, j: Incoming)
    requires j.event in db.events && !AllSpace(j.message)
    ensures IngestOutcome(Ingest(db, i), j) == IngestOutcome(db, j) && j.event in Ingest(db, i).events
  {
  }

  lemma CommitKeepsConsistent(db: Db, a: Txn, b: Txn, h: Hash)
    requires Over(a.phase) && Consistent(db, a) && Consistent(db, b) && Apart(a, b, h)
    requires FingerprintsUnique(db) && FingerprintsUnique(Written(db, a))
    ensures Consistent(Written(db, a), b)
  {
    if a.phase.Finished? {
      CommitKeepsRows(db, a, b, h);
      if Rank(b.phase) >= 3 {
        assert Holds(a, IssueLock(a.i.project, a.i.fingerprint), h);
        CommitKeepsIssue(db, a, b);
      }
      if b.phase.Answered? {
        CommitIsIngest(db, a);
        IngestKeepsEvent(db, a.i, b.i);
      }
    }
  }

  lemma MarkKeepsConsistent(db: Db, b: Txn, issue: Uuid, status: Status, h: Hash)
    requires issue in db.issues && Consistent(db, b) && FingerprintsUnique(db) &&
             FingerprintsUnique(SetStatus(db, issue, status))
    requires !Holds(b, IssueLock(db.issues[issue].project, db.issues[issue].fingerprint), h)
    ensures Consistent(SetStatus(db, issue, status), b)
  {
    var t := SetStatus(db, issue, status);
    FindSame(db.issues, t.issues, db, t, b.i.project, b.i.fingerprint);
    if Rank(b.phase) >= 3 {
      assert IssueFor(db, b.i) != issue;
    }
  }

  lemma AdvanceKeepsConsistent(db: Db, x: Txn)
    requires Consistent(db, x) && !Over(x.phase)
    ensures Consistent(db, x.(phase := NextPhase(db, x)))
  {
  }

  /** The only lock that a statement adds is the one it waited for. */
  lemma AdvanceTakesNextLock(db: Db, x: Txn, l: Lock, h: Hash)
    requires !Over(x.phase) && Holds(x.(phase := NextPhase(db, x)), l, h)
    ensures Holds(x, l, h) || NextLock(x, h) == Some(l)
  {
  }

  lemma AdvanceKeepsApart(s: State, tx: Tx, other: Tx, h: Hash)
    requires Enabled(s, Advance(tx), h) && other in s.running && other != tx &&
             Apart(s.running[tx], s.running[other], h)
    ensures Apart(s.running[tx].(phase := NextPhase(s.db, s.running[tx])), s.running[other], h)
  {
    var x, y := s.running[tx], s.running[other];
    var x' := x.(phase := NextPhase(s.db, x));
    forall l {:trigger Holds(x', l, h)} {:trigger Holds(y, l, h)} ensures !(Holds(x', l, h) && Holds(y, l, h)) {
      if Holds(x', l, h) {
        AdvanceTakesNextLock(s.db, x, l, h);
        assert Holds(x, l, h) ==> !Holds(y, l, h);
      }
    }
  }

  lemma ApartIsSymmetric(x: Txn, y: Txn, h: Hash)
    requires Apart(x, y, h)
    ensures Apart(y, x, h)
  {
    forall l {:trigger Holds(x, l, h)} {:trigger Holds(y, l, h)} ensures !(Holds(y, l, h) && Holds(x, l, h)) {}
  }

  // ----- every step -----

  ghost predicate AllConsistent(s: State)
  {
    forall tx {:trigger s.running[tx]} :: tx in s.running ==> Consistent(s.db, s.running[tx])
  }

  ghost predicate AllApart(s: State, h: Hash)
  {
    forall a, b {:trigger s.running[a], s.running[b]} :: a in s.running && b in s.running && a != b ==>
          Apart(s.running[a], s.running[b], h)
  }

  /** The committed tables are those of the requests in `history`, one after the other. */
  ghost predicate Serial(s: State)
  {
    && Agrees(s.db, true) && s.db == DoAll(EMPTY, s.history)
    && forall k {:trigger s.history[k]} :: 0 <= k < |s.history| ==> Lossless(s.history[k])
  }

  lemma BeginKeeps(s: State, tx: Tx, i: Incoming, h: Hash)
    requires AllConsistent(s) && AllApart(s, h) && Enabled(s, Begin(tx, i), h)
    ensures AllConsistent(Apply(s, Begin(tx, i), h)) && AllApart(Apply(s, Begin(tx, i), h), h)
  {
    var t := Apply(s, Begin(tx, i), h);
    forall a, b {:trigger t.running[a], t.running[b]} | a in t.running && b in t.running && a != b
      ensures Apart(t.running[a], t.running[b], h)
    {
      if a != tx {
        assert s.running[a].i.newIssue != i.newIssue;
      }
      if b != tx {
        assert s.running[b].i.newIssue != i.newIssue;
      }
    }
  }

  lemma AdvanceKeeps(s: State, tx: Tx, h: Hash)
    requires AllConsistent(s) && AllApart(s, h) && Enabled(s, Advance(tx), h)
    ensures AllConsistent(Apply(s, Advance(tx), h)) && AllApart(Apply(s, Advance(tx), h), h)
  {
    var t := Apply(s, Advance(tx), h);
    AdvanceKeepsConsistent(s.db, s.running[tx]);
    forall a, b {:trigger t.running[a], t.running[b]} | a in t.running && b in t.running && a != b
      ensures Apart(t.running[a], t.running[b], h)
    {
      assert Apart(s.running[a], s.running[b], h) && Apart(s.running[b], s.running[a], h);
      if a == tx {
        AdvanceKeepsApart(s, tx, b, h);
      } else if b == tx {
        AdvanceKeepsApart(s, tx, a, h);
        ApartIsSymmetric(t.running[b], t.running[a], h);
      }
    }
  }

  lemma {:induction false} DoAllAppend(db: Db, ops: seq<Op>, op: Op)
    ensures DoAll(db, ops + [op]) == Do(DoAll(db, ops), op)
    decreases |ops|
  {
    if ops == [] {
      assert ops + [op] == [op];
      assert DoAll(Do(db, op), []) == Do(db, op);
    } else {
      assert (ops + [op])[1..] == ops[1..] + [op];
      DoAllAppend(Do(db, ops[0]), ops[1..], op);
    }
  }

  /** A commit is one atomic ingest, at the end of the history. */
  lemma CommitIsSerial(s: State, tx: Tx, h: Hash)
    requires AllConsistent(s) && Serial(s) && Enabled(s, Commit(tx), h)
    ensures Serial(Apply(s, Commit(tx), h))
    ensures Apply(s, Commit(tx), h).db == Ingest(s.db, s.running[tx].i)
  {
    hide Linked, FingerprintsUnique, IssuesAgree, ServicesAgree, ReleasesAgree;
    var i := s.running[tx].i;
    CommitIsIngest(s.db, s.running[tx]);
    IngestAgrees(s.db, true, i);
    DoAllAppend(EMPTY, s.history, IngestOp(i));
  }

  lemma CommitKeeps(s: State, tx: Tx, h: Hash)
    requires AllConsistent(s) && AllApart(s, h) && Serial(s) && Enabled(s, Commit(tx), h)
    ensures AllConsistent(Apply(s, Commit(tx), h)) && AllApart(Apply(s, Commit(tx), h), h)
  {
    var t := Apply(s, Commit(tx), h);
    CommitIsSerial(s, tx, h);
    forall b {:trigger t.running[b]} | b in t.running ensures Consistent(t.db, t.running[b]) {
      assert Apart(s.running[tx], s.running[b], h);
      CommitKeepsConsistent(s.db, s.running[tx], s.running[b], h);
    }
    forall a, b {:trigger t.running[a], t.running[b]} | a in t.running && b in t.running && a != b
      ensures Apart(t.running[a], t.running[b], h)
    {
      assert t.running[a] == s.running[a] && t.running[b] == s.running[b];
    }
  }

  lemma AbortKeeps(s: State, tx: Tx, h: Hash)
    requires AllConsistent(s) && AllApart(s, h) && Enabled(s, Abort(tx), h)
    ensures AllConsistent(Apply(s, Abort(tx), h)) && AllApart(Apply(s, Abort(tx), h), h)
    ensures Apply(s, Abort(tx), h).db == s.db
  {
    var t := Apply(s, Abort(tx), h);
    forall a, b {:trigger t.running[a], t.running[b]} | a in t.running && b in t.running && a != b
      ensures Apart(t.running[a], t.running[b], h)
    {
      assert t.running[a] == s.running[a] && t.running[b] == s.running[b];
    }
  }

  lemma MarkKeeps(s: State, issue: Uuid, status: Status, h: Hash)
    requires AllConsistent(s) && Serial(s) && Enabled(s, Mark(issue, status), h)
    ensures AllConsistent(Apply(s, Mark(issue, status), h)) && Serial(Apply(s, Mark(issue, status), h))
  {
    var t := Apply(s, Mark(issue, status), h);
    IssueMoves.StatusAgrees(s.db, true, issue, status);
    DoAllAppend(EMPTY, s.history, StatusOp(issue, status));
    forall b {:trigger t.running[b]} | b in t.running ensures Consistent(t.db, t.running[b]) {
      MarkKeepsConsistent(s.db, s.running[b], issue, status, h);
    }
  }

  lemma StepKeepsInvariant(s: State, step: Step, h: Hash)
    requires AllConsistent(s) && AllApart(s, h) && Serial(s) && Enabled(s, step, h)
    ensures AllConsistent(Apply(s, step, h)) && AllApart(Apply(s, step, h), h) && Serial(Apply(s, step, h))
  {
    match step
    case Begin(tx, i) => BeginKeeps(s, tx, i, h);
    case Advance(tx) => AdvanceKeeps(s, tx, h);
    case Commit(tx) => CommitKeeps(s, tx, h); CommitIsSerial(s, tx, h);
    case Abort(tx) => AbortKeeps(s, tx, h);
    case Mark(issue, status) => MarkKeeps(s, issue, status, h);
  }

  lemma {:induction false} RunKeepsInvariant(s: State, steps: seq<Step>, t: State, h: Hash)
    requires AllConsistent(s) && AllApart(s, h) && Serial(s) && Run(s, steps, t, h)
    ensures AllConsistent(t) && AllApart(t, h) && Serial(t)
    decreases |steps|
  {
    if steps != [] {
      StepKeepsInvariant(s, steps[0], h);
      RunKeepsInvariant(Apply(s, steps[0], h), steps[1..], t, h);
    }
  }

  // ----- what it means -----

  /** What every reachable state keeps. */
  ghost predicate Sound(s: State, h: Hash)
  {
    AllConsistent(s) && AllApart(s, h) && Serial(s)
  }

  lemma ReachedIsSound(s: State, steps: seq<Step>, t: State, h: Hash)
    requires Initial(s) && Run(s, steps, t, h)
    ensures Sound(t, h)
  {
    RunKeepsInvariant(s, steps, t, h);
  }

  /**
   However transactions interleave and wherever they abort, the committed tables are those of the committed
   requests one after the other in the order of their commits, so that every projection is exact.
   */
  lemma ConcurrentIngestIsSerial(s: State, steps: seq<Step>, t: State, h: Hash)
    requires Initial(s) && Run(s, steps, t, h)
    ensures t.db == DoAll(EMPTY, t.history) && Agrees(t.db, true)
    ensures forall k {:trigger t.history[k]} :: 0 <= k < |t.history| ==> Lossless(t.history[k])
  {
    hide Agrees, Run, DoAll;
    ReachedIsSound(s, steps, t, h);
  }

  /** Whenever a transaction reaches the insert of its event, the insert stores it: its `ON CONFLICT` never fires. */
  lemma InsertNeverConflicts(s: State, steps: seq<Step>, t: State, tx: Tx, h: Hash)
    requires Initial(s) && Run(s, steps, t, h) && tx in t.running
    ensures t.running[tx].phase.Served? ==> t.running[tx].i.event !in t.db.events
    ensures t.running[tx].phase.Inserted? || t.running[tx].phase.Finished? ==> t.running[tx].phase.stored
  {
    hide Agrees, Run, DoAll, AllApart, Serial;
    ReachedIsSound(s, steps, t, h);
    assert Consistent(t.db, t.running[tx]);
  }

  /** A request that commits gets the answer of a request alone at that moment. */
  lemma AnswersAreSerial(s: State, steps: seq<Step>, t: State, tx: Tx, h: Hash)
    requires Initial(s) && Run(s, steps, t, h) && tx in t.running && Over(t.running[tx].phase)
    ensures IngestOutcome(t.db, t.running[tx].i) ==
            if t.running[tx].phase.Finished? then Done else t.running[tx].phase.outcome
    ensures Apply(t, Commit(tx), h).db == Ingest(t.db, t.running[tx].i)
    ensures Apply(t, Abort(tx), h).db == t.db
  {
    hide Agrees, Run, DoAll, AllApart, Serial, IngestOutcome, Ingest, Written;
    ReachedIsSound(s, steps, t, h);
    assert Consistent(t.db, t.running[tx]);
    CommitIsIngest(t.db, t.running[tx]);
  }

  /** Whether the request at a place of a history stores an event. */
  ghost predicate Stores(ops: seq<Op>, k: nat, event: Uuid)
    requires k < |ops|
  {
    ops[k].IngestOp? && ops[k].incoming.event == event && IngestOutcome(DoAll(EMPTY, ops[..k]), ops[k].incoming) == Done
  }

  lemma DoPrefix(ops: seq<Op>, k: nat)
    requires k < |ops|
    ensures DoAll(EMPTY, ops[..k + 1]) == Do(DoAll(EMPTY, ops[..k]), ops[k])
  {
    assert ops[..k + 1] == ops[..k] + [ops[k]];
    DoAllAppend(EMPTY, ops[..k], ops[k]);
  }

  lemma {:induction false} StoredStays(ops: seq<Op>, j: nat, k: nat, event: Uuid)
    requires j < k <= |ops| && Stores(ops, j, event)
    requires forall n {:trigger ops[n]} :: 0 <= n < |ops| ==> Lossless(ops[n])
    ensures event in DoAll(EMPTY, ops[..k]).events
    decreases k
  {
    hide Linked, FingerprintsUnique, IssuesAgree, ServicesAgree, ReleasesAgree;
    DoPrefix(ops, k - 1);
    if k > j + 1 {
      StoredStays(ops, j, k - 1, event);
      EventStoreRuns.DoAllAgrees(EMPTY, true, ops[..k - 1]);
      EventStoreRuns.LosslessKeepsEvents(DoAll(EMPTY, ops[..k - 1]), ops[k - 1]);
    }
  }

  /** At most one committed request stores an event. */
  lemma EventsAreStoredOnce(s: State, steps: seq<Step>, t: State, h: Hash, j: nat, k: nat, event: Uuid)
    requires Initial(s) && Run(s, steps, t, h)
    requires j <= k < |t.history| && Stores(t.history, j, event) && Stores(t.history, k, event)
    ensures j == k
  {
    ConcurrentIngestIsSerial(s, steps, t, h);
    if j < k {
      StoredStays(t.history, j, k, event);
    }
  }

  // ----- no deadlock -----

  lemma {:induction false} Foremost(s: State, txs: set<Tx>) returns (tx: Tx)
    requires txs != {} && txs <= s.running.Keys
    ensures tx in txs
    ensures forall other {:trigger s.running[other]} :: other in txs ==>
              Rank(s.running[other].phase) <= Rank(s.running[tx].phase)
    decreases |txs|
  {
    tx :| tx in txs;
    var rest := txs - {tx};
    assert txs == rest + {tx};
    if rest != {} {
      var best := Foremost(s, rest);
      if Rank(s.running[best].phase) > Rank(s.running[tx].phase) {
        tx := best;
      }
    }
  }

  /** Locks are taken in one order, so a transaction waits only for one that has come further. */
  lemma WaitsForFurther(x: Txn, y: Txn, h: Hash)
    requires NextLock(x, h).Some? && Holds(y, NextLock(x, h).value, h)
    ensures Rank(y.phase) > Rank(x.phase)
  {
  }

  /** Alert rules apart, as long as a transaction is running, one of them can go on or commit. */
  lemma NoDeadlock(s: State, h: Hash) returns (tx: Tx)
    requires s.running != map[]
    ensures Enabled(s, Advance(tx), h) || Enabled(s, Commit(tx), h)
  {
    tx := Foremost(s, s.running.Keys);
    var x := s.running[tx];
    if !Over(x.phase) && NextLock(x, h).Some? {
      forall other {:trigger s.running[other]} | other in s.running && other != tx
        ensures !Holds(s.running[other], NextLock(x, h).value, h)
      {
        if Holds(s.running[other], NextLock(x, h).value, h) {
          WaitsForFurther(x, s.running[other], h);
        }
      }
    }
  }
}
