/**
 The locks on alert rules and the deadlocks they can cause (src/api.rs:434, src/alert.rs:23-35). When an ingest has
 written its event, it locks the rules that the event matches with one `SELECT … FOR UPDATE`. The statement names no
 order, so the rows are locked one by one in whatever order the scan meets them, and they stay locked to the end of
 the transaction. All other locks are those of IngestTransactions.
 */
module RuleLocks {
  import opened Wrappers
  import opened DedupKeys
  import opened Fingerprinting
  import opened EventStore
  import Ingests = IngestTransactions

  type Tx = Ingests.Tx

  /** A request, with the rules that it will lock in the order in which it will meet them. */
  datatype Request = Request(i: Incoming, rules: seq<Uuid>)

  type Plan = map<Tx, Request>

  /** The rules that a transaction has locked, and those it still has to. */
  datatype Locks = Locks(held: seq<Uuid>, wanted: seq<Uuid>)

  datatype State = State(base: Ingests.State, rules: map<Tx, Locks>)

  datatype Step =
    | Statement(step: Ingests.Step)
    | LockRule(tx: Tx)

  predicate Disjoint(a: seq<Uuid>, b: seq<Uuid>)
  {
    forall r :: r in a ==> r !in b
  }

  ghost predicate Unheld(s: State, tx: Tx, rule: Uuid)
  {
    forall other {:trigger s.rules[other]} :: other in s.rules && other != tx ==> rule !in s.rules[other].held
  }

  /** A transaction is begun for its request, and commits an event when all its rules are locked. */
  ghost predicate Permitted(plan: Plan, s: State, step: Ingests.Step)
  {
    match step
    case Begin(tx, i) => tx in plan && plan[tx].i == i
    case Commit(tx) => tx in s.base.running && tx in s.rules &&
        (s.base.running[tx].phase.Finished? ==> s.rules[tx].wanted == [])
    case _ => true
  }

  ghost predicate Enabled(plan: Plan, s: State, step: Step, h: Ingests.Hash)
  {
    match step
    case Statement(b) => Ingests.Enabled(s.base, b, h) && Permitted(plan, s, b)
    case LockRule(tx) =>
      && tx in s.base.running && s.base.running[tx].phase.Finished? && tx in s.rules
      && s.rules[tx].wanted != [] && Unheld(s, tx, s.rules[tx].wanted[0])
  }

  ghost function Apply(plan: Plan, s: State, step: Step, h: Ingests.Hash): State
    requires Enabled(plan, s, step, h)
  {
    match step
    case Statement(b) => State(Ingests.Apply(s.base, b, h), RulesAfter(plan, s, b))
    case LockRule(tx) =>
      var l := s.rules[tx];
      s.(rules := s.rules[tx := Locks(l.held + [l.wanted[0]], l.wanted[1..])])
  }

  ghost function RulesAfter(plan: Plan, s: State, step: Ingests.Step): map<Tx, Locks>
  {
    match step
    case Begin(tx, _) => s.rules[tx := Locks([], if tx in plan then plan[tx].rules else [])]
    case Commit(tx) => s.rules - {tx}
    case Abort(tx) => s.rules - {tx}
    case _ => s.rules
  }

  ghost predicate Run(plan: Plan, s: State, steps: seq<Step>, t: State, h: Ingests.Hash)
    decreases |steps|
  {
    if steps == [] then s == t
    else Enabled(plan, s, steps[0], h) && Run(plan, Apply(plan, s, steps[0], h), steps[1..], t, h)
  }

  ghost predicate Reaches(plan: Plan, s: State, t: State, h: Ingests.Hash)
  {
    exists steps :: Run(plan, s, steps, t, h)
  }

  /** A moment without running transactions, on tables that ingests have left. */
  ghost predicate Idle(s: State, h: Ingests.Hash)
  {
    s.base.running == map[] && s.rules == map[] && Ingests.Sound(s.base, h)
  }

  /** Requests that get past the checks before their transactions; the identifiers of new issues are new. */
  ghost predicate Sendable(plan: Plan, db: Db)
  {
    && (forall tx {:trigger plan[tx]} :: tx in plan ==>
          !AllSpace(plan[tx].i.message) && plan[tx].i.newIssue !in db.issues)
    && (forall a, b {:trigger plan[a], plan[b]} :: a in plan && b in plan && a != b ==>
          plan[a].i.newIssue != plan[b].i.newIssue)
  }

  // ----- deadlocks -----

  /** `x` waits for a lock that `y` holds. */
  ghost predicate WaitsFor(s: State, x: Tx, y: Tx, h: Ingests.Hash)
  {
    && x != y && x in s.base.running && y in s.base.running
    && (StatementWaits(s.base.running[x], s.base.running[y], h) || RuleWaits(s, x, y))
  }

  ghost predicate StatementWaits(x: Ingests.Txn, y: Ingests.Txn, h: Ingests.Hash)
  {
    !Ingests.Over(x.phase) && Ingests.NextLock(x, h).Some? && Ingests.Holds(y, Ingests.NextLock(x, h).value, h)
  }

  ghost predicate RuleWaits(s: State, x: Tx, y: Tx)
  {
    && x != y && x in s.base.running && y in s.base.running && s.base.running[x].phase.Finished?
    && x in s.rules && y in s.rules && s.rules[x].wanted != [] && s.rules[x].wanted[0] in s.rules[y].held
  }

  ghost predicate Blocked(s: State, x: Tx, txs: set<Tx>, h: Ingests.Hash)
  {
    exists y :: y in txs && WaitsFor(s, x, y, h)
  }

  /** Transactions each of which waits for another one of them. */
  ghost predicate Deadlock(s: State, txs: set<Tx>, h: Ingests.Hash)
  {
    && txs != {} && txs <= s.base.running.Keys
    && forall x {:trigger Blocked(s, x, txs, h)} :: x in txs ==> Blocked(s, x, txs, h)
  }

  ghost predicate CanDeadlock(plan: Plan, s: State, h: Ingests.Hash)
  {
    exists t, txs :: Reaches(plan, s, t, h) && Deadlock(t, txs, h)
  }

  /** Requests whose transactions can have written their events at the same time: they share none of the other locks. */
  predicate Compatible(i: Incoming, j: Incoming, h: Ingests.Hash)
  {
    && h(i.event) != h(j.event) && ServiceOf(i) != ServiceOf(j)
    && !(i.project == j.project && i.fingerprint == j.fingerprint)
    && !(i.project == j.project && i.release.Some? && i.release == j.release)
  }

  /** A request that holds some rules and then wants another one. */
  datatype Waiter = Waiter(tx: Tx, held: seq<Uuid>, wanted: Uuid)

  function Next(k: nat, n: nat): nat
  {
    if k + 1 < n then k + 1 else 0
  }

  ghost predicate CanWait(plan: Plan, db: Db, w: Waiter)
  {
    w.tx in plan && plan[w.tx].i.event !in db.events && w.held + [w.wanted] <= plan[w.tx].rules
  }

  ghost predicate Ungated(plan: Plan, v: Waiter, w: Waiter, h: Ingests.Hash)
    requires v.tx in plan && w.tx in plan
  {
    v.tx != w.tx && Compatible(plan[v.tx].i, plan[w.tx].i, h) && Disjoint(v.held, w.held)
  }

  /**
   A cycle in the order of the rules: each request wants a rule that the next one takes earlier. It is ungated when the
   requests share no lock that would keep one of them out: neither a rule taken up to then nor one of the other locks.
   */
  ghost predicate UngatedCycle(plan: Plan, db: Db, cycle: seq<Waiter>, h: Ingests.Hash)
  {
    && |cycle| >= 2
    && (forall k {:trigger cycle[k]} :: 0 <= k < |cycle| ==>
          CanWait(plan, db, cycle[k]) && cycle[k].wanted in cycle[Next(k, |cycle|)].held)
    && (forall j, k {:trigger cycle[j], cycle[k]} :: 0 <= j < |cycle| && 0 <= k < |cycle| && j != k ==>
          Ungated(plan, cycle[j], cycle[k], h))
  }

  ghost predicate HasUngatedCycle(plan: Plan, db: Db, h: Ingests.Hash)
  {
    exists cycle :: UngatedCycle(plan, db, cycle, h)
  }

  // ----- runs -----

  lemma {:induction false} RunThen(plan: Plan, s: State, a: seq<Step>, t: State, b: seq<Step>, u: State,
                                   h: Ingests.Hash)
    requires Run(plan, s, a, t, h) && Run(plan, t, b, u, h)
    ensures Run(plan, s, a + b, u, h)
    decreases |a|
  {
    hide Apply;
    if a == [] {
      assert a + b == b;
    } else {
      RunThen(plan, Apply(plan, s, a[0], h), a[1..], t, b, u, h);
      assert (a + b)[1..] == a[1..] + b;
    }
  }

  lemma Stays(plan: Plan, s: State, h: Ingests.Hash)
    ensures Reaches(plan, s, s, h)
  {
    assert Run(plan, s, [], s, h);
  }

  lemma OneStep(plan: Plan, s: State, t: State, step: Step, h: Ingests.Hash)
    requires Reaches(plan, s, t, h) && Enabled(plan, t, step, h)
    ensures Reaches(plan, s, Apply(plan, t, step, h), h)
  {
    var steps :| Run(plan, s, steps, t, h);
    var u := Apply(plan, t, step, h);
    assert Run(plan, u, [], u, h);
    assert Run(plan, t, [step], u, h);
    RunThen(plan, s, steps, t, [step], u, h);
  }

  lemma ReachesOn(plan: Plan, s: State, t: State, u: State, h: Ingests.Hash)
    requires Reaches(plan, s, t, h) && Reaches(plan, t, u, h)
    ensures Reaches(plan, s, u, h)
  {
    var a :| Run(plan, s, a, t, h);
    var b :| Run(plan, t, b, u, h);
    RunThen(plan, s, a, t, b, u, h);
  }

  /** The statements of a run other than the locking of rules. */
  function Statements(steps: seq<Step>): seq<Ingests.Step>
  {
    if steps == [] then []
    else (if steps[0].Statement? then [steps[0].step] else []) + Statements(steps[1..])
  }

  /** Without its rule locks, a run is one of the ingests alone, so that all that holds of those still holds. */
  lemma {:induction false} RunIsIngestRun(plan: Plan, s: State, steps: seq<Step>, t: State, h: Ingests.Hash)
    requires Run(plan, s, steps, t, h)
    ensures Ingests.Run(s.base, Statements(steps), t.base, h)
    decreases |steps|
  {
    if steps != [] {
      RunIsIngestRun(plan, Apply(plan, s, steps[0], h), steps[1..], t, h);
      if steps[0].Statement? {
        assert Statements(steps) == [steps[0].step] + Statements(steps[1..]);
        assert Statements(steps)[1..] == Statements(steps[1..]);
      } else {
        assert Statements(steps) == Statements(steps[1..]);
      }
    }
  }

  // ----- what every run keeps -----

  /** The rules of a running transaction are those of its request; it locks the first once its event is written. */
  ghost predicate Follows(plan: Plan, s: State, tx: Tx)
    requires tx in s.base.running && tx in s.rules
  {
    && tx in plan && s.base.running[tx].i == plan[tx].i
    && s.rules[tx].held + s.rules[tx].wanted == plan[tx].rules
    && (s.rules[tx].held != [] ==> s.base.running[tx].phase.Finished?)
  }

  ghost predicate Planned(plan: Plan, s: State)
  {
    && s.rules.Keys == s.base.running.Keys
    && forall tx {:trigger s.rules[tx]} :: tx in s.rules ==> Follows(plan, s, tx)
  }

  ghost predicate Separate(s: State)
  {
    forall a, b {:trigger s.rules[a], s.rules[b]} :: a in s.rules && b in s.rules && a != b ==>
          Disjoint(s.rules[a].held, s.rules[b].held)
  }

  lemma StepKeepsPlanned(plan: Plan, s: State, step: Step, h: Ingests.Hash)
    requires Planned(plan, s) && Enabled(plan, s, step, h)
    ensures Planned(plan, Apply(plan, s, step, h))
  {
    var t := Apply(plan, s, step, h);
    forall tx {:trigger t.rules[tx]} | tx in t.rules ensures tx in t.base.running && Follows(plan, t, tx) {
      if tx in s.rules {
        assert Follows(plan, s, tx);
      }
    }
  }

  lemma StepKeepsSeparate(plan: Plan, s: State, step: Step, h: Ingests.Hash)
    requires Separate(s) && Enabled(plan, s, step, h)
    ensures Separate(Apply(plan, s, step, h))
  {
    var t := Apply(plan, s, step, h);
    forall a, b {:trigger t.rules[a], t.rules[b]} | a in t.rules && b in t.rules && a != b
      ensures Disjoint(t.rules[a].held, t.rules[b].held)
    {
      if a in s.rules && b in s.rules {
        assert Disjoint(s.rules[a].held, s.rules[b].held);
      }
    }
  }

  lemma StepKeepsEvents(plan: Plan, s: State, step: Step, h: Ingests.Hash)
    requires Enabled(plan, s, step, h)
    ensures s.base.db.events.Keys <= Apply(plan, s, step, h).base.db.events.Keys
  {
  }

  lemma {:induction false} RunKeeps(plan: Plan, s: State, steps: seq<Step>, t: State, h: Ingests.Hash)
    requires Planned(plan, s) && Separate(s) && Run(plan, s, steps, t, h)
    ensures Planned(plan, t) && Separate(t) && s.base.db.events.Keys <= t.base.db.events.Keys
    decreases |steps|
  {
    hide Planned, Separate, Enabled, Apply;
    if steps != [] {
      StepKeepsPlanned(plan, s, steps[0], h);
      StepKeepsSeparate(plan, s, steps[0], h);
      StepKeepsEvents(plan, s, steps[0], h);
      RunKeeps(plan, Apply(plan, s, steps[0], h), steps[1..], t, h);
    }
  }

  lemma ReachedKeeps(plan: Plan, s: State, t: State, h: Ingests.Hash)
    requires Idle(s, h) && Reaches(plan, s, t, h)
    ensures Planned(plan, t) && Separate(t) && Ingests.Sound(t.base, h)
    ensures s.base.db.events.Keys <= t.base.db.events.Keys
  {
    hide Ingests.Run;
    var steps :| Run(plan, s, steps, t, h);
    RunIsIngestRun(plan, s, steps, t, h);
    RunKeeps(plan, s, steps, t, h);
    Ingests.RunKeepsInvariant(s.base, Statements(steps), t.base, h);
  }

  // ----- a deadlock is an ungated cycle -----

  lemma FinishedAreCompatible(x: Ingests.Txn, y: Ingests.Txn, h: Ingests.Hash)
    requires x.phase.Finished? && y.phase.Finished? && Ingests.Apart(x, y, h)
    ensures Compatible(x.i, y.i, h)
  {
    assert Ingests.Holds(x, Ingests.EventLock(h(x.i.event)), h);
    assert Ingests.Holds(x, Ingests.ServiceLock(ServiceOf(x.i)), h);
    assert Ingests.Holds(x, Ingests.IssueLock(x.i.project, x.i.fingerprint), h);
    if x.i.release.Some? {
      assert Ingests.Holds(x, Ingests.ReleaseLock(ReleaseKey(x.i.project, x.i.release.value)), h);
    }
  }

  function Finishing(s: State, txs: set<Tx>): set<Tx>
  {
    set x | x in txs && x in s.base.running && s.base.running[x].phase.Finished?
  }

  /** The one that has come furthest does not wait for a statement of another, so it waits for a rule. */
  lemma FurthestWaitsForRule(s: State, txs: set<Tx>, h: Ingests.Hash) returns (far: Tx)
    requires Deadlock(s, txs, h)
    ensures far in Finishing(s, txs)
  {
    hide Ingests.NextLock, Ingests.Holds;
    far := Ingests.Foremost(s.base, txs);
    assert Blocked(s, far, txs, h);
    var y :| y in txs && WaitsFor(s, far, y, h);
    if StatementWaits(s.base.running[far], s.base.running[y], h) {
      Ingests.WaitsForFurther(s.base.running[far], s.base.running[y], h);
    }
  }

  lemma FinishedWaitsForRule(s: State, x: Tx, y: Tx, h: Ingests.Hash)
    requires WaitsFor(s, x, y, h) && s.base.running[x].phase.Finished?
    ensures RuleWaits(s, x, y)
  {
    hide Ingests.NextLock, Ingests.Holds, RuleWaits;
  }

  lemma RuleHolderIsFinished(plan: Plan, s: State, x: Tx, y: Tx)
    requires Planned(plan, s) && RuleWaits(s, x, y)
    ensures y in s.base.running && s.base.running[y].phase.Finished?
  {
    assert Follows(plan, s, y);
  }

  lemma RuleHolderIsFinishing(plan: Plan, s: State, txs: set<Tx>, x: Tx, h: Ingests.Hash) returns (y: Tx)
    requires Planned(plan, s) && Deadlock(s, txs, h) && x in Finishing(s, txs)
    ensures y in Finishing(s, txs) && RuleWaits(s, x, y)
  {
    hide WaitsFor, Planned, RuleWaits;
    assert Blocked(s, x, txs, h);
    y :| y in txs && WaitsFor(s, x, y, h);
    FinishedWaitsForRule(s, x, y, h);
    RuleHolderIsFinished(plan, s, x, y);
  }

  ghost predicate BlockedByRule(s: State, x: Tx, txs: set<Tx>)
  {
    exists y :: y in txs && RuleWaits(s, x, y)
  }

  /** In some set of transactions each waits for a rule that another one holds. */
  ghost predicate AllWait(s: State, txs: set<Tx>)
  {
    forall x {:trigger BlockedByRule(s, x, txs)} :: x in txs ==> BlockedByRule(s, x, txs)
  }

  /** Statements wait for transactions that have come further, so a deadlock is one of transactions that lock rules. */
  lemma DeadlockIsAboutRules(plan: Plan, s: State, txs: set<Tx>, h: Ingests.Hash) returns (x: Tx)
    requires Planned(plan, s) && Deadlock(s, txs, h)
    ensures x in Finishing(s, txs) && AllWait(s, Finishing(s, txs))
  {
    hide Planned, Deadlock, RuleWaits, Finishing;
    forall z {:trigger BlockedByRule(s, z, Finishing(s, txs))} | z in Finishing(s, txs)
      ensures BlockedByRule(s, z, Finishing(s, txs))
    {
      var y := RuleHolderIsFinishing(plan, s, txs, z, h);
    }
    x := FurthestWaitsForRule(s, txs, h);
  }

  ghost predicate NoTwice(path: seq<Tx>)
  {
    forall j, k :: 0 <= j < k < |path| ==> path[j] != path[k]
  }

  ghost predicate Path(s: State, path: seq<Tx>)
  {
    NoTwice(path) && forall k {:trigger path[k]} :: 0 < k < |path| ==> RuleWaits(s, path[k - 1], path[k])
  }

  lemma {:induction false} PathFits(path: seq<Tx>, txs: set<Tx>)
    requires NoTwice(path) && forall k :: 0 <= k < |path| ==> path[k] in txs
    ensures |path| <= |txs|
    decreases |path|
  {
    if path != [] {
      PathFits(path[1..], txs - {path[0]});
    }
  }

  lemma Tail(s: State, path: seq<Tx>, j: nat)
    requires Path(s, path) && j < |path|
    ensures Path(s, path[j..])
  {
    hide RuleWaits;
    var tail := path[j..];
    forall k {:trigger tail[k]} | 0 < k < |tail| ensures RuleWaits(s, tail[k - 1], tail[k]) {
      assert tail[k] == path[j + k];
    }
  }

  lemma NextWait(s: State, txs: set<Tx>, x: Tx) returns (y: Tx)
    requires AllWait(s, txs) && x in txs
    ensures y in txs && RuleWaits(s, x, y)
  {
    hide RuleWaits;
    assert BlockedByRule(s, x, txs);
    y :| y in txs && RuleWaits(s, x, y);
  }

  ghost predicate Within(path: seq<Tx>, txs: set<Tx>)
  {
    path != [] && forall k :: 0 <= k < |path| ==> path[k] in txs
  }

  lemma PathOn(s: State, path: seq<Tx>, next: Tx, txs: set<Tx>)
    requires Within(path, txs) && Path(s, path) && next in txs && RuleWaits(s, path[|path| - 1], next) && next !in path
    ensures Path(s, path + [next]) && Within(path + [next], txs) && |path| + 1 <= |txs|
  {
    hide RuleWaits;
    PathFits(path + [next], txs);
  }

  /** Who waits for whom among finitely many comes around somewhere. */
  lemma {:induction false} FindCycle(s: State, txs: set<Tx>, path: seq<Tx>) returns (cycle: seq<Tx>)
    requires AllWait(s, txs) && Within(path, txs) && Path(s, path)
    ensures cycle != [] && Path(s, cycle) && RuleWaits(s, cycle[|cycle| - 1], cycle[0])
    decreases |txs| - |path|
  {
    hide AllWait, Path, RuleWaits;
    var next := NextWait(s, txs, path[|path| - 1]);
    if j :| 0 <= j < |path| && path[j] == next {
      cycle := path[j..];
      Tail(s, path, j);
    } else {
      PathOn(s, path, next, txs);
      cycle := FindCycle(s, txs, path + [next]);
    }
  }

  function Waiting(s: State, tx: Tx): Waiter
    requires tx in s.rules && s.rules[tx].wanted != []
  {
    Waiter(tx, s.rules[tx].held, s.rules[tx].wanted[0])
  }

  lemma WaitersAreUngated(plan: Plan, s: State, x: Tx, y: Tx, h: Ingests.Hash)
    requires Planned(plan, s) && Separate(s) && Ingests.Sound(s.base, h)
    requires x in Finishing(s, s.base.running.Keys) && y in Finishing(s, s.base.running.Keys) && x != y
    requires s.rules[x].wanted != [] && s.rules[y].wanted != []
    ensures x in plan && y in plan && Ungated(plan, Waiting(s, x), Waiting(s, y), h)
  {
    hide Ingests.Apart, Ingests.Serial, Ingests.AllConsistent;
    assert Follows(plan, s, x) && Follows(plan, s, y);
    assert Ingests.Apart(s.base.running[x], s.base.running[y], h);
    FinishedAreCompatible(s.base.running[x], s.base.running[y], h);
    assert Disjoint(s.rules[x].held, s.rules[y].held);
  }

  lemma WaiterCanWait(plan: Plan, db: Db, s: State, x: Tx, h: Ingests.Hash)
    requires Planned(plan, s) && Ingests.AllConsistent(s.base) && db.events.Keys <= s.base.db.events.Keys
    requires x in Finishing(s, s.base.running.Keys) && s.rules[x].wanted != []
    ensures CanWait(plan, db, Waiting(s, x))
  {
    assert Follows(plan, s, x);
    assert Ingests.Consistent(s.base.db, s.base.running[x]);
    assert s.rules[x].wanted == [s.rules[x].wanted[0]] + s.rules[x].wanted[1..];
  }

  /** Transactions that lock rules and wait for each other around a cycle. */
  ghost predicate Ring(s: State, c: seq<Tx>)
  {
    && |c| >= 2 && NoTwice(c)
    && forall k {:trigger c[k]} :: 0 <= k < |c| ==> RuleWaits(s, c[k], c[Next(k, |c|)])
  }

  lemma RingMember(plan: Plan, s: State, c: seq<Tx>, k: nat)
    requires Planned(plan, s) && Ring(s, c) && k < |c|
    ensures c[k] in Finishing(s, s.base.running.Keys) && c[k] in s.rules && s.rules[c[k]].wanted != []
    ensures c[Next(k, |c|)] in s.rules && s.rules[c[k]].wanted[0] in s.rules[c[Next(k, |c|)]].held
  {
    hide Planned, NoTwice;
    assert RuleWaits(s, c[k], c[Next(k, |c|)]);
  }

  lemma RingNotTwice(s: State, c: seq<Tx>, j: nat, k: nat)
    requires Ring(s, c) && j < |c| && k < |c| && j != k
    ensures c[j] != c[k]
  {
    hide RuleWaits;
  }

  lemma RingIsUngatedCycle(plan: Plan, db: Db, s: State, c: seq<Tx>, h: Ingests.Hash)
    requires Planned(plan, s) && Separate(s) && Ingests.Sound(s.base, h) && db.events.Keys <= s.base.db.events.Keys
    requires Ring(s, c)
    ensures HasUngatedCycle(plan, db, h)
  {
    hide Planned, Separate, RuleWaits;
    assert |c| >= 2 && Ingests.AllConsistent(s.base);
    hide Ingests.Sound, Ingests.AllConsistent, CanWait, Ungated, Ring, Finishing;
    forall k | 0 <= k < |c| ensures c[k] in s.rules && s.rules[c[k]].wanted != [] {
      RingMember(plan, s, c, k);
    }
    var cycle := seq(|c|, k requires 0 <= k < |c| => Waiting(s, c[k]));
    forall k {:trigger cycle[k]} | 0 <= k < |cycle|
      ensures CanWait(plan, db, cycle[k]) && cycle[k].wanted in cycle[Next(k, |cycle|)].held
    {
      RingMember(plan, s, c, k);
      WaiterCanWait(plan, db, s, c[k], h);
    }
    forall j, k {:trigger cycle[j], cycle[k]} | 0 <= j < |cycle| && 0 <= k < |cycle| && j != k
      ensures cycle[j].tx in plan && cycle[k].tx in plan && Ungated(plan, cycle[j], cycle[k], h)
    {
      RingMember(plan, s, c, j);
      RingMember(plan, s, c, k);
      RingNotTwice(s, c, j, k);
      WaitersAreUngated(plan, s, c[j], c[k], h);
    }
    CycleIs(plan, db, cycle, h);
  }

  lemma CycleIs(plan: Plan, db: Db, cycle: seq<Waiter>, h: Ingests.Hash)
    requires |cycle| >= 2
    requires forall k {:trigger cycle[k]} :: 0 <= k < |cycle| ==>
               CanWait(plan, db, cycle[k]) && cycle[k].wanted in cycle[Next(k, |cycle|)].held
    requires forall j, k {:trigger cycle[j], cycle[k]} :: 0 <= j < |cycle| && 0 <= k < |cycle| && j != k ==>
               cycle[j].tx in plan && cycle[k].tx in plan && Ungated(plan, cycle[j], cycle[k], h)
    ensures HasUngatedCycle(plan, db, h)
  {
    hide CanWait, Ungated;
    assert UngatedCycle(plan, db, cycle, h);
  }

  lemma FindFirstCycle(s: State, txs: set<Tx>, x: Tx) returns (cycle: seq<Tx>)
    requires AllWait(s, txs) && x in txs
    ensures cycle != [] && Path(s, cycle) && RuleWaits(s, cycle[|cycle| - 1], cycle[0])
  {
    hide AllWait, RuleWaits;
    assert Path(s, [x]) && Within([x], txs);
    cycle := FindCycle(s, txs, [x]);
  }

  lemma PathIsRing(s: State, c: seq<Tx>)
    requires c != [] && Path(s, c) && RuleWaits(s, c[|c| - 1], c[0])
    ensures Ring(s, c)
  {
    forall k {:trigger c[k]} | 0 <= k < |c| ensures RuleWaits(s, c[k], c[Next(k, |c|)]) {
      if k + 1 < |c| {
        assert RuleWaits(s, c[k + 1 - 1], c[k + 1]);
      }
    }
    assert c[|c| - 1] != c[0];
  }

  lemma DeadlockHasCycle(plan: Plan, s: State, t: State, txs: set<Tx>, h: Ingests.Hash)
    requires Idle(s, h) && Reaches(plan, s, t, h) && Deadlock(t, txs, h)
    ensures HasUngatedCycle(plan, s.base.db, h)
  {
    ReachedKeeps(plan, s, t, h);
    hide Planned, Separate, Ingests.Sound, Deadlock, AllWait, Finishing, RuleWaits, Ring, HasUngatedCycle;
    var x := DeadlockIsAboutRules(plan, t, txs, h);
    var c := FindFirstCycle(t, Finishing(t, txs), x);
    PathIsRing(t, c);
    RingIsUngatedCycle(plan, s.base.db, t, c, h);
  }

  // ----- an ungated cycle is a deadlock -----

  /** A transaction that meets no lock of another one: these have written their events and share none with it. */
  ghost predicate Unhindered(s: State, tx: Tx, h: Ingests.Hash)
  {
    && tx in s.base.running && !s.base.running[tx].phase.Answered? && s.base.running[tx].i.event !in s.base.db.events
    && forall other {:trigger s.base.running[other]} :: other in s.base.running && other != tx ==>
          Compatible(s.base.running[tx].i, s.base.running[other].i, h)
  }

  lemma CompatibleLocks(x: Ingests.Txn, y: Ingests.Txn, h: Ingests.Hash)
    requires Compatible(x.i, y.i, h) && Ingests.NextLock(x, h).Some?
    ensures !Ingests.Holds(y, Ingests.NextLock(x, h).value, h)
  {
  }

  lemma UnhinderedAdvances(s: State, tx: Tx, h: Ingests.Hash)
    requires Unhindered(s, tx, h) && !Ingests.Over(s.base.running[tx].phase)
    ensures Ingests.Enabled(s.base, Ingests.Advance(tx), h)
  {
    hide Compatible, Ingests.NextLock, Ingests.Holds;
    var x := s.base.running[tx];
    if Ingests.NextLock(x, h).Some? {
      forall other {:trigger s.base.running[other]} | other in s.base.running && other != tx
        ensures !Ingests.Holds(s.base.running[other], Ingests.NextLock(x, h).value, h)
      {
        CompatibleLocks(x, s.base.running[other], h);
      }
    }
  }

  lemma NextRank(db: Db, x: Ingests.Txn)
    requires !Ingests.Over(x.phase) && x.i.event !in db.events
    ensures !Ingests.NextPhase(db, x).Answered?
    ensures Ingests.Rank(Ingests.NextPhase(db, x)) == Ingests.Rank(x.phase) + 1
  {
  }

  /** `t` is `s` but for how far a transaction has come with its statements. */
  ghost predicate Written(s: State, t: State, tx: Tx)
  {
    && t.base.db == s.base.db && t.rules == s.rules && tx in s.base.running
    && t.base.running.Keys == s.base.running.Keys && t.base.running[tx].i == s.base.running[tx].i
    && forall other {:trigger t.base.running[other]} :: other in t.base.running && other != tx ==>
          t.base.running[other] == s.base.running[other]
  }

  lemma AdvanceOnce(plan: Plan, s: State, tx: Tx, h: Ingests.Hash) returns (t: State)
    requires Unhindered(s, tx, h) && !Ingests.Over(s.base.running[tx].phase)
    ensures Reaches(plan, s, t, h) && Written(s, t, tx) && Unhindered(t, tx, h)
    ensures Ingests.Rank(t.base.running[tx].phase) == Ingests.Rank(s.base.running[tx].phase) + 1
  {
    UnhinderedAdvances(s, tx, h);
    NextRank(s.base.db, s.base.running[tx]);
    Stays(plan, s, h);
    OneStep(plan, s, s, Statement(Ingests.Advance(tx)), h);
    t := Apply(plan, s, Statement(Ingests.Advance(tx)), h);
  }

  lemma WrittenTwice(s: State, t: State, u: State, tx: Tx)
    requires Written(s, t, tx) && Written(t, u, tx)
    ensures Written(s, u, tx)
  {
  }

  lemma {:induction false} AdvanceToRules(plan: Plan, s: State, tx: Tx, h: Ingests.Hash) returns (t: State)
    requires Unhindered(s, tx, h)
    ensures Reaches(plan, s, t, h) && Written(s, t, tx) && t.base.running[tx].phase.Finished?
    decreases 6 - Ingests.Rank(s.base.running[tx].phase)
  {
    if Ingests.Over(s.base.running[tx].phase) {
      t := s;
      Stays(plan, s, h);
    } else {
      var u := AdvanceOnce(plan, s, tx, h);
      t := AdvanceToRules(plan, u, tx, h);
      ReachesOn(plan, s, u, t, h);
      WrittenTwice(s, u, t, tx);
    }
  }

  /** Nobody else holds the rules that `w` is to lock. */
  ghost predicate Lockable(plan: Plan, s: State, w: Waiter)
  {
    && w.tx in s.base.running && s.base.running[w.tx].phase.Finished? && w.tx in s.rules && w.tx in plan
    && s.rules[w.tx].held + s.rules[w.tx].wanted == plan[w.tx].rules && s.rules[w.tx].held <= w.held
    && w.held + [w.wanted] <= plan[w.tx].rules
    && forall other {:trigger s.rules[other]} :: other in s.rules && other != w.tx ==>
          Disjoint(w.held, s.rules[other].held)
  }

  lemma LockOnce(plan: Plan, s: State, w: Waiter, h: Ingests.Hash) returns (t: State)
    requires Lockable(plan, s, w) && s.rules[w.tx].held != w.held
    ensures Reaches(plan, s, t, h) && Lockable(plan, t, w) && t.base == s.base
    ensures t.rules == s.rules[w.tx := t.rules[w.tx]] && |t.rules[w.tx].held| == |s.rules[w.tx].held| + 1
  {
    hide Reaches;
    var l, rules := s.rules[w.tx], plan[w.tx].rules;
    assert w.held[|l.held|] == (w.held + [w.wanted])[|l.held|] == rules[|l.held|] == l.wanted[0];
    assert l.wanted[0] in w.held;
    Stays(plan, s, h);
    OneStep(plan, s, s, LockRule(w.tx), h);
    t := Apply(plan, s, LockRule(w.tx), h);
    assert t.rules[w.tx].held + t.rules[w.tx].wanted == rules;
  }

  lemma {:induction false} LockAll(plan: Plan, s: State, w: Waiter, h: Ingests.Hash) returns (t: State)
    requires Lockable(plan, s, w)
    ensures Reaches(plan, s, t, h) && t.base == s.base && w.tx in t.rules && t.rules == s.rules[w.tx := t.rules[w.tx]]
    ensures t.rules[w.tx].held == w.held && t.rules[w.tx].wanted != [] && t.rules[w.tx].wanted[0] == w.wanted
    decreases |w.held| - |s.rules[w.tx].held|
  {
    if s.rules[w.tx].held == w.held {
      t := s;
      Stays(plan, s, h);
      assert (w.held + [w.wanted])[|w.held|] == plan[w.tx].rules[|w.held|];
    } else {
      var u := LockOnce(plan, s, w, h);
      t := LockAll(plan, u, w, h);
      ReachesOn(plan, s, u, t, h);
    }
  }

  /** A transaction has come to wait as the waiter says. */
  ghost predicate Arrived(plan: Plan, s: State, w: Waiter)
  {
    && w.tx in s.base.running && w.tx in s.rules && w.tx in plan
    && s.base.running[w.tx].phase.Finished? && s.base.running[w.tx].i == plan[w.tx].i
    && s.rules[w.tx].held == w.held && s.rules[w.tx].wanted != [] && s.rules[w.tx].wanted[0] == w.wanted
  }

  /** The first `k` of a cycle have arrived, and nobody else is running. */
  ghost predicate Gathered(plan: Plan, db: Db, s: State, cycle: seq<Waiter>, k: nat)
  {
    && k <= |cycle| && s.base.db == db && s.rules.Keys == s.base.running.Keys
    && (forall tx {:trigger s.base.running[tx]} :: tx in s.base.running ==>
          exists j :: 0 <= j < k && cycle[j].tx == tx)
    && (forall j {:trigger cycle[j]} :: 0 <= j < k ==> Arrived(plan, s, cycle[j]))
  }

  /** A transaction that has not begun, and shares no statement lock with those that run. */
  ghost predicate Newcomer(plan: Plan, s: State, tx: Tx, h: Ingests.Hash)
  {
    && tx in plan && tx !in s.base.running && plan[tx].i.event !in s.base.db.events
    && forall other {:trigger s.base.running[other]} :: other in s.base.running ==>
          && other in plan && s.base.running[other].i == plan[other].i
          && Compatible(plan[tx].i, s.base.running[other].i, h)
  }

  lemma NextIsNewcomer(plan: Plan, db: Db, s: State, cycle: seq<Waiter>, k: nat, h: Ingests.Hash)
    requires UngatedCycle(plan, db, cycle, h) && k < |cycle| && Gathered(plan, db, s, cycle, k)
    ensures Newcomer(plan, s, cycle[k].tx, h)
  {
    hide Compatible, Disjoint;
    assert CanWait(plan, db, cycle[k]);
    forall other {:trigger s.base.running[other]} | other in s.base.running
      ensures other != cycle[k].tx && other in plan && s.base.running[other].i == plan[other].i
      ensures Compatible(plan[cycle[k].tx].i, s.base.running[other].i, h)
    {
      var j :| 0 <= j < k && cycle[j].tx == other;
      assert Ungated(plan, cycle[k], cycle[j], h) && Arrived(plan, s, cycle[j]);
    }
  }

  lemma Begun(plan: Plan, s: State, tx: Tx, h: Ingests.Hash) returns (t: State)
    requires Sendable(plan, s.base.db) && Newcomer(plan, s, tx, h)
    ensures Reaches(plan, s, t, h) && t.base.db == s.base.db
    ensures t.base.running == s.base.running[tx := Ingests.Txn(plan[tx].i, Ingests.Started)]
    ensures t.rules == s.rules[tx := Locks([], plan[tx].rules)]
    ensures Unhindered(t, tx, h)
  {
    hide Compatible;
    forall other {:trigger s.base.running[other]} | other in s.base.running
      ensures s.base.running[other].i.newIssue != plan[tx].i.newIssue
    {
      assert plan[other].i.newIssue != plan[tx].i.newIssue;
    }
    Stays(plan, s, h);
    OneStep(plan, s, s, Statement(Ingests.Begin(tx, plan[tx].i)), h);
    t := Apply(plan, s, Statement(Ingests.Begin(tx, plan[tx].i)), h);
  }

  lemma CanLockNow(plan: Plan, db: Db, s: State, t: State, cycle: seq<Waiter>, k: nat, h: Ingests.Hash)
    requires UngatedCycle(plan, db, cycle, h) && k < |cycle| && Gathered(plan, db, s, cycle, k)
    requires cycle[k].tx in plan && t.rules == s.rules[cycle[k].tx := Locks([], plan[cycle[k].tx].rules)]
    requires cycle[k].tx in t.base.running && t.base.running[cycle[k].tx].phase.Finished?
    ensures Lockable(plan, t, cycle[k])
  {
    hide Compatible, Disjoint;
    var tx := cycle[k].tx;
    assert CanWait(plan, db, cycle[k]);
    forall other {:trigger t.rules[other]} | other in t.rules && other != tx
      ensures Disjoint(cycle[k].held, t.rules[other].held)
    {
      assert other in s.base.running;
      var j :| 0 <= j < k && cycle[j].tx == other;
      assert Ungated(plan, cycle[k], cycle[j], h) && Arrived(plan, s, cycle[j]);
    }
    assert [] + plan[tx].rules == plan[tx].rules;
  }

  /** `t` is `s` with a transaction that has arrived as the waiter says. */
  ghost predicate Joined(plan: Plan, s: State, t: State, w: Waiter)
  {
    && t.base.db == s.base.db && Arrived(plan, t, w) && w.tx !in s.base.running
    && t.base.running.Keys == s.base.running.Keys + {w.tx} && t.rules.Keys == s.rules.Keys + {w.tx}
    && (forall other {:trigger t.base.running[other]} :: other in s.base.running ==>
          t.base.running[other] == s.base.running[other])
    && (forall other {:trigger t.rules[other]} :: other in s.rules && other != w.tx ==>
          t.rules[other] == s.rules[other])
  }

  lemma OneMoreArrived(plan: Plan, db: Db, s: State, t: State, cycle: seq<Waiter>, k: nat)
    requires k < |cycle| && Gathered(plan, db, s, cycle, k) && Joined(plan, s, t, cycle[k])
    ensures Gathered(plan, db, t, cycle, k + 1)
  {
    forall tx {:trigger t.base.running[tx]} | tx in t.base.running
      ensures exists j :: 0 <= j < k + 1 && cycle[j].tx == tx
    {
      if tx in s.base.running {
        var j :| 0 <= j < k && cycle[j].tx == tx;
        assert 0 <= j < k + 1;
      }
    }
    forall j {:trigger cycle[j]} | 0 <= j < k + 1 ensures Arrived(plan, t, cycle[j]) {
      if j < k {
        assert Arrived(plan, s, cycle[j]);
      }
    }
  }

  /** Begun, with its event written and its rules locked. */
  lemma Joins(plan: Plan, s: State, a: State, b: State, t: State, w: Waiter)
    requires w.tx in plan && w.tx !in s.base.running && a.base.db == s.base.db
    requires a.base.running == s.base.running[w.tx := Ingests.Txn(plan[w.tx].i, Ingests.Started)]
    requires a.rules == s.rules[w.tx := Locks([], plan[w.tx].rules)]
    requires Written(a, b, w.tx) && b.base.running[w.tx].phase.Finished?
    requires t.base == b.base && w.tx in t.rules && t.rules == b.rules[w.tx := t.rules[w.tx]]
    requires t.rules[w.tx].held == w.held && t.rules[w.tx].wanted != [] && t.rules[w.tx].wanted[0] == w.wanted
    ensures Joined(plan, s, t, w)
  {
  }

  lemma GatherOne(plan: Plan, db: Db, s: State, cycle: seq<Waiter>, k: nat, h: Ingests.Hash) returns (t: State)
    requires Sendable(plan, db) && UngatedCycle(plan, db, cycle, h) && k < |cycle| && Gathered(plan, db, s, cycle, k)
    ensures Reaches(plan, s, t, h) && Gathered(plan, db, t, cycle, k + 1)
  {
    assert s.base.db == db;
    NextIsNewcomer(plan, db, s, cycle, k, h);
    var w := cycle[k];
    assert w.tx in plan && w.tx !in s.base.running;
    hide Sendable, UngatedCycle, Gathered, Reaches, Unhindered, Lockable, Newcomer, Joined;
    var a := Begun(plan, s, w.tx, h);
    var b := AdvanceToRules(plan, a, w.tx, h);
    assert b.rules == a.rules && w.tx in b.base.running;
    hide Written;
    CanLockNow(plan, db, s, b, cycle, k, h);
    t := LockAll(plan, b, w, h);
    ReachesOn(plan, s, a, b, h);
    ReachesOn(plan, s, b, t, h);
    Joins(plan, s, a, b, t, w);
    OneMoreArrived(plan, db, s, t, cycle, k);
  }

  lemma {:induction false} Gather(plan: Plan, db: Db, s: State, cycle: seq<Waiter>, k: nat, h: Ingests.Hash)
    returns (t: State)
    requires Sendable(plan, db) && UngatedCycle(plan, db, cycle, h) && k <= |cycle|
    requires s.base.db == db && s.base.running == map[] && s.rules == map[]
    ensures Reaches(plan, s, t, h) && Gathered(plan, db, t, cycle, k)
  {
    if k == 0 {
      t := s;
      Stays(plan, s, h);
    } else {
      var u := Gather(plan, db, s, cycle, k - 1, h);
      t := GatherOne(plan, db, u, cycle, k - 1, h);
      ReachesOn(plan, s, u, t, h);
    }
  }

  lemma ArrivedWaits(plan: Plan, db: Db, s: State, cycle: seq<Waiter>, k: nat, h: Ingests.Hash)
    requires UngatedCycle(plan, db, cycle, h) && Gathered(plan, db, s, cycle, |cycle|) && k < |cycle|
    ensures var next := cycle[Next(k, |cycle|)].tx;
            next in s.base.running && WaitsFor(s, cycle[k].tx, next, h)
  {
    hide Compatible, Disjoint, CanWait, StatementWaits;
    var n := Next(k, |cycle|);
    assert Arrived(plan, s, cycle[k]) && Arrived(plan, s, cycle[n]) && Ungated(plan, cycle[k], cycle[n], h);
    assert cycle[k].wanted in cycle[n].held;
  }

  lemma PlaceOf(plan: Plan, db: Db, s: State, cycle: seq<Waiter>, k: nat, x: Tx) returns (j: nat)
    requires Gathered(plan, db, s, cycle, k) && x in s.base.running
    ensures j < k && cycle[j].tx == x
  {
    hide Arrived;
    var n :| 0 <= n < k && cycle[n].tx == x;
    j := n;
  }

  lemma GatheredIsBlocked(plan: Plan, db: Db, s: State, cycle: seq<Waiter>, x: Tx, h: Ingests.Hash)
    requires UngatedCycle(plan, db, cycle, h) && Gathered(plan, db, s, cycle, |cycle|) && x in s.base.running
    ensures Blocked(s, x, s.base.running.Keys, h)
  {
    hide UngatedCycle, WaitsFor, Gathered;
    var j := PlaceOf(plan, db, s, cycle, |cycle|, x);
    ArrivedWaits(plan, db, s, cycle, j, h);
  }

  lemma Someone(plan: Plan, db: Db, s: State, cycle: seq<Waiter>, h: Ingests.Hash)
    requires UngatedCycle(plan, db, cycle, h) && Gathered(plan, db, s, cycle, |cycle|)
    ensures s.base.running.Keys != {}
  {
    hide WaitsFor;
    ArrivedWaits(plan, db, s, cycle, 0, h);
  }

  lemma GatheredIsDeadlock(plan: Plan, db: Db, s: State, cycle: seq<Waiter>, h: Ingests.Hash)
    requires UngatedCycle(plan, db, cycle, h) && Gathered(plan, db, s, cycle, |cycle|)
    ensures Deadlock(s, s.base.running.Keys, h)
  {
    hide UngatedCycle, WaitsFor, Gathered, Blocked;
    Someone(plan, db, s, cycle, h);
    forall x {:trigger Blocked(s, x, s.base.running.Keys, h)} | x in s.base.running.Keys
      ensures Blocked(s, x, s.base.running.Keys, h)
    {
      GatheredIsBlocked(plan, db, s, cycle, x, h);
    }
  }

  /**
   Some run of a set of requests gets into a deadlock exactly when the orders in which they lock their rules form an
   ungated cycle. This holds of any number of requests, from any moment at which none is running.
   */
  lemma DeadlocksIffUngatedCycle(plan: Plan, s: State, h: Ingests.Hash)
    requires Idle(s, h) && Sendable(plan, s.base.db)
    ensures CanDeadlock(plan, s, h) <==> HasUngatedCycle(plan, s.base.db, h)
  {
    hide Idle, Sendable, Deadlock, Reaches, UngatedCycle;
    if CanDeadlock(plan, s, h) {
      var t, txs :| Reaches(plan, s, t, h) && Deadlock(t, txs, h);
      DeadlockHasCycle(plan, s, t, txs, h);
    }
    if HasUngatedCycle(plan, s.base.db, h) {
      CycleIsReached(plan, s, h);
    }
  }

  lemma CycleIsReached(plan: Plan, s: State, h: Ingests.Hash)
    requires Idle(s, h) && Sendable(plan, s.base.db) && HasUngatedCycle(plan, s.base.db, h)
    ensures CanDeadlock(plan, s, h)
  {
    hide Sendable, Deadlock, Reaches, UngatedCycle, Gathered;
    var cycle :| UngatedCycle(plan, s.base.db, cycle, h);
    var t := Gather(plan, s.base.db, s, cycle, |cycle|, h);
    GatheredIsDeadlock(plan, s.base.db, t, cycle, h);
  }

  // ----- what a deadlock is, and when there is none -----

  lemma WaitsOn(plan: Plan, s: State, x: Tx, y: Tx, step: Step, h: Ingests.Hash)
    requires WaitsFor(s, x, y, h) && Enabled(plan, s, step, h)
    requires step != Statement(Ingests.Abort(x)) && step != Statement(Ingests.Abort(y))
    requires Moves(step) != Some(y)
    ensures Moves(step) != Some(x) && WaitsFor(Apply(plan, s, step, h), x, y, h)
  {
  }

  /** The transaction that goes on or commits with a step. */
  function Moves(step: Step): Option<Tx>
  {
    match step
    case LockRule(tx) => Some(tx)
    case Statement(Advance(tx)) => Some(tx)
    case Statement(Commit(tx)) => Some(tx)
    case _ => None
  }

  lemma WaiterIsStuck(plan: Plan, s: State, x: Tx, y: Tx, step: Step, h: Ingests.Hash)
    requires WaitsFor(s, x, y, h) && Enabled(plan, s, step, h)
    ensures Moves(step) != Some(x)
  {
  }

  predicate Spares(step: Step, txs: set<Tx>)
  {
    !(step.Statement? && step.step.Abort? && step.step.tx in txs)
  }

  lemma StaysBlocked(plan: Plan, s: State, step: Step, txs: set<Tx>, x: Tx, h: Ingests.Hash)
    requires Deadlock(s, txs, h) && Enabled(plan, s, step, h) && Spares(step, txs) && x in txs
    ensures x in Apply(plan, s, step, h).base.running && Blocked(Apply(plan, s, step, h), x, txs, h)
  {
    hide WaitsFor, Enabled, Apply;
    assert Blocked(s, x, txs, h);
    var y :| y in txs && WaitsFor(s, x, y, h);
    assert Blocked(s, y, txs, h);
    var z :| z in txs && WaitsFor(s, y, z, h);
    WaiterIsStuck(plan, s, y, z, step, h);
    WaitsOn(plan, s, x, y, step, h);
    StillRunning(Apply(plan, s, step, h), x, y, h);
  }

  lemma StepKeepsDeadlock(plan: Plan, s: State, step: Step, txs: set<Tx>, h: Ingests.Hash)
    requires Deadlock(s, txs, h) && Enabled(plan, s, step, h) && Spares(step, txs)
    ensures Deadlock(Apply(plan, s, step, h), txs, h)
  {
    hide Blocked, Enabled, Apply;
    var t := Apply(plan, s, step, h);
    forall x | x in txs ensures x in t.base.running && Blocked(t, x, txs, h) {
      StaysBlocked(plan, s, step, txs, x, h);
    }
  }

  lemma StillRunning(s: State, x: Tx, y: Tx, h: Ingests.Hash)
    requires WaitsFor(s, x, y, h)
    ensures x in s.base.running
  {
  }

  /** A deadlock lasts, whatever else happens, until one of its transactions is aborted. */
  lemma {:induction false} DeadlockLasts(plan: Plan, s: State, steps: seq<Step>, t: State, txs: set<Tx>,
                                         h: Ingests.Hash)
    requires Deadlock(s, txs, h) && Run(plan, s, steps, t, h)
    requires forall k :: 0 <= k < |steps| ==> Spares(steps[k], txs)
    ensures Deadlock(t, txs, h)
    decreases |steps|
  {
    hide Deadlock, Enabled, Apply;
    if steps != [] {
      StepKeepsDeadlock(plan, s, steps[0], txs, h);
      DeadlockLasts(plan, Apply(plan, s, steps[0], h), steps[1..], t, txs, h);
    }
  }

  /** A transaction can go on with a statement or a rule, or commit. */
  ghost predicate CanMove(plan: Plan, s: State, tx: Tx, h: Ingests.Hash)
  {
    exists step :: Enabled(plan, s, step, h) && Moves(step) == Some(tx)
  }

  lemma MovesOrWaits(plan: Plan, s: State, x: Tx, h: Ingests.Hash)
    requires Planned(plan, s) && x in s.base.running
    ensures CanMove(plan, s, x, h) || Blocked(s, x, s.base.running.Keys, h)
  {
    hide Ingests.Holds, Ingests.NextLock;
    var txn := s.base.running[x];
    assert Moves(Statement(Ingests.Advance(x))) == Some(x) && Moves(LockRule(x)) == Some(x) &&
           Moves(Statement(Ingests.Commit(x))) == Some(x);
    if !Ingests.Over(txn.phase) {
      if !Enabled(plan, s, Statement(Ingests.Advance(x)), h) {
        var y :| y in s.base.running && y != x && Ingests.Holds(s.base.running[y], Ingests.NextLock(txn, h).value, h);
        assert WaitsFor(s, x, y, h);
      }
    } else if !Enabled(plan, s, Statement(Ingests.Commit(x)), h) && !Enabled(plan, s, LockRule(x), h) {
      var y :| y in s.rules && y != x && s.rules[x].wanted[0] in s.rules[y].held;
      assert WaitsFor(s, x, y, h);
    }
  }

  /** When no set of transactions is in a deadlock, one of them can go on or commit. */
  lemma SomeoneMoves(plan: Plan, s: State, h: Ingests.Hash) returns (tx: Tx)
    requires Planned(plan, s) && s.base.running != map[] && !Deadlock(s, s.base.running.Keys, h)
    ensures CanMove(plan, s, tx, h)
  {
    hide CanMove, Blocked, Planned;
    tx :| tx in s.base.running && !Blocked(s, tx, s.base.running.Keys, h);
    MovesOrWaits(plan, s, tx, h);
  }

  /** Without an ungated cycle no run ever comes to a standstill: some transaction can go on or commit. */
  lemma NoCycleNoStandstill(plan: Plan, s: State, t: State, h: Ingests.Hash) returns (tx: Tx)
    requires Idle(s, h) && Reaches(plan, s, t, h) && !HasUngatedCycle(plan, s.base.db, h) && t.base.running != map[]
    ensures CanMove(plan, t, tx, h)
  {
    hide Idle, HasUngatedCycle, CanMove;
    ReachedKeeps(plan, s, t, h);
    if Deadlock(t, t.base.running.Keys, h) {
      DeadlockHasCycle(plan, s, t, t.base.running.Keys, h);
    }
    tx := SomeoneMoves(plan, t, h);
  }

  // ----- rules in one order -----

  predicate Ascending(rules: seq<Uuid>, order: Uuid -> int)
  {
    forall j, k :: 0 <= j < k < |rules| ==> order(rules[j]) < order(rules[k])
  }

  lemma HeldIsBefore(w: Waiter, rules: seq<Uuid>, rule: Uuid, order: Uuid -> int)
    requires Ascending(rules, order) && w.held + [w.wanted] <= rules && rule in w.held
    ensures order(rule) < order(w.wanted)
  {
    var j :| 0 <= j < |w.held| && w.held[j] == rule;
    assert (w.held + [w.wanted])[j] == rules[j] && (w.held + [w.wanted])[|w.held|] == rules[|w.held|];
  }

  /** Around a cycle, the rules that are wanted would have to ascend for ever. */
  lemma {:induction false} WantedAscends(plan: Plan, db: Db, cycle: seq<Waiter>, k: nat, order: Uuid -> int,
                                         h: Ingests.Hash)
    requires UngatedCycle(plan, db, cycle, h) && k < |cycle|
    requires forall tx {:trigger plan[tx]} :: tx in plan ==> Ascending(plan[tx].rules, order)
    ensures k > 0 ==> order(cycle[0].wanted) < order(cycle[k].wanted)
  {
    hide Ascending, Ungated;
    if k > 0 {
      WantedAscends(plan, db, cycle, k - 1, order, h);
      assert CanWait(plan, db, cycle[k]) && CanWait(plan, db, cycle[k - 1]);
      assert cycle[k - 1].wanted in cycle[Next(k - 1, |cycle|)].held;
      HeldIsBefore(cycle[k], plan[cycle[k].tx].rules, cycle[k - 1].wanted, order);
    }
  }

  /** When all requests lock their rules in one common order, there is never a deadlock. */
  lemma OrderedRulesNeverDeadlock(plan: Plan, s: State, order: Uuid -> int, h: Ingests.Hash)
    requires Idle(s, h) && Sendable(plan, s.base.db)
    requires forall tx {:trigger plan[tx]} :: tx in plan ==> Ascending(plan[tx].rules, order)
    ensures !CanDeadlock(plan, s, h)
  {
    hide Idle, Sendable, CanDeadlock, Ascending, Ungated;
    DeadlocksIffUngatedCycle(plan, s, h);
    if HasUngatedCycle(plan, s.base.db, h) {
      var cycle: seq<Waiter> :| UngatedCycle(plan, s.base.db, cycle, h);
      var last := |cycle| - 1;
      WantedAscends(plan, s.base.db, cycle, last, order, h);
      assert CanWait(plan, s.base.db, cycle[0]) && CanWait(plan, s.base.db, cycle[last]);
      assert cycle[last].wanted in cycle[Next(last, |cycle|)].held;
      HeldIsBefore(cycle[0], plan[cycle[0].tx].rules, cycle[last].wanted, order);
    }
  }

  // ----- two requests -----

  /** Where the first rule of some is that is among others. */
  function FirstIn(rules: seq<Uuid>, others: seq<Uuid>): (k: nat)
    ensures k <= |rules| && (k < |rules| ==> rules[k] in others)
    ensures forall i :: 0 <= i < k ==> rules[i] !in others
  {
    if rules == [] || rules[0] in others then 0 else 1 + FirstIn(rules[1..], others)
  }

  function FirstCommon(rules: seq<Uuid>, others: seq<Uuid>): Option<Uuid>
  {
    var k := FirstIn(rules, others);
    if k < |rules| then Some(rules[k]) else None
  }

  /** A held rule that the other request wants makes the first common one a held one. */
  lemma FirstIsHeld(rules: seq<Uuid>, held: seq<Uuid>, others: seq<Uuid>, rule: Uuid)
    requires held <= rules && rule in held && rule in others
    ensures FirstCommon(rules, others).Some? && FirstCommon(rules, others).value in held
    ensures FirstCommon(rules, others).value in others
  {
    var j :| 0 <= j < |held| && held[j] == rule;
    assert rules[j] == rule;
    var k := FirstIn(rules, others);
    assert k <= j && held[k] == rules[k];
  }

  lemma CommonToBoth(a: seq<Uuid>, b: seq<Uuid>)
    requires FirstIn(a, b) < |a|
    ensures FirstIn(b, a) < |b|
  {
    var rule := a[FirstIn(a, b)];
    var m :| 0 <= m < |b| && b[m] == rule;
  }

  /** Two orders with different first common rules: each can be followed until it meets what the other one holds. */
  lemma CrossedPrefixes(a: seq<Uuid>, b: seq<Uuid>) returns (p: nat, q: nat)
    requires FirstCommon(a, b) != FirstCommon(b, a)
    ensures p < |a| && q < |b| && Disjoint(a[..p], b[..q]) && a[p] in b[..q] && b[q] in a[..p]
  {
    var i, j := FirstIn(a, b), FirstIn(b, a);
    if i < |a| {
      CommonToBoth(a, b);
    } else {
      CommonToBoth(b, a);
    }
    p := FirstIn(a, b[..j + 1]);
    assert b[j] == b[..j + 1][j];
    assert p < |a|;
    assert i < p;
    assert a[i] == a[..p][i];
    q := FirstIn(b, a[..p]);
    assert q < |b|;
    assert j < q;
  }

  lemma CyclicPair(plan: Plan, db: Db, cycle: seq<Waiter>, x: Tx, y: Tx, h: Ingests.Hash)
    requires UngatedCycle(plan, db, cycle, h) && plan.Keys == {x, y}
    ensures |cycle| == 2
  {
    hide Compatible, Disjoint;
    assert CanWait(plan, db, cycle[0]) && CanWait(plan, db, cycle[1]) && Ungated(plan, cycle[0], cycle[1], h);
    if |cycle| > 2 {
      var third := cycle[2].tx;
      assert false;
    }
  }

  lemma PairCrosses(plan: Plan, db: Db, cycle: seq<Waiter>, x: Tx, y: Tx, h: Ingests.Hash)
    requires UngatedCycle(plan, db, cycle, h) && |cycle| == 2 && cycle[0].tx == x && cycle[1].tx == y
    requires x in plan && y in plan
    ensures Compatible(plan[x].i, plan[y].i, h) && {plan[x].i.event, plan[y].i.event} !! db.events.Keys
    ensures FirstCommon(plan[x].rules, plan[y].rules) != FirstCommon(plan[y].rules, plan[x].rules)
  {
    var v, w := cycle[0], cycle[1];
    assert CanWait(plan, db, v) && CanWait(plan, db, w) && Ungated(plan, v, w, h);
    assert v.wanted in cycle[Next(0, 2)].held && w.wanted in cycle[Next(1, 2)].held;
    PrefixOf(v.held, v.wanted, plan[x].rules);
    PrefixOf(w.held, w.wanted, plan[y].rules);
    FirstIsHeld(plan[x].rules, v.held, plan[y].rules, w.wanted);
    FirstIsHeld(plan[y].rules, w.held, plan[x].rules, v.wanted);
  }

  lemma PrefixOf(held: seq<Uuid>, wanted: Uuid, rules: seq<Uuid>)
    requires held + [wanted] <= rules
    ensures held <= rules && wanted in rules
  {
    assert rules[|held|] == (held + [wanted])[|held|];
  }

  lemma Symmetric(i: Incoming, j: Incoming, h: Ingests.Hash)
    ensures Compatible(i, j, h) == Compatible(j, i, h)
  {
  }

  lemma PrefixCanWait(plan: Plan, db: Db, x: Tx, p: nat)
    requires x in plan && plan[x].i.event !in db.events && p < |plan[x].rules|
    ensures CanWait(plan, db, Waiter(x, plan[x].rules[..p], plan[x].rules[p]))
  {
    assert plan[x].rules[..p] + [plan[x].rules[p]] == plan[x].rules[..p + 1];
  }

  lemma BothUngated(plan: Plan, v: Waiter, w: Waiter, h: Ingests.Hash)
    requires v.tx in plan && w.tx in plan && v.tx != w.tx
    requires Compatible(plan[v.tx].i, plan[w.tx].i, h) && Disjoint(v.held, w.held)
    ensures Ungated(plan, v, w, h) && Ungated(plan, w, v, h)
  {
    Symmetric(plan[v.tx].i, plan[w.tx].i, h);
  }

  lemma CrossedPairIsCycle(plan: Plan, db: Db, x: Tx, y: Tx, h: Ingests.Hash)
    requires x in plan && y in plan && x != y
    requires Compatible(plan[x].i, plan[y].i, h) && {plan[x].i.event, plan[y].i.event} !! db.events.Keys
    requires FirstCommon(plan[x].rules, plan[y].rules) != FirstCommon(plan[y].rules, plan[x].rules)
    ensures HasUngatedCycle(plan, db, h)
  {
    hide Compatible, CanWait, FirstCommon, Ungated, Disjoint;
    var a, b := plan[x].rules, plan[y].rules;
    var p, q := CrossedPrefixes(a, b);
    var v, w := Waiter(x, a[..p], a[p]), Waiter(y, b[..q], b[q]);
    PrefixCanWait(plan, db, x, p);
    PrefixCanWait(plan, db, y, q);
    BothUngated(plan, v, w, h);
    CycleIs(plan, db, [v, w], h);
  }

  /**
   Two requests can get into a deadlock exactly when they share none of the other locks, their events are new, and the
   first rule of the one that the other also locks is not the first of the other. Rules in opposite orders are not
   enough: behind a common first rule they do no harm.
   */
  lemma TwoDeadlockIffFirstRulesDiffer(plan: Plan, s: State, x: Tx, y: Tx, h: Ingests.Hash)
    requires Idle(s, h) && Sendable(plan, s.base.db) && x != y && plan.Keys == {x, y}
    ensures CanDeadlock(plan, s, h) <==>
              && Compatible(plan[x].i, plan[y].i, h)
              && {plan[x].i.event, plan[y].i.event} !! s.base.db.events.Keys
              && FirstCommon(plan[x].rules, plan[y].rules) != FirstCommon(plan[y].rules, plan[x].rules)
  {
    hide Idle, Sendable, CanDeadlock, UngatedCycle, Compatible, FirstCommon;
    DeadlocksIffUngatedCycle(plan, s, h);
    if HasUngatedCycle(plan, s.base.db, h) {
      var cycle: seq<Waiter> :| UngatedCycle(plan, s.base.db, cycle, h);
      CyclicPair(plan, s.base.db, cycle, x, y, h);
      PairMembers(plan, s.base.db, cycle, x, y, h);
      Symmetric(plan[x].i, plan[y].i, h);
      if cycle[0].tx == x {
        PairCrosses(plan, s.base.db, cycle, x, y, h);
      } else {
        PairCrosses(plan, s.base.db, cycle, y, x, h);
      }
    }
    if Compatible(plan[x].i, plan[y].i, h) && {plan[x].i.event, plan[y].i.event} !! s.base.db.events.Keys &&
       FirstCommon(plan[x].rules, plan[y].rules) != FirstCommon(plan[y].rules, plan[x].rules) {
      CrossedPairIsCycle(plan, s.base.db, x, y, h);
    }
  }

  lemma PairMembers(plan: Plan, db: Db, cycle: seq<Waiter>, x: Tx, y: Tx, h: Ingests.Hash)
    requires UngatedCycle(plan, db, cycle, h) && |cycle| == 2 && plan.Keys == {x, y}
    ensures (cycle[0].tx == x && cycle[1].tx == y) || (cycle[0].tx == y && cycle[1].tx == x)
  {
    hide Compatible, Disjoint;
    assert CanWait(plan, db, cycle[0]) && CanWait(plan, db, cycle[1]) && Ungated(plan, cycle[0], cycle[1], h);
  }

  const BEGINNING := State(Ingests.State(EMPTY, map[], []), map[])

  lemma BeginningIsIdle(h: Ingests.Hash)
    ensures Idle(BEGINNING, h)
  {
  }

  /** Two rules in opposite orders are enough, from the very beginning: each request holds what the other wants. */
  lemma OppositeOrdersDeadlock(i: Incoming, j: Incoming, r: Uuid, r': Uuid, h: Ingests.Hash)
    requires Compatible(i, j, h) && r != r' && !AllSpace(i.message) && !AllSpace(j.message) && i.newIssue != j.newIssue
    ensures CanDeadlock(map[0 := Request(i, [r, r']), 1 := Request(j, [r', r])], BEGINNING, h)
  {
    hide Idle, CanDeadlock, Compatible, AllSpace;
    var plan := map[0 := Request(i, [r, r']), 1 := Request(j, [r', r])];
    BeginningIsIdle(h);
    assert FirstIn([r, r'], [r', r]) == 0 && FirstIn([r', r], [r, r']) == 0;
    TwoDeadlockIffFirstRulesDiffer(plan, BEGINNING, 0, 1, h);
  }

  /** The same rules in some order. */
  predicate Reordered(a: seq<Uuid>, b: seq<Uuid>)
  {
    multiset(a) == multiset(b)
  }

  lemma ReorderedHas(a: seq<Uuid>, b: seq<Uuid>, rule: Uuid)
    requires Reordered(a, b)
    ensures rule in a <==> rule in b
  {
    assert rule in a <==> rule in multiset(a);
  }

  lemma ToFront(rules: seq<Uuid>, rule: Uuid) returns (front: seq<Uuid>)
    requires rule in rules
    ensures Reordered(rules, front) && front != [] && front[0] == rule
  {
    var k :| 0 <= k < |rules| && rules[k] == rule;
    front := [rule] + rules[..k] + rules[k + 1..];
    assert rules == rules[..k] + [rule] + rules[k + 1..];
  }

  /** Some order of the rules of two requests makes a deadlock possible exactly when they have two rules in common. */
  lemma SomeOrderCrossesIffTwoCommon(a: seq<Uuid>, b: seq<Uuid>)
    ensures (exists a', b' :: Reordered(a, a') && Reordered(b, b') && FirstCommon(a', b') != FirstCommon(b', a')) <==>
            (exists r, r' :: r != r' && r in a && r in b && r' in a && r' in b)
  {
    if a', b' :| Reordered(a, a') && Reordered(b, b') && FirstCommon(a', b') != FirstCommon(b', a') {
      var p, q := CrossedPrefixes(a', b');
      ReorderedHas(a, a', a'[p]);
      ReorderedHas(b, b', a'[p]);
      ReorderedHas(a, a', b'[q]);
      ReorderedHas(b, b', b'[q]);
    }
    if r, r' :| r != r' && r in a && r in b && r' in a && r' in b {
      var a' := ToFront(a, r);
      var b' := ToFront(b, r');
      ReorderedHas(a, a', r');
      ReorderedHas(b, b', r);
      assert FirstIn(a', b') == 0 && FirstIn(b', a') == 0;
    }
  }

  /** Two requests with their rules in the orders `a` and `b`. */
  function Ordered(plan: Plan, x: Tx, y: Tx, a: seq<Uuid>, b: seq<Uuid>): Plan
    requires x in plan && y in plan
  {
    map[x := plan[x].(rules := a), y := plan[y].(rules := b)]
  }

  lemma StillSendable(plan: Plan, db: Db, x: Tx, y: Tx, a: seq<Uuid>, b: seq<Uuid>)
    requires Sendable(plan, db) && x in plan && y in plan
    ensures Sendable(Ordered(plan, x, y, a, b), db)
  {
    hide AllSpace;
  }

  lemma OrderedDeadlocks(plan: Plan, s: State, x: Tx, y: Tx, a: seq<Uuid>, b: seq<Uuid>, h: Ingests.Hash)
    requires Idle(s, h) && Sendable(plan, s.base.db) && x != y && x in plan && y in plan
    requires Compatible(plan[x].i, plan[y].i, h) && {plan[x].i.event, plan[y].i.event} !! s.base.db.events.Keys
    ensures CanDeadlock(Ordered(plan, x, y, a, b), s, h) <==> FirstCommon(a, b) != FirstCommon(b, a)
  {
    hide Idle, CanDeadlock, Compatible, FirstCommon, Sendable;
    StillSendable(plan, s.base.db, x, y, a, b);
    TwoDeadlockIffFirstRulesDiffer(Ordered(plan, x, y, a, b), s, x, y, h);
  }

  /**
   As the scan may meet rules in any order, two requests that share no other lock can get into a deadlock exactly when
   they have two rules in common.
   */
  lemma TwoDeadlockInSomeOrderIffTwoCommon(plan: Plan, s: State, x: Tx, y: Tx, h: Ingests.Hash)
    requires Idle(s, h) && Sendable(plan, s.base.db) && x != y && x in plan && y in plan
    requires Compatible(plan[x].i, plan[y].i, h) && {plan[x].i.event, plan[y].i.event} !! s.base.db.events.Keys
    ensures (exists a, b :: Reordered(plan[x].rules, a) && Reordered(plan[y].rules, b) &&
                              CanDeadlock(Ordered(plan, x, y, a, b), s, h)) <==>
            (exists r, r' :: r != r' && r in plan[x].rules && r in plan[y].rules &&
                               r' in plan[x].rules && r' in plan[y].rules)
  {
    hide Idle, Sendable, CanDeadlock, Compatible, FirstCommon, Reordered, Ordered;
    forall a, b ensures CanDeadlock(Ordered(plan, x, y, a, b), s, h) <==> FirstCommon(a, b) != FirstCommon(b, a) {
      OrderedDeadlocks(plan, s, x, y, a, b, h);
    }
    SomeOrderCrossesIffTwoCommon(plan[x].rules, plan[y].rules);
  }
}
