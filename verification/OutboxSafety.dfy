/**
 What holds of the outbox in every reachable state, with any number of workers, crashes, expired leases
 and manual retries: the meaning of the statuses, the exponential backoff, and the shape of escalations.
 */
module OutboxSafety {
  import opened Wrappers
  import opened DedupKeys
  import opened Outbox

  // ----- statuses and attempts -----

  /** What a status says about the attempts and the history of a row. */
  predicate StatusOk(r: Row, t: Tally)
  {
    && r.attempts == t.failures
    && (r.status == Pending || r.status == Processing ==> r.attempts <= 7)
    && (r.status == Processing ==> r.claimedAt.Some?)
    && (r.status == Failed ==> r.attempts >= 8)
    && (r.status == Sent ==> t.delivered >= 1)
  }

  /** A job agrees with its row, except that the attempts it remembers may be out of date. */
  predicate JobOk(s: State, job: Job)
  {
    && job.id in s.rows && job.attempts <= 7
    && JobOf(job.id, s.rows[job.id]).(attempts := job.attempts) == job
  }

  predicate PolicyOk(s: State, policy: Option<Uuid>, step: nat)
  {
    if policy.None? then step == 0
    else policy.value in s.policies && step < |s.policies[policy.value]|
  }

  ghost predicate Sound(s: State)
  {
    && s.tallies.Keys == s.rows.Keys
    && (forall id :: id in s.rows ==> StatusOk(s.rows[id], s.tallies[id]))
    && (forall id :: id in s.rows ==> PolicyOk(s, s.rows[id].policy, s.rows[id].step))
    && (forall token :: token in s.work ==> JobOk(s, s.work[token].job))
  }

  /** Steps that change one row leave its identity alone. */
  predicate SameIdentity(r: Row, r': Row)
  {
    && r'.rule == r.rule && r'.payload == r.payload && r'.policy == r.policy && r'.step == r.step
    && r'.dedup == r.dedup && r'.channel == r.channel && r'.target == r.target
  }

  /** `t` is `s` with the row `id` changed but not its identity, and work that was there or is for that row. */
  ghost predicate Updates(s: State, t: State, id: Uuid)
  {
    && id in s.rows && id in s.tallies && id in t.rows && id in t.tallies
    && t.rows == s.rows[id := t.rows[id]] && t.tallies == s.tallies[id := t.tallies[id]]
    && t.policies == s.policies && t.now == s.now
    && SameIdentity(s.rows[id], t.rows[id]) && t.tallies[id].root == s.tallies[id].root
  }

  /** `t` is `s` with the new row `id`, and no new work. */
  ghost predicate Inserts(s: State, t: State, id: Uuid)
  {
    && id !in s.rows && id in t.rows && id in t.tallies
    && t.rows == s.rows[id := t.rows[id]] && t.tallies == s.tallies[id := t.tallies[id]]
    && t.policies == s.policies && t.now == s.now
    && t.rows[id].status == Pending && t.rows[id].attempts == 0
    && t.tallies[id] == Tally(t.tallies[id].root, t.rows[id].availableAt, 0, 0, true, 0)
    && (forall token :: token in t.work ==> token in s.work && t.work[token] == s.work[token])
  }

  /** `t` has the rows of `s`, at the same time or later, and no new work. */
  ghost predicate Keeps(s: State, t: State)
  {
    && t.rows == s.rows && t.tallies == s.tallies && s.now <= t.now
    && (forall p :: p in s.policies ==> p in t.policies && t.policies[p] == s.policies[p])
    && (forall token :: token in t.work ==> token in s.work && t.work[token] == s.work[token])
  }

  predicate Changes(step: Step)
  {
    step.Claim? || step.Succeed? || step.Fail? || step.Retry?
  }

  /** The row a step changes, for the steps that change one. */
  function Touched(s: State, step: Step): Uuid
    requires Enabled(s, step) && Changes(step)
  {
    match step
    case Claim(_, id) => id
    case Succeed(token) => s.work[token].job.id
    case Fail(token) => s.work[token].job.id
    case Retry(id) => id
  }

  lemma UpdateSteps(s: State, step: Step)
    requires Enabled(s, step) && Changes(step)
    ensures Updates(s, Apply(s, step), Touched(s, step))
  {
  }

  /** Which steps insert a row, and which row. */
  predicate InsertsRow(s: State, step: Step)
  {
    && Enabled(s, step)
    && match step
       case Alert(_, _, _, _, _, _, _) => true
       case Recover(_, rule, issue, count, _, _, _) => !HasKey(s.rows, Recovery(rule, issue, count))
       case Escalate(token, _, onCall) => Successor(s.rows, s.policies, s.work[token].job, onCall, s.now).Some?
       case _ => false
  }

  lemma InsertSteps(s: State, step: Step)
    requires InsertsRow(s, step)
    ensures Inserts(s, Apply(s, step), step.id)
  {
  }

  lemma OtherSteps(s: State, step: Step)
    requires Enabled(s, step) && !InsertsRow(s, step)
    requires !Changes(step)
    ensures Keeps(s, Apply(s, step))
  {
  }

  lemma JobKept(s: State, t: State, id: Uuid, job: Job)
    requires Updates(s, t, id) && JobOk(s, job)
    ensures JobOk(t, job)
  {
    assert job.id == id || t.rows[job.id] == s.rows[job.id];
  }

  lemma SoundUpdate(s: State, t: State, id: Uuid)
    requires Sound(s) && Updates(s, t, id)
    requires StatusOk(t.rows[id], t.tallies[id])
    requires forall token :: token in t.work ==>
               (token in s.work && t.work[token].job == s.work[token].job) || JobOk(t, t.work[token].job)
    ensures Sound(t)
  {
    assert t.tallies.Keys == t.rows.Keys;
    forall other | other in t.rows
      ensures StatusOk(t.rows[other], t.tallies[other]) && PolicyOk(t, t.rows[other].policy, t.rows[other].step)
    {
      assert other != id ==> t.rows[other] == s.rows[other];
    }
    forall token | token in t.work
      ensures JobOk(t, t.work[token].job)
    {
      if token in s.work && t.work[token].job == s.work[token].job {
        JobKept(s, t, id, t.work[token].job);
      }
    }
  }

  lemma SoundInsert(s: State, t: State, id: Uuid)
    requires Sound(s) && Inserts(s, t, id)
    requires PolicyOk(t, t.rows[id].policy, t.rows[id].step)
    ensures Sound(t)
  {
    hide StatusOk, JobOk;
    InsertedRows(s, t, id);
    forall token | token in t.work ensures JobOk(t, t.work[token].job) { OldJobOk(s, t, id, token); }
  }

  lemma InsertedRows(s: State, t: State, id: Uuid)
    requires Sound(s) && Inserts(s, t, id)
    requires PolicyOk(t, t.rows[id].policy, t.rows[id].step)
    ensures t.tallies.Keys == t.rows.Keys
    ensures forall x :: x in t.rows ==>
              StatusOk(t.rows[x], t.tallies[x]) && PolicyOk(t, t.rows[x].policy, t.rows[x].step)
  {
    hide JobOk;
    forall x | x in t.rows
      ensures x in t.tallies && StatusOk(t.rows[x], t.tallies[x]) && PolicyOk(t, t.rows[x].policy, t.rows[x].step)
    {
      if x != id {
        assert x in s.rows && StatusOk(s.rows[x], s.tallies[x]) && PolicyOk(s, s.rows[x].policy, s.rows[x].step);
      }
    }
  }

  lemma OldJobOk(s: State, t: State, id: Uuid, token: Token)
    requires Sound(s) && Inserts(s, t, id) && token in t.work
    ensures JobOk(t, t.work[token].job)
  {
    assert JobOk(s, s.work[token].job);
  }

  lemma SoundKeep(s: State, t: State)
    requires Sound(s) && Keeps(s, t)
    ensures Sound(t)
  {
  }

  lemma SoundTouched(s: State, step: Step)
    requires Sound(s) && Enabled(s, step) && Changes(step)
    ensures Sound(Apply(s, step))
  {
    var t := Apply(s, step);
    var id := Touched(s, step);
    UpdateSteps(s, step);
    assert StatusOk(s.rows[id], s.tallies[id]);
    SoundUpdate(s, t, id);
  }

  lemma SoundInserted(s: State, step: Step)
    requires Sound(s) && InsertsRow(s, step)
    ensures Sound(Apply(s, step))
  {
    InsertSteps(s, step);
    SoundInsert(s, Apply(s, step), step.id);
  }

  lemma SoundStep(s: State, step: Step)
    requires Sound(s) && Enabled(s, step)
    ensures Sound(Apply(s, step))
  {
    if Changes(step) {
      SoundTouched(s, step);
    } else if InsertsRow(s, step) {
      SoundInserted(s, step);
    } else {
      OtherSteps(s, step);
      SoundKeep(s, Apply(s, step));
    }
  }

  // ----- backoff -----

  /** The pauses before a row that has failed `n` times: 1 + 2 + 4 and so on, for at most eight failures. */
  function Waited(n: nat): int
  {
    (Pow2(if n < 8 then n else 8) - 1) * SECOND
  }

  ghost predicate SendsFor(s: State, token: Token, id: Uuid)
  {
    token in s.work && s.work[token].Sending? && s.work[token].job.id == id
  }

  /** As long as no lease of the row has expired, one worker at most is sending it, and it remembers the attempts. */
  ghost predicate SoleSender(s: State, id: Uuid)
    requires id in s.rows
  {
    && (forall token :: SendsFor(s, token, id) ==>
          s.rows[id].status == Processing && s.work[token].job.attempts == s.rows[id].attempts)
    && (forall a, b :: SendsFor(s, a, id) && SendsFor(s, b, id) ==> a == b)
  }

  ghost predicate BackoffOk(s: State, id: Uuid)
    requires id in s.rows && id in s.tallies
  {
    var r, t := s.rows[id], s.tallies[id];
    t.clean ==>
      && r.availableAt >= t.initial + Waited(r.attempts)
      && (t.reclaims > 0 ==> s.now >= t.initial + LEASE)
      && (t.reclaims == 0 ==>
            && SoleSender(s, id) && r.attempts <= 8
            && (r.status == Processing && r.claimedAt.Some? ==>
                  t.initial + Waited(r.attempts) <= r.claimedAt.value <= s.now))
  }

  ghost predicate Backoff(s: State)
  {
    forall id :: id in s.rows && id in s.tallies ==> BackoffOk(s, id)
  }

  lemma WaitedGrows(n: nat)
    ensures n <= 7 ==> Delay(n) + Waited(n) == Waited(n + 1)
    ensures Delay(n) >= SECOND && 0 <= Waited(n) <= 255 * SECOND < LEASE
    ensures n <= 7 ==> Delay(n) <= 128 * SECOND
  {
    assert Pow2(4) == 16;
    assert Pow2(8) == 256;
    PowIsMonotone(if n < 8 then n else 8, 8);
    if n <= 7 {
      PowIsMonotone(n, 7);
    }
  }

  lemma {:induction false} PowIsMonotone(a: nat, b: nat)
    requires a <= b
    ensures Pow2(a) <= Pow2(b)
  {
    if a < b {
      PowIsMonotone(a, b - 1);
    }
  }

  /** A row that a step does not touch keeps its backoff; its senders can only become fewer. */
  lemma BackoffUntouched(s: State, t: State, id: Uuid)
    requires id in s.rows && id in s.tallies && BackoffOk(s, id)
    requires id in t.rows && id in t.tallies && t.rows[id] == s.rows[id] && t.tallies[id] == s.tallies[id]
    requires s.now <= t.now
    requires forall token :: SendsFor(t, token, id) ==> SendsFor(s, token, id) && t.work[token] == s.work[token]
    ensures BackoffOk(t, id)
  {
  }

  lemma ClaimKeepsBackoff(s: State, token: Token, id: Uuid)
    requires Sound(s) && Enabled(s, Claim(token, id)) && BackoffOk(s, id)
    ensures BackoffOk(Apply(s, Claim(token, id)), id)
  {
    var t := Apply(s, Claim(token, id));
    WaitedGrows(s.rows[id].attempts);
    assert StatusOk(s.rows[id], s.tallies[id]);
    assert forall a :: a != token && SendsFor(t, a, id) ==> SendsFor(s, a, id);
  }

  lemma SucceedKeepsBackoff(s: State, token: Token)
    requires Sound(s) && Enabled(s, Succeed(token)) && BackoffOk(s, s.work[token].job.id)
    ensures BackoffOk(Apply(s, Succeed(token)), s.work[token].job.id)
  {
    var id := s.work[token].job.id;
    var t := Apply(s, Succeed(token));
    assert SendsFor(s, token, id);
    assert forall a :: SendsFor(t, a, id) ==> a != token && SendsFor(s, a, id);
  }

  lemma FailKeepsBackoff(s: State, token: Token)
    requires Sound(s) && Enabled(s, Fail(token)) && BackoffOk(s, s.work[token].job.id)
    ensures BackoffOk(Apply(s, Fail(token)), s.work[token].job.id)
  {
    var id := s.work[token].job.id;
    var t := Apply(s, Fail(token));
    WaitedGrows(s.rows[id].attempts);
    WaitedGrows(s.rows[id].attempts + 1);
    WaitedGrows(s.work[token].job.attempts);
    assert StatusOk(s.rows[id], s.tallies[id]);
    assert SendsFor(s, token, id);
    assert forall a :: SendsFor(t, a, id) ==> a != token && SendsFor(s, a, id);
  }

  lemma TouchedKeepsBackoff(s: State, step: Step)
    requires Sound(s) && Enabled(s, step) && Changes(step)
    requires BackoffOk(s, Touched(s, step))
    ensures BackoffOk(Apply(s, step), Touched(s, step))
  {
    match step
    case Claim(token, id) => ClaimKeepsBackoff(s, token, id);
    case Succeed(token) => SucceedKeepsBackoff(s, token);
    case Fail(token) => FailKeepsBackoff(s, token);
    case Retry(id) => RetryKeepsBackoff(s, id);
  }

  lemma RetryKeepsBackoff(s: State, id: Uuid)
    requires Enabled(s, Retry(id))
    ensures BackoffOk(Apply(s, Retry(id)), id)
  {
    var t := Apply(s, Retry(id));
    assert Pow2(0) == 1;
    if t.tallies[id].clean {
      forall token ensures !SendsFor(t, token, id) { assert SendsFor(s, token, id) ==> BeingSent(s, id); }
    }
  }

  lemma UpdateKeepsBackoff(s: State, step: Step, id: Uuid)
    requires Sound(s) && Enabled(s, step) && Changes(step)
    requires id in s.rows && id in s.tallies && BackoffOk(s, id)
    ensures Updates(s, Apply(s, step), Touched(s, step)) && BackoffOk(Apply(s, step), id)
  {
    hide Enabled, Sound, Holds;
    UpdateSteps(s, step);
    if id == Touched(s, step) {
      TouchedKeepsBackoff(s, step);
    } else {
      BackoffUntouched(s, Apply(s, step), id);
    }
  }

  lemma InsertKeepsBackoff(s: State, t: State, new_: Uuid, id: Uuid)
    requires Sound(s) && Backoff(s) && Inserts(s, t, new_)
    requires id in t.rows && id in t.tallies
    ensures BackoffOk(t, id)
  {
    if id == new_ {
      assert Pow2(0) == 1;
      forall token | token in s.work
        ensures s.work[token].job.id != id
      {
        assert JobOk(s, s.work[token].job);
      }
    } else {
      BackoffUntouched(s, t, id);
    }
  }

  lemma BackoffStep(s: State, step: Step)
    requires Sound(s) && Backoff(s) && Enabled(s, step)
    ensures Backoff(Apply(s, step))
  {
    var t := Apply(s, step);
    if Changes(step) {
      UpdateSteps(s, step);
      forall id | id in t.rows && id in t.tallies ensures BackoffOk(t, id) { UpdateKeepsBackoff(s, step, id); }
    } else if InsertsRow(s, step) {
      InsertSteps(s, step);
      forall id | id in t.rows && id in t.tallies ensures BackoffOk(t, id) { InsertKeepsBackoff(s, t, step.id, id); }
    } else {
      OtherSteps(s, step);
      forall id | id in t.rows && id in t.tallies ensures BackoffOk(t, id) { BackoffUntouched(s, t, id); }
    }
  }

  // ----- escalation -----

  /** What never changes about a row, and the alert it descends from. */
  datatype Node = Node(rule: Uuid, payload: string, policy: Option<Uuid>, step: nat, dedup: Option<Key>, root: Uuid)

  type Forest = map<Uuid, Node>

  function NodeOf(r: Row, t: Tally): Node
  {
    Node(r.rule, r.payload, r.policy, r.step, r.dedup, t.root)
  }

  function Nodes(s: State): Forest
  {
    map id | id in s.rows && id in s.tallies :: NodeOf(s.rows[id], s.tallies[id])
  }

  /** No two rows share a key: what the partial unique index enforces. */
  ghost predicate KeysUnique(f: Forest)
  {
    forall a, b :: a in f && b in f && f[a].dedup.Some? && f[a].dedup == f[b].dedup ==> a == b
  }

  /** The row `child` escalates the row `parent`: same rule, payload, policy and alert, one step further. */
  ghost predicate Succeeds(f: Forest, child: Uuid, parent: Uuid)
  {
    && child in f && parent in f
    && f[child].dedup == Some(Escalation(parent, f[parent].step + 1))
    && f[child] == f[parent].(step := f[parent].step + 1, dedup := f[child].dedup)
  }

  /** A row either starts an alert or escalates a row of it. */
  ghost predicate Placed(f: Forest, id: Uuid)
    requires id in f
  {
    if f[id].dedup.Some? && f[id].dedup.value.Escalation? then Succeeds(f, id, f[id].dedup.value.row)
    else f[id].step == 0 && f[id].root == id
  }

  /** An alert has at most one row for each step of its policy. */
  ghost predicate StepsUnique(f: Forest)
  {
    forall a, b :: a in f && b in f && f[a].root == f[b].root && f[a].step == f[b].step ==> a == b
  }

  ghost predicate RootOk(f: Forest, id: Uuid)
    requires id in f
  {
    f[id].root in f && f[f[id].root].policy == f[id].policy
  }

  ghost predicate Chained(f: Forest)
  {
    && KeysUnique(f) && StepsUnique(f)
    && (forall id {:trigger Placed(f, id)} :: id in f ==> Placed(f, id))
    && (forall id {:trigger RootOk(f, id)} :: id in f ==> RootOk(f, id))
  }

  lemma PlacedInLarger(f: Forest, g: Forest, id: Uuid)
    requires id in f && Placed(f, id) && RootOk(f, id)
    requires forall a :: a in f ==> a in g && g[a] == f[a]
    ensures Placed(g, id) && RootOk(g, id)
  {
  }

  /** Adding a row with a free key and a place of its own. */
  lemma NodeKeepsChains(f: Forest, id: Uuid, n: Node)
    requires Chained(f) && id !in f
    requires n.dedup.Some? ==> forall a :: a in f ==> f[a].dedup != n.dedup
    requires forall a :: a in f ==> f[a].root != n.root || f[a].step != n.step
    requires Placed(f[id := n], id) && RootOk(f[id := n], id)
    ensures Chained(f[id := n])
  {
    var g := f[id := n];
    forall a | a in g
      ensures Placed(g, a) && RootOk(g, a)
    {
      if a != id {
        PlacedInLarger(f, g, a);
      }
    }
    assert KeysUnique(g);
    assert StepsUnique(g);
  }

  /** A new alert is a chain of its own. */
  lemma StartKeepsChains(f: Forest, id: Uuid, n: Node)
    requires Chained(f) && id !in f
    requires n.step == 0 && n.root == id && (n.dedup.Some? ==> n.dedup.value.Recovery?)
    requires n.dedup.Some? ==> forall a :: a in f ==> f[a].dedup != n.dedup
    ensures Chained(f[id := n])
  {
    forall a | a in f
      ensures f[a].root != n.root
    {
      assert RootOk(f, a);
    }
    NodeKeepsChains(f, id, n);
  }

  function ChildOf(f: Forest, parent: Uuid): Node
    requires parent in f
  {
    f[parent].(step := f[parent].step + 1, dedup := Some(Escalation(parent, f[parent].step + 1)))
  }

  /** A row that escalates `parent`, whose key was free, is its only successor and the only row of its step. */
  lemma EscalationKeepsChains(f: Forest, id: Uuid, parent: Uuid)
    requires Chained(f) && id !in f && parent in f
    requires forall a :: a in f ==> f[a].dedup != ChildOf(f, parent).dedup
    ensures Chained(f[id := ChildOf(f, parent)])
  {
    var n := ChildOf(f, parent);
    assert RootOk(f, parent);
    forall a | a in f
      ensures f[a].root != n.root || f[a].step != n.step
    {
      assert Placed(f, a);
      if f[a].step == n.step {
        var above := f[a].dedup.value.row;
        assert Succeeds(f, a, above);
        assert f[above].root == f[parent].root ==> above == parent;
      }
    }
    assert Succeeds(f[id := n], id, parent);
    NodeKeepsChains(f, id, n);
  }

  lemma NodesOfUpdate(s: State, t: State, id: Uuid)
    requires Updates(s, t, id)
    ensures Nodes(t) == Nodes(s)
  {
  }

  lemma NodesOfInsert(s: State, t: State, id: Uuid)
    requires Inserts(s, t, id)
    ensures Nodes(t) == Nodes(s)[id := NodeOf(t.rows[id], t.tallies[id])]
  {
  }

  lemma KeyIsFree(s: State, key: Key)
    requires !HasKey(s.rows, key)
    ensures forall a :: a in Nodes(s) ==> Nodes(s)[a].dedup != Some(key)
  {
  }

  lemma EscalateKeepsChains(s: State, step: Step)
    requires Sound(s) && Chained(Nodes(s)) && InsertsRow(s, step) && step.Escalate?
    ensures Chained(Nodes(Apply(s, step)))
  {
    hide HasKey, StatusOk, PolicyOk, Placed;
    var t := Apply(s, step);
    var job := s.work[step.token].job;
    assert JobOk(s, job);
    InsertSteps(s, step);
    NodesOfInsert(s, t, step.id);
    KeyIsFree(s, Escalation(job.id, job.step + 1));
    assert NodeOf(t.rows[step.id], t.tallies[step.id]) == ChildOf(Nodes(s), job.id);
    EscalationKeepsChains(Nodes(s), step.id, job.id);
  }

  lemma StartStepKeepsChains(s: State, step: Step)
    requires Sound(s) && Chained(Nodes(s)) && InsertsRow(s, step) && !step.Escalate?
    ensures Chained(Nodes(Apply(s, step)))
  {
    var t := Apply(s, step);
    InsertSteps(s, step);
    NodesOfInsert(s, t, step.id);
    if step.Recover? {
      KeyIsFree(s, Recovery(step.rule, step.issue, step.count));
    }
    StartKeepsChains(Nodes(s), step.id, NodeOf(t.rows[step.id], t.tallies[step.id]));
  }

  lemma ChainedStep(s: State, step: Step)
    requires Sound(s) && Chained(Nodes(s)) && Enabled(s, step)
    ensures Chained(Nodes(Apply(s, step)))
  {
    if Changes(step) {
      UpdateSteps(s, step);
      NodesOfUpdate(s, Apply(s, step), Touched(s, step));
    } else if InsertsRow(s, step) {
      if step.Escalate? {
        EscalateKeepsChains(s, step);
      } else {
        StartStepKeepsChains(s, step);
      }
    } else {
      OtherSteps(s, step);
      assert Nodes(Apply(s, step)) == Nodes(s);
    }
  }

  // ----- every run -----

  ghost predicate Invariant(s: State)
  {
    Sound(s) && Backoff(s) && Chained(Nodes(s))
  }

  lemma {:induction false} RunKeepsInvariant(s: State, steps: seq<Step>, t: State)
    requires Invariant(s) && Run(s, steps, t)
    ensures Invariant(t)
    decreases |steps|
  {
    if steps != [] {
      SoundStep(s, steps[0]);
      BackoffStep(s, steps[0]);
      ChainedStep(s, steps[0]);
      RunKeepsInvariant(Apply(s, steps[0]), steps[1..], t);
    }
  }

  lemma ReachableIsInvariant(s: State)
    requires Reachable(s)
    ensures Invariant(s)
  {
    var start, steps :| Initial(start) && Run(start, steps, s);
    assert Nodes(start) == map[];
    RunKeepsInvariant(start, steps, s);
  }

  /**
   In every reachable state, whatever the interleaving: a row waiting or in work has failed at most seven
   times since its last reset, a failed row at least eight times, and a sent row was delivered. So a row
   with eight failures is never claimed, and every pause is a power of two between 1 and 128 seconds.
   */
  lemma StatusesMeanWhatTheySay(s: State, id: Uuid)
    requires Reachable(s) && id in s.rows
    ensures id in s.tallies && StatusOk(s.rows[id], s.tallies[id])
    ensures forall now :: Claimable(s.rows[id], now) ==> s.tallies[id].failures <= 7
    ensures forall token :: SendsFor(s, token, id) ==>
              var n := s.work[token].job.attempts; n <= 7 && SECOND <= Delay(n) == Pow2(n) * SECOND <= 128 * SECOND
  {
    ReachableIsInvariant(s);
    forall token | SendsFor(s, token, id)
      ensures var n := s.work[token].job.attempts; n <= 7 && SECOND <= Delay(n) == Pow2(n) * SECOND <= 128 * SECOND
    {
      assert JobOk(s, s.work[token].job);
      WaitedGrows(s.work[token].job.attempts);
    }
  }

  /**
   A row that failed n times is not available again before 2^n - 1 seconds (or 255, beyond the eighth failure) after it
   first was, with any number of workers, crashes and expired leases. After a manual retry the same holds from then on,
   provided that no worker was sending the row at that time.
   */
  lemma BackoffIsExponential(s: State, id: Uuid)
    requires Reachable(s) && id in s.rows
    ensures id in s.tallies
    ensures s.tallies[id].clean ==>
              s.rows[id].availableAt >= s.tallies[id].initial + Waited(s.tallies[id].failures)
  {
    ReachableIsInvariant(s);
    assert StatusOk(s.rows[id], s.tallies[id]) && BackoffOk(s, id);
  }

  /**
   Until a lease expires or a row is retried while it is being sent, one worker at most sends it, and none once it is
   sent.
   */
  lemma SendersDoNotOverlap(s: State, id: Uuid)
    requires Reachable(s) && id in s.rows && id in s.tallies
    requires s.tallies[id].clean && s.tallies[id].reclaims == 0
    ensures SoleSender(s, id)
    ensures s.rows[id].status == Sent ==> forall token :: !SendsFor(s, token, id)
  {
    ReachableIsInvariant(s);
    assert BackoffOk(s, id);
  }

  /** A row came about by escalating another one: its key names that one, whatever step it gives. */
  predicate Escalates(s: State, id: Uuid, parent: Uuid)
  {
    id in s.rows && s.rows[id].dedup.Some? && s.rows[id].dedup.value.Escalation? && s.rows[id].dedup.value.row == parent
  }

  /** A row is escalated at most once, ever, by a row of the same rule, payload and policy, one step further. */
  lemma SuccessorIsUnique(s: State, parent: Uuid, a: Uuid, b: Uuid)
    requires Reachable(s) && Escalates(s, a, parent) && Escalates(s, b, parent)
    ensures a == b && parent in s.rows && s.rows[a].dedup == Some(Escalation(parent, s.rows[parent].step + 1))
    ensures Succeeds(Nodes(s), a, parent)
  {
    ReachableIsInvariant(s);
    assert a in Nodes(s) && b in Nodes(s) && Placed(Nodes(s), a) && Placed(Nodes(s), b);
  }

  /** The rows that one alert has caused so far. */
  function RowsOf(s: State, alert: Uuid): set<Uuid>
  {
    set id | id in s.rows && id in s.tallies && s.tallies[id].root == alert
  }

  /** How many rows the policy of a row allows. */
  function Allowed(s: State, policy: Option<Uuid>): nat
  {
    if policy.Some? && policy.value in s.policies then |s.policies[policy.value]| else 1
  }

  lemma {:induction false} DistinctSteps(f: Forest, ids: set<Uuid>, bound: nat)
    requires StepsUnique(f)
    requires forall id :: id in ids ==> id in f && f[id].step < bound
    requires forall a, b :: a in ids && b in ids ==> f[a].root == f[b].root
    ensures |ids| <= bound
    decreases bound
  {
    if top :| top in ids && f[top].step == bound - 1 {
      var rest := ids - {top};
      assert ids == rest + {top};
      DistinctSteps(f, rest, bound - 1);
    } else if ids != {} {
      DistinctSteps(f, ids, bound - 1);
    }
  }

  /** One alert never becomes more rows than its policy has steps, and each of them stands for another step. */
  lemma EscalationIsASimplePath(s: State, alert: Uuid)
    requires Reachable(s) && alert in s.rows
    ensures |RowsOf(s, alert)| <= Allowed(s, s.rows[alert].policy)
    ensures forall a, b :: a in RowsOf(s, alert) && b in RowsOf(s, alert) && a != b ==> s.rows[a].step != s.rows[b].step
  {
    ReachableIsInvariant(s);
    var f := Nodes(s);
    forall id | id in RowsOf(s, alert)
      ensures id in f && f[id].step < Allowed(s, s.rows[alert].policy) && f[id].root == alert
    {
      assert RootOk(f, id) && PolicyOk(s, s.rows[id].policy, s.rows[id].step);
    }
    DistinctSteps(f, RowsOf(s, alert), Allowed(s, s.rows[alert].policy));
  }

  /** No notification is stuck: a row that is neither sent nor failed can be claimed again once time has passed. */
  lemma NothingIsStuck(s: State, id: Uuid, token: Token) returns (wait: nat)
    requires Reachable(s) && id in s.rows && token !in s.work
    requires s.rows[id].status == Pending || s.rows[id].status == Processing
    ensures Enabled(Apply(s, Tick(wait)), Claim(token, id))
  {
    ReachableIsInvariant(s);
    assert StatusOk(s.rows[id], s.tallies[id]);
    var r := s.rows[id];
    var ready := if r.status == Pending then r.availableAt else r.claimedAt.value + LEASE + 1;
    wait := if ready > s.now then ready - s.now else 0;
  }
}
