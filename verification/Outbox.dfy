/**
 The notification outbox as a transition system: its rows, the escalation policies, and the jobs that
 any number of workers hold in memory (src/notification.rs, with the enqueueing of src/alert.rs and the
 manual retry of src/api.rs). Each step is one statement or transaction of the source, at one reading of
 the database clock. Times are microseconds.
 */
module Outbox {
  import opened Wrappers
  import opened DedupKeys

  const SECOND: int := 1_000_000
  const LEASE: int := 300 * SECOND

  datatype Status = Pending | Processing | Sent | Failed

  /** A row of `notification_outbox`. */
  datatype Row = Row(rule: Uuid, channel: string, target: string, payload: string, policy: Option<Uuid>, step: nat,
                     status: Status, attempts: nat, availableAt: int, claimedAt: Option<int>, sentAt: Option<int>,
                     dedup: Option<Key>)

  /** A row of `escalation_steps`; its place in the policy is its `step_order`. */
  datatype PolicyStep = PolicyStep(channel: string, target: Option<string>, delay: nat)

  /** What a worker remembers of a row it has claimed. */
  datatype Job = Job(id: Uuid, rule: Uuid, payload: string, policy: Option<Uuid>, step: nat, attempts: nat)

  /** A claimed job is first sent; after its last failure the next escalation step is enqueued. */
  datatype Work = Sending(job: Job) | Escalating(job: Job)

  /**
   The history of a row, which the source does not store: the alert it descends from, when it was first available, and
   what was recorded about it. All but the alert count from the last manual retry, and `clean` says that no worker was
   sending the row at that retry.
   */
  datatype Tally = Tally(root: Uuid, initial: int, failures: nat, delivered: nat, clean: bool, reclaims: nat)

  type Token = nat

  datatype State = State(now: int, rows: map<Uuid, Row>, policies: map<Uuid, seq<PolicyStep>>,
                         work: map<Token, Work>, tallies: map<Uuid, Tally>)

  datatype Step =
    | Tick(delta: nat)
    | CreatePolicy(policy: Uuid, steps: seq<PolicyStep>)
    | Alert(id: Uuid, rule: Uuid, channel: string, target: string, payload: string, policyId: Option<Uuid>,
            onCall: Option<string>)
    | Recover(id: Uuid, rule: Uuid, issue: Uuid, count: nat, channel: string, target: string, payload: string)
    | Claim(token: Token, id: Uuid)
    | Succeed(token: Token)
    | Fail(token: Token)
    | Escalate(token: Token, id: Uuid, onCall: Option<string>)
    | Drop(token: Token)
    | Retry(id: Uuid)

  // ----- the statements -----

  function Pow2(n: nat): (p: nat)
    ensures p >= 1
  {
    if n == 0 then 1 else 2 * Pow2(n - 1)
  }

  /** The pause after a failure, from the attempts the worker saw when it claimed the row. */
  function Delay(attempts: nat): int
  {
    Pow2(if attempts < 8 then attempts else 8) * SECOND
  }

  predicate Claimable(r: Row, now: int)
  {
    || (r.status == Pending && r.availableAt <= now)
    || (r.status == Processing && r.claimedAt.Some? && r.claimedAt.value < now - LEASE)
  }

  function Claimed(r: Row, now: int): Row
  {
    r.(status := Processing, claimedAt := Some(now))
  }

  function Delivered(r: Row, now: int): Row
  {
    r.(status := Sent, sentAt := Some(now))
  }

  function FailedOnce(r: Row, seen: nat, now: int): Row
  {
    r.(status := if r.attempts >= 7 then Failed else Pending,
       attempts := r.attempts + 1, availableAt := now + Delay(seen))
  }

  function Retried(r: Row, now: int): Row
  {
    r.(status := Pending, attempts := 0, availableAt := now, claimedAt := None, sentAt := None)
  }

  function JobOf(id: Uuid, r: Row): Job
  {
    Job(id, r.rule, r.payload, r.policy, r.step, r.attempts)
  }

  function Fresh(rule: Uuid, channel: string, target: string, payload: string, policy: Option<Uuid>, step: nat,
                 availableAt: int, dedup: Option<Key>): Row
  {
    Row(rule, channel, target, payload, policy, step, Pending, 0, availableAt, None, None, dedup)
  }

  predicate HasKey(rows: map<Uuid, Row>, key: Key)
  {
    exists id :: id in rows && rows[id].dedup == Some(key)
  }

  /** How a policy step notifies: its target or else whoever is on call, after its delay. */
  datatype Route = Route(channel: string, target: string, delay: nat)

  function RouteOf(policies: map<Uuid, seq<PolicyStep>>, policy: Uuid, order: nat,
                   onCall: Option<string>): Option<Route>
  {
    if policy !in policies || order >= |policies[policy]| then None
    else
      var step := policies[policy][order];
      var target := if step.target.Some? then step.target else onCall;
      if target.Some? then Some(Route(step.channel, target.value, step.delay)) else None
  }

  /** An alert goes to the first step of its rule's policy, or straight to the rule's own target. */
  function AlertRoute(policies: map<Uuid, seq<PolicyStep>>, channel: string, target: string, policy: Option<Uuid>,
                      onCall: Option<string>): Option<Route>
  {
    if policy.Some? then RouteOf(policies, policy.value, 0, onCall) else Some(Route(channel, target, 0))
  }

  /** The row that escalates a job, unless there is no next step or it has been enqueued before. */
  function Successor(rows: map<Uuid, Row>, policies: map<Uuid, seq<PolicyStep>>, job: Job, onCall: Option<string>,
                     now: int): Option<Row>
  {
    var key := Escalation(job.id, job.step + 1);
    if job.policy.None? || HasKey(rows, key) then None
    else
      match RouteOf(policies, job.policy.value, job.step + 1, onCall)
      case None => None
      case Some(to) =>
        Some(Fresh(job.rule, to.channel, to.target, job.payload, job.policy, job.step + 1, now + to.delay * SECOND,
                   Some(key)))
  }

  // ----- the transition system -----

  predicate Holds(s: State, token: Token)
  {
    token in s.work && s.work[token].job.id in s.rows && s.work[token].job.id in s.tallies
  }

  /** Some worker has claimed a row and not yet recorded how its send went. */
  predicate BeingSent(s: State, id: Uuid)
  {
    exists token :: token in s.work && s.work[token].Sending? && s.work[token].job.id == id
  }

  /** Which steps can be taken. Identifiers and tokens of new things are new. */
  predicate Enabled(s: State, step: Step)
  {
    match step
    case Tick(_) => true
    case CreatePolicy(policy, steps) => policy !in s.policies && steps != []
    case Alert(id, _, channel, target, _, policy, onCall) =>
      id !in s.rows && AlertRoute(s.policies, channel, target, policy, onCall).Some?
    case Recover(id, _, _, _, _, _, _) => id !in s.rows
    case Claim(token, id) =>
      token !in s.work && id in s.rows && id in s.tallies && Claimable(s.rows[id], s.now)
    case Succeed(token) => Holds(s, token) && s.work[token].Sending?
    case Fail(token) => Holds(s, token) && s.work[token].Sending?
    case Escalate(token, id, _) => Holds(s, token) && s.work[token].Escalating? && id !in s.rows
    case Drop(token) => token in s.work
    case Retry(id) => id in s.rows && id in s.tallies
  }

  function Insert(s: State, id: Uuid, r: Row, root: Uuid): State
  {
    s.(rows := s.rows[id := r], tallies := s.tallies[id := Tally(root, r.availableAt, 0, 0, true, 0)])
  }

  function Apply(s: State, step: Step): State
    requires Enabled(s, step)
  {
    match step
    case Tick(delta) => s.(now := s.now + delta)
    case CreatePolicy(policy, steps) => s.(policies := s.policies[policy := steps])
    case Alert(id, rule, channel, target, payload, policy, onCall) =>
      var to := AlertRoute(s.policies, channel, target, policy, onCall).value;
      Insert(s, id, Fresh(rule, to.channel, to.target, payload, policy, 0, s.now + to.delay * SECOND, None), id)
    case Recover(id, rule, issue, count, channel, target, payload) =>
      var key := Recovery(rule, issue, count);
      if HasKey(s.rows, key) then s
      else Insert(s, id, Fresh(rule, channel, target, payload, None, 0, s.now, Some(key)), id)
    case Claim(token, id) =>
      var r, t := s.rows[id], s.tallies[id];
      s.(rows := s.rows[id := Claimed(r, s.now)],
         work := s.work[token := Sending(JobOf(id, r))],
         tallies := s.tallies[id := if r.status == Processing then t.(reclaims := t.reclaims + 1) else t])
    case Succeed(token) =>
      var id := s.work[token].job.id;
      var t := s.tallies[id];
      s.(rows := s.rows[id := Delivered(s.rows[id], s.now)],
         work := s.work - {token}, tallies := s.tallies[id := t.(delivered := t.delivered + 1)])
    case Fail(token) =>
      var job := s.work[token].job;
      var t := s.tallies[job.id];
      s.(rows := s.rows[job.id := FailedOnce(s.rows[job.id], job.attempts, s.now)],
         work := if job.attempts >= 7 then s.work[token := Escalating(job)] else s.work - {token},
         tallies := s.tallies[job.id := t.(failures := t.failures + 1)])
    case Escalate(token, id, onCall) =>
      var job := s.work[token].job;
      var next := Successor(s.rows, s.policies, job, onCall, s.now);
      var done := s.(work := s.work - {token});
      if next.None? then done else Insert(done, id, next.value, s.tallies[job.id].root)
    case Drop(token) => s.(work := s.work - {token})
    case Retry(id) =>
      var t := s.tallies[id];
      s.(rows := s.rows[id := Retried(s.rows[id], s.now)],
         tallies := s.tallies[id := Tally(t.root, s.now, 0, 0, !BeingSent(s, id), 0)])
  }

  /** The runs from `s` to `t`. */
  ghost predicate Run(s: State, steps: seq<Step>, t: State)
    decreases |steps|
  {
    if steps == [] then s == t
    else Enabled(s, steps[0]) && Run(Apply(s, steps[0]), steps[1..], t)
  }

  /** An empty outbox at any time. */
  ghost predicate Initial(s: State)
  {
    s.rows == map[] && s.policies == map[] && s.work == map[] && s.tallies == map[]
  }

  ghost predicate Reachable(t: State)
  {
    exists start, steps :: Initial(start) && Run(start, steps, t)
  }

  lemma {:induction false} RunThen(s: State, front: seq<Step>, t: State, back: seq<Step>, u: State)
    requires Run(s, front, t) && Run(t, back, u)
    ensures Run(s, front + back, u)
    decreases |front|
  {
    if front == [] {
      assert front + back == back;
    } else {
      RunThen(Apply(s, front[0]), front[1..], t, back, u);
      assert (front + back)[1..] == front[1..] + back;
    }
  }
}
