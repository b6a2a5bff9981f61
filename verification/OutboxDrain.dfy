/**
 What the outbox does when left alone: without new alerts, manual retries, crashes and expired leases it
 drains, and an alert is sent at most eight times for each step of its policy.
 */
module OutboxDrain {
  import opened Wrappers
  import opened DedupKeys
  import opened Outbox
  import opened OutboxSafety

  // ----- orderly steps -----

  /** No crash, no manual retry, and rows are claimed only while they wait. */
  predicate Orderly(s: State, step: Step)
  {
    match step
    case Claim(_, id) => id in s.rows && s.rows[id].status == Pending
    case Drop(_) => false
    case Retry(_) => false
    case _ => true
  }

  ghost predicate EscalatesFor(s: State, token: Token, id: Uuid)
  {
    token in s.work && s.work[token].Escalating? && s.work[token].job.id == id
  }

  /** In an orderly run the work in memory mirrors the status of the row. */
  ghost predicate Mirrored(s: State, id: Uuid)
    requires id in s.rows && id in s.tallies
  {
    var r, t := s.rows[id], s.tallies[id];
    && SoleSender(s, id)
    && (forall token :: EscalatesFor(s, token, id) ==> r.status == Failed)
    && (forall a, b :: EscalatesFor(s, a, id) && EscalatesFor(s, b, id) ==> a == b)
    && (r.status == Processing ==> exists token :: SendsFor(s, token, id))
    && r.attempts <= 8 && (r.status == Sent ==> r.attempts <= 7)
    && t.delivered == (if r.status == Sent then 1 else 0)
  }

  ghost predicate Neat(s: State)
  {
    Sound(s) && forall id {:trigger Mirrored(s, id)} :: id in s.rows && id in s.tallies ==> Mirrored(s, id)
  }

  lemma MirroredUntouched(s: State, t: State, id: Uuid)
    requires id in s.rows && id in s.tallies && Mirrored(s, id)
    requires id in t.rows && id in t.tallies && t.rows[id] == s.rows[id] && t.tallies[id] == s.tallies[id]
    requires forall token :: SendsFor(s, token, id) <==> SendsFor(t, token, id)
    requires forall token :: EscalatesFor(t, token, id) ==> EscalatesFor(s, token, id)
    requires forall token :: SendsFor(t, token, id) ==> t.work[token] == s.work[token]
    ensures Mirrored(t, id)
  {
  }

  lemma ClaimMirrors(s: State, token: Token, id: Uuid)
    requires Sound(s) && Enabled(s, Claim(token, id)) && s.rows[id].status == Pending && Mirrored(s, id)
    ensures Mirrored(Apply(s, Claim(token, id)), id)
  {
    var t := Apply(s, Claim(token, id));
    assert SendsFor(t, token, id);
    assert forall a :: a != token && SendsFor(t, a, id) ==> SendsFor(s, a, id);
    assert forall a :: EscalatesFor(t, a, id) ==> EscalatesFor(s, a, id);
  }

  lemma LastSenderLeaves(s: State, t: State, token: Token, id: Uuid)
    requires id in s.rows && SoleSender(s, id) && SendsFor(s, token, id)
    requires forall a :: SendsFor(t, a, id) ==> a != token && SendsFor(s, a, id)
    ensures forall a :: !SendsFor(t, a, id)
  {
  }

  lemma SucceedMirrors(s: State, token: Token)
    requires Sound(s) && Enabled(s, Succeed(token)) && Mirrored(s, s.work[token].job.id)
    ensures Mirrored(Apply(s, Succeed(token)), s.work[token].job.id)
  {
    hide StatusOk, PolicyOk;
    var id := s.work[token].job.id;
    var t := Apply(s, Succeed(token));
    assert SendsFor(s, token, id);
    assert StatusOk(s.rows[id], s.tallies[id]);
    LastSenderLeaves(s, t, token, id);
    assert forall a :: EscalatesFor(t, a, id) ==> EscalatesFor(s, a, id);
  }

  /** The work for a row after a failure was recorded: its sender is gone, or escalates if that was the last failure. */
  lemma FailureWork(s: State, token: Token, id: Uuid)
    requires Sound(s) && Enabled(s, Fail(token)) && id == s.work[token].job.id && SoleSender(s, id)
    ensures var t := Apply(s, Fail(token));
            && (forall a :: !SendsFor(t, a, id))
            && (forall a :: EscalatesFor(t, a, id) ==>
                EscalatesFor(s, a, id) || (a == token && s.work[token].job.attempts >= 7))
  {
    var t := Apply(s, Fail(token));
    assert SendsFor(s, token, id);
    assert forall a :: SendsFor(t, a, id) ==> a != token && SendsFor(s, a, id);
    LastSenderLeaves(s, t, token, id);
  }

  lemma FailMirrors(s: State, token: Token)
    requires Sound(s) && Enabled(s, Fail(token)) && Mirrored(s, s.work[token].job.id)
    ensures Mirrored(Apply(s, Fail(token)), s.work[token].job.id)
  {
    hide Sound, JobOk;
    var id := s.work[token].job.id;
    assert SendsFor(s, token, id);
    FailureWork(s, token, id);
    FailureIsCounted(s, token, id);
  }

  lemma FailureIsCounted(s: State, token: Token, id: Uuid)
    requires Sound(s) && Enabled(s, Fail(token)) && id == s.work[token].job.id && SoleSender(s, id)
    ensures s.rows[id].status == Processing && s.rows[id].attempts == s.work[token].job.attempts <= 7
  {
    assert SendsFor(s, token, id);
    assert StatusOk(s.rows[id], s.tallies[id]);
  }

  lemma TouchedMirrors(s: State, step: Step)
    requires Sound(s) && Enabled(s, step) && Changes(step) && Orderly(s, step)
    requires Mirrored(s, Touched(s, step))
    ensures Mirrored(Apply(s, step), Touched(s, step))
  {
    match step
    case Claim(token, id) => ClaimMirrors(s, token, id);
    case Succeed(token) => SucceedMirrors(s, token);
    case Fail(token) => FailMirrors(s, token);
  }

  /** A step that changes one row leaves the work for every other row alone. */
  lemma OtherWork(s: State, step: Step, token: Token, id: Uuid)
    requires Enabled(s, step) && Changes(step) && id != Touched(s, step)
    ensures SendsFor(s, token, id) <==> SendsFor(Apply(s, step), token, id)
    ensures EscalatesFor(s, token, id) <==> EscalatesFor(Apply(s, step), token, id)
    ensures SendsFor(s, token, id) ==> Apply(s, step).work[token] == s.work[token]
  {
  }

  lemma OthersMirror(s: State, step: Step, t: State, id: Uuid)
    requires Enabled(s, step) && Changes(step) && t == Apply(s, step) && Updates(s, t, Touched(s, step))
    requires id in s.rows && id in s.tallies && id != Touched(s, step) && Mirrored(s, id)
    ensures Mirrored(t, id)
  {
    forall token ensures SendsFor(s, token, id) <==> SendsFor(t, token, id) { OtherWork(s, step, token, id); }
    forall token | EscalatesFor(t, token, id) ensures EscalatesFor(s, token, id) { OtherWork(s, step, token, id); }
    forall token | SendsFor(t, token, id) ensures t.work[token] == s.work[token] { OtherWork(s, step, token, id); }
    MirroredUntouched(s, t, id);
  }

  lemma ChangeMirrors(s: State, step: Step, id: Uuid)
    requires Neat(s) && Enabled(s, step) && Changes(step) && Orderly(s, step)
    requires id in s.rows && id in s.tallies
    ensures id in Apply(s, step).rows && id in Apply(s, step).tallies && Mirrored(Apply(s, step), id)
  {
    assert Mirrored(s, id);
    UpdateSteps(s, step);
    if id == Touched(s, step) {
      TouchedMirrors(s, step);
    } else {
      OthersMirror(s, step, Apply(s, step), id);
    }
  }

  lemma SenderStays(s: State, step: Step, token: Token)
    requires Enabled(s, step) && !Changes(step) && !step.Drop? && token in s.work && s.work[token].Sending?
    ensures token in Apply(s, step).work
  {
  }

  lemma KeptMirrors(s: State, t: State, id: Uuid)
    requires id in s.rows && id in s.tallies && Mirrored(s, id)
    requires id in t.rows && id in t.tallies && t.rows[id] == s.rows[id] && t.tallies[id] == s.tallies[id]
    requires forall token :: token in t.work ==> token in s.work && t.work[token] == s.work[token]
    requires forall token :: token in s.work && s.work[token].Sending? ==> token in t.work
    ensures Mirrored(t, id)
  {
    MirroredUntouched(s, t, id);
  }

  lemma NewMirrors(s: State, t: State, id: Uuid)
    requires Sound(s) && Inserts(s, t, id)
    ensures Mirrored(t, id)
  {
    forall token | token in s.work
      ensures s.work[token].job.id != id
    {
      assert JobOk(s, s.work[token].job);
    }
  }

  lemma NeatStep(s: State, step: Step)
    requires Neat(s) && Enabled(s, step) && Orderly(s, step)
    ensures Neat(Apply(s, step))
  {
    var t := Apply(s, step);
    SoundStep(s, step);
    if Changes(step) {
      UpdateSteps(s, step);
      forall id | id in t.rows && id in t.tallies ensures Mirrored(t, id) { ChangeMirrors(s, step, id); }
    } else {
      forall token | token in s.work && s.work[token].Sending? ensures token in t.work { SenderStays(s, step, token); }
      QuietStepMirrors(s, step, t);
    }
  }

  lemma QuietStepMirrors(s: State, step: Step, t: State)
    requires Neat(s) && Enabled(s, step) && Orderly(s, step) && !Changes(step) && t == Apply(s, step)
    requires forall token :: token in s.work && s.work[token].Sending? ==> token in t.work
    ensures forall id :: id in t.rows && id in t.tallies ==> Mirrored(t, id)
  {
    if InsertsRow(s, step) {
      InsertSteps(s, step);
      NewMirrors(s, t, step.id);
    } else {
      OtherSteps(s, step);
    }
    forall id | id in t.rows && id in t.tallies && id in s.rows
      ensures Mirrored(t, id)
    {
      assert Mirrored(s, id);
      KeptMirrors(s, t, id);
    }
  }

  // ----- draining -----

  /** The steps of workers; the other orderly steps are new alerts, new policies and the passing of time. */
  predicate Works(step: Step)
  {
    step.Claim? || step.Succeed? || step.Fail? || step.Escalate?
  }

  /** The policy steps that come after that of a row. */
  function Rest(s: State, r: Row): nat
  {
    if r.policy.Some? && r.policy.value in s.policies && r.step < |s.policies[r.policy.value]|
    then |s.policies[r.policy.value]| - 1 - r.step
    else 0
  }

  /** How many steps a row can still cause: two for each attempt, one to escalate, and all those of later rows. */
  ghost function Weight(s: State, id: Uuid): nat
    requires id in s.rows
  {
    var r := s.rows[id];
    match r.status
    case Pending => (if r.attempts < 8 then 2 * (8 - r.attempts) else 0) + 1 + 17 * Rest(s, r)
    case Processing => (if r.attempts < 8 then 2 * (8 - r.attempts) else 0) + 17 * Rest(s, r)
    case Failed => if exists token :: EscalatesFor(s, token, id) then 1 + 17 * Rest(s, r) else 0
    case Sent => 0
  }

  ghost function Total(s: State, ids: set<Uuid>): nat
    requires ids <= s.rows.Keys
  {
    if ids == {} then 0
    else
      var id :| id in ids;
      Weight(s, id) + Total(s, ids - {id})
  }

  lemma {:induction false} TotalPick(s: State, ids: set<Uuid>, id: Uuid)
    requires ids <= s.rows.Keys && id in ids
    ensures Total(s, ids) == Weight(s, id) + Total(s, ids - {id})
    decreases |ids|
  {
    var first :| first in ids && Total(s, ids) == Weight(s, first) + Total(s, ids - {first});
    if first != id {
      TotalPick(s, ids - {first}, id);
      TotalPick(s, ids - {id}, first);
      assert ids - {first} - {id} == ids - {id} - {first};
    }
  }

  lemma {:induction false} TotalSame(s: State, t: State, ids: set<Uuid>)
    requires ids <= s.rows.Keys && ids <= t.rows.Keys
    requires forall id :: id in ids ==> Weight(s, id) == Weight(t, id)
    ensures Total(s, ids) == Total(t, ids)
    decreases |ids|
  {
    if ids != {} {
      var id :| id in ids;
      TotalPick(s, ids, id);
      TotalPick(t, ids, id);
      TotalSame(s, t, ids - {id});
    }
  }

  lemma ClaimIsLighter(s: State, step: Step)
    requires Neat(s) && Enabled(s, step) && Orderly(s, step) && step.Claim?
    ensures Weight(Apply(s, step), step.id) < Weight(s, step.id)
  {
    assert StatusOk(s.rows[step.id], s.tallies[step.id]);
  }

  lemma SendIsLighter(s: State, step: Step)
    requires Neat(s) && Enabled(s, step) && (step.Succeed? || step.Fail?)
    ensures Touched(s, step) in Apply(s, step).rows
    ensures Weight(Apply(s, step), Touched(s, step)) < Weight(s, Touched(s, step))
  {
    var id := Touched(s, step);
    assert SendsFor(s, step.token, id);
    assert Mirrored(s, id) && StatusOk(s.rows[id], s.tallies[id]);
  }

  lemma OthersWeighTheSame(s: State, step: Step, t: State, id: Uuid)
    requires Enabled(s, step) && Changes(step) && t == Apply(s, step) && Updates(s, t, Touched(s, step))
    requires id in s.rows && id != Touched(s, step)
    ensures id in t.rows && Weight(t, id) == Weight(s, id)
  {
    assert t.rows[id] == s.rows[id];
    forall token ensures EscalatesFor(s, token, id) <==> EscalatesFor(t, token, id) { OtherWork(s, step, token, id); }
  }

  lemma ChangeIsLighter(s: State, step: Step)
    requires Neat(s) && Enabled(s, step) && Orderly(s, step) && Changes(step)
    ensures Total(Apply(s, step), Apply(s, step).rows.Keys) < Total(s, s.rows.Keys)
  {
    var t := Apply(s, step);
    var id := Touched(s, step);
    UpdateSteps(s, step);
    assert t.rows.Keys == s.rows.Keys;
    forall other | other in s.rows.Keys - {id}
      ensures other in t.rows && Weight(t, other) == Weight(s, other)
    {
      OthersWeighTheSame(s, step, t, other);
    }
    TotalSame(s, t, s.rows.Keys - {id});
    TotalPick(s, s.rows.Keys, id);
    TotalPick(t, s.rows.Keys, id);
    if step.Claim? {
      ClaimIsLighter(s, step);
    } else {
      SendIsLighter(s, step);
    }
  }

  /** What enqueueing the next step does to the weights: the escalated row weighs nothing, the new one less. */
  lemma EscalateWeights(s: State, step: Step, t: State)
    requires Neat(s) && Enabled(s, step) && step.Escalate? && t == Apply(s, step)
    ensures var job := s.work[step.token].job;
            && job.id in t.rows && Weight(s, job.id) == 1 + 17 * Rest(s, s.rows[job.id]) && Weight(t, job.id) == 0
            && (step.id in t.rows ==> Weight(t, step.id) <= 17 * Rest(s, s.rows[job.id]))
  {
    var job := s.work[step.token].job;
    assert JobOk(s, job);
    assert EscalatesFor(s, step.token, job.id) && Mirrored(s, job.id);
    var done := step.token;
    assert forall token :: EscalatesFor(t, token, job.id) ==> EscalatesFor(s, token, job.id) && token != done;
    if step.id in t.rows {
      var policy := s.policies[job.policy.value];
      assert job.step + 1 < |policy|;
      assert Rest(s, s.rows[job.id]) == Rest(t, t.rows[step.id]) + 1;
    }
  }

  lemma OthersWeighTheSameAfterEscalation(s: State, step: Step, t: State, id: Uuid)
    requires Enabled(s, step) && step.Escalate? && t == Apply(s, step)
    requires id in s.rows && id != s.work[step.token].job.id
    ensures id in t.rows && Weight(t, id) == Weight(s, id)
  {
    assert t.rows[id] == s.rows[id];
    assert forall token :: EscalatesFor(s, token, id) <==> EscalatesFor(t, token, id);
  }

  lemma EscalateIsLighter(s: State, step: Step)
    requires Neat(s) && Enabled(s, step) && step.Escalate?
    ensures Total(Apply(s, step), Apply(s, step).rows.Keys) < Total(s, s.rows.Keys)
  {
    hide Neat;
    var t := Apply(s, step);
    var id := s.work[step.token].job.id;
    var rest := s.rows.Keys - {id};
    EscalateWeights(s, step, t);
    forall other | other in rest
      ensures other in t.rows && Weight(t, other) == Weight(s, other)
    {
      OthersWeighTheSameAfterEscalation(s, step, t, other);
    }
    TotalSame(s, t, rest);
    TotalPick(s, s.rows.Keys, id);
    TotalPick(t, s.rows.Keys, id);
    TotalAfterInsert(s, t, step.id);
  }

  lemma TotalAfterInsert(s: State, t: State, id: Uuid)
    requires id !in s.rows && (t.rows.Keys == s.rows.Keys || t.rows.Keys == s.rows.Keys + {id})
    ensures Total(t, t.rows.Keys) == Total(t, s.rows.Keys) + if id in t.rows then Weight(t, id) else 0
  {
    if id in t.rows {
      TotalPick(t, t.rows.Keys, id);
      assert t.rows.Keys - {id} == s.rows.Keys;
    }
  }

  /** Every step of a worker makes the outbox strictly lighter. */
  lemma WorkIsLighter(s: State, step: Step)
    requires Neat(s) && Enabled(s, step) && Orderly(s, step) && Works(step)
    ensures Total(Apply(s, step), Apply(s, step).rows.Keys) < Total(s, s.rows.Keys)
  {
    if step.Escalate? {
      EscalateIsLighter(s, step);
    } else {
      ChangeIsLighter(s, step);
    }
  }

  /** The runs without new rows: workers at work, and time passing. */
  ghost predicate QuietRun(s: State, steps: seq<Step>, t: State)
    decreases |steps|
  {
    if steps == [] then s == t
    else
      && Enabled(s, steps[0]) && Orderly(s, steps[0]) && (Works(steps[0]) || steps[0].Tick?)
      && QuietRun(Apply(s, steps[0]), steps[1..], t)
  }

  function WorkIn(steps: seq<Step>): nat
  {
    if steps == [] then 0 else (if Works(steps[0]) then 1 else 0) + WorkIn(steps[1..])
  }

  /** Left alone, the workers come to an end: the weight of the outbox bounds every step they can still take. */
  lemma {:induction false} QuietRunsDrain(s: State, steps: seq<Step>, t: State)
    requires Neat(s) && QuietRun(s, steps, t)
    ensures Neat(t) && WorkIn(steps) + Total(t, t.rows.Keys) <= Total(s, s.rows.Keys)
    decreases |steps|
  {
    hide Neat, Sound;
    if steps != [] {
      var next := Apply(s, steps[0]);
      NeatStep(s, steps[0]);
      if Works(steps[0]) {
        WorkIsLighter(s, steps[0]);
      } else {
        assert forall token, id :: EscalatesFor(s, token, id) <==> EscalatesFor(next, token, id);
        TotalSame(s, next, s.rows.Keys);
      }
      QuietRunsDrain(next, steps[1..], t);
    }
  }

  /** Until every row is sent or has failed and been escalated, some worker has a step to take, now or later. */
  lemma UndrainedHasWork(s: State, id: Uuid, token: Token, spare: Uuid) returns (wait: nat, step: Step)
    requires Neat(s) && id in s.rows && Weight(s, id) > 0
    requires token !in s.work && spare !in s.rows
    ensures var later := Apply(s, Tick(wait)); Enabled(later, step) && Orderly(later, step) && Works(step)
  {
    var r := s.rows[id];
    assert StatusOk(r, s.tallies[id]) && Mirrored(s, id);
    wait := 0;
    match r.status
    case Pending =>
      wait := if r.availableAt > s.now then r.availableAt - s.now else 0;
      step := Claim(token, id);
    case Processing =>
      var sender :| SendsFor(s, sender, id);
      step := Succeed(sender);
    case Failed =>
      var escalator :| EscalatesFor(s, escalator, id);
      step := Escalate(escalator, spare, None);
  }

  // ----- how often an alert is sent -----

  ghost predicate OrderlyRun(s: State, steps: seq<Step>, t: State)
    decreases |steps|
  {
    if steps == [] then s == t
    else Enabled(s, steps[0]) && Orderly(s, steps[0]) && OrderlyRun(Apply(s, steps[0]), steps[1..], t)
  }

  lemma {:induction false} OrderlyRunsAreNeat(s: State, steps: seq<Step>, t: State)
    requires Neat(s) && OrderlyRun(s, steps, t)
    ensures Neat(t) && Run(s, steps, t)
    decreases |steps|
  {
    if steps != [] {
      NeatStep(s, steps[0]);
      OrderlyRunsAreNeat(Apply(s, steps[0]), steps[1..], t);
    }
  }

  /** The sends of a row: those that failed, the one that succeeded, and the one under way. */
  function Sends(s: State, id: Uuid): nat
    requires id in s.rows && id in s.tallies
  {
    s.tallies[id].failures + s.tallies[id].delivered + if s.rows[id].status == Processing then 1 else 0
  }

  ghost function AllSends(s: State, ids: set<Uuid>): nat
    requires ids <= s.rows.Keys && ids <= s.tallies.Keys
  {
    if ids == {} then 0
    else
      var id :| id in ids;
      Sends(s, id) + AllSends(s, ids - {id})
  }

  lemma EightSends(s: State, id: Uuid)
    requires Neat(s) && id in s.rows
    ensures id in s.tallies && Sends(s, id) <= 8
  {
    assert StatusOk(s.rows[id], s.tallies[id]);
    assert Mirrored(s, id);
  }

  lemma {:induction false} EightSendsEach(s: State, ids: set<Uuid>)
    requires Neat(s) && ids <= s.rows.Keys && ids <= s.tallies.Keys
    ensures AllSends(s, ids) <= 8 * |ids|
    decreases |ids|
  {
    if ids != {} {
      var id :| id in ids && AllSends(s, ids) == Sends(s, id) + AllSends(s, ids - {id});
      EightSends(s, id);
      EightSendsEach(s, ids - {id});
      assert |ids - {id}| == |ids| - 1;
    }
  }

  /** An alert is sent at most eight times for each step of its policy, all its escalations included. */
  lemma AlertsAreSentBoundedly(start: State, steps: seq<Step>, s: State, alert: Uuid)
    requires Initial(start) && OrderlyRun(start, steps, s) && alert in s.rows
    ensures RowsOf(s, alert) <= s.rows.Keys && RowsOf(s, alert) <= s.tallies.Keys
    ensures AllSends(s, RowsOf(s, alert)) <= 8 * Allowed(s, s.rows[alert].policy)
  {
    OrderlyRunsAreNeat(start, steps, s);
    EscalationIsASimplePath(s, alert);
    EightSendsEach(s, RowsOf(s, alert));
  }
}
