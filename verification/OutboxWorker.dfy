/**
 The delivery worker of src/notification.rs over the outbox tables: claim a batch under a lease, send each
 job, record the outcome, escalate after the last failure. Other workers, alerts and manual retries may act
 between any two statements; whatever they do, a batch is a run of the transition system.
 */
module OutboxWorker {
  import opened Wrappers
  import opened DedupKeys
  import opened Outbox
  import opened OutboxSafety

  const BATCH := 20

  predicate Eligible(rows: map<Uuid, Row>, now: int, locked: set<Uuid>, id: Uuid)
  {
    id in rows && id !in locked && Claimable(rows[id], now)
  }

  /** The rows a claim picks: the oldest claimable ones that no other claim has locked. */
  function Picked(rows: map<Uuid, Row>, now: int, oldest: seq<Uuid>, locked: set<Uuid>, limit: nat): (ids: seq<Uuid>)
    ensures |ids| <= limit
    ensures forall k :: 0 <= k < |ids| ==>
              ids[k] in oldest && Eligible(rows, now, locked, ids[k])
  {
    if oldest == [] || limit == 0 then []
    else
      var id := oldest[0];
      if Eligible(rows, now, locked, id)
      then [id] + Picked(rows, now, oldest[1..], locked, limit - 1)
      else Picked(rows, now, oldest[1..], locked, limit)
  }

  ghost predicate Distinct<T>(s: seq<T>)
  {
    forall i, j :: 0 <= i < j < |s| ==> s[i] != s[j]
  }

  lemma DistinctCons<T>(x: T, s: seq<T>)
    requires x !in s && Distinct(s)
    ensures Distinct([x] + s)
  {
  }

  lemma {:induction false} PickedOnce(rows: map<Uuid, Row>, now: int, oldest: seq<Uuid>, locked: set<Uuid>, limit: nat)
    requires Distinct(oldest)
    ensures Distinct(Picked(rows, now, oldest, locked, limit))
  {
    if oldest != [] && limit > 0 {
      assert forall i :: 0 < i < |oldest| ==> oldest[0] != oldest[i];
      PickedOnce(rows, now, oldest[1..], locked, limit - 1);
      PickedOnce(rows, now, oldest[1..], locked, limit);
      DistinctCons(oldest[0], Picked(rows, now, oldest[1..], locked, limit - 1));
    }
  }

  /** No eligible row is passed over: one that is not picked comes after all that are, of which there are `limit`. */
  ghost predicate NonePassedOver(ids: seq<Uuid>, rows: map<Uuid, Row>, now: int, oldest: seq<Uuid>, locked: set<Uuid>,
                                 limit: nat)
  {
    forall i {:trigger oldest[i]} ::
      0 <= i < |oldest| && Eligible(rows, now, locked, oldest[i]) && oldest[i] !in ids ==>
        |ids| == limit && forall j {:trigger oldest[j]} :: 0 <= j < |oldest| && oldest[j] in ids ==> j < i
  }

  /** Rows stand in the order of a list. */
  ghost predicate InOrderOf(ids: seq<Uuid>, oldest: seq<Uuid>)
  {
    forall a, b, i, j {:trigger ids[a], ids[b], oldest[i], oldest[j]} ::
      0 <= a < b < |ids| && 0 <= i < |oldest| && 0 <= j < |oldest| && ids[a] == oldest[i] && ids[b] == oldest[j] ==>
        i < j
  }

  lemma {:induction false} OldestArePicked(rows: map<Uuid, Row>, now: int, oldest: seq<Uuid>, locked: set<Uuid>,
                                           limit: nat)
    requires Distinct(oldest)
    ensures NonePassedOver(Picked(rows, now, oldest, locked, limit), rows, now, oldest, locked, limit)
    ensures InOrderOf(Picked(rows, now, oldest, locked, limit), oldest)
  {
    if oldest != [] && limit > 0 {
      var first := Eligible(rows, now, locked, oldest[0]);
      var rest := Picked(rows, now, oldest[1..], locked, if first then limit - 1 else limit);
      assert forall i :: 0 < i < |oldest| ==> oldest[i] == oldest[1..][i - 1];
      OldestArePicked(rows, now, oldest[1..], locked, if first then limit - 1 else limit);
      OneBeforePicked(rest, rows, now, oldest, locked, if first then limit - 1 else limit);
      OneBeforeInOrder(rest, oldest);
    }
  }

  lemma OneBeforePicked(rest: seq<Uuid>, rows: map<Uuid, Row>, now: int, oldest: seq<Uuid>, locked: set<Uuid>,
                        limit: nat)
    requires oldest != [] && Distinct(oldest) && forall k :: 0 <= k < |rest| ==> rest[k] in oldest[1..]
    requires NonePassedOver(rest, rows, now, oldest[1..], locked, limit)
    ensures Eligible(rows, now, locked, oldest[0]) ==>
              NonePassedOver([oldest[0]] + rest, rows, now, oldest, locked, limit + 1)
    ensures !Eligible(rows, now, locked, oldest[0]) ==> NonePassedOver(rest, rows, now, oldest, locked, limit)
  {
    assert forall i {:trigger oldest[i]} :: 0 < i < |oldest| ==> oldest[i] == oldest[1..][i - 1];
  }

  lemma OneBeforeInOrder(rest: seq<Uuid>, oldest: seq<Uuid>)
    requires oldest != [] && Distinct(oldest) && forall k :: 0 <= k < |rest| ==> rest[k] in oldest[1..]
    requires InOrderOf(rest, oldest[1..])
    ensures InOrderOf([oldest[0]] + rest, oldest) && InOrderOf(rest, oldest)
  {
    assert forall i {:trigger oldest[i]} :: 0 < i < |oldest| ==> oldest[i] == oldest[1..][i - 1];
  }

  /** The step a token takes part in, for the steps that need one to be held. */
  predicate ActsOn(step: Step, tokens: set<Token>)
  {
    match step
    case Succeed(token) => token in tokens
    case Fail(token) => token in tokens
    case Escalate(token, _, _) => token in tokens
    case Drop(token) => token in tokens
    case _ => false
  }

  /** The jobs of `mine` that were held are still held, unchanged. */
  ghost predicate Kept(s: State, t: State, mine: set<Token>)
  {
    forall token :: token in mine && Holds(s, token) ==> Holds(t, token) && t.work[token] == s.work[token]
  }

  lemma OthersLeaveWork(s: State, step: Step, mine: set<Token>)
    requires Enabled(s, step) && !ActsOn(step, mine)
    ensures Kept(s, Apply(s, step), mine)
  {
  }

  lemma KeptTwice(s: State, t: State, u: State, mine: set<Token>)
    requires Kept(s, t, mine) && Kept(t, u, mine)
    ensures Kept(s, u, mine)
  {
  }

  lemma RunSnoc(s: State, ran: seq<Step>, t: State, step: Step)
    requires Run(s, ran, t) && Enabled(t, step)
    ensures Run(s, ran + [step], Apply(t, step))
  {
    RunThen(s, ran, t, [step], Apply(t, step));
  }

  /** `t` holds a job for each of `ids`, with the row as it was in `s`. */
  ghost predicate Claims(s: State, t: State, ids: seq<Uuid>, tokens: seq<Token>)
  {
    && |tokens| == |ids|
    && forall k :: 0 <= k < |tokens| ==>
         && ids[k] in s.rows && Holds(t, tokens[k])
         && t.work[tokens[k]] == Sending(JobOf(ids[k], s.rows[ids[k]]))
  }

  ghost predicate Unclaimed(start: State, s: State, id: Uuid)
  {
    id in s.rows && id in start.rows && s.rows[id] == start.rows[id] && Claimable(s.rows[id], s.now)
  }

  ghost predicate ClaimedAs(start: State, s: State, id: Uuid, token: Token)
  {
    id in start.rows && Holds(s, token) && s.work[token] == Sending(JobOf(id, start.rows[id]))
  }

  /** The claim of `ids` after its first `i` rows: the others are as they were, and later tokens are free. */
  ghost predicate Claiming(start: State, s: State, ids: seq<Uuid>, i: nat, first: Token)
  {
    && i <= |ids| && Distinct(ids) && s.now == start.now && s.tallies.Keys == s.rows.Keys
    && (forall k {:trigger ids[k]} :: i <= k < |ids| ==> Unclaimed(start, s, ids[k]))
    && (forall token {:trigger token in s.work} :: token >= first + i ==> token !in s.work)
    && (forall k {:trigger ids[k]} :: 0 <= k < i ==> ClaimedAs(start, s, ids[k], first + k))
  }

  lemma NothingClaimed(s: State, ids: seq<Uuid>, first: Token)
    requires Distinct(ids) && s.tallies.Keys == s.rows.Keys
    requires forall k :: 0 <= k < |ids| ==> ids[k] in s.rows && Claimable(s.rows[ids[k]], s.now)
    requires forall token :: token >= first ==> token !in s.work
    ensures Claiming(s, s, ids, 0, first)
  {
  }

  lemma ClaimingOne(start: State, s: State, ids: seq<Uuid>, i: nat, first: Token)
    requires Claiming(start, s, ids, i, first) && i < |ids|
    ensures Enabled(s, Claim(first + i, ids[i]))
    ensures Claiming(start, Apply(s, Claim(first + i, ids[i])), ids, i + 1, first)
  {
    assert Unclaimed(start, s, ids[i]);
    var t := Apply(s, Claim(first + i, ids[i]));
    forall k {:trigger ids[k]} | i + 1 <= k < |ids| ensures Unclaimed(start, t, ids[k]) {
      assert ids[k] != ids[i] && Unclaimed(start, s, ids[k]);
    }
    forall k {:trigger ids[k]} | 0 <= k < i + 1 ensures ClaimedAs(start, t, ids[k], first + k) {
      assert k < i ==> ClaimedAs(start, s, ids[k], first + k);
    }
  }

  /** The claims of a batch, one token after the other. */
  function ClaimsOf(ids: seq<Uuid>, first: Token): (steps: seq<Step>)
    ensures |steps| == |ids| && forall k :: 0 <= k < |ids| ==> steps[k] == Claim(first + k, ids[k])
  {
    seq(|ids|, k requires 0 <= k < |ids| => Claim(first + k, ids[k]))
  }

  function TokensFrom(first: Token, n: nat): (tokens: seq<Token>)
    ensures |tokens| == n && forall k :: 0 <= k < n ==> tokens[k] == first + k
  {
    seq(n, k requires 0 <= k < n => first + k)
  }

  lemma AllClaimed(start: State, s: State, ids: seq<Uuid>, first: Token)
    requires Claiming(start, s, ids, |ids|, first)
    ensures Claims(start, s, ids, TokensFrom(first, |ids|)) && Distinct(TokensFrom(first, |ids|))
  {
    var tokens := TokensFrom(first, |ids|);
    forall k | 0 <= k < |tokens|
      ensures ids[k] in start.rows && Holds(s, tokens[k]) &&
              s.work[tokens[k]] == Sending(JobOf(ids[k], start.rows[ids[k]]))
    {
      assert ClaimedAs(start, s, ids[k], first + k);
    }
  }

  lemma OneMoreClaim(start: State, s: State, ids: seq<Uuid>, i: nat, first: Token)
    requires i < |ids| && Run(start, ClaimsOf(ids, first)[..i], s) && Enabled(s, Claim(first + i, ids[i]))
    ensures Run(start, ClaimsOf(ids, first)[..i + 1], Apply(s, Claim(first + i, ids[i])))
  {
    RunSnoc(start, ClaimsOf(ids, first)[..i], s, Claim(first + i, ids[i]));
    assert ClaimsOf(ids, first)[..i + 1] == ClaimsOf(ids, first)[..i] + [Claim(first + i, ids[i])];
  }

  /** How the outcome of a send is recorded. */
  function Outcome(token: Token, delivered: bool): Step
  {
    if delivered then Succeed(token) else Fail(token)
  }

  /** The jobs from the i-th on are still to be sent. */
  ghost predicate Waiting(s: State, tokens: seq<Token>, jobs: seq<Job>, i: nat)
    requires |jobs| == |tokens|
  {
    forall k :: i <= k < |tokens| ==> Holds(s, tokens[k]) && s.work[tokens[k]] == Sending(jobs[k])
  }

  lemma RestIsWaiting(s: State, t: State, tokens: seq<Token>, jobs: seq<Job>, i: nat)
    requires i < |tokens| == |jobs| && Distinct(tokens) && Waiting(s, tokens, jobs, i + 1)
    requires Kept(s, t, (set token | token in tokens[i..]) - {tokens[i]})
    ensures Waiting(t, tokens, jobs, i + 1)
  {
    forall k | i + 1 <= k < |tokens|
      ensures Holds(t, tokens[k]) && t.work[tokens[k]] == Sending(jobs[k])
    {
      assert tokens[k] == tokens[i..][k - i];
      assert tokens[i] != tokens[k];
    }
  }

  /** Why the work on a job ends a batch: its next step has nowhere to go, or the new row's identifier is taken. */
  datatype Stop = Finished | Unroutable | Taken

  predicate LastFailure(job: Job, delivered: bool)
  {
    !delivered && job.attempts >= 7
  }

  /** The next step of a policy exists, but has no target and nobody is on call. */
  predicate Unresolved(policies: map<Uuid, seq<PolicyStep>>, job: Job, onCall: Option<string>)
  {
    && job.policy.Some? && job.policy.value in policies && job.step + 1 < |policies[job.policy.value]|
    && RouteOf(policies, job.policy.value, job.step + 1, onCall).None?
  }

  /** The last statement for a job that has failed for good: its escalation, in vain if the identifier is taken. */
  ghost predicate Escalated(step: Step, token: Token, id: Uuid, onCall: Option<string>, rows: set<Uuid>)
  {
    step == Escalate(token, id, onCall) || (step == Drop(token) && id in rows)
  }

  /**
   What is done for a job: at some time the outcome of the send is recorded, which ends the work on it unless it was
   the last failure; after that it ends with the escalation.
   */
  ghost predicate JobDone(part: seq<Step>, token: Token, job: Job, delivered: bool, id: Uuid, onCall: Option<string>,
                          rows: set<Uuid>)
  {
    exists k {:trigger part[k]} :: 0 <= k < |part| && part[k] == Outcome(token, delivered) &&
          if LastFailure(job, delivered)
          then k < |part| - 1 && Escalated(part[|part| - 1], token, id, onCall, rows)
          else k == |part| - 1
  }

  /** Rows and policies are never removed, and policies never change. */
  ghost predicate Grows(s: State, t: State)
  {
    && s.rows.Keys <= t.rows.Keys
    && forall p {:trigger p in s.policies} {:trigger p in t.policies} :: p in s.policies ==>
          p in t.policies && t.policies[p] == s.policies[p]
  }

  lemma {:induction false} RunGrows(s: State, ran: seq<Step>, t: State)
    requires Run(s, ran, t)
    ensures Grows(s, t)
    decreases |ran|
  {
    if ran != [] {
      StepGrows(s, ran[0]);
      RunGrows(Apply(s, ran[0]), ran[1..], t);
    }
  }

  lemma StepGrows(s: State, step: Step)
    requires Enabled(s, step)
    ensures Grows(s, Apply(s, step))
  {
  }

  /** The policies of the jobs are known, so that later ones do not change where these jobs go. */
  ghost predicate PoliciesKnown(s: State, jobs: seq<Job>)
  {
    forall k {:trigger jobs[k]} :: 0 <= k < |jobs| ==> jobs[k].policy.Some? ==> jobs[k].policy.value in s.policies
  }

  /** The work on one job, and whether and why it ended the batch. */
  ghost predicate WorkedOn(part: seq<Step>, token: Token, job: Job, delivered: bool, id: Uuid, onCall: Option<string>,
                           s: State, stop: Stop)
  {
    && JobDone(part, token, job, delivered, id, onCall, s.rows.Keys)
    && (stop.Unroutable? <==> LastFailure(job, delivered) && Unresolved(s.policies, job, onCall))
    && (stop.Taken? ==> LastFailure(job, delivered) && id in s.rows)
  }

  /** The parts of a run, one after the other. */
  function Flat(parts: seq<seq<Step>>): seq<Step>
  {
    if parts == [] then [] else Flat(parts[..|parts| - 1]) + parts[|parts| - 1]
  }

  lemma FlatSnoc(parts: seq<seq<Step>>, more: seq<Step>)
    ensures Flat(parts + [more]) == Flat(parts) + more
  {
    assert (parts + [more])[..|parts|] == parts;
  }

  /** The work on the jobs, part by part: only the last one can end the batch. */
  ghost predicate AllWorkedOn(parts: seq<seq<Step>>, first: Token, jobs: seq<Job>, delivered: Token -> bool,
                              id: Token -> Uuid, onCall: Token -> Option<string>, s: State, stop: Stop)
    requires |parts| <= |jobs|
  {
    forall k {:trigger parts[k]} :: 0 <= k < |parts| ==>
      WorkedOn(parts[k], first + k, jobs[k], delivered(first + k), id(first + k), onCall(first + k), s,
               if k == |parts| - 1 then stop else Finished)
  }

  lemma StaysWorkedOn(s: State, t: State, part: seq<Step>, token: Token, job: Job, delivered: bool, id: Uuid,
                      onCall: Option<string>, stop: Stop)
    requires Grows(s, t) && (job.policy.Some? ==> job.policy.value in s.policies)
    requires WorkedOn(part, token, job, delivered, id, onCall, s, stop)
    ensures WorkedOn(part, token, job, delivered, id, onCall, t, stop)
  {
  }

  lemma OneMoreWorkedOn(s: State, t: State, parts: seq<seq<Step>>, more: seq<Step>, first: Token, jobs: seq<Job>,
                        delivered: Token -> bool, id: Token -> Uuid, onCall: Token -> Option<string>, stop: Stop)
    requires |parts| < |jobs| && Grows(s, t) && PoliciesKnown(s, jobs)
    requires AllWorkedOn(parts, first, jobs, delivered, id, onCall, s, Finished)
    requires var k := |parts|;
             WorkedOn(more, first + k, jobs[k], delivered(first + k), id(first + k), onCall(first + k), t, stop)
    ensures AllWorkedOn(parts + [more], first, jobs, delivered, id, onCall, t, stop) && PoliciesKnown(t, jobs)
  {
    hide WorkedOn;
    var all := parts + [more];
    forall k {:trigger all[k]} | 0 <= k < |all|
      ensures WorkedOn(all[k], first + k, jobs[k], delivered(first + k), id(first + k), onCall(first + k), t,
                       if k == |all| - 1 then stop else Finished)
    {
      if k < |parts| {
        assert WorkedOn(parts[k], first + k, jobs[k], delivered(first + k), id(first + k), onCall(first + k), s,
                        Finished);
        assert jobs[k].policy.Some? ==> jobs[k].policy.value in s.policies;
        StaysWorkedOn(s, t, parts[k], first + k, jobs[k], delivered(first + k), id(first + k), onCall(first + k),
                      Finished);
      }
    }
  }

  // ----- policies -----

  /** A step of a policy as an administrator enters it. */
  datatype StepInput = StepInput(channel: string, target: Option<string>, schedule: Option<Uuid>, delay: int)

  predicate StepValid(input: StepInput, schedules: set<Uuid>)
  {
    && input.channel in {"email", "telegram", "voice_call", "webhook"}
    && ((input.target.Some? && input.target.value != "") || input.schedule.Some?)
    && (input.schedule.Some? ==> input.schedule.value in schedules)
  }

  function StoredStep(input: StepInput): PolicyStep
  {
    PolicyStep(input.channel, input.target, if input.delay > 0 then input.delay else 0)
  }

  class OutboxSystem {
    var now: int
    var rows: map<Uuid, Row>
    var policies: map<Uuid, seq<PolicyStep>>
    var work: map<Token, Work>
    var tallies: map<Uuid, Tally>

    function View(): State
      reads this
    {
      State(now, rows, policies, work, tallies)
    }

    constructor (start: int)
      ensures Initial(View()) && now == start
    {
      now := start;
      rows, policies, work, tallies := map[], map[], map[], map[];
    }

    /** Whatever anyone else does, as far as it can be done and does not act on the work of `mine`. */
    method Others(schedule: seq<Step>, mine: set<Token>) returns (ghost ran: seq<Step>)
      modifies this
      ensures Run(old(View()), ran, View())
      ensures Kept(old(View()), View(), mine)
    {
      ran := [];
      ghost var start := View();
      for i := 0 to |schedule|
        invariant Run(start, ran, View()) && Kept(start, View(), mine)
      {
        if Enabled(View(), schedule[i]) && !ActsOn(schedule[i], mine) {
          ghost var before := View();
          Take(schedule[i]);
          RunSnoc(start, ran, before, schedule[i]);
          OthersLeaveWork(before, schedule[i], mine);
          KeptTwice(start, before, View(), mine);
          ran := ran + [schedule[i]];
        }
      }
    }

    method Take(step: Step)
      requires Enabled(View(), step)
      modifies this
      ensures View() == Apply(old(View()), step)
    {
      var next := Apply(View(), step);
      now, rows, policies, work, tallies := next.now, next.rows, next.policies, next.work, next.tallies;
    }

    /** The claiming transaction, at one reading of the clock; the jobs get the tokens from `first` on. */
    method ClaimBatch(oldest: seq<Uuid>, locked: set<Uuid>, first: Token)
      returns (tokens: seq<Token>, ghost ran: seq<Step>)
      requires Distinct(oldest) && tallies.Keys == rows.Keys
      requires forall token :: token >= first ==> token !in work
      modifies this
      ensures Run(old(View()), ran, View())
      ensures ran == ClaimsOf(Picked(old(rows), old(now), oldest, locked, BATCH), first)
      ensures Distinct(tokens) && forall k :: 0 <= k < |tokens| ==> tokens[k] == first + k
      ensures Claims(old(View()), View(), Picked(old(rows), old(now), oldest, locked, BATCH), tokens)
      ensures NonePassedOver(Picked(old(rows), old(now), oldest, locked, BATCH), old(rows), old(now), oldest, locked,
                             BATCH)
    {
      var ids := Picked(rows, now, oldest, locked, BATCH);
      PickedOnce(rows, now, oldest, locked, BATCH);
      OldestArePicked(rows, now, oldest, locked, BATCH);
      NothingClaimed(View(), ids, first);
      ran := ClaimAll(ids, first);
      tokens := TokensFrom(first, |ids|);
      AllClaimed(old(View()), View(), ids, first);
    }

    method ClaimAll(ids: seq<Uuid>, first: Token) returns (ghost ran: seq<Step>)
      requires Claiming(View(), View(), ids, 0, first)
      modifies this
      ensures Run(old(View()), ran, View()) && ran == ClaimsOf(ids, first)
      ensures Claiming(old(View()), View(), ids, |ids|, first)
    {
      ghost var start := View();
      assert ClaimsOf(ids, first)[..0] == [];
      for i := 0 to |ids|
        invariant Claiming(start, View(), ids, i, first)
        invariant Run(start, ClaimsOf(ids, first)[..i], View())
      {
        ClaimNext(ids, i, first, start);
      }
      ran := ClaimsOf(ids, first);
      assert ran[..|ids|] == ran;
    }

    method ClaimNext(ids: seq<Uuid>, i: nat, first: Token, ghost start: State)
      requires i < |ids| && Claiming(start, View(), ids, i, first) && Run(start, ClaimsOf(ids, first)[..i], View())
      modifies this
      ensures Claiming(start, View(), ids, i + 1, first) && Run(start, ClaimsOf(ids, first)[..i + 1], View())
    {
      hide Claiming, Run, Enabled, Apply;
      ClaimingOne(start, View(), ids, i, first);
      OneMoreClaim(start, View(), ids, i, first);
      ClaimOne(ids[i], first + i);
    }

    method ClaimOne(id: Uuid, token: Token)
      requires Enabled(View(), Claim(token, id))
      modifies this
      ensures View() == Apply(old(View()), Claim(token, id))
    {
      var r := rows[id];
      if r.status == Processing {
        tallies := tallies[id := tallies[id].(reclaims := tallies[id].reclaims + 1)];
      }
      rows := rows[id := r.(status := Processing, claimedAt := Some(now))];
      work := work[token := Sending(JobOf(id, r))];
    }

    method RecordSuccess(token: Token)
      requires Holds(View(), token) && work[token].Sending?
      modifies this
      ensures View() == Apply(old(View()), Succeed(token))
    {
      var id := work[token].job.id;
      rows := rows[id := rows[id].(status := Sent, sentAt := Some(now))];
      tallies := tallies[id := tallies[id].(delivered := tallies[id].delivered + 1)];
      work := work - {token};
    }

    /** The pause comes from the attempts the worker saw; status and count come from the row as it is now. */
    method RecordFailure(token: Token)
      requires Holds(View(), token) && work[token].Sending?
      modifies this
      ensures View() == Apply(old(View()), Fail(token))
    {
      var job := work[token].job;
      var delay := Pow2(if job.attempts < 8 then job.attempts else 8) * SECOND;
      var r := rows[job.id];
      rows := rows[job.id := r.(status := if r.attempts >= 7 then Failed else Pending,
                                attempts := r.attempts + 1, availableAt := now + delay)];
      tallies := tallies[job.id := tallies[job.id].(failures := tallies[job.id].failures + 1)];
      work := if job.attempts >= 7 then work[token := Escalating(job)] else work - {token};
    }

    /** Enqueues the next step of the policy; fails when that step has no target and nobody is on call. */
    method EnqueueNextEscalation(token: Token, id: Uuid, onCall: Option<string>) returns (stop: Stop)
      requires Holds(View(), token) && work[token].Escalating?
      modifies this
      ensures View() == Apply(old(View()), if id in old(rows) then Drop(token) else Escalate(token, id, onCall))
      ensures stop.Unroutable? <==> Unresolved(policies, old(work)[token].job, onCall)
      ensures stop.Taken? <==>
                id in old(rows) && Successor(old(rows), policies, old(work)[token].job, onCall, now).Some?
    {
      var job := work[token].job;
      work := work - {token};
      if job.policy.None? || job.policy.value !in policies || job.step + 1 >= |policies[job.policy.value]| {
        return Finished;
      }
      var to := RouteOf(policies, job.policy.value, job.step + 1, onCall);
      if to.None? {
        return Unroutable;
      }
      var key := Escalation(job.id, job.step + 1);
      if HasKey(rows, key) {
        return Finished;
      }
      if id in rows {
        return Taken;
      }
      var r := Fresh(job.rule, to.value.channel, to.value.target, job.payload, job.policy, job.step + 1,
                     now + to.value.delay * SECOND, Some(key));
      rows := rows[id := r];
      tallies := tallies[id := Tally(tallies[job.id].root, r.availableAt, 0, 0, true, 0)];
      return Finished;
    }

    /** Stores a policy with its steps numbered from zero in the order given, or nothing at all. */
    method CreatePolicy(id: Uuid, named: bool, inputs: seq<StepInput>, schedules: set<Uuid>) returns (ok: bool)
      requires id !in policies
      modifies this
      ensures ok <==> named && inputs != [] && forall i :: 0 <= i < |inputs| ==> StepValid(inputs[i], schedules)
      ensures !ok ==> View() == old(View())
      ensures ok ==>
                var step := Step.CreatePolicy(id, seq(|inputs|, i requires 0 <= i < |inputs| => StoredStep(inputs[i])));
                Enabled(old(View()), step) && View() == Apply(old(View()), step)
    {
      if !named || inputs == [] {
        return false;
      }
      var steps: seq<PolicyStep> := [];
      for order := 0 to |inputs|
        invariant |steps| == order
        invariant forall i :: 0 <= i < order ==> StepValid(inputs[i], schedules) && steps[i] == StoredStep(inputs[i])
      {
        var input := inputs[order];
        if input.channel !in {"email", "telegram", "voice_call", "webhook"}
           || ((input.target.None? || input.target.value == "") && input.schedule.None?) {
          return false;
        }
        if input.schedule.Some? && input.schedule.value !in schedules {
          return false;
        }
        steps := steps + [PolicyStep(input.channel, input.target, if input.delay < 0 then 0 else input.delay)];
      }
      assert steps == seq(|inputs|, i requires 0 <= i < |inputs| => StoredStep(inputs[i]));
      policies := policies[id := steps];
      return true;
    }

    method RetryNotification(id: Uuid) returns (found: bool)
      requires tallies.Keys == rows.Keys
      modifies this
      ensures found <==> id in old(rows)
      ensures View() == if found then Apply(old(View()), Retry(id)) else old(View())
    {
      if id !in rows {
        return false;
      }
      rows := rows[id := rows[id].(status := Pending, attempts := 0, availableAt := now, claimedAt := None,
                                   sentAt := None)];
      tallies := tallies[id := Tally(tallies[id].root, now, 0, 0, !BeingSent(View(), id), 0)];
      return true;
    }

    /** The send of one job and the record of its outcome; others act before the record is written. */
    method SendJob(token: Token, ghost job: Job, delivered: bool, others: seq<Step>, mine: set<Token>)
      returns (ghost ran: seq<Step>)
      requires Holds(View(), token) && work[token] == Sending(job) && token in mine
      modifies this
      ensures Run(old(View()), ran, View()) && Kept(old(View()), View(), mine - {token})
      ensures ran != [] && ran[|ran| - 1] == Outcome(token, delivered)
      ensures token in work <==> LastFailure(job, delivered)
      ensures token in work ==> Holds(View(), token) && work[token] == Escalating(job)
    {
      ghost var start := View();
      ran := Others(others, mine);
      ghost var before := View();
      ghost var step := Outcome(token, delivered);
      if delivered {
        RecordSuccess(token);
      } else {
        RecordFailure(token);
      }
      RunSnoc(start, ran, before, step);
      OthersLeaveWork(before, step, mine - {token});
      KeptTwice(start, before, View(), mine - {token});
      ran := ran + [step];
    }

    /** The escalation after the last failure; others act before it is enqueued. */
    method EscalateJob(token: Token, ghost job: Job, id: Uuid, onCall: Option<string>, others: seq<Step>,
                       mine: set<Token>)
      returns (stop: Stop, ghost ran: seq<Step>)
      requires Holds(View(), token) && work[token] == Escalating(job) && token in mine
      modifies this
      ensures Run(old(View()), ran, View()) && Kept(old(View()), View(), mine - {token})
      ensures ran != [] && Escalated(ran[|ran| - 1], token, id, onCall, rows.Keys)
      ensures stop.Unroutable? <==> Unresolved(policies, job, onCall)
      ensures stop.Taken? ==> id in rows
    {
      ghost var start := View();
      ran := Others(others, mine);
      ghost var before := View();
      ghost var step := if id in rows then Drop(token) else Escalate(token, id, onCall);
      stop := EnqueueNextEscalation(token, id, onCall);
      RunSnoc(start, ran, before, step);
      OthersLeaveWork(before, step, mine - {token});
      KeptTwice(start, before, View(), mine - {token});
      ran := ran + [step];
    }

    /**
     A whole batch: it claims the picked rows and works on them in order, to the end unless the escalation of a job
     fails; the jobs after that one stay leased. The outcome of each send, the new identifiers and who is on call come
     from outside, as does what others do meanwhile.
     */
    method ProcessBatch(oldest: seq<Uuid>, locked: set<Uuid>, first: Token, delivered: Token -> bool, id: Token -> Uuid,
                        onCall: Token -> Option<string>, others: Token -> seq<Step>, later: Token -> seq<Step>)
      returns (done: nat, stop: Stop, ghost ran: seq<Step>, ghost parts: seq<seq<Step>>)
      requires Distinct(oldest)
      requires forall token :: token >= first ==> token !in work
      requires Invariant(View())
      modifies this
      ensures Run(old(View()), ran, View()) && Invariant(View())
      ensures var picked := Picked(old(rows), old(now), oldest, locked, BATCH);
              && ran == ClaimsOf(picked, first) + Flat(parts)
              && done == |parts| <= |picked| && (stop.Finished? ==> done == |picked|) && (!stop.Finished? ==> done > 0)
              && AllWorkedOn(parts, first, JobsAt(old(rows), picked), delivered, id, onCall, View(), stop)
    {
      ghost var start := View();
      ghost var ids := Picked(rows, now, oldest, locked, BATCH);
      var tokens;
      tokens, ran := ClaimBatch(oldest, locked, first);
      ghost var claimed := View();
      RunKeepsInvariant(start, ran, claimed);
      ghost var jobs := JobsAt(start.rows, ids);
      ClaimedJobs(start, claimed, ids, tokens, jobs);
      done, stop, parts := ProcessJobs(tokens, first, jobs, delivered, id, onCall, others, later);
      RunThen(start, ran, claimed, Flat(parts), View());
      RunKeepsInvariant(start, ran + Flat(parts), View());
      ran := ran + Flat(parts);
    }

    /** The loop over the claimed jobs. */
    method ProcessJobs(tokens: seq<Token>, ghost first: Token, ghost jobs: seq<Job>, delivered: Token -> bool,
                       id: Token -> Uuid, onCall: Token -> Option<string>, others: Token -> seq<Step>,
                       later: Token -> seq<Step>)
      returns (done: nat, stop: Stop, ghost parts: seq<seq<Step>>)
      requires |jobs| == |tokens| && Distinct(tokens) && Waiting(View(), tokens, jobs, 0) && PoliciesKnown(View(), jobs)
      requires forall k :: 0 <= k < |tokens| ==> tokens[k] == first + k
      modifies this
      ensures Run(old(View()), Flat(parts), View())
      ensures done == |parts| <= |tokens| && (stop.Finished? ==> done == |tokens|) && (!stop.Finished? ==> done > 0)
      ensures AllWorkedOn(parts, first, jobs, delivered, id, onCall, View(), stop)
    {
      ghost var start := View();
      done, stop, parts := 0, Finished, [];
      while done < |tokens|
        invariant done == |parts| <= |tokens| && Run(start, Flat(parts), View()) && Waiting(View(), tokens, jobs, done)
        invariant AllWorkedOn(parts, first, jobs, delivered, id, onCall, View(), Finished) && stop.Finished?
        invariant PoliciesKnown(View(), jobs)
      {
        var token := tokens[done];
        stop, parts := ProcessNext(tokens, first, jobs, done, parts, start, delivered, id, onCall, others(token),
                                   later(token));
        done := done + 1;
        if !stop.Finished? {
          break;
        }
      }
    }

    /** The next job of the batch, in the place of the run that it takes. */
    method ProcessNext(tokens: seq<Token>, ghost first: Token, ghost jobs: seq<Job>, i: nat,
                       ghost front: seq<seq<Step>>, ghost start: State, delivered: Token -> bool, id: Token -> Uuid,
                       onCall: Token -> Option<string>, others: seq<Step>, later: seq<Step>)
      returns (stop: Stop, ghost parts: seq<seq<Step>>)
      requires |front| == i < |tokens| == |jobs| && Distinct(tokens) && tokens[i] == first + i
      requires Run(start, Flat(front), View()) && Waiting(View(), tokens, jobs, i) && PoliciesKnown(View(), jobs)
      requires AllWorkedOn(front, first, jobs, delivered, id, onCall, View(), Finished)
      modifies this
      ensures |parts| == i + 1 && Run(start, Flat(parts), View())
      ensures Waiting(View(), tokens, jobs, i + 1) && PoliciesKnown(View(), jobs)
      ensures AllWorkedOn(parts, first, jobs, delivered, id, onCall, View(), stop)
    {
      hide AllWorkedOn, WorkedOn, PoliciesKnown, Run, Grows, Flat, Waiting, Distinct;
      ghost var before := View();
      var token := tokens[i];
      ghost var more;
      stop, more := ProcessJob(tokens, jobs, i, delivered(token), id(token), onCall(token), others, later);
      RunThen(start, Flat(front), before, more, View());
      RunGrows(before, more, View());
      OneMoreWorkedOn(before, View(), front, more, first, jobs, delivered, id, onCall, stop);
      FlatSnoc(front, more);
      parts := front + [more];
    }

    /** One job of a batch: its send and, after its last failure, its escalation. */
    method ProcessJob(tokens: seq<Token>, ghost jobs: seq<Job>, i: nat, delivered: bool, id: Uuid,
                      onCall: Option<string>, others: seq<Step>, later: seq<Step>)
      returns (stop: Stop, ghost ran: seq<Step>)
      requires i < |tokens| == |jobs| && Distinct(tokens) && Waiting(View(), tokens, jobs, i)
      modifies this
      ensures Run(old(View()), ran, View()) && Waiting(View(), tokens, jobs, i + 1)
      ensures WorkedOn(ran, tokens[i], jobs[i], delivered, id, onCall, View(), stop)
    {
      ghost var start := View();
      var token := tokens[i];
      var mine := set t | t in tokens[i..];
      assert token in tokens[i..];
      ran := SendJob(token, jobs[i], delivered, others, mine);
      ghost var sent := |ran| - 1;
      RestIsWaiting(start, View(), tokens, jobs, i);
      stop := Finished;
      if token in work {
        ghost var before := View();
        ghost var more;
        stop, more := EscalateJob(token, jobs[i], id, onCall, later, mine);
        RunThen(start, ran, before, more, View());
        ran := ran + more;
        RestIsWaiting(before, View(), tokens, jobs, i);
      }
      assert ran[sent] == Outcome(token, delivered);
    }
  }

  function JobsAt(rows: map<Uuid, Row>, ids: seq<Uuid>): (jobs: seq<Job>)
    requires forall k :: 0 <= k < |ids| ==> ids[k] in rows
    ensures |jobs| == |ids| && forall k :: 0 <= k < |ids| ==> jobs[k] == JobOf(ids[k], rows[ids[k]])
  {
    seq(|ids|, k requires 0 <= k < |ids| => JobOf(ids[k], rows[ids[k]]))
  }

  lemma ClaimedJobs(s: State, t: State, ids: seq<Uuid>, tokens: seq<Token>, jobs: seq<Job>)
    requires Sound(t) && Claims(s, t, ids, tokens) && jobs == JobsAt(s.rows, ids)
    ensures |jobs| == |tokens| && Waiting(t, tokens, jobs, 0) && PoliciesKnown(t, jobs)
  {
    forall k {:trigger jobs[k]} | 0 <= k < |jobs|
      ensures jobs[k].policy.Some? ==> jobs[k].policy.value in t.policies
    {
      assert t.work[tokens[k]] == Sending(jobs[k]);
      assert JobOk(t, t.work[tokens[k]].job);
      assert PolicyOk(t, t.rows[jobs[k].id].policy, t.rows[jobs[k].id].step);
    }
  }
}
