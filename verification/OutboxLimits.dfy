/**
 Where the promises of the outbox end, exactly: a sent row can come around again, and the backoff after a manual retry
 can be cut short, if and only if some worker is still sending the row.
 */
module OutboxLimits {
  import opened DedupKeys
  import opened Outbox
  import opened OutboxSafety

  predicate NoRetry(steps: seq<Step>, id: Uuid)
  {
    forall k :: 0 <= k < |steps| ==> steps[k] != Retry(id)
  }

  lemma ReachableThen(s: State, steps: seq<Step>, t: State)
    requires Reachable(s) && Run(s, steps, t)
    ensures Reachable(t)
  {
    var start, before :| Initial(start) && Run(start, before, s);
    RunThen(start, before, s, steps, t);
  }

  // ----- sent rows -----

  /** Some run without a manual retry of the row takes it out of its status. */
  ghost predicate LeavesSent(s: State, id: Uuid)
  {
    exists steps, t :: Run(s, steps, t) && NoRetry(steps, id) && id in t.rows && t.rows[id].status != Sent
  }

  predicate SentAndLeft(s: State, id: Uuid)
  {
    id in s.rows && s.rows[id].status == Sent && !BeingSent(s, id)
  }

  lemma LeftStep(s: State, step: Step, id: Uuid)
    requires SentAndLeft(s, id) && Enabled(s, step) && step != Retry(id)
    ensures SentAndLeft(Apply(s, step), id)
  {
    var t := Apply(s, step);
    if step.Fail? || step.Succeed? {
      assert s.work[step.token].job.id != id;
    }
    forall token | token in t.work && t.work[token].Sending?
      ensures t.work[token].job.id != id
    {
      assert token in s.work ==> !(s.work[token].Sending? && s.work[token].job.id == id);
    }
  }

  lemma {:induction false} LeftRun(s: State, steps: seq<Step>, t: State, id: Uuid)
    requires SentAndLeft(s, id) && Run(s, steps, t) && NoRetry(steps, id)
    ensures SentAndLeft(t, id)
    decreases |steps|
  {
    if steps != [] {
      assert steps[0] != Retry(id);
      LeftStep(s, steps[0], id);
      assert NoRetry(steps[1..], id) by {
        assert forall k :: 0 <= k < |steps[1..]| ==> steps[1..][k] == steps[k + 1];
      }
      LeftRun(Apply(s, steps[0]), steps[1..], t, id);
    }
  }

  lemma OneStep(s: State, step: Step)
    requires Enabled(s, step)
    ensures Run(s, [step], Apply(s, step))
  {
    assert [step][1..] == [] && Run(Apply(s, step), [], Apply(s, step));
  }

  lemma FailureReopens(s: State, id: Uuid, token: Token)
    requires Sound(s) && id in s.rows && SendsFor(s, token, id)
    ensures LeavesSent(s, id)
  {
    assert JobOk(s, s.work[token].job);
    OneStep(s, Fail(token));
    assert NoRetry([Fail(token)], id) && Apply(s, Fail(token)).rows[id].status != Sent;
  }

  /** A sent row can come around again, without a manual retry, exactly when some worker is still sending it. */
  lemma SentIsFinalIffNobodySends(s: State, id: Uuid)
    requires Reachable(s) && id in s.rows && s.rows[id].status == Sent
    ensures LeavesSent(s, id) <==> exists token :: SendsFor(s, token, id)
  {
    if token :| SendsFor(s, token, id) {
      ReachableIsInvariant(s);
      FailureReopens(s, id, token);
    } else if LeavesSent(s, id) {
      var steps, t :| Run(s, steps, t) && NoRetry(steps, id) && id in t.rows && t.rows[id].status != Sent;
      assert !BeingSent(s, id) by {
        assert forall token :: token in s.work && s.work[token].Sending? && s.work[token].job.id == id ==>
                 SendsFor(s, token, id);
      }
      LeftRun(s, steps, t, id);
    }
  }

  /** So a row of which no lease expired, and which was not retried while it was being sent, is sent for good. */
  lemma UndisturbedSentIsFinal(s: State, id: Uuid)
    requires Reachable(s) && id in s.rows && id in s.tallies && s.rows[id].status == Sent
    requires s.tallies[id].clean && s.tallies[id].reclaims == 0
    ensures !LeavesSent(s, id)
  {
    SendersDoNotOverlap(s, id);
    SentIsFinalIffNobodySends(s, id);
  }

  // ----- backoff after a manual retry -----

  ghost predicate BackedOff(s: State, id: Uuid)
  {
    id in s.rows && id in s.tallies ==> s.rows[id].availableAt >= s.tallies[id].initial + Waited(s.tallies[id].failures)
  }

  /** From a state on, the backoff of a row is kept until its next manual retry. */
  ghost predicate StaysBackedOff(s: State, id: Uuid)
  {
    forall steps, t :: Run(s, steps, t) && NoRetry(steps, id) ==> BackedOff(t, id)
  }

  lemma CleanStep(s: State, step: Step, id: Uuid)
    requires id in s.tallies && id in s.rows && s.tallies[id].clean && Enabled(s, step) && step != Retry(id)
    ensures id in Apply(s, step).tallies && id in Apply(s, step).rows && Apply(s, step).tallies[id].clean
  {
  }

  lemma {:induction false} CleanRun(s: State, steps: seq<Step>, t: State, id: Uuid)
    requires id in s.tallies && id in s.rows && s.tallies[id].clean && Run(s, steps, t) && NoRetry(steps, id)
    ensures id in t.tallies && id in t.rows && t.tallies[id].clean
    decreases |steps|
  {
    if steps != [] {
      assert steps[0] != Retry(id);
      CleanStep(s, steps[0], id);
      assert NoRetry(steps[1..], id) by {
        assert forall k :: 0 <= k < |steps[1..]| ==> steps[1..][k] == steps[k + 1];
      }
      CleanRun(Apply(s, steps[0]), steps[1..], t, id);
    }
  }

  lemma {:induction false} FreshToken(used: set<Token>) returns (token: Token)
    ensures token !in used && forall other :: other in used ==> other < token
    decreases |used|
  {
    if used == {} {
      return 0;
    }
    var some :| some in used;
    var rest := used - {some};
    assert used == rest + {some};
    var above := FreshToken(rest);
    token := if some < above then above else some + 1;
  }

  /** Two workers that send a row without failures so far, one of them since now. */
  ghost predicate SentTwice(s: State, id: Uuid, token: Token, other: Token)
  {
    && id in s.rows && id in s.tallies && token != other && SendsFor(s, token, id) && SendsFor(s, other, id)
    && s.rows[id].attempts == 0 && s.work[other].job.attempts == 0
    && s.tallies[id].failures == 0 && s.tallies[id].initial == s.now
  }

  /** A retried row is claimed anew by `other`, while `token` still sends it. */
  lemma ClaimedTwice(s: State, id: Uuid, token: Token, other: Token) returns (t: State)
    requires Sound(s) && Enabled(s, Retry(id)) && SendsFor(s, token, id) && other !in s.work
    ensures Run(Apply(s, Retry(id)), [Claim(other, id)], t) && SentTwice(t, id, token, other)
  {
    hide Enabled, Sound;
    OneStep(Apply(s, Retry(id)), Claim(other, id));
    t := Apply(Apply(s, Retry(id)), Claim(other, id));
  }

  lemma TwoFailures(s: State, id: Uuid, token: Token, other: Token) returns (t: State)
    requires SentTwice(s, id, token, other)
    ensures Run(s, [Fail(token)] + [Fail(other)], t) && !BackedOff(t, id)
  {
    var s1 := Apply(s, Fail(token));
    OneStep(s, Fail(token));
    OneStep(s1, Fail(other));
    t := Apply(s1, Fail(other));
    RunThen(s, [Fail(token)], s1, [Fail(other)], t);
    assert Pow2(0) == 1 && Pow2(1) == 2 && Pow2(2) == 4;
  }

  /**
   The worker of before the retry and a new one fail right after each other; the second failure asks for one second
   only.
   */
  lemma TwoFailuresAtOnce(s: State, id: Uuid, token: Token) returns (steps: seq<Step>, t: State)
    requires Sound(s) && Enabled(s, Retry(id)) && SendsFor(s, token, id)
    ensures Run(Apply(s, Retry(id)), steps, t) && NoRetry(steps, id) && !BackedOff(t, id)
  {
    hide Enabled, Apply;
    var other := FreshToken(s.work.Keys);
    var u := ClaimedTwice(s, id, token, other);
    t := TwoFailures(u, id, token, other);
    steps := [Claim(other, id)] + ([Fail(token)] + [Fail(other)]);
    RunThen(Apply(s, Retry(id)), [Claim(other, id)], u, [Fail(token)] + [Fail(other)], t);
  }

  /**
   A manual retry starts the backoff anew, whatever happens until the next one, exactly when no worker is sending the
   row at that time.
   */
  lemma RetryKeepsBackoffIffNobodySends(s: State, id: Uuid)
    requires Reachable(s) && Enabled(s, Retry(id))
    ensures StaysBackedOff(Apply(s, Retry(id)), id) <==> forall token :: !SendsFor(s, token, id)
  {
    hide Enabled, JobOf;
    var s1 := Apply(s, Retry(id));
    ReachableIsInvariant(s);
    if token :| SendsFor(s, token, id) {
      var steps, t := TwoFailuresAtOnce(s, id, token);
    } else {
      assert s1.tallies[id].clean by {
        assert forall token :: token in s.work && s.work[token].Sending? && s.work[token].job.id == id ==>
                 SendsFor(s, token, id);
      }
      assert Run(s1, [], s1) && [Retry(id)][1..] == [];
      ReachableThen(s, [Retry(id)], s1);
      forall steps, t | Run(s1, steps, t) && NoRetry(steps, id)
        ensures BackedOff(t, id)
      {
        CleanRun(s1, steps, t, id);
        ReachableThen(s1, steps, t);
        BackoffIsExponential(t, id);
      }
    }
  }
}
