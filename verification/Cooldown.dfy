/**
 The cooldown of one alert rule under concurrent ingests. Each ingest is a transaction that may try the rule:
 `SELECT … FOR UPDATE` waits for the lock of the rule's row and then evaluates the cooldown on the committed row,
 with the start time of the transaction as `now()`; a rule that fires keeps its lock until the end.
 */
module Cooldown {
  import opened Wrappers
  import Outbox
  import opened AlertRules

  const SECOND: int := Outbox.SECOND

  type Tx = nat

  /** A running transaction: when it began, and whether it has fired the rule. */
  datatype Attempt = Attempt(start: int, fired: bool)

  /** `last` and `firings` are committed; `firings` is the history, in the order of the commits. */
  datatype State = State(now: int, last: Option<int>, holder: Option<Tx>, running: map<Tx, Attempt>, firings: seq<int>)

  datatype Step =
    | Tick(delta: nat)
    | Begin(tx: Tx)
    | Fire(tx: Tx)
    | Commit(tx: Tx)
    | Abort(tx: Tx)

  predicate Enabled(s: State, step: Step, cooldown: nat)
  {
    match step
    case Tick(_) => true
    case Begin(tx) => tx !in s.running
    case Fire(tx) => tx in s.running && !s.running[tx].fired && s.holder.None? &&
        Cooled(s.last, cooldown, s.running[tx].start)
    case Commit(tx) => tx in s.running
    case Abort(tx) => tx in s.running
  }

  function Released(s: State, tx: Tx): State
  {
    s.(running := s.running - {tx}, holder := if s.holder == Some(tx) then None else s.holder)
  }

  function Apply(s: State, step: Step): State
  {
    match step
    case Tick(delta) => s.(now := s.now + delta)
    case Begin(tx) => s.(running := s.running[tx := Attempt(s.now, false)])
    case Fire(tx) => if tx in s.running
        then s.(holder := Some(tx), running := s.running[tx := s.running[tx].(fired := true)]) else s
    case Commit(tx) =>
      if tx in s.running && s.running[tx].fired
      then Released(s, tx).(last := Some(s.running[tx].start), firings := s.firings + [s.running[tx].start])
      else Released(s, tx)
    case Abort(tx) => Released(s, tx)
  }

  ghost predicate Run(s: State, steps: seq<Step>, t: State, cooldown: nat)
    decreases |steps|
  {
    if steps == [] then s == t
    else Enabled(s, steps[0], cooldown) && Run(Apply(s, steps[0]), steps[1..], t, cooldown)
  }

  predicate Initial(s: State)
  {
    s.last == None && s.holder == None && s.running == map[] && s.firings == []
  }

  // ----- the invariant -----

  /** Firings in commit order are more than the cooldown apart. */
  predicate Spaced(firings: seq<int>, gap: nat)
  {
    forall k :: 0 < k < |firings| ==> firings[k] - firings[k - 1] > gap
  }

  /** Only the holder of the row lock has fired, and its firing is still more than the cooldown after the last one. */
  ghost predicate Locked(s: State, cooldown: nat)
  {
    && (forall tx {:trigger s.running[tx]} :: tx in s.running && s.running[tx].fired ==>
          s.holder == Some(tx) && Cooled(s.last, cooldown, s.running[tx].start))
    && (s.last == if s.firings == [] then None else Some(s.firings[|s.firings| - 1]))
    && Spaced(s.firings, cooldown * SECOND)
  }

  lemma StepKeepsLocked(s: State, step: Step, cooldown: nat)
    requires Locked(s, cooldown) && Enabled(s, step, cooldown)
    ensures Locked(Apply(s, step), cooldown)
  {
    var t := Apply(s, step);
    forall tx {:trigger t.running[tx]} | tx in t.running && t.running[tx].fired
      ensures t.holder == Some(tx) && Cooled(t.last, cooldown, t.running[tx].start)
    {
      assert tx in s.running;
      assert s.running[tx].fired || step == Fire(tx);
    }
  }

  lemma {:induction false} RunKeepsLocked(s: State, steps: seq<Step>, t: State, cooldown: nat)
    requires Locked(s, cooldown) && Run(s, steps, t, cooldown)
    ensures Locked(t, cooldown)
    decreases |steps|
  {
    if steps != [] {
      StepKeepsLocked(s, steps[0], cooldown);
      RunKeepsLocked(Apply(s, steps[0]), steps[1..], t, cooldown);
    }
  }

  // ----- what it means for notifications -----

  lemma {:induction false} SpacedFar(firings: seq<int>, gap: nat, lo: nat, hi: nat)
    requires Spaced(firings, gap) && lo <= hi < |firings|
    ensures firings[hi] - firings[lo] >= (hi - lo) * gap && (lo < hi ==> firings[hi] - firings[lo] > (hi - lo) * gap)
    decreases hi - lo
  {
    if lo < hi {
      SpacedFar(firings, gap, lo, hi - 1);
      assert firings[hi] - firings[hi - 1] > gap;
      assert (hi - lo) * gap == (hi - 1 - lo) * gap + gap;
    }
  }

  /** The firings inside a half-open interval. */
  function Inside(firings: seq<int>, from: int, length: nat): set<nat>
  {
    set k: nat | k < |firings| && from <= firings[k] < from + length
  }

  lemma {:induction false} WithinSize(ks: set<nat>, lo: nat, hi: nat)
    requires lo <= hi && forall k :: k in ks ==> lo <= k <= hi
    ensures |ks| <= hi - lo + 1
    decreases hi - lo
  {
    var rest := ks - {hi};
    if lo < hi {
      WithinSize(rest, lo, hi - 1);
    } else {
      assert rest == {};
    }
    assert ks <= rest + {hi};
    assert ks == if hi in ks then rest + {hi} else rest;
  }

  lemma {:induction false} Ends(ks: set<nat>) returns (lo: nat, hi: nat)
    requires ks != {}
    ensures lo in ks && hi in ks && forall k :: k in ks ==> lo <= k <= hi
    decreases |ks|
  {
    var k :| k in ks;
    var rest := ks - {k};
    assert ks == rest + {k};
    if rest == {} {
      return k, k;
    }
    lo, hi := Ends(rest);
    lo, hi := if k < lo then k else lo, if k > hi then k else hi;
  }

  /**
   In every run, with any interleaving of transactions and aborts, successive firings are more than the cooldown
   apart, so that n of them inside an interval of length L satisfy (n - 1) * cooldown < L.
   */
  lemma FiringsAreBounded(s: State, steps: seq<Step>, t: State, cooldown: nat, from: int, length: nat)
    requires Initial(s) && Run(s, steps, t, cooldown)
    ensures Spaced(t.firings, cooldown * SECOND)
    ensures length > 0 ==> (|Inside(t.firings, from, length)| - 1) * (cooldown * SECOND) < length
  {
    RunKeepsLocked(s, steps, t, cooldown);
    var ks, gap := Inside(t.firings, from, length), cooldown * SECOND;
    if ks == {} {
      assert (|ks| - 1) * gap <= 0;
    } else if length > 0 {
      var lo, hi := Ends(ks);
      SpacedFar(t.firings, gap, lo, hi);
      WithinSize(ks, lo, hi);
      Scaled(|ks| - 1, hi - lo, gap);
    }
  }

  lemma Scaled(a: int, b: int, gap: nat)
    requires a <= b
    ensures a * gap <= b * gap
  {
  }

  lemma {:induction false} RunOn(s: State, steps: seq<Step>, t: State, step: Step, cooldown: nat)
    requires Run(s, steps, t, cooldown) && Enabled(t, step, cooldown)
    ensures Run(s, steps + [step], Apply(t, step), cooldown)
    decreases |steps|
  {
    if steps == [] {
      assert steps + [step] == [step];
      assert Run(Apply(s, step), [], Apply(t, step), cooldown);
    } else {
      RunOn(Apply(s, steps[0]), steps[1..], t, step, cooldown);
      assert (steps + [step])[1..] == steps[1..] + [step];
    }
  }

  /** The spacing is attained: a rule can fire again one microsecond after its cooldown, any number of times. */
  lemma {:induction false} SpacingIsAttained(n: nat, cooldown: nat) returns (s: State, steps: seq<Step>, t: State)
    ensures Initial(s) && Run(s, steps, t, cooldown) && t.holder.None? && t.running == map[] && |t.firings| == n
    ensures t.last.Some? ==> t.now == t.last.value
    ensures forall k {:trigger t.firings[k]} :: 0 < k < n ==> t.firings[k] - t.firings[k - 1] == cooldown * SECOND + 1
  {
    if n == 0 {
      s, steps := State(0, None, None, map[], []), [];
      t := s;
    } else {
      var u;
      s, steps, u := SpacingIsAttained(n - 1, cooldown);
      RunKeepsLocked(s, steps, u, cooldown);
      var t1 := Apply(u, Tick(cooldown * SECOND + 1));
      RunOn(s, steps, u, Tick(cooldown * SECOND + 1), cooldown);
      var t2 := Apply(t1, Begin(0));
      RunOn(s, steps + [Tick(cooldown * SECOND + 1)], t1, Begin(0), cooldown);
      var t3 := Apply(t2, Fire(0));
      RunOn(s, steps + [Tick(cooldown * SECOND + 1)] + [Begin(0)], t2, Fire(0), cooldown);
      t := Apply(t3, Commit(0));
      RunOn(s, steps + [Tick(cooldown * SECOND + 1)] + [Begin(0)] + [Fire(0)], t3, Commit(0), cooldown);
      steps := steps + [Tick(cooldown * SECOND + 1)] + [Begin(0)] + [Fire(0)] + [Commit(0)];
    }
  }
}
