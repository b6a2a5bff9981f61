/**
 Alert rules (src/alert.rs): which rules an event triggers, what a triggered rule puts into the outbox, and the
 recovery notices of a resolved issue.
 */
module AlertRules {
  import opened Wrappers
  import opened DedupKeys
  import opened Outbox
  import opened MessagePatterns
  import EventStore

  datatype Rule = Rule(project: Uuid, enabled: bool, level: Option<string>, wanted: Option<string>,
                       environment: Option<string>,
                       threshold: Option<int>, window: Option<int>, cooldown: nat, lastTriggered: Option<int>,
                       channel: string, target: string, policy: Option<Uuid>, notifyRecovery: bool)

  /** The event that may trigger rules, already stored when they are evaluated. */
  datatype Occurrence = Occurrence(project: Uuid, level: string, message: string, environment: Option<string>,
                                   payload: string)

  // ----- matching -----

  /** An event that counts towards the threshold of a rule: of any issue and with any message. */
  predicate Counted(rule: Rule, project: Uuid, e: EventStore.Event, now: int)
  {
    && e.project == project
    && e.at >= now - (if rule.window.Some? then rule.window.value else 300) * SECOND
    && (rule.level.None? || e.level == rule.level.value)
    && (rule.environment.None? || e.environment == rule.environment)
  }

  function CountedEvents(rule: Rule, project: Uuid, events: map<Uuid, EventStore.Event>, now: int): set<Uuid>
  {
    set e | e in events && Counted(rule, project, events[e], now)
  }

  /** The cooldown of a rule is over; `now` is the start of the transaction that asks. */
  predicate Cooled(lastTriggered: Option<int>, cooldown: nat, now: int)
  {
    lastTriggered.None? || lastTriggered.value < now - cooldown * SECOND
  }

  predicate Triggers(rule: Rule, o: Occurrence, events: map<Uuid, EventStore.Event>, now: int)
  {
    && rule.project == o.project && rule.enabled
    && (rule.level.None? || rule.level.value == o.level)
    && (rule.wanted.None? || Matches(o.message, rule.wanted.value))
    && (rule.environment.None? || o.environment == rule.environment)
    && (rule.threshold.None? || |CountedEvents(rule, o.project, events, now)| >= rule.threshold.value)
    && Cooled(rule.lastTriggered, rule.cooldown, now)
  }

  function Triggered(rules: map<Uuid, Rule>, o: Occurrence, events: map<Uuid, EventStore.Event>, now: int): set<Uuid>
  {
    set r | r in rules && Triggers(rules[r], o, events, now)
  }

  /** The policies that notices are routed by: their steps, and who is on call for the first one. */
  datatype Routing = Routing(policies: map<Uuid, seq<PolicyStep>>, onCall: map<Uuid, string>)

  function OnCall(rule: Rule, routing: Routing): Option<string>
  {
    if rule.policy.Some? && rule.policy.value in routing.onCall then Some(routing.onCall[rule.policy.value]) else None
  }

  function RouteOfRule(rule: Rule, routing: Routing): Option<Route>
  {
    AlertRoute(routing.policies, rule.channel, rule.target, rule.policy, OnCall(rule, routing))
  }

  function Notice(r: Uuid, rule: Rule, to: Route, payload: string, now: int): Row
  {
    Fresh(r, to.channel, to.target, payload, rule.policy, 0, now + to.delay * SECOND, None)
  }

  /** Every rule of some has somewhere to send its notice. */
  ghost predicate Routed(some: set<Uuid>, rules: map<Uuid, Rule>, routing: Routing)
    requires some <= rules.Keys
  {
    forall r {:trigger rules[r]} :: r in some ==> RouteOfRule(rules[r], routing).Some?
  }

  /**
   Why a rule cannot be routed: its policy has no first step, which is a bad request, or that step has no target and
   nobody is on call, which the source meets as a missing value where it reads a text.
   */
  function Refusal(rule: Rule, routing: Routing): (outcome: EventStore.Outcome)
    requires RouteOfRule(rule, routing).None?
    ensures rule.policy.Some?
    ensures outcome == EventStore.Internal <==>
              && rule.policy.value in routing.policies && routing.policies[rule.policy.value] != []
              && routing.policies[rule.policy.value][0].target.None? && rule.policy.value !in routing.onCall
    ensures outcome != EventStore.Internal ==> outcome == EventStore.BadRequest
  {
    if rule.policy.value in routing.policies && routing.policies[rule.policy.value] != [] then EventStore.Internal
    else EventStore.BadRequest
  }

  function Refusals(some: set<Uuid>, rules: map<Uuid, Rule>, routing: Routing): set<EventStore.Outcome>
    requires some <= rules.Keys
  {
    set r | r in some && RouteOfRule(rules[r], routing).None? :: Refusal(rules[r], routing)
  }

  /** The notices of some rules, by rule. */
  function Notices(some: set<Uuid>, rules: map<Uuid, Rule>, routing: Routing, payload: string, now: int): map<Uuid, Row>
    requires some <= rules.Keys
  {
    map r | r in some && RouteOfRule(rules[r], routing).Some? ::
          Notice(r, rules[r], RouteOfRule(rules[r], routing).value, payload, now)
  }

  function Marked(some: set<Uuid>, rules: map<Uuid, Rule>, now: int): map<Uuid, Rule>
  {
    map r | r in rules :: if r in some then rules[r].(lastTriggered := Some(now)) else rules[r]
  }

  lemma OneMoreMarked(done: set<Uuid>, rules: map<Uuid, Rule>, r: Uuid, now: int)
    requires r in rules && r !in done
    ensures Marked(done, rules, now)[r] == rules[r]
    ensures Marked(done + {r}, rules, now) == Marked(done, rules, now)[r := rules[r].(lastTriggered := Some(now))]
  {
  }

  lemma OneMoreNotice(done: set<Uuid>, rules: map<Uuid, Rule>, routing: Routing, payload: string, now: int, r: Uuid,
                      to: Route)
    requires done + {r} <= rules.Keys && RouteOfRule(rules[r], routing) == Some(to)
    ensures Notices(done + {r}, rules, routing, payload, now) ==
            Notices(done, rules, routing, payload, now)[r := Notice(r, rules[r], to, payload, now)]
  {
  }

  lemma OneMoreCounted(rule: Rule, project: Uuid, events: map<Uuid, EventStore.Event>, e: Uuid, v: EventStore.Event,
                       now: int)
    requires e !in events
    ensures CountedEvents(rule, project, events[e := v], now) ==
            CountedEvents(rule, project, events, now) + if Counted(rule, project, v, now) then {e} else {}
  {
  }

  /**
   One more stored event never silences a rule, and it triggers exactly those more whose threshold it tips: it counts
   for the rule, and the events before it were one short.
   */
  lemma EventTipsThresholds(rules: map<Uuid, Rule>, o: Occurrence, events: map<Uuid, EventStore.Event>, e: Uuid,
                            v: EventStore.Event, now: int, r: Uuid)
    requires e !in events && r in rules
    ensures var rule := rules[r];
            r in Triggered(rules, o, events[e := v], now) <==>
              || r in Triggered(rules, o, events, now)
              || (&& Counted(rule, o.project, v, now)
                  && rule.threshold == Some(|CountedEvents(rule, o.project, events, now)| + 1)
                  && Triggers(rule.(threshold := None), o, events, now))
  {
    var before := CountedEvents(rules[r], o.project, events, now);
    OneMoreCounted(rules[r], o.project, events, e, v, now);
    assert |before + {e}| == |before| + 1;
  }

  /** A notice goes to the first step of the rule's policy after its delay, or at once to the rule's own target. */
  predicate GoesToFirstStep(row: Row, rule: Rule, routing: Routing, now: int)
  {
    match rule.policy
    case None => row.channel == rule.channel && row.target == rule.target && row.availableAt == now
    case Some(p) =>
      && p in routing.policies && routing.policies[p] != []
      && var first := routing.policies[p][0];
      && row.channel == first.channel && row.availableAt == now + first.delay * SECOND
      && (if first.target.Some? then row.target == first.target.value
          else p in routing.onCall && row.target == routing.onCall[p])
  }

  lemma NoticesGoToFirstSteps(some: set<Uuid>, rules: map<Uuid, Rule>, routing: Routing, payload: string, now: int)
    requires some <= rules.Keys
    ensures var rows := Notices(some, rules, routing, payload, now);
            forall r {:trigger rows[r]} :: r in rows ==> GoesToFirstStep(rows[r], rules[r], routing, now)
  {
  }

  // ----- recovery -----

  predicate WantsRecovery(rule: Rule, project: Uuid)
  {
    rule.project == project && rule.enabled && rule.notifyRecovery
  }

  /** The recovery notices of an issue with a number of events, except those that the unique dedup keys turn away. */
  function RecoveryNotices(rules: map<Uuid, Rule>, keys: set<Key>, issue: Uuid, project: Uuid, count: nat,
                           payload: string, now: int): map<Uuid, Row>
  {
    map r | r in rules && WantsRecovery(rules[r], project) && Recovery(r, issue, count) !in keys
      :: Fresh(r, rules[r].channel, rules[r].target, payload, None, 0, now, Some(Recovery(r, issue, count)))
  }

  function KeysOf(rows: map<Uuid, Row>): set<Key>
  {
    set r | r in rows && rows[r].dedup.Some? :: rows[r].dedup.value
  }

  lemma OneMoreRecovery(rules: map<Uuid, Rule>, left: set<Uuid>, r: Uuid, keys: set<Key>, issue: Uuid, project: Uuid,
                        count: nat, payload: string, now: int)
    requires r in left && left <= rules.Keys
    ensures var before := RecoveryNotices(rules - left, keys, issue, project, count, payload, now);
            var row := Fresh(r, rules[r].channel, rules[r].target, payload, None, 0, now,
                             Some(Recovery(r, issue, count)));
            var wanted := WantsRecovery(rules[r], project) && Recovery(r, issue, count) !in keys;
            && Recovery(r, issue, count) !in KeysOf(before)
            && RecoveryNotices(rules - (left - {r}), keys, issue, project, count, payload, now) ==
                (if wanted then before[r := row] else before)
            && KeysOf(before[r := row]) == KeysOf(before) + {Recovery(r, issue, count)}
  {
    var before := RecoveryNotices(rules - left, keys, issue, project, count, payload, now);
    var row := Fresh(r, rules[r].channel, rules[r].target, payload, None, 0, now, Some(Recovery(r, issue, count)));
    var wanted := WantsRecovery(rules[r], project) && Recovery(r, issue, count) !in keys;
    assert r !in before;
    assert RecoveryNotices(rules - (left - {r}), keys, issue, project, count, payload, now) == if wanted
           then before[r := row] else before;
    KeysWith(before, r, row);
  }

  lemma KeysWith(rows: map<Uuid, Row>, r: Uuid, row: Row)
    requires r !in rows && row.dedup.Some?
    ensures KeysOf(rows[r := row]) == KeysOf(rows) + {row.dedup.value}
  {
    var more := rows[r := row];
    forall k ensures k in KeysOf(more) <==> k in KeysOf(rows) || k == row.dedup.value {
      assert more[r] == row;
      assert forall x :: x in rows ==> more[x] == rows[x];
    }
  }

  /**
   Resolving an issue again without new events notifies nobody a second time; with another number of events, for
   which no key was used before, it notifies every rule that wants to know.
   */
  lemma RecoveryIsOncePerCount(rules: map<Uuid, Rule>, keys: set<Key>, issue: Uuid, project: Uuid, count: nat,
                               later: nat, payload: string, now: int, again: int)
    ensures var after := keys + KeysOf(RecoveryNotices(rules, keys, issue, project, count, payload, now));
            && RecoveryNotices(rules, after, issue, project, count, payload, again) == map[]
            && (later != count && (forall r :: r in rules ==> Recovery(r, issue, later) !in keys) ==>
                  RecoveryNotices(rules, after, issue, project, later, payload, again).Keys ==
                  set r | r in rules && WantsRecovery(rules[r], project))
  {
    var rows := RecoveryNotices(rules, keys, issue, project, count, payload, now);
    forall r | r in rules && WantsRecovery(rules[r], project)
      ensures Recovery(r, issue, count) in keys + KeysOf(rows)
    {
      assert Recovery(r, issue, count) !in keys ==> rows[r].dedup == Some(Recovery(r, issue, count));
    }
  }

  // ----- the outbox -----

  /** A notice is the row that an alert step of the outbox inserts. */
  lemma NoticeIsAlertStep(s: State, id: Uuid, r: Uuid, rule: Rule, routing: Routing, payload: string)
    requires id !in s.rows && routing.policies == s.policies && RouteOfRule(rule, routing).Some?
    ensures var step := Alert(id, r, rule.channel, rule.target, payload, rule.policy, OnCall(rule, routing));
            && Enabled(s, step)
            && Apply(s, step).rows == s.rows[id := Notice(r, rule, RouteOfRule(rule, routing).value, payload, s.now)]
  {
  }

  /** A recovery notice is the row that a recovery step of the outbox inserts, if its key is not taken. */
  lemma RecoveryNoticeIsRecoverStep(s: State, id: Uuid, rules: map<Uuid, Rule>, keys: set<Key>, r: Uuid, issue: Uuid,
                                    project: Uuid, count: nat, payload: string)
    requires id !in s.rows && r in rules && WantsRecovery(rules[r], project)
    requires forall k {:trigger k in keys} :: k in keys <==> HasKey(s.rows, k)
    ensures var step := Recover(id, r, issue, count, rules[r].channel, rules[r].target, payload);
            var notices := RecoveryNotices(rules, keys, issue, project, count, payload, s.now);
            && Enabled(s, step)
            && Apply(s, step).rows == if r in notices then s.rows[id := notices[r]] else s.rows
  {
    assert Recovery(r, issue, count) in keys <==> HasKey(s.rows, Recovery(r, issue, count));
  }

  class AlertBook {
    var rules: map<Uuid, Rule>

    /** The dedup keys of the outbox, each of which at most one row has. */
    var keys: set<Key>

    constructor (rules: map<Uuid, Rule>)
      ensures this.rules == rules && keys == {}
    {
      this.rules, keys := rules, {};
    }

    /** A notice for every rule of the project that wants recoveries, each unless its key is taken. */
    method EnqueueRecoveryAlerts(issue: Uuid, project: Uuid, count: nat, payload: string,
                                 now: int) returns (inserted: map<Uuid, Row>)
      modifies `keys
      ensures inserted == RecoveryNotices(rules, old(keys), issue, project, count, payload, now)
      ensures keys == old(keys) + KeysOf(inserted)
    {
      inserted := map[];
      var left := rules.Keys;
      while left != {}
        invariant left <= rules.Keys
        invariant inserted == RecoveryNotices(rules - left, old(keys), issue, project, count, payload, now)
        invariant keys == old(keys) + KeysOf(inserted)
        decreases |left|
      {
        var r :| r in left;
        var rule, key := rules[r], Recovery(r, issue, count);
        OneMoreRecovery(rules, left, r, old(keys), issue, project, count, payload, now);
        if rule.project == project && rule.enabled && rule.notifyRecovery && key !in keys {
          inserted := inserted[r := Fresh(r, rule.channel, rule.target, payload, None, 0, now, Some(key))];
          keys := keys + {key};
        }
        left := left - {r};
      }
      assert rules - {} == rules;
    }

    /**
     One notice for every triggered rule and for no other, in the transaction of the ingest: when a rule cannot be
     routed the whole transaction fails with one of their refusals and leaves nothing behind.
     */
    method EnqueueMatchingAlerts(o: Occurrence, events: map<Uuid, EventStore.Event>, routing: Routing, now: int)
      returns (inserted: Result<map<Uuid, Row>, EventStore.Outcome>)
      modifies `rules
      ensures var matching := Triggered(old(rules), o, events, now);
              if Routed(matching, old(rules), routing)
              then inserted == Ok(Notices(matching, old(rules), routing, o.payload, now)) &&
                  rules == Marked(matching, old(rules), now)
              else inserted.Err? && inserted.error in Refusals(matching, old(rules), routing) && rules == old(rules)
      ensures inserted.Ok? ==> forall r {:trigger inserted.value[r]} :: r in inserted.value ==>
                r in old(rules) && GoesToFirstStep(inserted.value[r], old(rules)[r], routing, now)
    {
      var matching := Triggered(rules, o, events, now);
      NoticesGoToFirstSteps(matching, rules, routing, o.payload, now);
      inserted := NoticeAll(matching, o.payload, routing, now);
    }

    method NoticeAll(matching: set<Uuid>, payload: string, routing: Routing, now: int)
      returns (inserted: Result<map<Uuid, Row>, EventStore.Outcome>)
      requires matching <= rules.Keys
      modifies `rules
      ensures if Routed(matching, old(rules), routing)
              then inserted == Ok(Notices(matching, old(rules), routing, payload, now)) &&
                  rules == Marked(matching, old(rules), now)
              else inserted.Err? && inserted.error in Refusals(matching, old(rules), routing) && rules == old(rules)
    {
      hide RouteOfRule;
      var saved := rules;
      var left, rows := matching, map[];
      ghost var done := {};
      while left != {}
        invariant done + left == matching && done !! left
        invariant rules == Marked(done, saved, now) && rows == Notices(done, saved, routing, payload, now) &&
                  Routed(done, saved, routing)
        decreases |left|
      {
        var r :| r in left;
        OneMoreMarked(done, saved, r, now);
        var to := RouteOfRule(rules[r], routing);
        if to.None? {
          rules := saved;
          return Err(Refusal(saved[r], routing));
        }
        OneMoreNotice(done, saved, routing, payload, now, r, to.value);
        rows := rows[r := Notice(r, rules[r], to.value, payload, now)];
        rules := rules[r := rules[r].(lastTriggered := Some(now))];
        left := left - {r};
        done := done + {r};
      }
      assert done == matching;
      return Ok(rows);
    }
  }
}
