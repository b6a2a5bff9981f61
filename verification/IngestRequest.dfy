/**
 One ingest request as a whole (src/api.rs:366-435): the event with its projections, and the notices of the rules
 it triggers, in one transaction that leaves either all of it or nothing.
 */
module IngestRequest {
  import opened Wrappers
  import opened DedupKeys
  import opened EventStore
  import opened EventTables
  import opened AlertRules
  import Outbox

  function OccurrenceOf(i: Incoming, payload: string): Occurrence
  {
    Occurrence(i.project, i.level, i.message, i.environment, payload)
  }

  /** The rules that an event triggers once it is stored; it counts towards their thresholds itself. */
  ghost function TriggeredBy(db: Db, rules: map<Uuid, Rule>, i: Incoming, payload: string, now: int): set<Uuid>
  {
    Triggered(rules, OccurrenceOf(i, payload), Ingest(db, i).events, now)
  }

  /** How a request can end: storing the event can fail by itself, or because a triggered rule cannot be routed. */
  ghost function RequestOutcomes(db: Db, rules: map<Uuid, Rule>, i: Incoming, payload: string, routing: Routing,
                                 now: int): set<Outcome>
  {
    var matching := TriggeredBy(db, rules, i, payload, now);
    if IngestOutcome(db, i) == Done && !Routed(matching, rules, routing) then Refusals(matching, rules, routing)
    else {IngestOutcome(db, i)}
  }

  /** A rule that has just fired is not triggered again before its cooldown is over, whatever comes in. */
  ghost predicate Rests(rule: Rule, now: int)
  {
    forall o, events, later {:trigger Triggers(rule, o, events, later)} ::
      Triggers(rule, o, events, later) ==> later > now + rule.cooldown * Outbox.SECOND
  }

  lemma MarkedRulesRest(rules: map<Uuid, Rule>, some: set<Uuid>, now: int)
    requires some <= rules.Keys
    ensures forall r {:trigger Marked(some, rules, now)[r]} :: r in some ==> Rests(Marked(some, rules, now)[r], now)
  {
  }

  method Persist(tables: Tables, book: AlertBook, i: Incoming, payload: string, routing: Routing, now: int)
    returns (outcome: Outcome, notices: map<Uuid, Outbox.Row>)
    requires tables.Valid()
    modifies tables, book
    ensures tables.Valid()
    ensures outcome in RequestOutcomes(old(tables.View()), old(book.rules), i, payload, routing, now)
    ensures outcome == Done ==>
              && tables.View() == Ingest(old(tables.View()), i)
              && book.rules == Marked(TriggeredBy(old(tables.View()), old(book.rules), i, payload, now),
                                      old(book.rules), now)
              && notices == Notices(TriggeredBy(old(tables.View()), old(book.rules), i, payload, now),
                                    old(book.rules), routing, payload, now)
    ensures outcome == Done ==>
              var fired := TriggeredBy(old(tables.View()), old(book.rules), i, payload, now);
              forall r {:trigger book.rules[r]} :: r in fired ==> r in book.rules && Rests(book.rules[r], now)
    ensures i.event in old(tables.events) ==> outcome != Done
    ensures outcome != Done ==> tables.View() == old(tables.View()) && book.rules == old(book.rules) && notices == map[]
  {
    hide RouteOfRule, Notice;
    var issues, events, services, releases := tables.issues, tables.events, tables.services, tables.releases;
    outcome := tables.PersistEvent(i);
    notices := map[];
    if outcome != Done {
      return;
    }
    var inserted := book.EnqueueMatchingAlerts(OccurrenceOf(i, payload), tables.events, routing, now);
    if inserted.Err? {
      tables.issues, tables.events, tables.services, tables.releases := issues, events, services, releases;
      return inserted.error, map[];
    }
    MarkedRulesRest(old(book.rules), TriggeredBy(old(tables.View()), old(book.rules), i, payload, now), now);
    return Done, inserted.value;
  }

  /**
   Storing an event adds it, and nothing else, to the events that a rule's threshold counts, provided that it is of
   the rule's level and environment and not older than its window: a threshold of one is met by the event itself.
   */
  lemma ThresholdCountsTheEvent(db: Db, rule: Rule, i: Incoming, now: int)
    requires IngestOutcome(db, i) == Done
    ensures var fits := && (rule.level.None? || rule.level.value == i.level)
                        && (rule.environment.None? || i.environment == rule.environment)
                        && now - i.at <= (if rule.window.Some? then rule.window.value else 300) * Outbox.SECOND;
            CountedEvents(rule, i.project, Ingest(db, i).events, now) ==
                CountedEvents(rule, i.project, db.events, now) + if fits then {i.event} else {}
  {
    var before := CountedEvents(rule, i.project, db.events, now);
    var after := CountedEvents(rule, i.project, Ingest(db, i).events, now);
    forall e | e != i.event ensures e in after <==> e in before {}
  }
}
