/**
 What an ingest does to an issue besides counting (src/api.rs:390-401): a resolved issue reopens on its next
 event, other statuses stay, and the issue shows the title and level of its latest event.
 */
module Regressions {
  import opened Wrappers
  import opened DedupKeys
  import opened EventStore
  import opened EventStoreLaws
  import IssueMoves

  ghost function IngestAll(db: Db, events: seq<Incoming>): Db
    decreases |events|
  {
    if events == [] then db else IngestAll(Ingest(db, events[0]), events[1..])
  }

  /** The time of the first event of a list that is stored under an issue. */
  ghost function FirstFor(db: Db, events: seq<Incoming>, id: Uuid): Option<int>
    decreases |events|
  {
    if events == [] then None
    else if IngestOutcome(db, events[0]) == Done && IssueFor(db, events[0]) == id then Some(events[0].at)
    else FirstFor(Ingest(db, events[0]), events[1..], id)
  }

  /** The last event of a list that is stored under an issue. */
  ghost function LastFor(db: Db, events: seq<Incoming>, id: Uuid): Option<Incoming>
    decreases |events|
  {
    if events == [] then None
    else
      var later := LastFor(Ingest(db, events[0]), events[1..], id);
      if later.Some? then later
      else if IngestOutcome(db, events[0]) == Done && IssueFor(db, events[0]) == id then Some(events[0])
      else None
  }

  /** An ingest touches no issue but the one it stores its event under. */
  lemma OnlyItsIssue(db: Db, i: Incoming, id: Uuid)
    requires id in db.issues && !(IngestOutcome(db, i) == Done && IssueFor(db, i) == id)
    ensures id in Ingest(db, i).issues && Ingest(db, i).issues[id] == db.issues[id]
  {
  }

  /** Events never take an open, ignored or started issue out of its status. */
  lemma {:induction false} OtherStatusesStay(db: Db, events: seq<Incoming>, id: Uuid)
    requires id in db.issues && db.issues[id].status != Resolved
    ensures id in IngestAll(db, events).issues
    ensures IngestAll(db, events).issues[id].status == db.issues[id].status
    ensures IngestAll(db, events).issues[id].regressedAt == db.issues[id].regressedAt
    decreases |events|
  {
    if events != [] {
      var t := Ingest(db, events[0]);
      assert id in t.issues && t.issues[id].status == db.issues[id].status &&
             t.issues[id].regressedAt == db.issues[id].regressedAt;
      OtherStatusesStay(t, events[1..], id);
    }
  }

  /**
   A resolved issue is still resolved exactly when none of the events was stored under it. Otherwise it is open
   and its regression carries the time of the first of them, whatever came later.
   */
  lemma {:induction false} ResolvedReopensOnFirstEvent(db: Db, events: seq<Incoming>, id: Uuid)
    requires id in db.issues && db.issues[id].status == Resolved
    ensures id in IngestAll(db, events).issues
    ensures var row, first := IngestAll(db, events).issues[id], FirstFor(db, events, id);
            if first.None? then row == db.issues[id] else row.status == Unresolved && row.regressedAt == first
    decreases |events|
  {
    if events != [] {
      var i := events[0];
      if IngestOutcome(db, i) == Done && IssueFor(db, i) == id {
        OtherStatusesStay(Ingest(db, i), events[1..], id);
      } else {
        OnlyItsIssue(db, i, id);
        ResolvedReopensOnFirstEvent(Ingest(db, i), events[1..], id);
      }
    }
  }

  /** An issue that events have opened has never regressed, however many follow. */
  lemma NewIssueIsOpen(db: Db, i: Incoming, later: seq<Incoming>)
    requires IngestOutcome(db, i) == Done && IssueFor(db, i) !in db.issues
    ensures var id, t := IssueFor(db, i), IngestAll(db, [i] + later);
            id in t.issues && t.issues[id].status == Unresolved && t.issues[id].regressedAt.None?
  {
    assert ([i] + later)[1..] == later;
    OtherStatusesStay(Ingest(db, i), later, IssueFor(db, i));
  }

  /** An issue resolved by hand reopens on the first event that comes for it, and only then. */
  lemma ResolvedByHandReopens(db: Db, id: Uuid, events: seq<Incoming>)
    requires id in db.issues
    ensures var t := SetStatus(db, id, Resolved);
            && id in IngestAll(t, events).issues
            && (IngestAll(t, events).issues[id].status == Resolved <==> FirstFor(t, events, id).None?)
  {
    ResolvedReopensOnFirstEvent(SetStatus(db, id, Resolved), events, id);
  }

  /** After a change of fingerprint, events of the new one come to the issue, and those of the old one open another. */
  lemma FingerprintChangeRedirects(db: Db, issue: Uuid, fingerprint: string, i: Incoming)
    requires FingerprintsUnique(db) && ChangeOutcome(db, issue, fingerprint) == Done
    requires i.project == db.issues[issue].project && i.newIssue !in db.issues
    ensures i.fingerprint == fingerprint ==> IssueFor(ChangeFingerprint(db, issue, fingerprint), i) == issue
    ensures i.fingerprint == db.issues[issue].fingerprint != fingerprint ==>
              IssueFor(ChangeFingerprint(db, issue, fingerprint), i) == i.newIssue
    ensures i.fingerprint != fingerprint && i.fingerprint != db.issues[issue].fingerprint ==>
              IssueFor(ChangeFingerprint(db, issue, fingerprint), i) == IssueFor(db, i)
  {
    var t := ChangeFingerprint(db, issue, fingerprint);
    IssueMoves.ChangedFingerprints(db, issue, fingerprint);
    var a, b := FindIssue(db.issues, i.project, i.fingerprint), FindIssue(t.issues, i.project, i.fingerprint);
    if i.fingerprint == fingerprint {
      assert HasFingerprint(t.issues[issue], i.project, i.fingerprint);
      assert SameFingerprint(t.issues[issue], t.issues[b.value]);
    } else if i.fingerprint == db.issues[issue].fingerprint {
      assert b.Some? ==> SameFingerprint(db.issues[issue], db.issues[b.value]);
    } else {
      assert a.Some? ==> HasFingerprint(t.issues[a.value], i.project, i.fingerprint);
      assert b.Some? ==> HasFingerprint(db.issues[b.value], i.project, i.fingerprint);
      assert a.Some? && b.Some? ==> SameFingerprint(db.issues[a.value], db.issues[b.value]);
    }
  }

  /** The title and level of an issue are those of the last event stored under it, in order of arrival. */
  lemma {:induction false} IssueShowsLastEvent(db: Db, events: seq<Incoming>, id: Uuid)
    requires id in db.issues
    ensures id in IngestAll(db, events).issues
    ensures var row, last := IngestAll(db, events).issues[id], LastFor(db, events, id);
            && row.title == (if last.Some? then last.value.message else db.issues[id].title)
            && row.level == (if last.Some? then last.value.level else db.issues[id].level)
    ensures IngestAll(db, events).issues[id].project == db.issues[id].project
    ensures IngestAll(db, events).issues[id].fingerprint == db.issues[id].fingerprint
    decreases |events|
  {
    if events != [] {
      var i := events[0];
      if !(IngestOutcome(db, i) == Done && IssueFor(db, i) == id) {
        OnlyItsIssue(db, i, id);
      } else {
        IngestIssue(db, i);
      }
      IssueShowsLastEvent(Ingest(db, i), events[1..], id);
    }
  }

  // ----- statuses by name -----

  function NameOf(s: Status): string
  {
    match s
    case Unresolved => "unresolved"
    case InProgress => "in_progress"
    case Resolved => "resolved"
    case Ignored => "ignored"
  }

  /** Exactly the four names of the table's check constraint are accepted, each for its status. */
  lemma StatusesAreNamed(name: string, s: Status)
    ensures StatusNamed(name) == Some(s) <==> name == NameOf(s)
  {
    DifferentNames();
  }

  lemma DifferentNames()
    ensures forall a, b {:trigger NameOf(a), NameOf(b)} :: NameOf(a) == NameOf(b) ==> a == b
  {
    assert "unresolved"[0] == 'u' && "resolved"[0] == 'r' && "in_progress"[0] == 'i' == "ignored"[0];
    assert "in_progress"[1] == 'n' && "ignored"[1] == 'g';
  }
}
