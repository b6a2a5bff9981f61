# The event store and alert pipeline, modelled and proved

This Dafny project models the heart of a Sentry-compatible server and proves what its requests, workers and
pure functions promise. `dafny verify dfyconfig.toml` checks all of it.

- **Envelopes** (`EnvelopeGrammar`, `Envelope`): the reader of length- and newline-framed items as the loop over a
  cursor that it is, proved equal to a recursive reading of the bytes, which in turn reads exactly the language of a
  grammar that prints itself.
- **Events before they are stored** (`Json`, `Scrubbing`, `Fingerprinting`): the scrubbing of secrets in JSON trees and
  the text that is hashed into a fingerprint.
- **The event tables** (`Projections`, `EventStore`, `EventStoreLaws`, `IssueMoves`, `EventStoreRuns`, `Regressions`):
  ingest, logs, releases, status and fingerprint changes, merge, split and retention on the tables of issues, events,
  services, releases and logs. Issues, services and releases are incrementally kept projections of the records; the
  main results say how they agree with the records in every run. `EventTables` has the requests as methods that change
  tables statement by statement, each proved to have the effect of its specification or none.
- **Concurrency of ingest** (`IngestTransactions`, `RuleLocks`, `MergeRace`, `SplitRace`, `Replay`, `IngestRequest`):
  ingest transactions with their advisory and row locks, interleaved in any way and aborted anywhere, refine atomic
  ingests in commit order; they can get into a deadlock over the rows of alert rules, and the exact condition on the
  orders in which these are locked is proved; a merge or a split is not atomic against ingests, and the exact conditions
  under which one loses an event or miscounts are proved; sending an envelope again converges.
- **Alert rules** (`MessagePatterns`, `AlertRules`, `Cooldown`): which rules an event triggers, what they put into the
  outbox, and how far apart the firings of one rule are when ingests race.
- **The notification outbox** (`Outbox`, `OutboxSafety`, `OutboxDrain`, `OutboxLimits`, `OutboxWorker`, `DedupKeys`):
  any number of workers claim rows under a lease, send, record success or failure with exponential backoff and escalate,
  while they may crash or outlive their lease. The transition system has one step for each statement; the worker class
  takes these steps with everybody else's steps in between.
- **Small pieces** (`RateLimiter`, `XmlEscape`): the fixed-window rate limiter and the escaping of spoken messages.

Readings and assumptions. Database isolation is READ COMMITTED; the database clock does not go back. Times are integer
microseconds (nanoseconds in the rate limiter). The functions that hash (SHA-256 of the grouping text, the hash behind
the advisory lock) and the JSON decoder of envelope headers are parameters or are left off, so that every statement
holds whatever they are; the hash of the advisory lock may collide. New identifiers are parameters, which the source
draws at random. A send succeeds or fails as the environment decides.

Where the code differs from its documentation the model follows the code:

- A rule's message text is documented as a substring (docs/architecture.md:17), but it is a pattern in which `%`, `_`
  and the backslash are special (src/alert.rs:27). `MessagePatterns.MatchesMeansContainsIffPlain` has the exact condition.
- A merge whose target is among its sources deletes the target and all the events it has just gathered
  (src/api.rs:1165 with the cascade at migrations/0001_initial.sql:28). `IssueMoves.MergeConservesEvents` has the exact
  condition.
- An accepted event can be lost to a merge or a split that runs at the same time (docs/architecture.md:26 promises that
  an accepted event is durable), and either can leave an issue one event short: a merge when an event for the target
  commits while the counting statement waits for it, a split when an event for the split issue commits after a count.
  `MergeRace.RaceLosesEventIffForSource` and `SplitRace.RaceLosesEventIffUnnoticed` have the exact conditions.
- Two ingests can wait for each other's alert rules, because the statement that locks the rules names no order
  (src/alert.rs:23-35): the database then aborts one of them. `RuleLocks.DeadlocksIffUngatedCycle` has the exact
  condition for any number of requests, `RuleLocks.TwoDeadlockIffFirstRulesDiffer` the one for two, and
  `RuleLocks.OrderedRulesNeverDeadlock` says that any common order would rule it out.
- The number of days to keep is cast to 32 bits (src/operations.rs:166), and a cutoff that is no time fails the whole
  statement for all projects. `EventStoreRuns.CutoffIsConfiguredIffDaysFit` says for which numbers of days the cast
  keeps the configured window, `EventStoreRuns.CutDaysDropTooMuch` what is lost for all others, and
  `EventStoreRuns.RetentionWindow` what a pass keeps for any number of days, failures included.

Where promises end by design, the exact limit is proved as well. Delivery is at least once (docs/architecture.md:28): a
sent row can come around again if and only if some worker is still sending it
(`OutboxLimits.SentIsFinalIffNobodySends`), and under the same condition a manual retry cuts the backoff short
(`OutboxLimits.RetryKeepsBackoffIffNobodySends`).

## Model

| member | source | states |
|---|---|---|
| EnvelopeGrammar.ReadsExactlyTheGrammar | src/envelope.rs:57-104 | An input is read as a list of items if and only if the grammar derives it with that meaning, limits included. |
| EnvelopeGrammar.ItemsAreSlices | src/envelope.rs:63-103 | On success the payloads are slices of the input, in order and disjoint, at most a hundred and within the event limit. |
| Envelope.ReadLimited | src/envelope.rs:38-55 | A stream within 20 MiB is returned whole, any longer one is refused. |
| Envelope.Line | src/envelope.rs:106-115 | The line at a position ends at the first newline or, tolerated, at the end of the input. |
| Envelope.CheckedEnd | src/envelope.rs:78-81 | The 64-bit sum of cursor and length is taken only if it neither overflows nor leaves the input. |
| Envelope.Payload | src/envelope.rs:77-92 | A payload is framed by its length with one optional newline, or by its line; only a short length-framed one is truncated. |
| Envelope.NextItem | src/envelope.rs:68-101 | One turn of the loop reads one item and moves on, or gives the error of the recursive reading, in its order of checks. |
| Envelope.Parse | src/envelope.rs:57-104 | The parser loop terminates on every byte sequence, stays in range, and equals the recursive reading. |
| Envelope.PrintedEnvelopeIsRead | src/envelope.rs:57-115 | Round trip: a hundred items with arbitrary payloads, any choice of framing, any blank lines and any final newline are read back exactly. |
| Envelope.ReprintedEnvelopeIsRead | src/envelope.rs:57-115 | Parse, print, parse is parse. |
| Scrubbing.ScrubInPlace | src/api.rs:547-566 | The loop over members and items computes the scrubbed tree. |
| Scrubbing.PlainPathsCommute | src/api.rs:547-566 | Along a path without listed keys, scrubbing and looking up commute at any depth. |
| Scrubbing.ScrubKeepsTheRest | src/api.rs:547-566 | Outside listed keys no value, key or array length changes. |
| Scrubbing.ScrubLeavesNoSecret | src/api.rs:547-566 | Wherever an object ends up with a listed key, its value is the filter mark. |
| Scrubbing.ScrubsCompose | src/api.rs:547-566 | Scrubbing with one list and then another is scrubbing with both. |
| Scrubbing.ScrubIsIdempotentAndOrderFree | src/api.rs:359-361 | Scrubbing twice changes nothing more, and the order of lists does not matter. |
| Scrubbing.ListingIgnoresCase | src/api.rs:352-358 | A configured field catches a key in any ASCII case. |
| Fingerprinting.MessageFormDoesNotRegroup | src/api.rs:473-507 | Messages with the same words but for letter case group together; without eligible frames and custom fingerprint, no others do. |
| Fingerprinting.SpacingAndCaseDoNotRegroup | src/api.rs:473-478 | White space between words, before and after them, and the case of letters never tell two events apart. |
| Fingerprinting.MessageIsIgnoredWithFrames | src/api.rs:503-507 | Once an eligible frame exists the message does not matter. |
| Fingerprinting.ForeignFrameIsIgnored | src/api.rs:488-501 | A frame outside the application does not matter wherever it stands. |
| Fingerprinting.EarlierFramesAreIgnored | src/api.rs:488-501 | Frames before the last five eligible ones do not matter. |
| Fingerprinting.StackChangesDoNotRegroup | src/api.rs:460-507 | Both together, for whole events. |
| Fingerprinting.DefaultComponentIsNoFingerprint | src/api.rs:508-527 | Asking for the default component alone, or with components that are no strings, is like asking for nothing. |
| Fingerprinting.FingerprintsMeetIffSameAtoms | src/api.rs:508-527 | Any two events, with custom fingerprints or without, group together if and only if their components, after the default has been filled in and cut at all bars, are the same. |
| Fingerprinting.SameExtensionKeepsGroups | src/api.rs:508-527 | Two events that extend the default component in the same way group together if and only if they would without the extension. |
| Fingerprinting.CustomFingerprintsMeetIffSameAtoms | src/api.rs:508-527 | Events with custom fingerprints that leave out the default component group together if and only if their components, cut at all bars, are the same, whatever else they hold. |
| Fingerprinting.PlainFingerprintsMeetIffEqual | src/api.rs:508-527 | Where no component has a bar, if and only if the lists of components are equal. |
| Projections.ExactIsUnique | src/api.rs:394-396 | A count with first and last time that is exact for some records is the only such one. |
| Projections.CountsAddUp | src/api.rs:396 | Exact counts of the groups of a partition add up to the whole. |
| EventStoreLaws.IngestAgrees | src/api.rs:366-435 | Ingest keeps all projections in agreement with the records, exact or as bounds, links valid and fingerprints unique. |
| EventStoreLaws.IngestFingerprints | migrations/0001_initial.sql:20 | No ingest makes two issues of a project share a fingerprint. |
| Regressions.ResolvedReopensOnFirstEvent | src/api.rs:398-399 | Over any list of events a resolved issue stays resolved exactly if none is stored under it; otherwise it is open and regressed at the time of the first. |
| Regressions.OtherStatusesStay | src/api.rs:399 | Events never change an unresolved, started or ignored issue's status or regression time. |
| Regressions.IssueShowsLastEvent | src/api.rs:397 | Title and level of an issue are those of the last event stored under it; project and fingerprint stay. |
| Regressions.NewIssueIsOpen | src/api.rs:391-399 | An issue that events have opened is unresolved and has never regressed, however many follow. |
| Regressions.ResolvedByHandReopens | src/alert.rs:70-74 | An issue resolved by hand stays so exactly until the first event stored under it. |
| Regressions.FingerprintChangeRedirects | src/api.rs:1236-1240 | Afterwards events of the new fingerprint come to the issue, those of the old one open another, and all others go where they went. |
| Regressions.StatusesAreNamed | src/alert.rs:62-69 | Exactly the four status names are accepted, each for its status. |
| EventStoreRuns.LogsAgree | src/telemetry.rs:109-162 | A batch of logs keeps agreement; logs count for the times of their service but not for its events. |
| EventStoreRuns.RegisterAgrees | src/api.rs:1539 | Registering a release keeps agreement. |
| EventStoreRuns.EveryRunAgrees | src/api.rs:390-425 | In every run of all operations the projections bound the records; without retention and self-merge they are exact. |
| EventStoreRuns.NoEventIsLost | src/api.rs:1141-1224 | Without retention and self-merge no operation removes an event or changes more than its issue. |
| EventStoreRuns.RetainAgrees | src/operations.rs:163-183 | After a retention pass, completed or not, counts and times are still bounds, and all links hold. |
| EventStoreRuns.RetentionIsExactIffIdle | src/operations.rs:163-183 | Retention keeps exact projections exact if and only if it drops nothing. |
| EventStoreRuns.RetentionWindow | src/operations.rs:163-183 | For any number of days, a pass keeps an event exactly if a statement up to its own fails, or it lies within the days its project keeps. |
| EventStoreRuns.LogRetentionWindow | src/operations.rs:163-183 | For any number of days, a log goes with its own time or with the arrival of its envelope item, as far as the pass comes. |
| EventStoreRuns.RecentRecordsSurvive | src/operations.rs:163-183 | With days that fit 32 bits, what happened and came in within a day survives, cascades included. |
| EventStoreRuns.DaysAreKeptIffTheyFit | src/operations.rs:164-166 | Over all numbers of days: a project without its own number keeps the configured ones, at least one, if and only if these are below 2^31; otherwise it keeps fewer. |
| EventStoreRuns.CutoffIsConfiguredIffDaysFit | src/operations.rs:164-172 | The same for the cutoff, at every time. |
| EventStoreRuns.CutDaysDropTooMuch | src/operations.rs:164-176 | For every number of days that does not fit, an event of the configured window just before the actual cutoff is dropped, whenever that cutoff is a time. |
| EventStoreRuns.ReasonableDaysSucceed | src/operations.rs:163-183 | A pass whose days fit and reach back within the calendar completes all its statements. |
| EventStoreRuns.RecordsDetermineIssues | src/api.rs:390-400 | Which issues exist and their counts and times depend on the stored events alone, not on their order or on merges and splits. |
| EventStoreRuns.RecordsDetermineServices | src/telemetry.rs:53-67 | The same for services, from events and logs. |
| EventStoreRuns.RecordsDetermineReleases | src/api.rs:424 | The same for the counts and times of releases. |
| EventStoreRuns.ProjectionsAddUp | src/api.rs:390-425 | In every lossless run, per project, issue counts and service counts both add up to the stored events, and release counts to the events that name one. |
| IssueMoves.MergeConservesEvents | src/api.rs:1152-1170 | A merge keeps every event, and its target, if and only if the target is not a source; otherwise exactly the gathered events go. |
| IssueMoves.MergeLeavesOthers | src/api.rs:1156-1165 | Events and issues that are not named, and everything of other projects, stay as they were. |
| IssueMoves.ForeignSourceIsUntouched | src/api.rs:1157-1165 | A source of another project stays with all its events. |
| IssueMoves.MergeAgrees | src/api.rs:1152-1170 | A merge keeps agreement, links and unique fingerprints: exact ones if the target is no source. |
| IssueMoves.SplitConservesEvents | src/api.rs:1195-1222 | A split keeps every event: the chosen ones under the new issue, the rest where they were. |
| IssueMoves.SplitIssues | src/api.rs:1202-1221 | The new issue and the remaining one are counted exactly, the new one under the title given or else that of the split issue; the split issue goes if and only if no event remains. |
| IssueMoves.SplitAgrees | src/api.rs:1195-1222 | A split keeps agreement, links and unique fingerprints. |
| IssueMoves.MergeUndoesSplit | src/api.rs:1152-1222 | Merging the new issue back restores every table exactly, when the split left events behind. |
| IssueMoves.ChangeAgrees | src/api.rs:1225-1242 | Changing a fingerprint keeps agreement and uniqueness. |
| IssueMoves.StatusAgrees | src/alert.rs:70-74 | Changing a status keeps agreement and uniqueness. |
| EventTables.Aggregate | src/api.rs:1164 | The loop computes the count, minimum and maximum of a group of events. |
| EventTables.Tables.PersistEvent | src/api.rs:337-440 | Stores an event with its projections, or answers duplicate, conflict or bad request and changes nothing. |
| EventTables.Tables.PersistLogBatch | src/telemetry.rs:109-163 | Stores a batch of logs, or nothing of it. |
| EventTables.Tables.MergeIssues | src/api.rs:1148-1170 | Merges issues, or fails, rolled back when no event would remain. |
| EventTables.Tables.SplitIssue | src/api.rs:1190-1222 | Splits an issue, or fails without effect, checks in the source's order. |
| EventTables.Tables.ChangeIssueFingerprint | src/api.rs:1225-1242 | Changes a fingerprint, or refuses a blank or taken one. |
| EventTables.Tables.MarkIssueStatus | src/alert.rs:61-79 | Sets a status by name; a bad name is refused before an unknown issue is. |
| EventTables.Tables.RunRetentionOnce | src/operations.rs:163-183 | The three deletes, each at its own time and failing as a whole when a cutoff is no time, with the cascade from envelope items to logs. |
| IngestTransactions.ConcurrentIngestIsSerial | src/api.rs:366-435 | Under every interleaving and abort the committed tables are those of the committed requests in commit order, so no increment is lost or doubled. |
| IngestTransactions.InsertNeverConflicts | src/api.rs:412-421 | A transaction that reaches the insert of its event stores it: the conflict clause never fires. |
| IngestTransactions.AnswersAreSerial | src/api.rs:373-389 | Each request is answered as it would be alone at its commit, and an abort leaves nothing. |
| IngestTransactions.EventsAreStoredOnce | src/api.rs:367-389 | At most one committed request stores an event of a given id. |
| IngestTransactions.NoDeadlock | src/api.rs:366-432 | Up to the alert rules there is no deadlock: while transactions run, one of them can go on towards its rules or, if it has none, commit, as the locks up to there are taken in one order. |
| RuleLocks.RunIsIngestRun | src/api.rs:366-435 | Runs in which transactions also lock rules are runs of the transactions without them, so all that is proved of those still holds. |
| RuleLocks.DeadlocksIffUngatedCycle | src/alert.rs:23-35 | For any set of requests, each with the sequence of rules it locks: some run gets into a deadlock if and only if the sequences form a cycle whose members share no earlier rule and no lock of the other statements. |
| RuleLocks.TwoDeadlockIffFirstRulesDiffer | src/alert.rs:23-35 | Two requests for new events that share no other lock can get into a deadlock if and only if the first rule of the one that the other locks too is not the first of the other; opposite orders behind a common first rule do no harm. |
| RuleLocks.OppositeOrdersDeadlock | src/alert.rs:23-35 | From the very beginning, any two requests that share no other lock and lock two rules in opposite orders can end up waiting for each other. |
| RuleLocks.TwoDeadlockInSomeOrderIffTwoCommon | src/alert.rs:23-35 | With the scan free to choose the orders, they can if and only if they have two rules in common. |
| RuleLocks.OrderedRulesNeverDeadlock | src/alert.rs:23-35 | If all requests lock their rules in one common order, no run gets into a deadlock. |
| RuleLocks.NoCycleNoStandstill | src/alert.rs:23-35 | Without such a cycle, in every run, as long as transactions run, one of them can go on or commit. |
| RuleLocks.DeadlockLasts | src/alert.rs:23-35 | A deadlock lasts, whatever else happens, until one of its transactions is aborted. |
| MergeRace.RaceLosesEventIffForSource | src/api.rs:1156-1170 | An event that commits while a merge runs, before, during or after the count, is lost if and only if it is for a source; the counters stay exact if and only if it is neither that nor for the target during the count, and they stay bounds if and only if it is not the latter. All older events survive. |
| MergeRace.HarmlessRace | src/api.rs:1156-1170 | In the remaining cases the result is that of the ingest followed by the merge. |
| SplitRace.StatementsSplit | src/api.rs:1202-1222 | Undisturbed, the statements of a split have the effect of the atomic split. |
| SplitRace.RaceLosesEventIffUnnoticed | src/api.rs:1202-1222 | An event that commits while a split runs, after the new issue has been inserted, is lost if and only if it is for the split issue and comes after the count of what remains has found nothing; the counters stay bounds if and only if it is not miscounted, which is if it is for the split issue and comes after a count that is not zero, or is itself chosen and comes before the move; they stay exact if and only if it is neither. All older events survive. |
| Replay.IngestEnvelope | src/api.rs:270-292 | The item loop commits the accepted prefix and stops at the first item that fails. |
| Replay.ReplayConverges | src/api.rs:269-292 | After any accepted prefix of event items with ids, sending the whole list gives what sending it once gives. |
| Replay.KnownItemsChangeNothing | src/api.rs:373-389 | Sending stored events again is accepted and changes no counter and no status. |
| Replay.LateReplayChangesNothing | src/api.rs:373-389 | That holds whatever merges, splits or status changes came in between. |
| Replay.LogsAreCountedAgain | src/telemetry.rs:146-160 | Logs have no id of their own: sent again, they count again. |
| IngestRequest.Persist | src/api.rs:366-435 | The event, its projections, the notices and the marks of the rules are committed together or not at all; a repeated event never triggers a rule, and a rule that fired is not triggered again before its cooldown is over, whatever comes in. |
| IngestRequest.ThresholdCountsTheEvent | src/alert.rs:29-33 | Storing an event adds exactly itself to what a threshold counts, if it is of the rule's level, environment and window. |
| MessagePatterns.MatchesMeansContainsIffPlain | src/alert.rs:27 | The pattern finds exactly the messages that contain the rule's text if and only if the text has no special character. |
| AlertRules.EventTipsThresholds | src/alert.rs:24-34 | One more stored event triggers exactly the rules triggered before and those whose threshold it tips: it counts for them and they were one short. |
| AlertRules.AlertBook.EnqueueMatchingAlerts | src/alert.rs:16-59 | One notice for each triggered rule and no other, to the first step of its policy after its delay, or to its own target at once, and the rules marked; or nothing and the refusal of one of them when some rule cannot be routed, an internal error if its first step resolves to nobody and a bad request if there is no such step. |
| AlertRules.AlertBook.EnqueueRecoveryAlerts | src/alert.rs:81-89 | Rule by rule, each notice unless its dedup key is taken, adds up to one recovery notice for every rule that wants it and was not notified of that count. |
| AlertRules.RecoveryIsOncePerCount | src/alert.rs:84-87 | Resolving again without new events notifies nobody again; with another count it notifies everyone again. |
| AlertRules.NoticeIsAlertStep | src/alert.rs:45-52 | A notice is the row of an alert step of the outbox. |
| AlertRules.RecoveryNoticeIsRecoverStep | src/alert.rs:81-89 | A recovery notice is the row of a recovery step of the outbox, key check included. |
| Cooldown.FiringsAreBounded | src/alert.rs:23-57 | Under concurrent transactions successive firings are more than the cooldown apart, so n of them within length L satisfy (n - 1) cooldown < L. |
| Cooldown.SpacingIsAttained | src/alert.rs:34 | A rule can fire again one microsecond after its cooldown, any number of times. |
| DedupKeys.TextIsInjective | src/notification.rs:130 | Printed dedup keys are injective, and the escalation and recovery families disjoint. |
| DedupKeys.DecimalIsInjective | src/alert.rs:84 | Printed counts and step numbers are injective. |
| DedupKeys.UuidTextIsInjective | src/notification.rs:130 | Printed identifiers are injective. |
| OutboxSafety.StatusesMeanWhatTheySay | src/notification.rs:83-121 | In every reachable state: pending and processing rows have at most seven failures, failed ones at least eight since the last retry, sent ones a delivery; delays are powers of two from 1 to 128. |
| OutboxSafety.BackoffIsExponential | src/notification.rs:111-113 | With any workers, crashes and reclaims, n failures put a row at least 2^n - 1 seconds (for n up to 8) past its start, or past its last manual retry if no worker was sending it then. |
| OutboxSafety.SendersDoNotOverlap | src/notification.rs:86-95 | Until a lease expires or a row is retried while being sent, at most one worker sends it, and none once it is sent. |
| OutboxSafety.SuccessorIsUnique | src/notification.rs:123-134 | Whatever rows name a row as the one they escalate are one row, of the same rule, policy and payload, one step on. |
| OutboxSafety.EscalationIsASimplePath | src/notification.rs:123-134 | One alert causes at most as many rows as its policy has steps, all of different steps. |
| OutboxSafety.NothingIsStuck | src/notification.rs:88-89 | Every pending or abandoned row can be claimed after some wait. |
| OutboxDrain.WorkIsLighter | src/notification.rs:83-134 | Every step of an orderly worker decreases a well-founded weight of the outbox. |
| OutboxDrain.QuietRunsDrain | src/notification.rs:83-134 | So the weight bounds the work of any run without new rows. |
| OutboxDrain.UndrainedHasWork | src/notification.rs:83-134 | While a row has weight some worker can act, now or later. |
| OutboxDrain.AlertsAreSentBoundedly | src/notification.rs:83-134 | One alert is sent at most eight times for each step of its policy. |
| OutboxLimits.SentIsFinalIffNobodySends | src/notification.rs:103-112 | A sent row can leave its status without a manual retry, in some run, if and only if some worker is still sending it. |
| OutboxLimits.UndisturbedSentIsFinal | src/notification.rs:86-112 | So a row of which no lease expired and which was not retried while being sent is sent for good. |
| OutboxLimits.RetryKeepsBackoffIffNobodySends | src/api.rs:2233 | After a manual retry the backoff counts anew in every run until the next one, if and only if no worker is sending the row at that time. |
| OutboxWorker.OutboxSystem.ClaimBatch | src/notification.rs:84-98 | Claims the oldest unlocked claimable rows, at most twenty, each once: none is passed over for a younger one, or at all while there is room. |
| OutboxWorker.OldestArePicked | src/notification.rs:86-91 | An eligible row that is not picked comes after all that are, of which there are then twenty; the picked ones keep their order. |
| OutboxWorker.OutboxSystem.ProcessBatch | src/notification.rs:83-121 | A batch claims every picked row first; after that its run is the work on the jobs one after the other, to the end unless an escalation fails. Each part records the outcome of its send and ends with it, or after a last failure with the escalation, and the batch stops early exactly at the job whose next step resolves to nobody (or whose new identifier is taken). With others acting in between it is a run that keeps the invariants. |
| OutboxWorker.OutboxSystem.RecordFailure | src/notification.rs:110-113 | Status and count come from the row as it is, the pause from what the worker saw. |
| OutboxWorker.OutboxSystem.EnqueueNextEscalation | src/notification.rs:123-134 | Inserts the successor row once, and stops exactly when the next step resolves to nobody or the identifier is taken. |
| OutboxWorker.OutboxSystem.CreatePolicy | src/api.rs:1799-1848 | Stores the steps numbered from zero in order, or nothing if one is invalid. |
| OutboxWorker.OutboxSystem.RetryNotification | src/api.rs:2225-2233 | Resets a row, or finds none. |
| RateLimiter.IngestRateLimiter.Check | src/operations.rs:47-64 | Admits while the window of the key has room, and opens a window when the old one is sixty seconds old. |
| RateLimiter.IngestRateLimiter.Serve | src/operations.rs:47-64 | A whole trace is answered as the specification says. |
| RateLimiter.AdmissionsAreBounded | src/operations.rs:40-65 | Over nondecreasing times, an interval of length L admits a key at most limit * (ceil(L / 60 s) + 1) times, and sharper: one less, or a whole window less when L exceeds a number of windows by a nanosecond. |
| RateLimiter.BoundIsAttained | src/operations.rs:40-65 | The sharper bound is attained by a run of a new limiter, for every limit and every length. |
| RateLimiter.OpenedWindowsAreSpaced | src/operations.rs:53-58 | Consecutive window starts of a key are at least sixty seconds apart in every trace. |
| RateLimiter.AdmittedOnceWindowIsOver | src/operations.rs:53-63 | A check sixty seconds after a window start is always admitted. |
| RateLimiter.KeysAreIndependent | src/operations.rs:49-52 | The answers for one key are those it would get alone. |
| XmlEscape.EscapeIsSimultaneous | src/notification.rs:204-211 | The five replacements one after the other equal one map over the characters. |
| XmlEscape.EscapedTextHasNoMarkup | src/notification.rs:204-211 | The result has no raw angle bracket or quote. |
| XmlEscape.UnescapeInvertsEscape | src/notification.rs:204-211 | Resolving the five predefined entities (section 4.6 of XML 1.0, Fifth Edition) in one pass gives the text back. |

## Left out

- Fingerprinting: lower-casing beyond ASCII and the digest itself; all statements are about the text that is digested.
- MessagePatterns: case folding beyond ASCII.
- Scrubbing.ScrubInPlace: the JSON value is a value rather than a tree changed in place, so aliasing does not appear.
- EventStore: columns that no projection depends on (latest release, SDK, runtime, trace, tags, contexts, assignment,
  comments), the derivation of a service name from tags, and the check that a project is not archived.
- EventTables.Tables.RunRetentionOnce: the number of rows it reports, sessions, and daylight saving in the database's
  interval arithmetic. Envelope items show only as the projects that have some and as the arrival times of logs.
- IngestTransactions: merges, splits, retention and log batches as interleaved statements, except for the races in
  MergeRace and SplitRace.
- RuleLocks: which rules a request locks is part of the request, with their order; how the database picks the transaction
  it aborts, and administrators who change a rule at the same time.
- IngestTransactions.ConcurrentIngestIsSerial: two transactions that draw the same random identifier for a new issue.
- MergeRace, SplitRace: one overtaking ingest; two merges or a merge and a split at the same time.
- SplitRace: an ingest between the reading of the split issue's title and level and the insertion of the new issue, which
  differs from one before the split only in that title and level.
- Replay: an item that fails because a triggered rule cannot be routed stops the loop like any failing item, but is not
  among the items modelled.
- AlertRules.AlertBook.EnqueueMatchingAlerts: identifiers of the inserted rows and how the on-call member is looked up.
- Cooldown: changes of a rule's cooldown during the run.
- OutboxWorker.OutboxSystem.ProcessBatch: a database error other than those of the escalation, which ends a batch anywhere.
- Outbox: the delivery of an escalation when a worker crashes between recording the last failure and enqueueing it;
  only the safety of escalation is claimed. Error texts and creation times are not columns of the model.
- OutboxWorker.OutboxSystem.ClaimBatch: the order by creation time and the rows other transactions have locked are
  parameters; the database may return the claimed rows to the worker in another order than that of their creation.
- RateLimiter: the growth of the table of windows, and the poisoning of its lock.
- Envelope: decompression and JSON parsing; the header decoder is a parameter.
- Deletion of projects and rules, so that rows keep their identity.
- Symbolication, senders, signatures, sessions, roles, invitations, audit, metrics and the list endpoints: single
  lookups or calls into other systems.
