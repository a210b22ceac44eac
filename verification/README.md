# Verification of the Android Timeline server

This project models the ingestion protocol and the derivation pipeline of the Android Timeline server in
Dafny and proves what they keep. To check it, run `dafny verify dfyconfig.toml` in this directory.

## What is modelled

**Timestamps as text** (`Text`, `Calendar`, `Timestamps`, `TimeOrder`, `Retention`). SQL compares timestamps as
strings while Python buckets them by instant. A timestamp is a string, with the wire pattern written out character by
character, the civil calendar with its day-number bijection, and `iso_utc` / `parse_iso_utc` as printing and
scanning. `TextOrder` is the complete text order of accepted timestamps; `DisagreementSet`,
`WholeSecondBound` and `WholeSecondWindow` say exactly where it parts from the order of time (RFC 3339
section 5.1 allows text comparison only at equal precision).

**Ingestion as a protocol** (`Ingestion`, `Protocol`, `ExactlyOnce`, `Confluence`, `Deliveries`, `Projection`,
`Ledger`, `Acknowledgements`, `LastSeen`). `ingest_batch` is not one transaction. A run of the server is any list of
actions: the clock advances, a request arrives, one in-flight request takes its next step (one event
validated, one transaction committed), a request dies, retention deletes. Actions that are not possible do
nothing, so every list is a run, and every theorem below that starts from `Run(cfg, Init(...), actions)` is
about every reachable state. Heartbeats whose queue depth cannot be read raise, as in the source, after the
events were committed. `commits`, `ackLog` and `readings` are history that no step reads.

**The same code, imperatively** (`Database`, `Refinement`, `Replays`). `EventStore` has the tables as fields and the
source's methods, with the 500-wide scan of `store_events` and the loops of `ingest_batch`. `IngestBatch` is
proved equal to the protocol's steps done in order, and `IngestIsRun` shows that this is a run of the
protocol, so the theorems about runs hold of it.

**Derivation as a cache over raw events** (`Order`, `Hours`, `Queries`, `Derivation`, `Recompute`,
`HourMeaning`, `Maintenance`, `Gaps`, `Timeline`, `Daily`, `DayMeaning`, `Pipeline`). Windows are selected by text and cut to 200 000 rows,
hours are found by instant, and stored hours are read back by text again. The specification is a function
from the events of an hour to its rows; the methods of `Pipeline` (with `find_gaps` in `Gaps`) fill
dictionaries and upsert tables in loops and are proved equal to it. `HourMeaning` and `DayMeaning` say what that
specification comes to without naming it: every stored number is counted off the events, by literal type, source
and payload field.

**Two smaller machines and paging** (`Pagination`, `RateLimiter`, `Tokens`).

`Seqs`, `Wrappers` and `Types` hold list comprehensions, `Option` and the entities.

## What the proofs found

- Text windows misplace fractional timestamps. Against a whole-second bound, a fraction in the bound's own
  second sorts before the bound: it drops out of a window that starts there and slips into one that ends
  there. Adjacent recomputations compose exactly when the joint hour has no such event (`AdjacentWindows`).
- A daily row always covers the 24 hours from the window's start (`features.py:312`), whatever the window. On a
  day of 23 or 25 hours the daily values therefore need not fit the summary and the gaps of the same answer;
  `AlignedAccounts`, `DailyCoverage`, `DailyFlags` and `DailyTotal` say when they do.
- `iso_utc` of a time under a millisecond past a second prints `.000Z`, and printing that again prints `Z`
  (`IsoIdempotentText`); the pattern's `$` lets a trailing line feed through, and the model keeps that.
- `README.md:25` of the repository calls a replay a no-op, and `docs/data-model.md:59` says it reports every
  event `duplicate`. For events accepted before this is proved (`RetryIsDuplicate`), but a replay does not
  repair a heartbeat whose projection was lost, be it to a crash (`CrashLosesHeartbeat`, `LostForever`) or to a
  queue depth that cannot be read, which makes the call raise after its commit (`CallRaises`, `PayloadsDecide`,
  `UnreadableLosesHeartbeat`). And it rewrites the recorded verdicts: the acknowledgement rebuilt afterwards
  keeps the ids, the counts and the time (`VerbatimReplays`), but is the one issued exactly when the first call
  stored nothing and every event was judged alike both times (`ReplayKeepsAcknowledgement`).
- The stored counts of the batch table add up to the number of stored verdicts, which with retention off is the
  number of raw events, exactly when every ingest that stored something also recorded a new batch
  (`LedgerBalances`).
- A walk through the pages of a window misses an event that is there throughout only when rows before it are
  removed while it goes on (`MissedByFalling`, `RemovalsSkip`), as retention can do (`DeletionSkips`).
- A window that starts inside an hour writes a row for the clipped hour and then does not read it back: the
  block shows coverage zero and "missing" whatever was counted. Whole days in a zone with a partial-hour
  offset always start like that (`PartialHourZones`), and the maintenance loop overwrites a complete hour with
  a clipped one (`MaintenanceBreaks`; the exact condition is `FullAfterWindow`).
- A coverage proportion is rounded, and 1.0 is reported when at most one expected source in 20 000 is absent
  (`CoverageRange`). Below 20 000 distinct names in one heartbeat, which the default limit of 64 KiB an event
  (`config.py:49`) keeps out, 1.0 does mean that none is.
- `compute_daily_features` adds the `partial` flag when an hour has no value; for recomputed hours that never
  changes the flags, as such an hour carries it already (`DailyFlags`).
- A rotation ends with the new token exactly when nothing revokes that token between its commits
  (`RotateLeavesOne`); another rotation of the device in between does (`OverlappingRotationsLockOut`). The shipped
  server runs one process and awaits nothing between the commits (`main.py:346-350`), so this takes two processes
  on one database. A single rotation locks nobody out, wherever it dies (`RotateCrashSafe`).

## Definitions

The specification functions the results speak about, and the code each follows (paths under
`android_timeline/app/`):

- `Text.Less`: SQLite's comparison of texts. `Timestamps.Matches`, `Scan`, `Render`: `models.py:32`.
  `Timestamps.IsoUtc`: `models.py:57-63`. `Timestamps.Accepted`, `Instant`, `ParseIsoUtc`: `models.py:66-73`.
- `Ingestion.Validate`, `Place`, `Partition`: `ingestion.py:49-102`. `StoreRaw`: `database.py:333-360`.
  `RecordBatch`, `RecordAcks`, `Touch`, `Expire`: `database.py:425-465`, `296-301`, `685-694`. `Entries`:
  `ingestion.py:151-156`.
- `Protocol.Advance` with `StoreStep`, `BeatStep`, `BatchStep`, and `Protocol.Next`: `ingestion.py:72-184`, one
  transaction a step.
- `Acknowledgements.BuildAcknowledgement`, `StoredAcknowledgement`: `acknowledgements.py:27-101`.
- `Queries.EventsInWindow`, `HourOf`: `database.py:378-398`, `models.py:76-77`. `Recompute.Visible`: the filter of
  `database.py:608-681`.
- `Derivation.ExpectedSources`, `CoverageOf`: `coverage.py:35-99`. `FeatureValue`, `FeatureOf`, `Mean`,
  `SampleMinutes`: `features.py:131-245`. `RoundHalfEven`: Python's `round`.
- `Recompute.CoverageAfter`, `RecomputeWindow`: `coverage.py:50-102`, `features.py:248-290`. `Daily.DailyOf`,
  `DailyAfter`, `HourlyForDay`: `features.py:297-355`. `Timeline.BlockOf`, `SummaryOf`: `timeline.py:84-119`,
  `coverage.py:158-180`. `Timeline.YesterdayStart`: `timeline.py:37-51`.
- `Pagination.QueryEvents`: `mcp_tools.py:89-113`, `198-239`. `Tokens.Apply`, `Rotation`: `auth.py:81-139`.

## Model

| member | source | states |
|---|---|---|
| Text.LessTransitive | android_timeline/app/database.py:388-397 | Text comparison is transitive. |
| Text.LessTotal | android_timeline/app/database.py:388-397 | Any two texts are equal or ordered one way. |
| Calendar.CivilOf | android_timeline/app/models.py:66-73 | Every day number from year 1 on is the number of exactly the valid civil date returned. |
| Calendar.CivilOfDayNumber | android_timeline/app/models.py:66-73 | Going from a valid date to its day number and back gives the date, leap years included. |
| Calendar.DayNumberOrder | android_timeline/app/models.py:66-73 | Day numbers order valid dates as year, month and day do, and tell them apart. |
| Calendar.YearLength | android_timeline/app/models.py:66-73 | A year has 365 days, 366 exactly when it is a leap year (RFC 3339 appendix C). |
| Calendar.RealDates | android_timeline/app/models.py:66-73 | The dates there are, by the length of each month and the leap rule. |
| Calendar.KnownDays | android_timeline/app/models.py:66-73 | The first day of 1970 and a leap day have their own day numbers, which fixes the count. |
| Timestamps.ScanRender | android_timeline/app/models.py:32 | Every stamp that can be printed matches the wire pattern and scans back to itself. |
| Timestamps.RenderScan | android_timeline/app/models.py:32 | Every text that matches the wire pattern is the print of what it scans to: the pattern admits nothing else. |
| Timestamps.YearBounds | android_timeline/app/models.py:66-73 | The instant of an accepted text lies between the start of its year and the start of the next. |
| Timestamps.FracBelowSecond | android_timeline/app/models.py:32 | The fraction of an accepted text is below one second. |
| TimeOrder.InstantParts | android_timeline/app/models.py:66-73 | So its whole second is the quotient of its instant, and it is the print of what it scans to. |
| Timestamps.StampOf | android_timeline/app/models.py:57-63 | The fields an instant is printed with are a real date and time in its whole second, with no fraction or three digits. |
| Timestamps.Sample | android_timeline/app/models.py:32-73 | One timestamp with a fraction, spelled out, is accepted and names its instant. |
| TimeOrder.TextOrder | android_timeline/app/database.py:388-397 | The text order of any two accepted timestamps, completely: whole seconds first, then fractions, where a proper extension sorts before its prefix and a trailing line feed sorts last. |
| TimeOrder.EqualPrecisionOrder | android_timeline/app/models.py:32 | RFC 3339 section 5.1: text order is time order when the whole seconds differ or both fractions have as many digits. |
| TimeOrder.DisagreementSet | android_timeline/app/database.py:388-397 | Text less and earlier agree on any two timestamps if and only if they are not misordered: in one second, the first fraction extending the second, or the second extending the first and being later, or a line feed alone telling them apart. |
| TimeOrder.HeadFields | android_timeline/app/models.py:32 | The text order of the whole-second parts is the order of their fields. |
| TimeOrder.FieldsSeconds | android_timeline/app/models.py:66-73 | The order of the fields is the order of the whole seconds since year 1. |
| TimeOrder.FracOrder | android_timeline/app/models.py:32 | Fractions of which neither extends the other are ordered by text as by value. |
| TimeOrder.PrefixOrder | android_timeline/app/models.py:32 | A longer fraction sorts before its own prefix although it is not earlier. |
| TimeOrder.IsoAccepted | android_timeline/app/models.py:57-63 | What `iso_utc` prints fits the wire pattern, names a real time, and carries the milliseconds. |
| TimeOrder.IsoRoundTrip | android_timeline/app/models.py:57-73 | Parsing what `iso_utc` printed gives the instant floored to the millisecond. |
| TimeOrder.IsoIdempotentInstant | android_timeline/app/models.py:57-73 | Printing and parsing a second time changes no instant. |
| TimeOrder.IsoIdempotentText | android_timeline/app/models.py:57-63 | It changes no text if and only if the part below the second is nothing or at least a millisecond. |
| TimeOrder.WholeSecondBound | android_timeline/app/database.py:388-397 | Against a whole-second bound, a text counts as earlier if and only if its instant is or it carries a fraction in the bound's second. |
| TimeOrder.WholeSecondWindow | android_timeline/app/database.py:388-397 | A text window with whole-second bounds holds exactly the half-open window of instants, without the fractions of its first second and with those of the second it ends at. |
| TimeOrder.BoundOutsideSecond | android_timeline/app/database.py:388-397 | Any printed bound decides rightly on texts outside its own second. |
| Retention.RetentionExact | android_timeline/app/database.py:685-694 | A retention pass keeps a row, unchanged, exactly when its event is not older than the cutoff in milliseconds, if and only if its text and the cutoff are not misordered. |
| Retention.RetentionOutsideSecond | android_timeline/app/database.py:689-692 | Outside the cutoff's own second a pass deletes exactly the older events. |
| Retention.RetentionTwice | android_timeline/app/database.py:685-694 | Two passes, in either order, delete what the later cutoff deletes. |
| Retention.RetentionStep | android_timeline/app/database.py:685-694 | Retention does nothing unless it is enabled with at least one day to keep; then exactly the rows with a time text before the cutoff go, and nothing else changes. |
| TimeOrder.HourKeyOrder | android_timeline/app/database.py:668-673 | Hour labels compare with any printed bound as whole seconds do. |
| TimeOrder.HourKeyInjective | android_timeline/app/coverage.py:75-76 | An hour label is the label of one hour only, so labels are usable as keys. |
| Ingestion.AcceptableLater | android_timeline/app/ingestion.py:49-69 | Waiting never turns an acceptable event into a rejected one. |
| Ingestion.AcceptableTime | android_timeline/app/ingestion.py:55-69 | An acceptable event names a real instant in the years 2000 to 9999. |
| Ingestion.VerdictExact | android_timeline/app/ingestion.py:49-69 | An event passes if and only if it is small enough, its time is a real timestamp from the year 2000 on and not further ahead of the clock than the skew allows; each of the four reasons is given exactly when its rule is broken and none before it is. |
| Ingestion.PlaceKeepsParts | android_timeline/app/ingestion.py:80-102 | Placing one event keeps the three lists a partition of the events so far, with first copies only in the store list. |
| Ingestion.PartitionConserves | android_timeline/app/ingestion.py:76-102 | The ids rejected, to be stored and repeated are together the ids of the request, each as often as it occurs there. |
| Ingestion.InsertOrIgnoreRows | android_timeline/app/database.py:348-358 | `INSERT OR IGNORE` keeps old rows and gives each new id the first event carrying it. |
| Ingestion.StoreSplits | android_timeline/app/database.py:319-363 | One `store_events` call splits its ids into new and known, keeps old rows, and adds exactly one row for each new id. |
| Deliveries.PartitionExact | android_timeline/app/ingestion.py:80-102 | What is to be stored is exactly the first acceptable copy of each id, each judged at its own clock reading; what is rejected is exactly the unacceptable rest with its reason. |
| Deliveries.ReasonExact | android_timeline/app/ingestion.py:80-93 | For each event of a request, at its own clock reading: kept if and only if it is the batch device's and meets the rules; each of the five reasons exactly when its rule is the first one broken. |
| Deliveries.RequestExact | android_timeline/app/ingestion.py:80-102 | For a whole request: to be stored are exactly the first kept copies of each id, and the rejected ids are exactly those of events that break a rule. |
| Protocol.NextKeepsJobs | android_timeline/app/ingestion.py:72-184 | Every action keeps the bookkeeping of every in-flight ingest: one place for each validated event, flags that match the transactions committed. |
| Protocol.AdvanceKeepsOk | android_timeline/app/ingestion.py:72-184 | The same for one step of one ingest. |
| Protocol.RunAppend | android_timeline/app/ingestion.py:72-184 | Running two lists of actions one after the other is running their concatenation. |
| Protocol.StoreVerdicts | android_timeline/app/ingestion.py:123-126 | After the storing step the verdicts stored and duplicate are together the ids to store and the repeats. |
| ExactlyOnce.RunExtends | android_timeline/app/database.py:319-363 | With retention off no run changes or removes a raw row. |
| ExactlyOnce.StoreEffect | android_timeline/app/database.py:333-360 | A storing step adds rows for exactly the ids it reports as stored, none of which was there, and holds all it accepts. |
| ExactlyOnce.RunSound | android_timeline/app/ingestion.py:72-184 | In every reachable state the table holds what every ingest was told, no id is stored by two ingests, and every row has one that stored it. |
| LastSeen.LastSeenIsAnswer | android_timeline/app/database.py:296-301 | In every run, retention on or off, a device's stamp is as at the start until its first answered request, and from then on no later than now and no earlier than the receipt of any answered request; no other device is stamped or added. |
| ExactlyOnce.StoredExactlyOnce | android_timeline/app/ingestion.py:123-126 | In every run each raw id was reported stored exactly once, by one ingest, and nothing else was. |
| ExactlyOnce.AcceptedStaysHeld | android_timeline/app/acknowledgements.py:38-43 | Whatever an ingest accepts, stored or duplicate, is in the table and keeps its row in every later state. |
| ExactlyOnce.StoredRow | android_timeline/app/ingestion.py:104-121 | The row of a stored id is the delivered event, with the batch id and the time of receipt of the ingest that stored it. |
| ExactlyOnce.RawRowsValid | android_timeline/app/ingestion.py:49-126 | In every run, retention on or off, each raw row is filed under its own id, was written by an ingest that had the event in its store list, and names an instant in the years 2000 to 9999. |
| ExactlyOnce.VerdictsConserved | android_timeline/app/ingestion.py:136-166 | In every run, retention on or off, a committed ingest's stored, duplicate and rejected ids are together the ids of its request as a multiset; the three counts add up to the number received; stored ids are distinct. |
| ExactlyOnce.RetryIsAccepted | android_timeline/app/ingestion.py:49-102 | In every run, retention on or off, an event in some ingest's store list is not rejected by any ingest for its device started later, and is stored or duplicate there once the events are committed. |
| ExactlyOnce.RetryIsDuplicate | android_timeline/app/ingestion.py:49-102 | With retention off an event accepted once is, in every ingest for its device started later, not stored again but reported duplicate. |
| ExactlyOnce.LateJobsStoreNothingOld | android_timeline/app/database.py:333-360 | An ingest that starts after an id is in the table never reports it as stored. |
| Confluence.RunIsReplay | android_timeline/app/database.py:319-363 | In every run the raw table is what its committed deliveries build one after the other, however ingests interleaved or died. |
| Confluence.ReplayKeepsFirst | android_timeline/app/database.py:346-360 | That table holds exactly the ids offered, each with the first event offered under it. |
| Confluence.OfferedEvents | android_timeline/app/ingestion.py:120-123 | In every run, retention on or off, an event was offered exactly when some ingest had it in its store list and reached its commit. |
| Confluence.DeliveryConfluence | android_timeline/app/ingestion.py:80-126 | Where an id determines the event, two servers with any runs hold the same events if and only if the same ids were offered to both. |
| Deliveries.RunKeepsReadings | android_timeline/app/ingestion.py:74-102 | In every run each ingest's lists are the partition of what it validated, at clock readings in order, from its receipt to now. |
| Deliveries.KeysAreDeliveries | android_timeline/app/ingestion.py:80-126 | With retention off the raw table has an id if and only if some committed request carried it acceptable at the time it was validated. |
| Deliveries.RowsAreDelivered | android_timeline/app/ingestion.py:104-126 | In every run, retention on or off, each raw row is an event that some committed request carried, acceptable when validated. |
| Deliveries.FirstDeliveryWins | android_timeline/app/database.py:346-360 | Every raw row is the first acceptable copy in the request whose commit is the earliest to carry its id, filed under that request's batch and time of receipt. |
| Deliveries.AcceptableConfluence | android_timeline/app/ingestion.py:80-126 | Where an id determines the event, two servers hold the same events if and only if the same ids were delivered acceptable to both, whatever the batches, repetitions, orders, crashes and clocks. |
| Projection.HeartbeatProjection | android_timeline/app/ingestion.py:128-134 | Every heartbeat row has the device, time, queue depth and collectors of a raw event of source heartbeat; all such raw events have a row if and only if every ingest passed the ones it stored. |
| Projection.QuiescentProjection | android_timeline/app/ingestion.py:128-134 | When every ingest has replied, the heartbeat table has exactly the ids of the raw heartbeats. |
| Projection.PayloadsDecide | android_timeline/app/database.py:483-504 | In a run without crashes, once every request is over, every raw heartbeat has its row if and only if no raw heartbeat has an unreadable queue depth. |
| Projection.LostForever | android_timeline/app/database.py:483-504 | A heartbeat stored by an ingest that died before projecting it has a raw row and no heartbeat row in every later state. |
| Projection.CrashLosesHeartbeat | android_timeline/app/ingestion.py:123-134 | For every acceptable heartbeat there is a run that ends like that. |
| Projection.UnreadableLosesHeartbeat | android_timeline/app/database.py:484-500 | For every acceptable heartbeat with an unreadable queue depth there is a run without a crash after which it has a raw row and never a heartbeat row. |
| Projection.RunKeepsBeats | android_timeline/app/database.py:483-504 | Every run keeps: heartbeat rows come from raw heartbeats, and of the heartbeats an ingest stored exactly those its loop passed are projected. |
| Ledger.BatchRowsKept | android_timeline/app/database.py:425-453 | In every run, retention on or off, each batch row keeps the device, time and counts of the ingest that first recorded it, its replay count is the number of later arrivals, and a batch has no row exactly when none arrived. |
| Ledger.LedgerBalances | android_timeline/app/ingestion.py:136-149 | The stored counts over all batches never exceed the number of stored verdicts, and equal it if and only if every ingest that stored something recorded a new batch; the raw table has that many rows, or fewer where retention deletes. |
| Ledger.RunKeepsLedger | android_timeline/app/database.py:425-453 | Every run, retention on or off, keeps the batch rows and the sum of their stored counts. |
| Acknowledgements.AckRows | android_timeline/app/acknowledgements.py:70-74 | The rows of a batch are exactly those recorded under it, each once, in the order of ids. |
| Acknowledgements.LastEntryWins | android_timeline/app/database.py:455-465 | Recording a list gives each named id its last entry and leaves all other rows alone. |
| Acknowledgements.LogNames | android_timeline/app/database.py:455-465 | A batch has a row for an id if and only if some recording under that batch named it. |
| Acknowledgements.LogStatus | android_timeline/app/ingestion.py:151-156 | When all recordings under a batch are the same, each row is the last entry in stored, duplicate, rejected order. |
| Acknowledgements.RecordedStatus | android_timeline/app/ingestion.py:151-156 | Of several verdicts for one id the last rejection is recorded, else duplicate, else stored. |
| Acknowledgements.RebuiltExact | android_timeline/app/acknowledgements.py:60-101 | Nothing is rebuilt without a batch row; otherwise its time and counts, and exactly the recorded verdicts of the batch, accepted and rejected apart, each in the order of ids. |
| Acknowledgements.RebuiltNames | android_timeline/app/acknowledgements.py:60-101 | In every run, retention on or off, a batch's rows name an id if and only if some ingest under that batch id recorded its verdicts and had the id in its request. |
| Acknowledgements.RebuiltIsIssued | android_timeline/app/acknowledgements.py:60-101 | In every run, for a new batch id with distinct event ids and no other recording under it, the rebuilt acknowledgement is the issued one up to order. |
| Acknowledgements.VerbatimReplays | android_timeline/app/acknowledgements.py:60-101 | In every run, after any number of verbatim replays the rebuilt acknowledgement names exactly the ids of the request, with the first ingest's counts and time. |
| Acknowledgements.EntriesDistinct | android_timeline/app/ingestion.py:151-156 | Distinct request ids make the recorded entries one for each id. |
| Database.EventStore.constructor | android_timeline/app/database.py:200-214 | A new store has empty tables and the enrolled devices. |
| Database.EventStore.StoreEvents | android_timeline/app/database.py:319-363 | The scan in chunks of 500 and the insert give the table, the stored list and the duplicate list of plain membership. |
| Database.EventStore.RecordHeartbeat | android_timeline/app/database.py:483-504 | Inserts or replaces the row of the event, or fails and leaves the table alone when the queue depth cannot be read. |
| Database.EventStore.RecordBatchRow | android_timeline/app/database.py:425-453 | Writes the row of a new batch id; a known one only has its replay count raised. |
| Database.EventStore.RecordAcknowledgements | android_timeline/app/database.py:455-465 | The whole new acknowledgement table, entry by entry. |
| Database.EventStore.TouchDevice | android_timeline/app/database.py:296-301 | Stamps an enrolled device and no other. |
| Database.EventStore.IngestBatch | android_timeline/app/ingestion.py:72-184 | All five tables and the answer after an uninterrupted call are those of the protocol's steps done in order, or of the steps up to the exception. |
| Database.ExistingIsMembership | android_timeline/app/database.py:334-360 | Filtering by the scanned ids is filtering by membership in the table. |
| Refinement.IngestIsRun | android_timeline/app/ingestion.py:72-184 | From any state a call of `ingest_batch` left alone ends in the tables and verdicts of a run of the protocol. |
| Refinement.ValidateAll | android_timeline/app/ingestion.py:80-102 | The validation loop is that many steps of one job, at clock readings in order. |
| Refinement.Finish | android_timeline/app/ingestion.py:136-157 | The last three transactions are three steps of the job. |
| Refinement.BeatLoopRaises | android_timeline/app/ingestion.py:131-134 | The heartbeat loop raises if and only if a heartbeat it has not passed was stored by this ingest and has an unreadable queue depth. |
| Refinement.CallRaises | android_timeline/app/ingestion.py:72-134 | A call raises after its commit if and only if the request holds, among its first acceptable copies, a heartbeat not in the table whose queue depth is unreadable; otherwise it replies. |
| Refinement.CallStores | android_timeline/app/ingestion.py:80-123 | After a call, raised or not, the raw table has its old rows unchanged, and a new row for exactly each id kept and not there before: its first kept event, with the batch id and the time of receipt. |
| Replays.CallAnswers | android_timeline/app/ingestion.py:123-184 | The answer: stored are exactly the kept ids not in the table, accepted exactly the kept ids, rejected exactly the others, as many verdicts as events; the acknowledgement lists stored then duplicate, and counts them; it is a replay exactly when the batch was known. |
| Replays.CallRecords | android_timeline/app/ingestion.py:136-157 | The batch row of a new batch with all its columns, or the replay count of a known one raised by one; the stamp of the device; nothing else in these tables. |
| Replays.CallStatuses | android_timeline/app/ingestion.py:151-156 | The recorded status of each id of the request, by its verdicts; no other row changes. |
| Replays.CallHeartbeats | android_timeline/app/ingestion.py:131-134 | A heartbeat row with the event's columns for exactly each heartbeat the call stored; no other row changes. |
| Refinement.ReplayRewritesVerdict | android_timeline/app/ingestion.py:151-156 | Sending a batch of one event again turns its recorded `stored` verdict into `duplicate` while its counts stay. |
| Refinement.OneEventBatch | android_timeline/app/ingestion.py:72-184 | The tables and verdicts after a request with one acceptable event. |
| Replays.ReplayKeepsAcknowledgement | android_timeline/app/acknowledgements.py:60-101 | For distinct ids under a new batch id, sent twice unchanged with nothing else under that id between: the acknowledgement rebuilt after the second call is the one issued at first, up to order, if and only if the first call stored nothing and every event was judged alike both times. |
| Replays.RebuiltAfterReplay | android_timeline/app/acknowledgements.py:60-101 | What is rebuilt then has the first call's counts and time and the second call's verdicts. |
| Order.Enumerate | android_timeline/app/database.py:394-398 | The listing `ORDER BY event_time_utc, event_id` is sorted and has exactly the keys of the selection. |
| Order.SortedUnique | android_timeline/app/database.py:394-398 | There is only one such listing. |
| Order.FilterEnumerate | android_timeline/app/database.py:394-398 | Filtering a listing is listing the filtered selection. |
| Order.PositionIsRank | android_timeline/app/database.py:394-398 | The position of an event is the number of events before it. |
| Order.PositionGrows | android_timeline/app/database.py:394-398 | Adding events never moves an event to an earlier position. |
| Hours.Ascend | android_timeline/app/database.py:668-673 | The hours read back are in increasing order, each once. |
| Queries.Page | android_timeline/app/database.py:394-398 | A page is the `limit` rows from `offset` on, or as many as there are, in their order. |
| Queries.SelectionExact | android_timeline/app/database.py:388-398 | The selection holds exactly the rows of the device between the printed bounds, of a listed source if any is listed, in the order of time text and id. |
| Queries.EventsExact | android_timeline/app/database.py:388-398 | A query answers only such rows, as many as there are from the offset on up to the limit, and all of them when they fit. |
| Queries.WindowExact | android_timeline/app/coverage.py:61 | Every derivation reads all rows of the device between the printed bounds, of any source, up to 200 000. |
| Queries.BucketIsClipped | android_timeline/app/coverage.py:61-72 | Grouping the rows of a window by hour gives each hour exactly its events that the text window lets through, in order. |
| Queries.AlignedHours | android_timeline/app/database.py:388-397 | A window of whole hours reads each hour in full, the first one if and only if it has no fractional event in its first second. |
| Queries.InnerHours | android_timeline/app/database.py:388-397 | Any window reads in full the hours that begin after its start and are over by its end. |
| Queries.KeptByAligned | android_timeline/app/database.py:388-397 | Such a window drops an event of its hours exactly when it is a fraction of the first second of the first hour. |
| Queries.HourAfterStart | android_timeline/app/database.py:388-397 | Every event of an hour that begins after the start is at or after the start as text. |
| Queries.HourBeforeEnd | android_timeline/app/database.py:388-397 | Every event of an hour that is over by the end is before the end as text. |
| Derivation.CoverageRange | android_timeline/app/coverage.py:77-95 | A coverage proportion is between 0 and 1, and is 1 if and only if at most one expected source in 20 000 is absent. |
| Derivation.FeatureRanges | android_timeline/app/features.py:200-215 | Minutes stay within the hour, the location proportion within 0 and 1, and the missing flag is set exactly when the total is zero. |
| HourMeaning.RecomputedHour | android_timeline/app/features.py:248-290 | After recomputing any window, each of its hours has the coverage row counted off its events and the sources the latest heartbeat expects, and ten feature rows counted off its events by type and payload field. |
| HourMeaning.CoverageExact | android_timeline/app/coverage.py:74-99 | Events, heartbeats by source, expected sources each as often as listed, observed ones exactly the expected that occur, missing exactly without events, and the proportion rounded to the nearest ten-thousandth. |
| HourMeaning.LatestExact | android_timeline/app/database.py:506-511 | The heartbeat used is one of the device that no other of its heartbeats is later than, by text, the greatest id of several at one time; none exactly when the device has none. |
| HourMeaning.ExpectedExact | android_timeline/app/coverage.py:35-47 | Expected are that heartbeat's collectors, or battery and wifi when it lists none or there is none. |
| HourMeaning.CountsExact | android_timeline/app/features.py:229-243 | Calls, messages, the heartbeat flag, the total with its counts by source, and the missing flag, each counted off the events of its own literal type. |
| HourMeaning.SharesExact | android_timeline/app/features.py:200-215 | Charging and connected minutes are 60 times the share of samples with that payload field, to the nearest hundredth, and the location share to the nearest ten-thousandth; 0 without samples. |
| HourMeaning.MeansExact | android_timeline/app/features.py:187-227 | The two means are the sum over the number of the percentages and magnitudes reported, with their flags; absent without one. |
| HourMeaning.RoundExact | android_timeline/app/coverage.py:95 | Rounding gives the nearest integer, the even one of two. |
| HourMeaning.RoundedExact | android_timeline/app/features.py:181 | Rounded to four or two places: a whole number of parts, the nearest one. |
| Derivation.FeatureMeans | android_timeline/app/features.py:187-227 | The two means lie between any bounds of the numbers reported, and are absent, and flagged partial, exactly when none is. |
| Derivation.FeatureCounts | android_timeline/app/features.py:229-243 | Calls, messages and heartbeats are counted apart within the total, and the heartbeat coverage is 1 exactly when there is a heartbeat. |
| Derivation.BySourceTotal | android_timeline/app/features.py:155-159 | The counts by source add up to the number of events. |
| Derivation.RoundMonotone | android_timeline/app/coverage.py:95 | Rounding never turns an order around. |
| Derivation.RoundsToOne | android_timeline/app/coverage.py:95 | A proportion rounds to 1 at four places exactly from 9999.5 ten-thousandths on. |
| Recompute.HoursOf | android_timeline/app/models.py:80-87 | `hour_range` has the hours from the floor of the start that begin before the end. |
| Recompute.VisibleHours | android_timeline/app/database.py:608-673 | A stored hour is read back if and only if its second is not before the start's and is before the end's. |
| Recompute.AlignedRecompute | android_timeline/app/features.py:248-290 | Recomputing whole hours writes, for each, the rows specified by its events, the first hour without the fractions of its first second, and nothing else. |
| Recompute.AdjacentWindows | android_timeline/app/features.py:248-290 | Recomputing two adjacent windows of whole hours leaves the tables of one recomputation over both if and only if the joint hour has no fractional event in its first second. |
| Recompute.RecomputeAllIsSpec | android_timeline/app/coverage.py:50-102 | Any list of recomputations of whole hours, none starting at such an hour, leaves the full-hour rows for the hours covered and every other row alone. |
| Recompute.SameHoursSameTables | android_timeline/app/features.py:248-290 | So any two such lists that cover the same hours, in any order and any number of times, leave the same tables. |
| Maintenance.AnyWindow | android_timeline/app/features.py:256-282 | Recomputing any window changes only rows of its hours, and gives each the rows of its clipped events, with coverage 0 when the hour is not read back. |
| Maintenance.FullAfterWindow | android_timeline/app/features.py:256-282 | After it an hour has its full-hour rows if and only if no event of it was cut off and it is read back or its coverage is 0 anyway. |
| Maintenance.InnerHoursFull | android_timeline/app/models.py:80-87 | Hours strictly inside any window come out full. |
| Maintenance.MaintenanceBreaks | android_timeline/app/main.py:493-496 | For every hour with one event at its start there is a stored full hour that the maintenance loop's window, starting later in the hour, overwrites with an empty one. |
| Gaps.FindGaps | android_timeline/app/coverage.py:105-155 | The loop with its open run reports the gaps of all runs that are at least `min_hours` long: raising `min_hours` filters the result for 1. |
| Gaps.GapsAreMaximalRuns | android_timeline/app/coverage.py:105-155 | A gap is reported if and only if it is a maximal run of missing rows of at least `min_hours`, from the first row's hour to the end of the last row's. |
| Gaps.GapsApart | android_timeline/app/coverage.py:127-155 | Gaps are ordered, disjoint and not adjacent. |
| Gaps.GapHours | android_timeline/app/coverage.py:128-140 | On complete rows a gap counts the hours from its start to its end; with rows absent it may count fewer, never more. |
| Gaps.GapsAccount | android_timeline/app/coverage.py:158-178 | The gaps' hours add up to the missing hours, and there is no gap exactly when none is missing. |
| Timeline.BlockAgreement | android_timeline/app/timeline.py:66-119 | Just after any recomputation an hour block that is read back agrees in raw count, coverage count, total, missing flag and sources, and has its hour's quality flags; one that is not shows no features, no sources, coverage 0 and missing. |
| DayMeaning.BlockExact | android_timeline/app/timeline.py:100-119 | A block counts the raw events of its hour by source, and shows exactly the stored rows of that hour where they are read back. |
| DayMeaning.SummaryExact | android_timeline/app/coverage.py:158-180 | The summary counts the hours read, those missing and those not, averages their proportions to the nearest ten-thousandth, and names the expected sources. |
| Timeline.TimelineAgreement | android_timeline/app/timeline.py:101-119 | Over a whole timeline, missing means nothing counted for every block if and only if no hour that is not read back has an event in the window. |
| Timeline.AlignedTimelineAgrees | android_timeline/app/timeline.py:54-119 | For windows of whole hours every block agrees. |
| Timeline.AlignedHoursRead | android_timeline/app/database.py:668-681 | After such a recomputation exactly the hours of the window are read back, in order. |
| Timeline.YesterdayBounds | android_timeline/app/timeline.py:37-51 | In a fixed-offset zone yesterday starts at a local midnight, is over by now, and today is not. |
| Timeline.WholeHourZones | android_timeline/app/timeline.py:37-51 | Yesterday starts on a whole UTC hour if and only if the offset is a whole number of hours. |
| Timeline.PartialHourZones | android_timeline/app/timeline.py:37-51 | In every other zone the first hour of the day is not read back. |
| Daily.AlignedAccounts | android_timeline/app/coverage.py:105-180 | After recomputing whole hours [a, c): gap hours and missing hours of the summary are one number, the rows are complete, and the data is complete exactly when there is no gap. The daily missing flag of the 24 hours from a is that number if and only if, for c beyond them, no hour after them is missing, and for c within them, the flags stored for the rest of the day add up to 0. |
| Daily.DailyCoverage | android_timeline/app/features.py:326-349 | Every daily row, whatever its feature, carries the rounded mean of the coverage of the recomputed hours of its 24 hours and of the rows stored for the rest; without such rows that is the proportion `coverage_summary` reports for those hours. |
| Daily.DailyFlags | android_timeline/app/features.py:332-336 | A day has a quality flag if and only if a recomputed hour of it has it, or a row stored for the rest of the 24 hours has it or lacks a value where the flag is partial. |
| Daily.DailyTotal | android_timeline/app/features.py:297-329 | The daily total counts the events read for the hours of its 24 hours and what is stored for the rest; it equals the number of rows the window reads if and only if what is stored adds up to the later events read, of which there are none exactly when no later hour of the window has an event and none is a fraction of the second it ends at. |
| Daily.AlignedRows | android_timeline/app/database.py:608-626 | The hourly rows read back for a feature are those specified by the events of each hour, in order. |
| Daily.DayRows | android_timeline/app/features.py:312-320 | What the daily roll-up reads: the specified rows of the hours before c, then what is stored for the rest of the 24 hours, nothing when c is at or beyond their end. |
| Daily.ReadParts | android_timeline/app/database.py:608-626 | Reading two adjacent windows of whole hours is reading both at once. |
| Daily.AlignedDay | android_timeline/app/timeline.py:66-123 | For any window of whole hours, however long, one recomputation is all that building the timeline does to the hourly tables, the summary and the gaps find rows to read, and every block agrees. |
| DayMeaning.DailyRowExact | android_timeline/app/features.py:297-353 | A daily row averages four features over the hours with a value and adds up the other six, rounds the mean coverage, joins the flags, adds partial where a value is absent, and names its window. |
| DayMeaning.DayReads | android_timeline/app/database.py:608-626 | What it reads: the stored rows of the hours whose label the window lets through, in order. |
| DayMeaning.DailyTableExact | android_timeline/app/features.py:338-355 | The roll-up writes the ten rows of its device and date and leaves all others as they were. |
| DayMeaning.RollUpRecomputes | android_timeline/app/features.py:312-316 | It recomputes its window exactly when no hourly row of the device is read back, and then every hour of it has the rows its events call for. |
| DayMeaning.ReadRecomputes | android_timeline/app/coverage.py:118-120 | Summary and gaps recompute the coverage exactly when no coverage row of the device is read back. |
| Pipeline.HourRange | android_timeline/app/models.py:80-87 | The cursor loop lists the hours of the window in order. |
| Pipeline.GroupByHour | android_timeline/app/features.py:262-265 | The dictionary of lists has under each hour exactly its events, in order. |
| Pipeline.Observe | android_timeline/app/coverage.py:63-72 | The three dictionaries hold each hour's sources, events and heartbeats. |
| Pipeline.GroupByTypeAndSource | android_timeline/app/features.py:155-159 | The two dictionaries hold the events of each type, in order, and the count of each source. |
| Pipeline.HourFeatures | android_timeline/app/features.py:147-245 | The ten rows of an hour are those of the specification. |
| Pipeline.CoverageRows | android_timeline/app/coverage.py:74-99 | One row for each hour of the range and no other, each that of the specification. |
| Pipeline.FeatureRows | android_timeline/app/features.py:268-280 | The same for hourly features, with the proportion read back. |
| Pipeline.CountByHour | android_timeline/app/timeline.py:89-96 | The timeline's own grouping counts each hour's events by source. |
| Pipeline.Blocks | android_timeline/app/timeline.py:100-119 | One block for each hour, from the rows read back and the raw counts. |
| Pipeline.DailyFromEntries | android_timeline/app/features.py:326-353 | The loop over the hourly rows gives the daily row of the specification. |
| Pipeline.DailyRows | android_timeline/app/features.py:324-353 | One daily row for each definition. |
| Pipeline.DerivedStore.constructor | android_timeline/app/database.py:200-214 | A new store has no derived rows. |
| Pipeline.DerivedStore.ComputeCoverage | android_timeline/app/coverage.py:50-102 | The whole coverage table after the upsert, and the rows read back. |
| Pipeline.DerivedStore.ComputeHourlyFeatures | android_timeline/app/features.py:248-290 | Both hourly tables after the recomputation. |
| Pipeline.DerivedStore.ComputeDailyFeatures | android_timeline/app/features.py:304-355 | The daily table after the upsert; the hourly tables are recomputed only when nothing was read. |
| Pipeline.DerivedStore.GapsInWindow | android_timeline/app/coverage.py:105-155 | The gaps of the rows read, recomputed first only when there are none. |
| Pipeline.DerivedStore.CoverageSummary | android_timeline/app/coverage.py:158-180 | The summary of the rows read, recomputed first only when there are none. |
| Pipeline.DerivedStore.BuildDayTimeline | android_timeline/app/timeline.py:54-159 | All tables after building a day, and its blocks, daily rows, summary and gaps. |
| Pagination.PageIsSlice | android_timeline/app/mcp_tools.py:198-239 | A page is the slice of the ordered list at its offset, and says there is more exactly when the list goes on. |
| Pagination.RefusedExactly | android_timeline/app/mcp_tools.py:89-113 | Refused are, in this order, empty windows, windows of more than 31 days, limits below 1 or above 1000, and negative offsets, each with its own error; everything else is answered. |
| Pagination.PageShows | android_timeline/app/mcp_tools.py:215-239 | An answer shows an event exactly when the number of selected rows before it lies in the page. |
| Pagination.PageRows | android_timeline/app/database.py:394-398 | The rows that `events_in_window` answers for a page are the rows of the page's keys. |
| Pagination.StaticWalk | android_timeline/app/mcp_tools.py:198-239 | On a table that stands still, calls that follow each answer's `next_offset` give exactly the rows of the device between the printed bounds, of a listed source if any is listed, in the order of time text and id, each once, in max(1, ceil(n / limit)) pages. |
| Pagination.NothingSkipped | android_timeline/app/mcp_tools.py:215-239 | When rows are only added between calls, a complete walk shows every event present at its start. |
| Pagination.MissedByFalling | android_timeline/app/mcp_tools.py:215-239 | However the table changes, that is the only way to miss an event that is there throughout. |
| Pagination.RemovalsSkip | android_timeline/app/mcp_tools.py:215-239 | When rows are only removed between calls, a complete walk misses an event that is there throughout if and only if between two calls so many rows before it go that its position falls below the next offset. |
| Pagination.DeletionSkips | android_timeline/app/database.py:685-694 | Retention between two calls that deletes the event already shown makes the walk miss the next one, which is in the window before and after. |
| RateLimiter.Limiter.constructor | android_timeline/app/auth.py:190-201 | A new limiter has no history. |
| RateLimiter.Limiter.Check | android_timeline/app/auth.py:203-216 | A call is admitted if and only if fewer than `limit` earlier calls of its key, admitted or not, lie after now minus the window, counted one by one; no other key's list changes. |
| RateLimiter.BudgetHolds | android_timeline/app/auth.py:190-216 | Any interval of one window's length, open on the left, admits at most `limit` calls of a key. |
| RateLimiter.HistoryKept | android_timeline/app/auth.py:206-216 | One call keeps every key's list as good as its history for all later cutoffs. |
| RateLimiter.SameKey | android_timeline/app/auth.py:206-216 | Pruning and appending does so for the key called. |
| Tokens.RunKeepsTokens | android_timeline/app/auth.py:81-139 | No run forgets a token, changes its device or text, or takes a revocation back. |
| Tokens.RevokedForever | android_timeline/app/auth.py:119-128 | A revoked token is never active again, for any device. |
| Tokens.RotateLeavesOne | android_timeline/app/auth.py:103-117 | Among any other transactions: a completed rotation leaves the device its new token only if and only if no transaction between its insert and its last commit revokes that token, one by one, with all of the device, or by keeping another; otherwise it leaves none. |
| Tokens.RotateCrashSafe | android_timeline/app/auth.py:103-117 | Among any other transactions: a rotation that dies before its insert leaves every device the active tokens it would have without it; after it, the new token besides, unless a transaction revoked that. |
| Tokens.RotateSparesOthers | android_timeline/app/auth.py:103-117 | Among any other transactions a completed rotation leaves every other device the active tokens it would have without it. |
| Tokens.LastRotateCommit | android_timeline/app/auth.py:111-116 | A rotation's last commit leaves the device its own token, if active, and no other. |
| Tokens.ActiveUntilKilled | android_timeline/app/auth.py:103-139 | An issued token stays active under any transactions exactly until one that revokes it. |
| Tokens.IssuedTextVerifies | android_timeline/app/auth.py:81-187 | The text handed out is granted, with its own token's id and under whatever other transactions, if and only if the device was new or enabled, has not been disabled since, and nothing has revoked the token. |
| Tokens.EnrolledDevice | android_timeline/app/database.py:282-294 | Enrolling enables a new device, leaves a known one as it is set, and touches no other. |
| Tokens.DeviceSettings | android_timeline/app/database.py:282-317 | Once known, a device stays known, and only setting it changes whether it is enabled. |
| Tokens.OverlappingRotationsLockOut | android_timeline/app/auth.py:103-117 | A rotation of the same device whose last commit falls between those of this one leaves the device without an active token. |
| Tokens.OneTokenPerText | android_timeline/app/auth.py:81-101 | In every run at most one token has a given text. |
| Tokens.TokenManager.constructor | android_timeline/app/auth.py:59-62 | A new manager has no devices and no tokens. |
| Tokens.TokenManager.Enroll | android_timeline/app/auth.py:81-101 | A new device is enabled, a known one keeps its setting, one active token with the text handed out is added, and nothing else changes. |
| Tokens.TokenManager.Rotate | android_timeline/app/auth.py:103-117 | The store after the three commits of a rotation, with the new token as the only active one of its device. |
| Tokens.TokenManager.Revoke | android_timeline/app/auth.py:119-128 | Revokes one token and says whether it was active. |
| Tokens.TokenManager.RevokeAll | android_timeline/app/auth.py:130-139 | Revokes all tokens of a device and counts the active ones. |
| Tokens.TokenManager.Verify | android_timeline/app/auth.py:153-187 | Succeeds exactly for a text that starts with `atl_` and is that of an active token of an enabled device, and answers 403 only for a disabled device. |

## Left out

- FastAPI routing, headers, gzip, the MCP server, Home Assistant publishing, configuration and logging: plumbing around the modelled calls.
- Migrations, pragmas, indexes and SQL parsing: a table is a map, a `transaction()` block is one atomic step.
- Wire validation of ids, names, flags and versions, and JSON encoding: an event arrives as a value whose encoded size is a number.
- Payloads appear as what the code's accessors read from them; `enabled_collectors` is a list of strings, and a queue depth that raises on reading is an absent one.
- Columns that no modelled code reads are one opaque text (`rest`); the batch row's client time and versions, and the heartbeat row's receipt time, version and payload copy, are left out.
- Timestamps with digits outside ASCII, which the wire pattern admits and `fromisoformat` then refuses.
- Other shapes that `fromisoformat` reads when a tool is given its window bounds: windows are given as instants.
- `iso_utc` for years before 1000, where the padding of `%Y` depends on the platform; stored events are of the year 2000 or later.
- `computed_at_utc`, `source_event_types` and the table of feature definitions; one feature version.
- Floating point: values are reals, and `round` rounds half to even on them.
- Two heartbeats of one device with the same time text: SQLite leaves the choice open, the model takes the greatest id.
- Retention's cutoff is supplied with the action and not read from the clock. Results that name the raw table's contents are for retention switched off; those about verdicts, batches, acknowledgements and the validity of rows hold for every run.
- A clock that goes back, for ingestion and for the rate limiter.
- `Timeline.YesterdayBounds`: fixed offsets only, as time zone rules are library data; a zone whose offset changes has days of 23 or 25 hours, which the results on windows of any length cover.
- `build_day_timeline` with `recompute` or `include_raw_counts` switched off, and the provenance and label texts of its answer.
- Grouping the hourly rows of a day by feature name is part of reading them (`Daily.ReadFeature`).
- `export_phone_window`: its event pages are those of `query_phone_events`.
- `Pagination.QueryEvents`: answers the keys of the page's events, without the redacted payload copies; that the device exists and that its arguments are numbers is taken for granted.
- `Pagination.NothingSkipped`: says nothing about events added behind the walk's offset, which a later walk finds, nor about ones shown twice.
- HMAC, randomness and pepper files: the hash tells its inputs apart, and new token ids and texts are unused ones.
- `Tokens.TokenManager.Verify`: does not stamp `last_used_utc`, which nothing modelled reads; labels, display names and creation times are left out too.
- Device listings, status views, source listings and payload redaction: single reads that would only add easy members.
