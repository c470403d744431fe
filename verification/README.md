# Railwatch: a verified model of the monitoring pipeline

Railwatch samples a power supply once a second. A reading passes through an alarm state machine into a bounded
queue, then into durable tables for energy, tariffs, incidents and evidence, and finally into priced calendar
summaries; a separate user-session worker turns active incidents into desktop notifications. This project models
that pipeline in Dafny and proves what its users rely on. `dafny verify dfyconfig.toml` checks all of it.

The modules follow the program:

- `Telemetry`, `Protocol`, `Measurements`, `Pricing`: readings and their numeric ranges, framing, load imbalance, price text.
- `Energy`, `Ledger`: which pairs of samples are integrated, minute splitting, trapezoids, and every run of the ledger.
- `Tariffs`, `Summary`, `Reporting`: the dated rate table, grouping and pricing, and the way from samples to the report.
- `Alerts`, `AlertRuns`, `Timelines`: one step of the alarm engine (with the class `AlertEngine` that takes it in
  place), its runs, and the spacing of raises and recoveries.
- `Storage`, `Restart`, `History`: the tables, the storage thread's batch of separate transactions and its retries, and
  what a restart reads back; the class `Database` performs them in place.
- `Monitoring`, `Pipeline`, `Evidence`: one cycle of the monitor thread (class `MonitorThread`), the two threads and the
  tables as one state machine, and what the evidence windows emit.
- `OpenRows`, `Agreement`, `Tangles`, `Identities`: open incident rows against active incidents over every interleaving
  and restart, the runs that break it, and identifiers.
- `Notifier`, `Reminders`: the notification worker (class `Worker`), its delivery limits, and when it must deliver.
- `Wrappers`, `Totals`, `Subsequences`: helpers.

Each class method that changes state is proved equal to a function of the old state; the theorems are about those
functions and about all runs of them. Wall-clock and monotonic times, the outcome of each delivery and of each
transaction, the fullness of the queue, and the calendar key of a minute are inputs. A restart keeps the tables, loses
everything in memory, and restores incidents from the table. Identifiers are natural numbers handed out in order; they
stand for fresh UUIDs.

## What turned out otherwise

The code is modelled as it is. Each promise below does not hold of it as worded; the members named give an input or a
run that breaks it and the exact condition under which it holds.

- *At most one open incident row per kind* is not kept. Updates that pile up behind a full queue can put raise,
  recovery and raise of one kind into one batch; an attempt that writes the second raise and fails is followed by an
  attempt that reopens the first. `Tangles.TwoOpenRowsAreReachable` is such a run, from a fresh start, of readings,
  failed readings and reopenings that the daemon can take, with nothing dropped.
  `Agreement.RetriesKeepOneOpenRowIff` is the exact condition on a batch: no kind is raised twice among the updates that
  a failing attempt can write.
- *Whenever nothing is on its way, the open rows are the active incidents* survives such batches, but not a restart in
  the middle of one: the engine restores one row of a kind and the other stays open. Over runs that drop no update it
  holds at every quiet moment exactly when every restart finds one open row per kind
  (`Agreement.AgreementIffCleanRestarts`; `Tangles.DisagreementIsReachable` is a run where it fails). The row left behind
  stays open until the next restart, whatever happens (`Identities.UncleanRestartOrphans`,
  `Identities.OrphanStaysOpen`).
- *A 60-second ring before the trigger* (PLAN.md, line 210): the ring is trimmed against the reading before the
  trigger, so a reading filed under an incident can be older than a minute at its trigger.
  `Evidence.PreTriggerCanExceedMinute` is a run that files one, `Evidence.PreTriggerWithinMinuteIff` the condition.
- *Rounding a bucket cost* adds half a unit and truncates toward zero, which is to nearest exactly from minus half a
  unit up or on a half: `Summary.MicroIsNearestIff`, with `Summary.NegativeRoundsToZero`. Reachable costs are never
  negative.
- *Price text*: `parse_price` accepts 1000000.000001 to 1000000.999999, which `set_tariff` then refuses:
  `Pricing.ParsedPriceStorable`, with `Pricing.MillionAndAMillionth`. The cost text of a bucket parses back exactly
  below 1,000,001 currency units, and from there on is refused: `Pricing.FormatRoundTrip`.
- *A response that echoes its request* yields the payload unless that payload is FE followed by zeros, which reads as
  the busy sentinel: `Protocol.EchoRoundTrip`, with `Protocol.BusyEcho`.
- *Never asserted and clear* holds of software conditions under validated policies, and in general exactly when the
  thresholds do not cross: `Alerts.AssertedAndClearIff`, with `Alerts.CrossedThresholds`. Hardware conditions always
  carry the clear flag, which the engine reads only when they are not asserted.
- *Notification limits* hold of the attempts that reach the state file. A worker that dies between an attempt and saving
  it can repeat it too soon: `Notifier.UnsavedPollRepeats` says exactly when one lost attempt breaks the limits, and
  `Notifier.AttemptsAreLimited` exactly when a run with any number of them keeps them. They also need each incident to be
  listed once (`Notifier.OneAttemptPerListing`), which every snapshot of the daemon does
  (`Identities.SnapshotsHaveDistinctIds`).

## Model

| member | source | states |
|---|---|---|
| Telemetry.EstimateAtLeastOutput | crates/core/src/model.rs:68-71 | for power in the decoder's range and a valid efficiency the input estimate is the floor of the exact quotient, at least the output, and far below 64 bits |
| Measurements.DeviationRange | crates/core/src/measurements.rs:1-13 | deviation is within 0..500 so the narrowing cast loses nothing; 500 exactly when one conductor carries the whole load; no spread means no deviation |
| Measurements.ReachesThreshold | crates/core/src/measurements.rs:1-13 | the deviation reaches a percentage exactly when some conductor is that far from the mean, and the spread a threshold exactly when some two conductors differ by it |
| Protocol.Request | crates/protocol/src/lib.rs:32-41 | the 65-byte buffer holds a zero report id, opcode, command, payload and zeros; exactly payloads over 62 bytes are refused |
| Protocol.EchoRoundTrip | crates/protocol/src/lib.rs:42-65 | a request read back as a response yields its payload if and only if the payload is not the busy sentinel |
| Protocol.BusyEcho | crates/protocol/src/lib.rs:49-60 | a request with the payload FE, read back, is reported busy |
| Protocol.AcceptedRanges | crates/protocol/src/lib.rs:73-131 | every accepted telemetry report has three rails and two connectors, and non-negative power, efficiency, temperature, fan speed, voltages and currents inside the stated limits |
| Pricing.ParsesExactDecimals | crates/core/src/pricing.rs:10-27 | a string parses to v exactly when it is digits with an optional dot and at most six decimals, whole part at most a million, and v is its exact value times 10^6; any length |
| Pricing.LeadingZeros | crates/core/src/pricing.rs:19-20 | any number of leading zeros changes nothing |
| Pricing.FormatRoundTrip | src/history.rs:268-269 | the cost text of a non-negative micro amount parses back to that amount exactly on the range that parsing accepts, and is refused above it |
| Pricing.ParsedPriceStorable | src/history.rs:149-152 | a parsed price exceeds what set_tariff stores exactly when its whole part is a million and its fraction is not zero |
| Pricing.MillionAndAMillionth | crates/core/src/pricing.rs:20-26 | the text 1000000.000001 parses, to more than set_tariff stores |
| Energy.PiecesTile | src/history.rs:97-100 | the pieces of an interval are contiguous, non-empty, each inside one minute, and cover it; negative timestamps included |
| Energy.DurationsAddUp | src/history.rs:97-115 | the pieces' milliseconds sum to the wall interval |
| Energy.PartialTelescope | src/history.rs:101-107 | rounded pieces of any part of an interval stay within half a unit each of the exact area under the interpolated line |
| Energy.TrapezoidsTelescope | src/history.rs:97-115 | the stored microjoules of a whole interval are within half a unit per piece of its trapezoid |
| Ledger.RecordTotals | src/history.rs:71-121 | one record adds to the table's totals exactly the interval's time, and its trapezoids to within half a unit a piece, when the sample is new and bridges from the one before, and nothing otherwise; the condition is stated on the fields of the samples |
| Ledger.RecordChangesExactly | src/history.rs:73-93 | recording changes the observed time if and only if the sample is new, of the session and device of the one before, later in sequence, at most the gap limit later by the monotonic clock, and later by the wall clock to within 100 ms of that; the change is the wall-clock step |
| Ledger.RecordByMinute | src/history.rs:97-115 | minute by minute, an integrated interval adds to each row of its device the part of it in that minute, and nothing to any other row |
| Ledger.RecordingObserves | src/history.rs:86-119 | over any recording of distinct samples the observed time is the sum of the wall-clock steps that bridge; a step that breaks any one condition contributes nothing |
| Ledger.UnbrokenRecording | src/history.rs:86-119 | if every step bridges it is last minus first capture time |
| Ledger.BrokenRecording | src/history.rs:86-119 | one broken step costs exactly its own time |
| Ledger.EnergyIsConserved | src/history.rs:71-121 | over every run with restarts, duplicates and pruning, total observed time is the sum of the accepted intervals and total energy their trapezoids to within half a unit a piece; input likewise |
| Ledger.RunRowsOk | src/history.rs:97-115 | every reachable row has a minute key, positive observed time, input time within it, and no input energy without input time |
| Ledger.MinuteNeverOverflows | src/history.rs:86-117 | if recorded capture times never step back, restarts included, no row exceeds 60000 observed ms |
| Ledger.RunRowsInRange | src/history.rs:101-113 | with decoder-range power every reachable row's energies are non-negative and bounded per millisecond, and input is at least output where both were observed equally long |
| Ledger.RowsFitI64 | src/history.rs:101-113 | and then every row fits the signed 64-bit columns |
| Ledger.RecordTwice | src/history.rs:73-85 | recording the same sample again changes nothing |
| Tariffs.StoredKeepsTableOk | src/history.rs:144-190 | an accepted tariff keeps the table minute-aligned, priced in range, in one currency and within 4096 rates |
| Tariffs.VerdictIsDetermined | src/history.rs:168-175 | on such a table the verdict does not depend on which stored row the currency is read from |
| Tariffs.AcceptedIffStorable | src/history.rs:144-190 | on such a table a tariff is accepted if and only if it is minute-aligned, priced in range, in a three-capital code equal to the table's, and replaces its row or finds none and a free place; one refused only for its time is a duplicate |
| Tariffs.RateConstantOverMinute | src/history.rs:99-100 | the rate in force never changes inside a minute row |
| Tariffs.StoringIsLocal | src/history.rs:256-261 | a rate stored at e governs exactly the times from e up to the next dated rate; no other time changes |
| Tariffs.PartitionPoint | src/history.rs:256 | the binary search splits the sorted times at the given minute |
| Tariffs.LookupAgrees | src/history.rs:256-257 | the entry before the split is the rate with the latest effective time not after the minute, by linear definition; none before the first |
| Summary.SelectionIsUnique | src/history.rs:211-220 | the table, the device and the range determine the selected rows and their order |
| Summary.BucketIsItemized | src/history.rs:252-261 | in the bucket of a key every measure is the sum over the rows of that key: cost is each row's input energy times the rate in force at its minute, priced time the input time of the rows that have one, and the currency that of the last of them, or none |
| Summary.SummaryBills | src/history.rs:263-273 | a bucket's summary has an amount exactly when some input time is priced, namely the sum of its rows' charges over one kWh rounded half up, and is incomplete exactly when its rows' priced time falls short of their observed time |
| Summary.OneRate | src/history.rs:258 | where one rate governs all rows of a bucket the charges are that rate times its input energy |
| Summary.BucketsPartition | src/history.rs:221-262 | for any calendar the buckets sum, in every measure, to the straight totals of the selected rows |
| Summary.BucketsOk | src/history.rs:254-261 | in every bucket priced time is within input time within output time, and no priced time means exact cost zero |
| Summary.BucketsInRange | src/history.rs:252-261 | with rows in range costs and energies are non-negative, and equal input and output times mean input energy at least output energy |
| Summary.MicroIsNearestIff | src/history.rs:268 | the bucket rounding is to nearest exactly from minus half a unit up or on a half |
| Summary.NegativeRoundsToZero | src/history.rs:268 | just below minus half a unit zero is billed although minus one is nearer |
| Summary.BilledWithinHalves | src/history.rs:263-273 | k rounded bucket costs differ from the exact cost by at most k halves of a micro-unit; buckets without cost add nothing |
| Summary.LatePricingIsLocal | src/history.rs:254-261 | a rate stored at e changes only buckets that hold a row from e up to the next dated rate |
| Summary.CostBound | src/history.rs:258 | a bucket spanning n minutes costs at most n full rows at the highest rate |
| Summary.YearFitsI128 | src/history.rs:258-268 | a calendar-year bucket's accumulator, half a kWh added, fits signed 128 bits |
| Reporting.InterleavingIsIrrelevant | src/history.rs:71-190 | any two interleavings of the same records and the same tariff changes leave the same database, so the same summaries |
| Reporting.RatesAlwaysOk | src/history.rs:144-190 | every reachable rate table is unique by time, aligned, in range, single-currency and at most 4096 long |
| Reporting.SummariesAreSound | src/history.rs:192-274 | for every history, selection and calendar: buckets are ordered and in range, and the billed total is within half a micro-unit per costed bucket of the rows' exact cost |
| Reporting.ReportAccountsForEverySample | src/history.rs:71-274 | a report covering the table shows exactly the accepted sample intervals' time, and their trapezoids to within half a microjoule a piece, whatever the calendar and rates |
| History.Database.RecordSample | src/history.rs:71-121 | one transaction: the tables and previous become those of record, or stay as they were on an error |
| History.Database.AddInterval | src/history.rs:97-115 | the splitting loop adds every piece's contribution to its row, and ends |
| History.Database.PruneOld | src/history.rs:294-296 | deletes only samples captured more than 48 hours before, a thousand of them or all if fewer when the row choice honours the LIMIT; nothing else changes |
| History.Database.SetTariff | src/history.rs:144-190 | on a sound table stores exactly the storable tariffs, reports the first failed check otherwise, and keeps the table sound |
| History.Database.ListTariffs | src/history.rs:123-142 | lists all effective times in order, or fails exactly beyond 4096 |
| History.Database.SelectLines | src/history.rs:211-220 | exactly the device's rows in range, in order of minute |
| History.Database.RateOf | src/history.rs:256-257 | the binary search over the listed times gives the rate in force by linear definition |
| History.Database.GroupRows | src/history.rs:221-262 | grouping succeeds exactly when every row has a key and there are at most 10,000, and then each key's bucket adds up precisely the rows of that key, row by row at the rate in force |
| History.Database.Summarize | src/history.rs:192-274 | succeeds exactly for a valid range, a listable rate table, dated rows and at most 10,000 keys (never truncating), and then bills each key from its rows: amount, currency and completeness are fixed by the rows' input energy and the rates in force |
| History.Database.UpsertRow | src/history.rs:300-303 | inserts a whole row, or changes only end time and stored incident |
| History.Database.AcknowledgeRow | src/history.rs:321-330 | sets the acknowledgement only where there is none; an unknown id is an error and changes nothing |
| History.Database.FileEvidence | src/history.rs:338-344 | the reading is filed under its incident and time unless one is there; what is there stays |
| History.Database.RestoreActive | src/history.rs:304-320 | restores, for each kind among the latest thousand open rows, the earliest started, with the row's acknowledgement |
| History.Database.WriteBatch | src/runtime.rs:88-94 | an attempt cut off after n transactions has done exactly the first n |
| History.Database.Attempt | src/runtime.rs:87-99 | an attempt succeeds exactly when no transaction fails, having done the whole batch; a sequence beyond the signed range fails before anything is written |
| History.Database.Persist | src/runtime.rs:86-118 | the retry loop until success or shutdown: it succeeds exactly when some attempt gets through and the sequence fits, and then the tables and previous are those of one clean run, with every exhibit of the batch and no other added to the evidence; otherwise a clean run would still end there, and an oversized sequence writes nothing |
| Alerts.ObserveByKind | src/alerts.rs:105-225 | one observation treats each reported kind once, from what was remembered of that kind alone, and leaves the others |
| Alerts.AtMostOneEventPerKind | src/alerts.rs:176-224 | one observation emits at most one event of each kind |
| Alerts.HardwareFollowsItsByte | src/alerts.rs:114-131 | from any state: after a valid 18-byte group a hardware incident is active exactly when its byte is non-zero; otherwise it is unchanged |
| Alerts.SafeguardFollowsItsStatus | src/alerts.rs:132-149 | a safeguard incident is active exactly when the snapshot's status is non-zero, and unchanged without a snapshot |
| Alerts.SampleEndsLoss | src/alerts.rs:177-180 | after any sample monitoring is not lost; if it was, its incident is closed at the capture time |
| Alerts.EventsDescribeSample | src/alerts.rs:189-216 | every incident raised carries the sample's device, time, readings and, for software, policy; every one closed the capture time |
| Alerts.ConditionExactly | src/alerts.rs:150-160 | under a validated policy a connector is asserted exactly when the rule is on, it is loaded, and it spreads and deviates to the thresholds; and clear exactly when one of these fails, with the clear threshold for the deviation |
| Alerts.NeverAssertedAndClear | src/alerts.rs:150-174 | a validated policy never asserts and clears one connector |
| Alerts.AssertedAndClearIff | src/alerts.rs:153-160 | for any policy, both hold exactly when the deviation lies between crossed thresholds on a loaded, spread connector |
| Alerts.CrossedThresholds | src/alerts.rs:153-160 | an invalid policy with equal thresholds asserts and clears a connector whose load is on one conductor |
| Alerts.AlertEngine.ObserveSample | src/alerts.rs:105-225 | the loop over conditions leaves the state and emits the events of the specification |
| Alerts.AlertEngine.BeginSample | src/alerts.rs:106-112 | a new session or a gap forgets both timers; the monitoring incident is closed |
| Alerts.AlertEngine.VisitKind | src/alerts.rs:181-223 | one condition updates the three maps as specified |
| Alerts.AlertEngine.MonitoringLostAt | src/alerts.rs:77-104 | both timers are forgotten; an incident is raised unless one is active |
| AlertRuns.RunKeepsSound | src/alerts.rs:181-223 | in every run pending and recovering stay disjoint and active incidents are filed under their kind with distinct ids |
| AlertRuns.LogReplays | src/alerts.rs:77-225 | replaying the event log on the initial active map reproduces the active map; raises and recoveries alternate per kind, each recovery closing the very raise that is open |
| AlertRuns.MissingGroupsChangeNothing | src/alerts.rs:114-119 | samples without a valid alarm group, however many in a row, leave hardware incidents unchanged |
| AlertRuns.PendingIsStreak | src/alerts.rs:106-112 | the pending timer of a kind holds the time of the first sample of the current uninterrupted streak of assertions, and is absent without one |
| AlertRuns.RunIsTimeline | src/alerts.rs:181-223 | in every run each step keeps the law of a software kind: when it may raise or recover, and that its timers are carried over or start at the sample |
| AlertRuns.RaisedExactlyAfterStreak | src/alerts.rs:181-206 | a software incident is raised exactly when its kind is idle, the sample reports the connector, and every sample reporting it asserted it from one at least trigger_ms earlier, with no session change, gap or loss in between |
| AlertRuns.RecoveredExactlyAfterCalm | src/alerts.rs:205-218 | a software incident is closed exactly when it is active, the sample reports the connector, and every sample reporting it was clear and not asserted from one at least recovery_ms earlier, with no session change, gap or loss in between |
| AlertRuns.RecoveryTakesTime | src/alerts.rs:207-218 | a recovery is at least recovery_ms after any raise before it |
| AlertRuns.RaiseTakesTime | src/alerts.rs:183-188 | a raise is at least trigger_ms after any recovery before it |
| AlertRuns.RaisesAreSpaced | src/alerts.rs:181-223 | two raises of one software kind have a recovery between them and are at least a second apart under validated policies |
| AlertRuns.RaiseRateBounded | src/alerts.rs:46-49 | one software kind raises at most 1 + T/1000 incidents in T ms |
| Storage.UpsertsByRow | src/history.rs:300-303 | after any sequence of upserts each row carries its last mention, and its device, kind, start and acknowledgement from the old row or else from the first mention |
| Storage.UpsertsAbsorbPrefix | src/runtime.rs:89-91 | writing part of the events first makes no difference to writing all of them |
| Storage.FilesByKey | src/history.rs:338-344 | after any exhibits a key is in the evidence table exactly when it was there or some exhibit bears that incident and capture time; its reading is the old one, or else that of the first such exhibit |
| Storage.RetryAbsorbsAttempt | src/runtime.rs:86-118 | restarting a batch after an attempt cut off anywhere ends where a single clean attempt would, prune and previous included |
| Storage.ExactlyOnce | src/runtime.rs:86-118 | any failures at any points, with acknowledgements at any moments: the completed batch leaves one clean run with the acknowledgements that found their incident |
| Storage.CompletedBatchIsStored | src/runtime.rs:86-118 | so after a completed batch every exhibit, every event as last mentioned, and a new sample are in the tables, nothing else has appeared, and no evidence and no sample of the last 48 hours has gone |
| Storage.FirstAcknowledgementStays | src/history.rs:321-330 | whatever happens, an incident's acknowledgement time is the first it was ever given: the stored one, or else that of the first acknowledgement, or none |
| OpenRows.UpsertOpens | src/history.rs:300-303 | an upsert opens its row exactly when it carries no recovery, and closes it otherwise |
| OpenRows.StepIsFresh | src/alerts.rs:181-204 | every raise bears a new id |
| OpenRows.RetriesKeepOnePerKindIff | src/runtime.rs:86-118 | a lawful stream retried in any way keeps one open row per kind at all times exactly when no kind is raised twice in what a failing attempt can write |
| Monitoring.MonitorThread.OnSample | src/runtime.rs:210-276 | a successful reading's whole cycle: acknowledgements, observation, windows, ring, bounds and hand-over |
| Monitoring.MonitorThread.OnLost | src/runtime.rs:277-307 | a failed reading's cycle; nothing is reported before the first success |
| Monitoring.ReadingIsHandedOver | src/runtime.rs:211-274 | a reading, unaltered but for session and number, is shown, ends the ring, and goes to storage with the newest 256 updates and 2048 evidence readings unless the queue is full; exactly the excess and a refused reading are counted as lost |
| Monitoring.LossIsHandedOver | src/runtime.rs:277-307 | a failed reading raises one incident at its time unless monitoring is already lost, files every reading of the ring under it, and offers the last reading with the whole backlog |
| Monitoring.AcksAreCopied | src/runtime.rs:220-226 | an active incident takes over the acknowledgement of its own id and changes in nothing else |
| Monitoring.MonitorThread.CopyAcks | src/runtime.rs:218-228 | only acknowledgement times of active incidents with the same id change |
| Monitoring.MonitorThread.Capture | src/runtime.rs:230-246 | windows and evidence for each raise, the oldest window giving way at 32 |
| Monitoring.MonitorThread.TrimRing | src/runtime.rs:248-253 | readings leave the ring from the front only |
| Monitoring.MonitorThread.BoundPending | src/runtime.rs:320-334 | the oldest excess is dropped and counted, the rest kept in order |
| Monitoring.MonitorThread.HandOver | src/runtime.rs:255-271 | the whole backlog goes with the sample, or all of it comes back from a full queue |
| Pipeline.LossIsAccounted | src/runtime.rs:242-304 | over every interleaving, applied, in-flight, queued and pending updates are an in-order subsequence of all emitted, short by exactly the counter (evidence likewise); pending updates number at most 256, plus one while monitoring is lost |
| Pipeline.EvidenceIsBounded | src/runtime.rs:254-334 | over every interleaving at most 2048 evidence readings are pending, plus, while monitoring is lost, the ring that the loss filed |
| Pipeline.AppliedIsStored | src/runtime.rs:83-120 | over every interleaving the tables hold every update and reading of every completed batch, and what the current attempt has committed |
| Agreement.TableAgreesWithEngine | src/runtime.rs:83-120 | over every interleaving and retry without a dropped update, with restarts that find one open row per kind: whenever nothing is on its way the open rows are the active incidents, id for id, and each kind has at most one open row whenever the batch in work raises no kind twice |
| Agreement.AgreementIffCleanRestarts | src/runtime.rs:71-158 | over every run without a dropped update, table and engine agree at every moment with nothing on its way if and only if every restart finds at most one open row of each kind |
| Agreement.RetriesKeepOneOpenRowIff | src/runtime.rs:86-118 | while a batch is written, the table keeps one open row per kind through every retry exactly when the batch raises no kind twice among the updates a failing attempt can write |
| Agreement.TangledBatchBreaks | src/runtime.rs:86-118 | otherwise two failures leave two rows of a kind open |
| Agreement.RestoredAgreesIff | src/runtime.rs:147-158 | what a restart restores equals the open rows exactly when there is one per kind |
| Agreement.FewOpenRows | src/history.rs:304-309 | with one open row per kind a TS unit has at most 23, far below the restore limit |
| Tangles.TangledBatchIsReachable | src/runtime.rs:144-307 | a run from a fresh start, with healthy readings on an advancing clock and a reopening after each failed one, nothing dropped, brings a batch to storage that raises a kind twice |
| Tangles.TwoOpenRowsAreReachable | src/runtime.rs:86-118 | and two failures while it is written leave two open rows of that kind |
| Tangles.DisagreementIsReachable | src/runtime.rs:71-158 | and a restart then starts with table and engine disagreeing, nothing being on its way |
| Identities.RunKnown | src/alerts.rs:88-103 | over every run, drops and unclean restarts included, active incidents have distinct ids, and every id in use lies below the supply of new ones |
| Identities.SnapshotsHaveDistinctIds | src/runtime.rs:275 | so every snapshot lists an incident at most once |
| Identities.UncleanRestartOrphans | src/runtime.rs:147-158 | a restart that finds two open rows of a kind leaves one that nothing refers to |
| Identities.OrphanStaysOpen | src/runtime.rs:83-120 | such a row stays open, and table and engine disagree, at every moment until the next restart |
| Restart.SomethingIsRestored | src/history.rs:304-320 | every table can be restored from |
| Evidence.OpenWindowsKeepsNewest | src/runtime.rs:230-241 | of all windows the newest 32 stay and the others are evicted oldest first |
| Evidence.RecentTailIsMinute | src/runtime.rs:247-253 | on rising times trimming keeps exactly the readings at most a minute older than the newest |
| Evidence.WindowsDeliver | src/runtime.rs:229-253 | in every run each window has emitted, in order and once, the ring at its trigger and every reading up to 120 s after; an evicted one a prefix of that; at most 32 open, no more evicted than the counter |
| Evidence.RingIsLastMinute | src/runtime.rs:247-253 | the ring is exactly the readings since the device was opened that lie in the last reading's minute |
| Evidence.PreTriggerWithinMinuteIff | src/runtime.rs:236-253 | all readings filed under a raise lie within a minute of it exactly when no reading since the reopening is within a minute of the last one but over a minute older than the trigger |
| Evidence.PreTriggerCanExceedMinute | src/runtime.rs:229-253 | readings at 0 s and 60 s and an alarm at 61 s: the first reading is filed under the alarm, 61 s older than its trigger |
| Notifier.Worker.Poll | src/notify.rs:124-198 | one poll: entries, due incidents, one attempt each, expiry, eviction, saved state |
| Notifier.Worker.CollectDue | src/notify.rs:125-153 | the eligibility pass over the snapshot |
| Notifier.Worker.EvictOldest | src/notify.rs:188-196 | ends with at most 4096 entries, none of the removed more recent than a kept one |
| Notifier.AttemptsAreLimited | src/notify.rs:116-203 | over every run with a non-decreasing clock, restarts and lost polls included, of an incident whose entry is never evicted: saved attempts are 30 s apart, a fourth comes no sooner than 30 days after the first, a success is not followed by a warning within 30 days; and all attempts keep this exactly when they do wherever a lost one is counted back over |
| Notifier.NoLossIsWithinLimits | src/notify.rs:116-203 | with no poll lost every attempt keeps the limits |
| Notifier.NoFourInAWindow | src/notify.rs:138-144 | so no window shorter than 30 days holds four attempts |
| Notifier.UnsavedPollRepeats | src/notify.rs:137-197 | for any entry and earlier attempts, a lost attempt and a later one from the same entry keep the limits exactly when they are 30 s apart, 30 days if a success is repeated as a warning, and the later one is 30 days after the last saved attempt but one |
| Notifier.AcknowledgedIsLeftAlone | src/notify.rs:133-135 | an acknowledged incident is not attempted |
| Notifier.OneAttemptPerListing | src/notify.rs:125-153 | for any snapshot, an incident is attempted once for each unacknowledged listing that is due |
| Reminders.AttemptedWhenDue | src/notify.rs:125-197 | at any poll of any run, lost polls and restarts included, an incident listed unacknowledged is attempted whenever fewer than three attempts were saved, the last at least 30 s ago, and it is critical or the last one failed or there was none; until 30 days after the first, only then |
| Reminders.CriticalIsAttemptedThrice | src/notify.rs:136-144 | a critical incident that stays listed at polls 30 s apart is attempted at exactly the first three before its entry expires |
| Reminders.ForgottenAfterExpiry | src/notify.rs:185-187 | a poll that attempts something forgets an entry exactly when it is not attempted and was last attempted 30 days ago or more |

## Left out

- SQLite itself: tables are maps, each transaction is all or nothing, JSON is the identity; which of the outdated rows a limited DELETE takes is an arbitrary function of the table.
- Floating point in `integrate` and in the kWh sums: exact integers, rounding half away from zero.
- Overflow of 64-bit timestamps and clocks; ranges are proved for energies and costs only.
- Time zones, calendar arithmetic and the period and zone names: the calendar key is any function of the minute, or none.
- The order of the bucket list: a summary is a map by key. The order of two connectors numbered above nine in one sample's events.
- Severity, source and message texts of incidents, and the errors kept with deliveries.
- Switching devices in one process, the fallback to the startup incident list, a storage thread stopped by shutdown (`History.Database.Persist` alone covers it), and discovery: one device, opened from the start.
- The acknowledgement flag in the live snapshot: only durable acknowledgement is stated.
- Policy compare-and-set, sample, evidence and device queries, and safeguard decoding.
- Sockets, commands, sound, silence, widgets and packaging.
- Notifier.AttemptsAreLimited: does not cover an incident whose own entry the 4096-entry limit evicts, which forgets its attempts by design.
- Reminders.AttemptedWhenDue: counts the attempts that were saved, as the worker does, of an incident that starts without an entry and whose entry is never evicted.
- Agreement.TableAgreesWithEngine: leaves out runs that drop an update, and restarts that find two open rows of a kind, after which agreement fails (`Agreement.AgreementIffCleanRestarts`).
- Identities.OrphanStaysOpen: says nothing past the next restart, which may restore the row left behind.
- Ledger.MinuteNeverOverflows: assumes capture times that never step back, as a clock set back would record a minute twice.
- Evidence.WindowsDeliver: states what each window hands to the backlog; what the bounded backlog then loses is `Pipeline.LossIsAccounted`.
