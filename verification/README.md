# Verified model of the home-metrics collectors

Home-metrics takes noisy sensor streams, filters and aggregates them per minute,
stores them sparsely, rolls them up and evaluates alerts. This project models the
parts whose behaviour is decided over whole runs, and proves what they promise.
`dafny verify dfyconfig.toml` checks all of it.

| files | part |
|---|---|
| OrderStatistics | sorting, medians, and the counting facts about medians |
| OutlierFilter, OutlierRepeats, OutlierFlush, OutlierRetries | the local BLE collector: outlier confirmation filter, one reading offered to it again and again, the flush that applies it, and what failed writes do to it |
| SpacesProcessor, SpacesAdmission | the Cisco Spaces event processor, and what it must let through |
| SqlSplitter, SqlTokens, SqlRoundTrip, MigrationRunner, MigrationStatements | the migration runner, the statements it executes, and its statement splitter |
| AlertEvaluator, AlertRuns, AlertTransitions, AlertWorker, AlertHistory | the alert state machine, its runs, when they must change state, its transaction, and the event table |
| FiniteSums, Rollup, RollupRuns, RollupMeans, RollupJob | what the generated rollup statements compute, over whole runs of the maintenance job, and the job itself |
| Minutes, SensorStore, DeviceRows, SampleAggregation, WindowLaws | sparse minutes, device ownership and device rows, and the IoT Orchestrator collector's windows |
| Bytes, MqttFraming, Protobuf, ProtobufLaws, ProtobufFields | the IoT Orchestrator collector's wire formats |
| Echonet, EchonetValues, WireBytes | ECHONET Lite frames and values, and both binary formats at given bytes |
| Text, TextLaws, Sequences, Reals, NestedMap, SensorMetrics, Wrappers | what several parts share |

State that the source updates in place is a class whose methods are proved
against functions of the inputs so far. For the two filters these functions look
at the input stream alone and never at stored windows, so the class invariant is
a refinement, and the properties are then proved of the stream functions.
Databases are maps and sequences, and a transaction is one step that may fail
where the source's calls can fail. Times are integers, sensor values are reals.

Laws that fix what an operation must do spell its conditions out in plain terms, with
their constants, and do not use the functions that model it (`AlertTransitions.Crossed`,
`SpacesAdmission.IsValid`, `SqlTokens.Written`, `RollupMeans.MeanOf`, `TextLaws.Spells`).

Where the code does less, or other, than one might read into it:

- The step filter of the Cisco Spaces processor bounds the fall of the published
  median only for odd sample windows (`SpacesProcessor.FallIsBoundedIffOdd`).
- A rollup row is the average of all its minutes when it is written iff the minutes of
  its bucket that the statement leaves out carry no value. Every cycle's lower bound
  moves on, so it passes through every bucket; a row that was right is then overwritten
  from the rest of its bucket, and stays so once the bound has left it
  (`RollupRuns.RowStaysRightIff`, with a run under every setting in
  `RollupRuns.SweptRowGoesWrong`). docs/architecture.md:119-121 promises the average of
  the minutes; the code keeps that promise for buckets that start at or after the bound,
  iff the refresh lookback does not exceed the minute retention
  (`RollupRuns.FaithfulIffRetained`). The defaults in code (cmd/hm-db-maint/main.go:29-31)
  and in Compose (docs/architecture.md:124-125) both meet that.
- A failed flush of the BLE collector offers the filter the same window again, and a
  lone spike can then confirm itself (`OutlierRetries.SpikeSlipsThrough`). Without a
  failed write no spike is ever stored; the first spike whose write fails n times is
  stored iff n is odd or n copies of it take the history window over
  (`OutlierRetries.FirstFailedSpikeIsStoredIff`). With the default history size of 5 and a
  full history that is every n other than 0 and 2 (`OutlierRepeats.DefaultSizeHidesTwo`).
- Two migration files of one version are only told apart by their checksums. An
  undisturbed run on an empty database completes iff no version has two checksums and the
  first file of every version splits (`MigrationRunner.FreshRunCompletesIff`). Of two
  different files of one version the first is applied, and the second stops every run
  (`MigrationRunner.TwoFilesOfOneVersion`, `MigrationRunner.DuplicateVersionNeverCompletes`).
- A stale observation moves `LastValueAt` forward without being judged. An alert can
  therefore fire across a reading that did not trigger, with the readings that were judged
  further apart than `MaxDataAge` (`AlertRuns.StaleReadingBridgesGap`). Firing means that
  every newer reading of the stretch triggered, on every run, iff `MaxDataAge` <= 0
  (`AlertRuns.FiringIsUnbrokenIff`); the API admits only rules with at least one second
  (cmd/hm-api-server/alerts.go:425-427). docs/sensor-alerts.md:24-26 asks for fresh,
  distinct readings that stay beyond the trigger; of those that are judged, it holds
  (`AlertRuns.FiringWasSustained`).
- A call of `SyncDevice` without an explicit source is rejected on a device that has
  an owner, because NULL equals no source (`SensorStore.OwnershipIsClaimedOnce`).
- Lengths above 268435455, topics above 65535 bytes and more than 255 ECHONET codes
  are written, but do not read back; the round trips are stated with exactly these
  conditions.

## Model

| member | source | states |
|---|---|---|
| `OrderStatistics.SortFloats` | cmd/hm-ble-collector/main.go:780-782 | Sorting in place leaves the array equal to the specified sort of what it held. |
| `OrderStatistics.SortedIsAscendingPermutation` | cmd/hm-ble-collector/main.go:780-782 | The specified sort is an ascending permutation of its input. |
| `OrderStatistics.ComputeMedian` | cmd/hm-ble-collector/main.go:780-788 | The median of a copied slice: the middle of the sorted values, or the mean of the two middle ones. |
| `OrderStatistics.RankAtMost` | cmd/hm-ble-collector/main.go:780-788 | The element of rank k is at most x iff at least k+1 samples are. |
| `OrderStatistics.MajorityIsMedian` | cmd/hm-ble-collector/main.go:780-788 | A value held by more than half of the samples is their median. |
| `OrderStatistics.SlideBoundsMedian` | cmd/hm-cisco-spaces-collector/processor.go:161-180 | Replacing the oldest sample of an odd window lowers the median at most to the new sample. |
| `OutlierFilter.Collector.FilterMetric` | cmd/hm-ble-collector/main.go:698-733 | For every run of calls on any sensors and metrics: a metric without a positive threshold passes as it is; otherwise the value is returned iff the stateless stream specification keeps it, that is iff fewer than three values were accepted, it lies within the threshold of their median, or it confirms the reading just before, which was withheld, is recent enough and close enough. Accepted always holds the last min(n, HistorySize) accepted values, Pending is set iff the last reading was withheld. |
| `OutlierFilter.Collector.AcceptMetric` | cmd/hm-ble-collector/main.go:735-741 | Appends one value, keeps the last HistorySize, clears Pending, touches no other history. |
| `OutlierFilter.ConvergenceBound` | cmd/hm-ble-collector/main.go:698-741 | From any history, a level that stays (readings at most ConfirmWindow apart) has at most HistorySize/4 + 1 readings withheld, however long it lasts. |
| `OutlierFilter.ConvergenceBoundIsAttained` | cmd/hm-ble-collector/main.go:698-741 | The bound is tight for every HistorySize of at least 3: from a history of zeros a far level loses exactly HistorySize/4 + 1 readings. |
| `OutlierFilter.ZeroReadingsFillHistory` | cmd/hm-ble-collector/main.go:698-741 | The histories of the tightness result are reachable: reading zero n times accepts n zeros. |
| `OutlierFilter.LoneSpikesAreRemoved` | cmd/hm-ble-collector/main.go:698-741 | On a stream within a band no wider than the threshold, with isolated far spikes, the filter returns exactly the readings in the band and its history never contains a spike. |
| `OutlierFilter.SpikesAreRemoved` | cmd/hm-ble-collector/main.go:698-741 | The same with any number of far spikes in a row, as long as each is more than ConfirmWindow after the one before it or more than the threshold away from it. |
| `OutlierFilter.SpikeIsKeptIffItAgrees` | cmd/hm-ble-collector/main.go:723-729 | After such a stream, a far reading is returned iff the reading right before it is a spike at most ConfirmWindow back and at most the threshold away; then both are accepted. |
| `OutlierFilter.FirstThreeAreKept` | cmd/hm-ble-collector/main.go:714-717 | The first three readings are returned and accepted whatever they are, and all of them with a history of fewer than three. |
| `OutlierFilter.RepeatIsAccepted` | cmd/hm-ble-collector/main.go:698-741 | A withheld reading offered again at once is accepted: it meets its own pending entry. |
| `OutlierFlush.Collector.Flush` | cmd/hm-ble-collector/main.go:669-696 | Every median of a window passes the filter (lux excepted), what passes is written in one sparse upsert, nothing is written when nothing passes, and the result tells the three cases apart; over any list of flushes the minute table is the replay of the specified writes. |
| `OutlierFlush.Collector.FilterAll` | cmd/hm-ble-collector/main.go:673-680 | The seven filter calls of one flush do not influence each other. |
| `OutlierFlush.StoredIffInBand` | cmd/hm-ble-collector/main.go:669-696 | After a successful flush the column holds the window's median iff it lies in the band; a lone spike leaves the column as it was. |
| `OutlierFlush.SpikesAreNeverStored` | cmd/hm-ble-collector/main.go:669-733 | Over any list of flushes whose readings form a band with lone spikes, no column of that sensor and metric ever holds a spike. |
| `OutlierFlush.RetriedSpikeIsStored` | cmd/hm-ble-collector/main.go:638-696 | From any flushes that can happen: a withheld median whose window has something else to write, and whose write fails, is stored by the next write of that window. |
| `OutlierRepeats.RetriesUntilNear` | cmd/hm-ble-collector/main.go:698-741 | A far reading offered again after n earlier offers, for every n and any history whose window the band rules: accepted iff n is odd or the baseline that n copies make is near it; either way the accepted values are known. |
| `OutlierRepeats.OneMoreIsNear` | cmd/hm-ble-collector/main.go:698-741 | Once near the baseline, a repeated value stays near, in full and in growing windows. |
| `OutlierRepeats.NearIffTakesOver` | cmd/hm-ble-collector/main.go:698-741 | By counting alone, for every size: n copies make a far value near iff they outnumber the band values left in the window, or tie with them and one of those is within two thresholds. |
| `OutlierRepeats.OddWindowTakenOverIff` | cmd/hm-ble-collector/main.go:698-741 | In a full window of odd size that is 2n > size. |
| `OutlierRepeats.DefaultSizeHidesTwo` | cmd/hm-ble-collector/main.go:288 | With the default size and a full history, odd or taking over means any n other than 0 and 2. |
| `OutlierRepeats.OddWindowDecides` | cmd/hm-ble-collector/main.go:698-741 | In a full window of odd size, copies that end the band's majority are near. |
| `OutlierRetries.SpikeIsStoredIffItPasses` | cmd/hm-ble-collector/main.go:638-696 | For every plan of windows flushed until written, whatever the medians and failures: some row ever holds a value outside the band iff such a value passes the filter at its window's last flush. |
| `OutlierRetries.NoFailureNoSpike` | cmd/hm-ble-collector/main.go:638-733 | Where medians form a band with lone spikes and no spike's write fails, no spike is ever stored, however often band values are retried. |
| `OutlierRetries.FirstFailedSpikeIsStoredIff` | cmd/hm-ble-collector/main.go:638-733 | For any number n of failures: the first spike whose write fails is stored iff n is odd or n copies take the window over; its row otherwise stays as it was. |
| `OutlierRetries.SpikeIsStoredIffItsWriteFails` | cmd/hm-ble-collector/main.go:638-733 | Whole plans, any failures: if the first spike that fails is odd or takes over, some spike is ever stored iff some spike's write fails. |
| `OutlierRetries.SpikeIsStoredIffOddOrNear` | cmd/hm-ble-collector/main.go:638-733 | The same after earlier spikes that failed and were hidden: stored iff n is odd or n copies on top of what was believed make it near. |
| `OutlierRetries.SpikeIsStoredIffNotQuiet` | cmd/hm-ble-collector/main.go:638-733 | Whole plans with any number of failures for every spike: some spike is stored iff not every spike is quiet, that is fails an even number of times and leaves the band its majority. |
| `OutlierRetries.QuietPlanIsInStep` | cmd/hm-ble-collector/main.go:638-741 | While a plan is quiet, the accepted values are exactly band values as often as offered and spikes once for each failure. |
| `OutlierRetries.FlushAgain` | cmd/hm-ble-collector/main.go:669-696 | The collector itself, from any valid state: after a failed and a successful flush of one window, the withheld median is in the store. |
| `OutlierRetries.SpikeSlipsThrough` | cmd/hm-ble-collector/main.go:638-733 | From an empty collector: three windows of 20, a spike of 90 whose first write fails, and the store holds 90. |
| `SpacesProcessor.Processor.ProcessEvent` | cmd/hm-cisco-spaces-collector/processor.go:21-65 | After any event stream every window holds the last min(n, SampleWindow) admitted samples, every last metric is the median of exactly SampleWindow of them dated by the newest, and the answer (reading or reason) is the one the stream specification gives; published values are no older than FieldFreshness. |
| `SpacesProcessor.Processor.ExtractValues` | cmd/hm-cisco-spaces-collector/processor.go:87-117 | The list of values an event contributes, in order, each present iff its validity conditions hold. |
| `SpacesAdmission.AcceptedIff` | cmd/hm-cisco-spaces-collector/processor.go:21-65 | An event is answered with a reading iff it is valid, some metric has a full window whose newest sample is fresh, and every earlier upload of the device is at least UploadInterval back. |
| `SpacesAdmission.IgnoredBecause` | cmd/hm-cisco-spaces-collector/processor.go:43-62 | A valid event is ignored for the upload interval iff an upload is too recent, and for lack of values iff it also adds no sample and nothing is fresh. |
| `SpacesAdmission.ReadingIsDated` | cmd/hm-cisco-spaces-collector/processor.go:182-205 | The reading bears the device's address and the start of the event's minute. |
| `SpacesAdmission.RejectedIff` | cmd/hm-cisco-spaces-collector/processor.go:21-39 | An event is valid iff it is telemetry, dated, addressed, and its device id is absent or the same; otherwise the first of these that fails is the reason. |
| `SpacesAdmission.TemperatureIsAdmittedIff` | cmd/hm-cisco-spaces-collector/processor.go:87-138 | A temperature becomes a sample iff it is not 0, lies in [-20, 60], and is at most 3 below the median of the last full window. |
| `SpacesAdmission.HumidityIsAdmittedIff` | cmd/hm-cisco-spaces-collector/processor.go:98-149 | A humidity becomes a sample iff it lies in [0, 100] and is not the 99 that comes with an implausible temperature. |
| `SpacesAdmission.OthersAreAdmittedIff` | cmd/hm-cisco-spaces-collector/processor.go:101-160 | When the other five metrics become samples, and as which value. |
| `SpacesAdmission.OtherDevicesKeepTheirs` | cmd/hm-cisco-spaces-collector/processor.go:21-65 | An event adds samples to its own device only, and an invalid one to none. |
| `SpacesProcessor.Processor.AddValue` | cmd/hm-cisco-spaces-collector/processor.go:161-180 | One window grows by the value and keeps the last SampleWindow; its median is recorded only when it is full. |
| `SpacesProcessor.MedianInRange` | cmd/hm-cisco-spaces-collector/processor.go:119-121 | Every temperature median of every stream lies in [-20, 60]. |
| `SpacesProcessor.OddWindowBoundsFall` | cmd/hm-cisco-spaces-collector/processor.go:123-138 | With an odd window no event lowers a device's temperature median by more than 3 degrees. |
| `SpacesProcessor.EvenWindowLetsItFall` | cmd/hm-cisco-spaces-collector/processor.go:123-138 | For every even window a concrete stream whose median falls from 20 to at most -1.5 in one event. |
| `SpacesProcessor.FallIsBoundedIffOdd` | cmd/hm-cisco-spaces-collector/processor.go:123-138 | The fall is bounded on every stream iff SampleWindow is odd. |
| `SpacesProcessor.PublishedIsFreshMedian` | cmd/hm-cisco-spaces-collector/processor.go:182-205 | In every stream, a metric is published iff it has at least SampleWindow samples and the newest is no older than FieldFreshness, and its value is the median of the last SampleWindow of them. |
| `SpacesProcessor.UploadsAreApart` | cmd/hm-cisco-spaces-collector/processor.go:48-64 | Any two accepted readings of one device, not only neighbours, are at least UploadInterval apart in event time, in whatever order events arrive. |
| `SqlSplitter.SplitSQLStatements` | cmd/hm-db-migrate/main.go:166-267 | The flag-and-index loop returns what the mode-by-mode lexer specifies, errors included, and terminates through every continue. |
| `SqlSplitter.ReadDollarQuoteTag` | cmd/hm-db-migrate/main.go:269-282 | The tag is the text up to the closing dollar sign, found iff only tag characters precede it. |
| `SqlSplitter.Inside` | cmd/hm-db-migrate/main.go:175-224 | Inside a comment or quote: the flags and the distance after one character, doubled quotes and closers included. |
| `SqlSplitter.TopLevel` | cmd/hm-db-migrate/main.go:226-256 | Outside of them: which flag a character sets, how far to go, and whether it ends a statement. |
| `SqlSplitter.LexIsReference` | cmd/hm-db-migrate/main.go:166-267 | The step-by-step lexer cuts at exactly the semicolons that a reader of whole tokens sees at the top level, and ends in the same mode; input ends in error iff it ends inside a block comment or a dollar quote. |
| `SqlSplitter.FinishIsLex` | cmd/hm-db-migrate/main.go:166-267 | From any loop position, the loop adds exactly the pieces that the lexer finds in the rest. |
| `SqlSplitter.LexAtIsLex` | cmd/hm-db-migrate/main.go:166-267 | Reading by index is reading the remaining text. |
| `SqlSplitter.PiecesRebuild` | cmd/hm-db-migrate/main.go:227-251 | The untrimmed pieces joined by semicolons are the input. |
| `SqlTokens.TokensAreCut` | cmd/hm-db-migrate/main.go:166-267 | Text written as comments, quoted text with doubled quotes, dollar quotes, plain characters and semicolons is cut at exactly those semicolons, and nothing stays open. |
| `SqlTokens.TokensSplit` | cmd/hm-db-migrate/main.go:166-267 | So its statements are what stands between them, trimmed, without the empty ones. |
| `SqlTokens.TagIsFoundIff` | cmd/hm-db-migrate/main.go:269-289 | A dollar sign opens a dollar quote iff only letters, digits and underscores come before the next one. |
| `SqlTokens.OpenBlockIsRefused` | cmd/hm-db-migrate/main.go:257-259 | After any such text, a block comment that is never closed is an error. |
| `SqlTokens.OpenDollarIsRefused` | cmd/hm-db-migrate/main.go:260-262 | So is a dollar quote, and the error names its tag. |
| `SqlTokens.OpenQuoteIsAccepted` | cmd/hm-db-migrate/main.go:257-267 | A quoted text that is never closed is not an error. |
| `SqlRoundTrip.LexConcat` | cmd/hm-db-migrate/main.go:166-267 | Lexing text that starts with white space or a semicolon continues from the mode before it, for every text before it. |
| `SqlRoundTrip.SplitRoundTrip` | cmd/hm-db-migrate/main.go:166-267 | Whenever splitting succeeds with L, splitting L joined by newline and semicolon gives exactly L. |
| `SqlRoundTrip.NewlineIsNeeded` | cmd/hm-db-migrate/main.go:166-267 | Joined by a bare semicolon, a statement that ends in a line comment swallows what follows. |
| `MigrationRunner.Database.RunMigrations` | cmd/hm-db-migrate/main.go:49-62 | One run, with a fault before or after any commit, moves the tables as the specification of a run says and reports completion. |
| `MigrationRunner.Database.ApplyMigration` | cmd/hm-db-migrate/main.go:142-164 | Statements and row are committed together or not at all. |
| `MigrationRunner.RunExtendsPrefix` | cmd/hm-db-migrate/main.go:49-62 | From a prefix of the sorted migrations any run ends at a prefix at least as long; a completing run ends at the whole list; without faults every run completes if every file splits. |
| `MigrationRunner.RunsLeavePrefix` | cmd/hm-db-migrate/main.go:49-62 | Any sequence of interrupted runs from an empty table leaves a prefix, each migration executed once. |
| `MigrationRunner.ResumedRunsMatchOneRun` | cmd/hm-db-migrate/main.go:49-62 | A completing run after any interrupted ones ends with the rows and the committed statements of one uninterrupted run. |
| `MigrationStatements.PrefixExecutes` | cmd/hm-db-migrate/main.go:142-164 | After k migrations the statements executed are those of the first k files, one after the other. |
| `MigrationStatements.CompletionExecutesEverything` | cmd/hm-db-migrate/main.go:49-62 | A completing run after any interrupted ones has executed exactly the statements of all files, in order, each once. |
| `MigrationStatements.InterruptionExecutesPrefix` | cmd/hm-db-migrate/main.go:49-62 | After any interrupted runs the versions recorded are exactly those whose statements were executed. |
| `MigrationStatements.RunExecutesWhatItRecords` | cmd/hm-db-migrate/main.go:49-164 | From any tables, with any faults: a run executes exactly the statements of the versions it newly records, in order. |
| `MigrationStatements.RowsStay` | cmd/hm-db-migrate/main.go:127-140 | No run removes or changes a recorded row. |
| `MigrationRunner.MismatchStopsLaterVersions` | cmd/hm-db-migrate/main.go:127-140 | A checksum mismatch fails the run and leaves that version and every later one untouched; what was executed comes from the versions below it, and the tables are those of a run over these alone. |
| `MigrationRunner.LoadMigrations` | cmd/hm-db-migrate/main.go:77-109 | Sorts the files of any directory by version: ascending, and the same files; strictly ascending if the versions are distinct. |
| `MigrationRunner.DuplicateVersionNeverCompletes` | cmd/hm-db-migrate/main.go:49-62 | Two files of one version with different checksums: no run ever completes, and no later version is applied. |
| `MigrationRunner.CompletesIff` | cmd/hm-db-migrate/main.go:49-62 | From any tables, with any faults: a run completes iff nothing is disturbed, no recorded or earlier checksum differs, and the first unrecorded file of every version splits. |
| `MigrationRunner.FreshRunCompletesIff` | cmd/hm-db-migrate/main.go:49-62 | On an empty database, undisturbed: iff no version has two checksums and the first file of every version splits. |
| `MigrationRunner.TwoFilesOfOneVersion` | cmd/hm-db-migrate/main.go:49-62 | Two different files of one version: the run applies the first and fails. |
| `MigrationRunner.LoadingOrderIsUnique` | cmd/hm-db-migrate/main.go:105-107 | With distinct versions the sorted list does not depend on the directory order. |
| `AlertEvaluator.Evaluate` | internal/sensoralert/evaluator.go:66-173 | The branch-by-branch update equals a specification in four parts: the phase machine, the event as a change into or out of firing, the verdict, and the fields that follow from them. |
| `AlertRuns.PendingIsSustained` | internal/sensoralert/evaluator.go:110-150 | A pending rule has a start from which every counted observation triggers with no gap above MaxDataAge. |
| `AlertRuns.FiringWasSustained` | internal/sensoralert/evaluator.go:85-150 | Every firing event of a rule with ForDuration > 0 has a start at least ForDuration before it such that every fresh, newer observation with a time in between triggers. |
| `AlertRuns.AdjacentReadingsAreClose` | internal/sensoralert/evaluator.go:85-150 | Adjacent counted observations of that stretch are at most MaxDataAge apart unless one in between was first seen stale. |
| `AlertRuns.StaleReadingBridgesGap` | internal/sensoralert/evaluator.go:85-150 | For every enabled rule with a duration and a maximum age, three readings whose times go forward: the rule fires although the middle one, first seen stale, does not trigger and the two judged ones are duration + maximum age apart. |
| `AlertRuns.FiringIsUnbrokenIff` | internal/sensoralert/evaluator.go:85-150 | Every firing event of every run with times that never go back has a stretch of its duration in which every newer observation, fresh or stale, triggers iff MaxDataAge <= 0. |
| `AlertRuns.LastSeenIsStored` | internal/sensoralert/evaluator.go:90-95 | LastValueAt is the time of the last observation seen, stale ones included. |
| `AlertTransitions.FiringEndsIff` | internal/sensoralert/evaluator.go:103-111 | While switched on, a firing rule stops firing at a tick iff that tick brings a fresh, newer reading at or beyond the clear threshold. |
| `AlertTransitions.ClearingIsRecorded` | internal/sensoralert/evaluator.go:103-111 | It then returns to normal with a resolved event that carries the reading. |
| `AlertTransitions.SwitchingOffResolves` | internal/sensoralert/evaluator.go:66-84 | Switching rule or device off returns it to normal; a firing rule logs which of the two it was and the last reading seen. |
| `AlertTransitions.UnjudgedTickChangesNothing` | internal/sensoralert/evaluator.go:85-102 | A missing, stale or already seen reading changes neither status nor waiting time and logs nothing. |
| `AlertTransitions.FiresIff` | internal/sensoralert/evaluator.go:110-150 | With a duration, a rule fires at a tick iff every judged reading of a stretch of at least that duration crossed the trigger threshold, no gap exceeded MaxDataAge, and rule and device stayed on without an alert. |
| `AlertTransitions.FiresAtOnceIff` | internal/sensoralert/evaluator.go:135-150 | Without a duration, it fires at the first judged reading at or beyond the trigger threshold. |
| `AlertTransitions.FiringIsRecorded` | internal/sensoralert/evaluator.go:110-150 | The firing event carries the reading that raised the alert. |
| `AlertTransitions.AlertsAreDated` | internal/sensoralert/evaluator.go:66-173 | FiredAt is the time of the last firing, ResolvedAt that of the last resolution unless the rule fires again. |
| `AlertTransitions.EvaluationIsReported` | internal/sensoralert/evaluator.go:66-102 | The evaluation status says whether the last tick was disabled, without data, stale or judged, and when it was. |
| `AlertTransitions.LastValueIsStored` | internal/sensoralert/evaluator.go:90-91 | LastValue is the value of the last observation seen. |
| `AlertRuns.EventNeedsReading` | internal/sensoralert/evaluator.go:98-150 | While enabled, an event occurs iff the firing status changes, and only with a counted reading beyond the threshold it names. |
| `AlertRuns.ChatterIsBounded` | cmd/hm-api-server/alerts.go:416-421 | With the validated strict gap, for both directions and any run: total variation of the counted values >= (events - 1) * abs(trigger - clear). |
| `AlertWorker.Database.EvaluateDBRule` | cmd/hm-sensor-alert-worker/main.go:143-176 | One evaluation commits state and event together, or neither, wherever the database fails. |
| `AlertWorker.EventLogAgreesWithState` | cmd/hm-sensor-alert-worker/main.go:143-259 | Over any sequence of requests for any rules, with edits, disabling and failures: each rule's log strictly alternates from firing on, #firing - #resolved is 1 iff the stored status is firing, and FiredAt, ResolvedAt and PendingSince match the status. |
| `AlertWorker.FailedRequestsVanish` | cmd/hm-sensor-alert-worker/main.go:143-176 | Removing a request that did not commit changes no later result of the run. |
| `AlertWorker.CommitsIff` | cmd/hm-sensor-alert-worker/main.go:143-176 | A request commits iff its metric is known and no step that it comes to fails. |
| `AlertHistory.HistoryIsRun` | cmd/hm-sensor-alert-worker/main.go:143-176 | Among any other rules, edits and failures: the stored state and events of a rule that stays as it is are those of a run of the evaluator over its committed evaluations, each event dated by its evaluation. |
| `AlertHistory.StoredChatterIsBounded` | cmd/hm-sensor-alert-worker/main.go:143-259 | So the chatter bound holds of the event table: total variation of the values judged >= (stored events - 1) * abs(trigger - clear). |
| `AlertHistory.StoredFiringWasSustained` | cmd/hm-sensor-alert-worker/main.go:143-259 | And a stored firing event comes after a trigger that held for the rule's duration in the committed evaluations. |
| `Rollup.WeightedIsDirect` | cmd/hm-db-maint/main.go:110-147 | Averaging hourly means weighted by their counts gives the mean and count of the minutes of those hours, NULL iff there are none. |
| `Rollup.HourRow` | cmd/hm-db-maint/main.go:110-147 | An hour row is written iff the statement takes a minute of the hour, and then averages exactly the minutes it takes. |
| `Rollup.CoarseRow` | cmd/hm-db-maint/main.go:110-147 | The same for half-days and days: they average exactly the minutes of the hours that are taken. |
| `Rollup.HourRowIsDirectIff` | cmd/hm-db-maint/main.go:110-147 | An hour row that is written is the mean and count of the whole hour iff no minute of the hour before the lower bound carries a value. |
| `Rollup.CoarseRowIsDirectIff` | cmd/hm-db-maint/main.go:110-147 | The same for half-day and day rows, whose statements leave out whole hours. |
| `FiniteSums.SumByGroups` | cmd/hm-db-maint/main.go:110-147 | Summing group by group is summing everything, as GROUP BY needs it. |
| `RollupMeans.CellIsMean` | cmd/hm-db-maint/main.go:100-147 | Over any minutes, listed one by one: the average is their sum over their number and the count is their number, NULL and 0 without any. |
| `RollupMeans.OneMinuteMore` | cmd/hm-db-maint/main.go:100-147 | One minute more raises the count by one and average times count by its value iff it carries the metric. |
| `RollupMeans.BucketHolds` | cmd/hm-db-maint/main.go:110-147 | A bucket holds the times from a multiple of its width up to the next. |
| `RollupMeans.PartHolds` | cmd/hm-db-maint/main.go:110-147 | The part a statement takes, in seconds: from the bound on, rounded up to a whole hour for half-days and days. |
| `RollupMeans.HourRowIsMean` | cmd/hm-db-maint/main.go:110-147 | An hour row that is written holds mean and number of the device's values in that hour from the bound on. |
| `RollupMeans.RowIsMean` | cmd/hm-db-maint/main.go:67-147 | In every run, a row of any width that the last cycle wrote holds mean and number of all values ever stored for the device between the statement's first time and the end of the bucket. |
| `RollupMeans.RightRowIsMean` | cmd/hm-db-maint/main.go:110-147 | A row that is right holds mean and number of the values of its whole bucket. |
| `RollupMeans.BoundIsGreatest` | cmd/hm-db-maint/main.go:110-147 | A statement takes what is neither before now() - lookback nor before the cutoff. |
| `RollupMeans.CutoffIsNextMidnight` | cmd/hm-db-maint/main.go:84-98 | The first cutoff is the midnight after the day of the earliest minute, or of now(). |
| `RollupMeans.CutoffStays` | cmd/hm-db-maint/main.go:84-98 | Once stored, the cutoff never changes. |
| `RollupMeans.CycleDropsOldMinutes` | cmd/hm-db-maint/main.go:149-159 | A cycle drops exactly the minutes older than the retention. |
| `RollupRuns.RefreshIsFaithful` | cmd/hm-db-maint/main.go:67-82 | After one refresh every bucket of the three tables that starts at or after the bound is read directly from the minutes, even when each statement has its own now(). |
| `RollupRuns.RefreshIsIdempotent` | cmd/hm-db-maint/main.go:67-82 | Refreshing again at the same times changes nothing. |
| `RollupRuns.RetentionKeepsFaith` | cmd/hm-db-maint/main.go:149-159 | Dropping old minutes keeps faithful every bucket that starts inside the retention. |
| `RollupRuns.CycleIsFaithful` | cmd/hm-db-maint/main.go:67-159 | After every cycle of every run, what starts at or after the bound is read directly from the minutes, if lookback <= retain. Older rows are the subject of RowAfterCycle. |
| `RollupRuns.FaithfulIffRetained` | cmd/hm-db-maint/main.go:21-48 | From the bound on, rows are right on every run iff lookback <= retain; the failing run begins on an empty database and stores what a collector can store. |
| `RollupRuns.KeptIsArchived` | cmd/hm-db-maint/main.go:149-159 | Where retention has not reached, the minute table holds what was ever stored. |
| `RollupRuns.RowAfterCycle` | cmd/hm-db-maint/main.go:67-147 | For every row of each width, however old, and every run: a cycle leaves it alone iff its statement takes nothing of the bucket; otherwise the new row is the average of all minutes ever stored in the bucket iff what the statement leaves out carries no value. |
| `RollupRuns.RowStaysRightIff` | cmd/hm-db-maint/main.go:67-147 | A row that was right stays right through a cycle iff the bound has not passed its start, or nothing of it is written, or nothing of value is left out. |
| `RollupRuns.SweptRowGoesWrong` | cmd/hm-db-maint/main.go:110-147 | Under every setting whose lookback spans two minutes (two hours' starts for half-days and days), a run of storable values in which a right row of each width is overwritten from part of its bucket. |
| `RollupJob.UpsertFromMinutes` | cmd/hm-db-maint/main.go:100-147 | Upserting one aggregated group after another, in any order, merges exactly the specified hour rows into the table. |
| `RollupJob.UpsertFromRollup` | cmd/hm-db-maint/main.go:100-147 | The same for the weighted rows. |
| `RollupJob.Maintenance.EnsureAccuracyCutoff` | cmd/hm-db-maint/main.go:84-98 | The stored cutoff, or one day after the day of the earliest minute, or of now when there is none. |
| `RollupJob.Maintenance.RefreshRollups` | cmd/hm-db-maint/main.go:67-82 | The cutoff, then the three upserts in order, each reading what the one before left. |
| `RollupJob.Maintenance.RunCycle` | cmd/hm-db-maint/main.go:38-48 | The job's tables are those of a run of stores and cycles; after each cycle everything from the bound on is faithful, if lookback <= retain. |
| `SensorStore.Store.UpsertMinute` | internal/sensorstore/store.go:109-153 | One sparse upsert at the truncated minute, or the named error, or nothing for an empty reading. |
| `SensorStore.ColumnIsLatestWrite` | internal/sensorstore/store.go:109-128 | After any list of writes each column holds the value of the last write that carried it. |
| `SensorStore.ColumnNeverReturnsToNull` | internal/sensorstore/store.go:109-128 | No later write turns a stored column back to NULL. |
| `SensorStore.Store.SyncDevice` | internal/sensorstore/store.go:46-107 | Normalises the fields, checks them in the source's order, and upserts the row, or names the error and changes nothing. |
| `SensorStore.SyncRespectsOwner` | internal/sensorstore/store.go:19-35 | One call never takes a device from its owner, an explicit success makes the caller the owner, a rejected call changes no field. |
| `SensorStore.OwnerStays` | internal/sensorstore/store.go:19-35 | Over any list of calls an owner never changes. |
| `SensorStore.OwnershipIsClaimedOnce` | internal/sensorstore/store.go:19-107 | After an explicit claim succeeded, a later call for the device succeeds iff it explicitly names the same source and its sensor type is valid. |
| `DeviceRows.SyncFailsIff` | internal/sensorstore/store.go:46-107 | Which of the five errors a registration meets, or none. |
| `DeviceRows.NewDeviceRow` | internal/sensorstore/store.go:46-107 | Every field of a new device's row, with the label falling back to the address and the location to the label. |
| `DeviceRows.KnownDeviceRow` | internal/sensorstore/store.go:19-35 | Every field of a known device's row: what is preserved, what the call replaces, and what stays when the call names none. |
| `DeviceRows.OtherDevicesStay` | internal/sensorstore/store.go:19-107 | Other devices' rows stay, and a failed call changes none. |
| `DeviceRows.MinuteRows` | internal/sensorstore/store.go:142-143 | Sixty seconds share a minute row. |
| `Text.NormalizeMACIsIdempotent` | internal/sensor/types.go:36-53 | A normalised address is its own normal form. |
| `TextLaws.SpellingDoesNotMatter` | internal/sensor/types.go:36-53 | An address is known by its twelve hex digits: any spelling of them, in either case, with dashes, colons and dots anywhere and white space around, gives the same six pairs. |
| `TextLaws.NoAddressIff` | internal/sensor/types.go:36-53 | Text that spells no twelve hex digits, and only such text, is no address. |
| `TextLaws.TrimFinds` | internal/sensorstore/store.go:46-52 | Trimming leaves exactly the text between the white space around it. |
| `TextLaws.LatinSpaces` | internal/sensorstore/store.go:46-52 | Which characters of Latin-1 are white space. |
| `SampleAggregation.Collector.Add` | cmd/hm-cisco-iot-orchestrator-collector/aggregate.go:18-51 | One step under the mutex: a consecutive duplicate changes no sample, any other reading joins its window; conservation is kept. |
| `SampleAggregation.Collector.FlushCompleted` | cmd/hm-cisco-iot-orchestrator-collector/aggregate.go:53-72 | Whatever order the map is visited in and whichever writes fail: the windows left are those not yet complete and those whose write failed; the log keeps what it held and grows by exactly the dropped windows that held samples, each once, which are counted; no stored column becomes NULL; conservation is kept. |
| `SampleAggregation.Collector.FlushAll` | cmd/hm-cisco-iot-orchestrator-collector/aggregate.go:74-86 | The same for all windows: what is left are those whose write failed, the log grows by exactly the others that held samples; no error iff no window is left. |
| `SampleAggregation.Collector.Flush` | cmd/hm-cisco-iot-orchestrator-collector/aggregate.go:114-137 | The medians of a window that has samples are written at its minute, or the window is reported failed. |
| `SampleAggregation.ExtensionErasesNothing` | internal/sensorstore/store.go:109-128 | As the log only grows, no step of the collector turns a stored column back to NULL. |
| `SampleAggregation.AdmissionConserves` | cmd/hm-cisco-iot-orchestrator-collector/aggregate.go:18-51 | Adding a reading keeps the law that the samples of flushed windows followed by those of the open window are exactly the admitted samples, in order. |
| `WindowLaws.SharesWindowIff` | cmd/hm-cisco-iot-orchestrator-collector/aggregate.go:18-36 | Readings share a window iff they come from one device in one minute. |
| `WindowLaws.StaysOpenIff` | cmd/hm-cisco-iot-orchestrator-collector/aggregate.go:53-72 | After a flush a window is still open iff it is not before the current one, or has values and its write fails. |
| `WindowLaws.MediansOfWindow` | cmd/hm-cisco-iot-orchestrator-collector/aggregate.go:114-137 | A metric is written iff the window has samples of it, with their median. |
| `WindowLaws.WindowIsStoredAt` | cmd/hm-cisco-iot-orchestrator-collector/aggregate.go:114-137 | It is stored at the window's minute under the normal address. |
| `WindowLaws.UnfilteredIsStored` | cmd/hm-ble-collector/main.go:669-733 | After a successful flush of the BLE collector, lux and every metric without a threshold hold the window's median. |
| `WindowLaws.OtherColumnsStay` | cmd/hm-ble-collector/main.go:669-696 | A flush changes no other row and no column that the window does not carry. |
| `WindowLaws.FilteredColumns` | cmd/hm-ble-collector/main.go:673-680 | The filter sees every stored column but lux and the two soil metrics. |
| `SampleAggregation.FlushConserves` | cmd/hm-cisco-iot-orchestrator-collector/aggregate.go:53-86 | Flushing and dropping a window keeps the same law. |
| `SampleAggregation.ColumnsAreLatestMedians` | internal/sensorstore/store.go:109-128 | Each stored column is the median of the latest flushed window that carries the metric, unless a history backfill stored it later. |
| `SampleAggregation.Collector.Backfill` | cmd/hm-cisco-iot-orchestrator-collector/aggregate.go:139-172 | A history reading is stored past the windows and touches none of them. |
| `MqttFraming.Buffer.WriteRemainingLength` | cmd/hm-cisco-iot-orchestrator-collector/mqtt.go:162-174 | The writing loop appends the base-128 encoding of the length. |
| `MqttFraming.Buffer.WriteMQTTPacket` | cmd/hm-cisco-iot-orchestrator-collector/mqtt.go:131-138 | Appends header, length and payload as one frame. |
| `MqttFraming.Buffer.WriteMQTTString` | cmd/hm-cisco-iot-orchestrator-collector/mqtt.go:193-196 | Appends a two-byte length, which wraps above 65535, and the text. |
| `MqttFraming.Stream.ReadRemainingLength` | cmd/hm-cisco-iot-orchestrator-collector/mqtt.go:176-191 | The reading loop decodes at most four bytes, with the errors of a short or malformed stream. |
| `MqttFraming.Stream.ReadMQTTPacket` | cmd/hm-cisco-iot-orchestrator-collector/mqtt.go:140-160 | Reads one packet, or the error and the stream that is left, under the effective limit. |
| `MqttFraming.LengthRoundTrip` | cmd/hm-cisco-iot-orchestrator-collector/mqtt.go:162-191 | A written length reads back, consuming exactly its bytes, iff it is at most 268435455; otherwise it is malformed. |
| `MqttFraming.PacketRoundTrip` | cmd/hm-cisco-iot-orchestrator-collector/mqtt.go:131-160 | A written packet reads back, leaving what follows, iff it is within the limit and 268435455 bytes. |
| `MqttFraming.StreamRoundTrip` | cmd/hm-cisco-iot-orchestrator-collector/mqtt.go:131-160 | Any concatenation of such packets reads back as the same (type, payload) sequence. |
| `MqttFraming.PacketIsStable` | cmd/hm-cisco-iot-orchestrator-collector/mqtt.go:140-160 | Bytes that arrive later never change a packet already read. |
| `MqttFraming.TruncatedFrameIsRefused` | cmd/hm-cisco-iot-orchestrator-collector/mqtt.go:140-160 | No packet is read from a written frame that is cut short anywhere. |
| `MqttFraming.PublishRoundTrip` | cmd/hm-cisco-iot-orchestrator-collector/mqtt.go:120-129 | A length-prefixed topic and its body are recovered iff the topic has at most 65535 bytes. |
| `WireBytes.LengthBytes` | cmd/hm-cisco-iot-orchestrator-collector/mqtt.go:176-191 | Lengths of one to four given bytes: seven bits each, the lowest first. |
| `WireBytes.TopicLengthBytes` | cmd/hm-cisco-iot-orchestrator-collector/mqtt.go:120-129 | Topic lengths have the high byte first. |
| `WireBytes.ShortPacket` | cmd/hm-cisco-iot-orchestrator-collector/mqtt.go:140-160 | A short packet byte by byte; its type is the upper half of the first. |
| `WireBytes.TooLargeIff` | cmd/hm-cisco-iot-orchestrator-collector/mqtt.go:149-154 | A length is too large iff it exceeds the limit, which is one MiB unless a positive one is set. |
| `WireBytes.EndOfStream` | cmd/hm-cisco-iot-orchestrator-collector/mqtt.go:140-160 | Which error a stream meets that ends early. |
| `Protobuf.ConsumeVarint` | cmd/hm-cisco-iot-orchestrator-collector/protobuf.go:208-218 | The loop equals the recursive reader of at most ten bytes, which on success leaves a proper suffix. |
| `Protobuf.ParseDataBatch` | cmd/hm-cisco-iot-orchestrator-collector/protobuf.go:48-75 | The loop equals the field-by-field reading of a batch, errors included. |
| `Protobuf.ParseDataSubscription` | cmd/hm-cisco-iot-orchestrator-collector/protobuf.go:77-112 | The loop equals the field-by-field reading of a message; its wire types are not looked at for known fields. |
| `Protobuf.ConsumeBytes` | cmd/hm-cisco-iot-orchestrator-collector/protobuf.go:220-229 | A successful read leaves a proper suffix, which is why every loop ends. |
| `Protobuf.SkipValue` | cmd/hm-cisco-iot-orchestrator-collector/protobuf.go:239-260 | A successful skip leaves a proper suffix; unknown wire types are refused. |
| `ProtobufLaws.VarintRoundTrip` | cmd/hm-cisco-iot-orchestrator-collector/protobuf.go:208-218 | Every uint64 reads back from its base-128 digits, which are consumed exactly. |
| `ProtobufLaws.VarintIsUint64` | cmd/hm-cisco-iot-orchestrator-collector/protobuf.go:208-218 | No input gives more than 64 bits, so the OR of shifted groups is their sum. |
| `ProtobufLaws.BatchHomomorphism` | cmd/hm-cisco-iot-orchestrator-collector/protobuf.go:48-75 | If parsing a succeeds, parsing a followed by b gives the messages of a followed by those of b, or b's failure. |
| `ProtobufLaws.SubscriptionHomomorphism` | cmd/hm-cisco-iot-orchestrator-collector/protobuf.go:77-112 | Parsing a message continues from what its first whole fields set. |
| `ProtobufLaws.UnknownFieldIsInvisible` | cmd/hm-cisco-iot-orchestrator-collector/protobuf.go:77-112 | A well-formed unknown field at any field boundary changes neither the message nor the error. |
| `ProtobufLaws.ForeignItemIsInvisible` | cmd/hm-cisco-iot-orchestrator-collector/protobuf.go:48-75 | A well-formed field of a batch that is not a message is invisible. |
| `ProtobufLaws.FieldIsStable` | cmd/hm-cisco-iot-orchestrator-collector/protobuf.go:77-112 | More input after a whole field never changes what it set. |
| `ProtobufFields.UnusedFieldIsInvisible` | cmd/hm-cisco-iot-orchestrator-collector/protobuf.go:77-112 | A field under a number other than 1, 2, 3, 4, 12 and 16, with a varint, eight bytes, a delimited value or four bytes as its wire type says, may stand anywhere and changes nothing. |
| `ProtobufFields.UnknownWireTypeIsRefused` | cmd/hm-cisco-iot-orchestrator-collector/protobuf.go:239-260 | Any other wire type refuses the message. |
| `ProtobufFields.UsedFieldNeedsBytes` | cmd/hm-cisco-iot-orchestrator-collector/protobuf.go:77-112 | Under the numbers in use, an unreadable delimited value refuses the message, whatever the wire type. |
| `ProtobufFields.ShortValueFails` | cmd/hm-cisco-iot-orchestrator-collector/protobuf.go:239-260 | Fewer than eight or four bytes are too short. |
| `ProtobufFields.NumberFailsIff` | cmd/hm-cisco-iot-orchestrator-collector/protobuf.go:208-218 | A varint is unreadable iff none of its first ten bytes ends it. |
| `ProtobufFields.BytesFailIff` | cmd/hm-cisco-iot-orchestrator-collector/protobuf.go:220-229 | A delimited value is unreadable iff its length reaches past the end. |
| `ProtobufFields.BrokenMessageRefusesBatch` | cmd/hm-cisco-iot-orchestrator-collector/protobuf.go:48-75 | One malformed message refuses the whole batch with its own error. |
| `ProtobufFields.TimesInSeconds` | cmd/hm-cisco-iot-orchestrator-collector/protobuf.go:145-148 | Plain times, nanoseconds that carry, and the two pairs that mean no time. |
| `ProtobufFields.BrokenTimeIsMissing` | cmd/hm-cisco-iot-orchestrator-collector/protobuf.go:114-149 | A time with an unreadable field is missing. |
| `ProtobufFields.TimeSkipsUnusedFields` | cmd/hm-cisco-iot-orchestrator-collector/protobuf.go:114-149 | Unused fields of a time are skipped. |
| `ProtobufFields.AdvertisementSkipsUnusedFields` | cmd/hm-cisco-iot-orchestrator-collector/protobuf.go:151-176 | Unused fields of an advertisement are skipped. |
| `ProtobufFields.BrokenAdvertisementEnds` | cmd/hm-cisco-iot-orchestrator-collector/protobuf.go:151-176 | An unreadable field ends an advertisement and leaves an empty address or a strength of zero behind. |
| `ProtobufFields.FirstApplicationCounts` | cmd/hm-cisco-iot-orchestrator-collector/protobuf.go:178-199 | The first delimited field 1 is the application event, whatever follows. |
| `ProtobufFields.ApplicationSkipsOtherFields` | cmd/hm-cisco-iot-orchestrator-collector/protobuf.go:178-199 | Other fields before it are skipped. |
| `ProtobufFields.BrokenApplicationIsEmpty` | cmd/hm-cisco-iot-orchestrator-collector/protobuf.go:178-199 | An unreadable field before it leaves none. |
| `ProtobufLaws.TimestampRoundTrip` | cmd/hm-cisco-iot-orchestrator-collector/protobuf.go:114-149 | Every normalised time that the wire can carry, other than the two pairs that mean no time, reads back from its encoding. |
| `ProtobufLaws.TimesAreNormal` | cmd/hm-cisco-iot-orchestrator-collector/protobuf.go:145-148 | Whatever time is read is normalised, with nanoseconds carried into the seconds, and is never the zero time. |
| `ProtobufLaws.AdvertisementRoundTrip` | cmd/hm-cisco-iot-orchestrator-collector/protobuf.go:151-176 | Address and signed signal strength read back, an absent strength as absent. |
| `ProtobufLaws.SubscriptionRoundTrip` | cmd/hm-cisco-iot-orchestrator-collector/main_test.go:1018-1054 | Every message reads back from the encoding that the repository's tests build. |
| `ProtobufLaws.BatchRoundTrip` | cmd/hm-cisco-iot-orchestrator-collector/main_test.go:1018-1054 | A batch of encoded messages reads back as those messages. |
| `Echonet.BuildGetFrame` | cmd/hm-echonet-collector/main.go:301-307 | The loop builds the request's bytes: header, count byte, then a code and a zero length each. |
| `Echonet.ParseFrame` | cmd/hm-echonet-collector/main.go:309-336 | The position loop equals the recursive reading of header and properties, with its three errors. |
| `Echonet.GetRoundTrip` | cmd/hm-echonet-collector/main.go:301-336 | A built request reads back with its TID, objects, service and all properties empty iff there are at most 255 codes. |
| `Echonet.GetFrameReads` | cmd/hm-echonet-collector/main.go:301-336 | For any number of codes, exactly the first count % 256 of them are read back. |
| `Echonet.ParsesIffEncoded` | cmd/hm-echonet-collector/main.go:309-336 | Data parses as a frame iff the frame is well formed and the data starts with its encoding. |
| `Echonet.FrameRoundTrip` | cmd/hm-echonet-collector/main.go:309-336 | Every well-formed frame reads back; what follows it is ignored. |
| `Echonet.TruncatedFrameIsRefused` | cmd/hm-echonet-collector/main.go:309-336 | A frame cut short anywhere is refused. |
| `WireBytes.RequestBytes` | cmd/hm-echonet-collector/main.go:301-307 | The request for one code, byte by byte. |
| `WireBytes.FrameFields` | cmd/hm-echonet-collector/main.go:309-318 | Where the fields of an accepted frame are. |
| `WireBytes.FrameErrors` | cmd/hm-echonet-collector/main.go:309-336 | Which of the three errors a frame meets. |
| `EchonetValues.DecodeUnsigned` | cmd/hm-echonet-collector/main.go:443-452 | The big-endian value of 1 to 8 bytes; any other length is an error. |
| `EchonetValues.DecodeSigned` | cmd/hm-echonet-collector/main.go:454-464 | Shifting up to 64 bits and back down gives the big-endian value minus 256^n iff the top bit is set. |
| `EchonetValues.SignExtends` | cmd/hm-echonet-collector/main.go:461-463 | The wrapping left shift and sign-keeping right shift amount to two's complement on the data's own width. |
| `EchonetValues.SignedRoundTrip` | cmd/hm-echonet-collector/main.go:454-464 | Every signed integer of n bytes is decoded from its two's complement bytes. |
| `WireBytes.ValueBytes` | cmd/hm-echonet-collector/main.go:443-464 | The values of given bytes, and that one to eight of them are supported. |

## Left out

- Rounding, NaN and infinities of float64: values are reals, and the finite-value checks are taken as passed.
- Integers of Go `int` and `time.Time` are unbounded; time zones and the formatted window keys are replaced by (time, address) pairs.
- Text is a sequence of characters; bytes that are not UTF-8, and lower-casing outside ASCII (which no accepted address contains), are not modelled.
- Network, D-Bus, HTTP, UDP, logging, environment parsing, collector status rows and the wall clock: inputs of the modelled functions.
- The read-deadline loop of the MQTT connection: framing is modelled over complete byte streams, and writers do not fail in the middle of a packet.
- MqttFraming.Stream.ReadFull: a read blocks until its bytes are there or the stream has ended.
- Window bookkeeping of the BLE collector (`add`, `flushCompleted`, `flushAll`): the same algorithm as the IoT Orchestrator collector's, modelled in SampleAggregation; OutlierFlush models the flush itself and its repetition.
- SampleAggregation.Collector.Flush: with no database the source drops windows silently; a database is always present here. Labels and locations carried by a window are not modelled, nor is aliasing of the aggregate pointers held in the map.
- OutlierFilter.Collector.FilterMetric: histories are map values and not shared pointers, as no caller keeps one.
- SpacesProcessor.Processor.ProcessEvent: label and location of the reading, debug output, and address normalisation of the event are inputs or left out.
- Protobuf.ParseDataSubscription: the partial message that accompanies an error is not returned, as its caller discards it.
- AlertRuns.FiringWasSustained: for observation times that never go back, because an older observation would move `LastValueAt` back and be judged again by the next one.
- AlertWorker.Database.EvaluateDBRule: one rule at a time, in the order the database serialises them; deletion of rules, retention of old events, and the rule's copied name and threshold columns are left out.
- MigrationRunner.Database.RunMigrations: one runner at a time; what the SQL statements do to other tables is not modelled, only which are committed and in which order.
- MigrationRunner.LoadMigrations: file names are already parsed; among equal versions the library sort may choose any order, the model keeps the later file first.
- RollupJob.Maintenance.RefreshRollups: the SQL text is not built, only what it computes; no collector writes between the statements of one cycle; buckets are aligned to midnight UTC, as TimescaleDB's `time_bucket` aligns hours, half-days and days; a cycle that fails half-way is not modelled.
- OutlierRetries.SpikeIsStoredIffNotQuiet: leaves out plans in which an even number of failures ends the band's majority without making the spike near, as a tie or several failed spikes of different values can; from there on every value counts, and `OutlierRetries.SpikeIsStoredIffItPasses` covers those plans by the filter's verdict.
- OutlierRetries.SpikeIsStoredIffItPasses: the retries of a window follow each other without another window of that sensor in between; for other orders `OutlierFlush.SpikesAreNeverStored` speaks of the readings as the filter meets them.
- SensorStore.Store.SyncDevice: `updated_at` and failures of the database itself are left out.
- EchonetValues.DecodeSigned: the final conversion to float64 rounds above 2^53; the integer is modelled.
- Payload decoders of fixed offsets, range sanitising, the energy collectors other than ECHONET framing, REST handlers, web pages and the import tools: each is settled by reading one branch.
- GATT scheduling, reconnect backoff: no property over runs beyond what the collector's steps keep.
