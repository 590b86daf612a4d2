# Helio, verified

A Dafny model of the engines inside Helio, a solar monitor that reads an inverter through its
logging stick, keeps telemetry and bills in SQLite, and raises alerts. Each engine is modelled the way
the code is written (loops, in-place updates, transactions as methods; rules as functions; protocols as
interleaved steps) and proved against an independent account of what it is for.

| file | engine |
|---|---|
| `Crc16.dfy`, `Frame.dfy`, `Transport.dfy`, `FrameFields.dfy`, `ExchangeFields.dfy` | the Solarman V5 and Modbus codec and the exchange with the logger |
| `LimiterSpec.dfy`, `LimiterRuns.dfy`, `LimiterAdmission.dfy`, `LimiterLimits.dfy`, `Limiter.dfy` | the login limiter: a scanned table, its runs, exactly whom it lets in and where its bounds give way, and the indexed structure that refines it |
| `Telemetry.dfy`, `CollectorEvents.dfy` | the collector that coalesces a minute's snapshots, over the merging upsert, and its event log |
| `HourSplit.dfy`, `Calendar.dfy`, `Summaries.dfy`, `SummaryStore.dfy`, `Ledger.dfy`, `SummaryFacts.dfy` | daily and monthly summaries: one-pass rebuild against per-period scans |
| `Credits.dfy`, `CreditBills.dfy` | the ledger of energy credits |
| `AlertRules.dfy`, `AlertHistory.dfy`, `AlertEngine.dfy`, `AlertRuns.dfy`, `AlertEvidence.dfy`, `AlertRows.dfy` | seven debounced alert rules, what their state and evidence say of the whole history, the transactional engine and the rows it leaves |
| `Hub.dfy`, `HubHistory.dfy`, `Runtime.dfy`, `RuntimeCalls.dfy`, `PushScheduler.dfy` | three concurrency protocols |
| `Baseline.dfy`, `BaselineFacts.dfy`, `Expectation.dfy`, `ExpectationFacts.dfy` | the learned production baseline and the bounded expectation built on it |
| `Common.dfy`, `Reorder.dfy` | what several of these share: the zero time, optional values, rearranged sequences, sorted keys |

`dafny verify dfyconfig.toml` checks all of it.

The methods are proved against specification functions. What those functions mean is proved separately, in the
modules named `...Fields`, `...Facts`, `...History`, `...Evidence` and the like: of fields, offsets, readings and
events, without the functions in question.

Instants and durations are integers, energies and powers are reals, bytes and the CRC register are bit
vectors; Go's zero time is a constant. SQL tables are maps or sequences, an `ON CONFLICT` clause is the
merge it states, a transaction either commits or changes nothing. The limiter's key (a keyed digest), the
tariff covering a bill, the local calendar and what the inverter, the network and the clock deliver are
parameters. A query without an order may read its rows in any order.

Where the code does not do what one might expect:

- An hour is split at local midnights by a loop that never checks that the next midnight lies ahead.
  `HourSplit.SplitTerminatesIff` says exactly when it ends, and `SkippedMidnightNeverEnds` gives a zone in
  which it does not.
- A collector that is cancelled while its start gate is held can still enter `Run` once the gate is released,
  if it had not reached its `select` when it was cancelled: `Runtime.CancelledYetEnters` and the exact
  condition `Runtime.EntersIff`. One that was parked there stays out (`Runtime.ParkedAndCancelledStaysOut`,
  `Runtime.CancelledAndStaysOut`), but a caller that has only cancelled cannot tell which it was. Waiting for
  the goroutine, as `cancelCurrentCollector` does, rules the entry out (`Runtime.CancelledStaysOut`).
- Two snapshots with the same observation time, or a lifetime counter that falls within a minute, can make
  the coalescing collector differ from saving every snapshot (`Telemetry.TieLosesReading`,
  `Telemetry.DipLosesLifetime`); `Telemetry.CoalescingIsExactOverall` is the exact condition for any read order.
- A success deletes the key's present bucket in the limiter even if the admission belongs to an older one
  (internal/auth/limiter.go:119-124), and with it the attempts in flight there:
  `LimiterLimits.LateSuccessDestroysNewerBucket`. A late failure of a key without a bucket may evict another
  key's idle bucket. `LimiterLimits.DeadGenerationSurvivors` says exactly which buckets are left, and
  `LimiterLimits.ReservationsLostIff` when work in flight is forgotten.
- A late failure may push a bucket's failures plus pending past five: `LimiterLimits.SixOutOfFive`, with the
  exact condition for a step in `StepStaysWithinIff` and for a run in `RunStaysWithinIff`. What five does bound,
  in every generation, is its unfinished admissions plus the failures of its own
  (`LimiterRuns.QuotaOfEveryGeneration`).

## Model

| member | source | states |
|---|---|---|
| `Crc16.CRC16` | internal/solarman/crc.go:5-18 | The two nested loops, with their in-place shifts, compute the checksum `Crc` folds one byte at a time; `CrcIsBitSerial` and the lemmas below say what that checksum means. |
| `Crc16.StepBijective` | internal/solarman/crc.go:9-15 | One bit step of the register is a bijection on 16-bit states: `Unstep` undoes it on both sides. |
| `Crc16.CrcIsBitSerial` | internal/solarman/crc.go:5-18 | The bytewise checksum is the bit-serial register of MODBUS over Serial Line V1.02, section 2.5.1.2, fed with the message's bits, lowest first. |
| `Crc16.CheckValue` | internal/solarman/crc.go:5-18 | The checksum of the nine ASCII digits 1 to 9 is the check value 0x4B37 published for CRC-16/MODBUS. |
| `Crc16.BurstDetected` | internal/solarman/crc.go:5-18 | Two different messages of equal length that differ only within 16 consecutive bits never have the same checksum, wherever the window lies. |
| `Crc16.AdjacentBytesDetected` | internal/solarman/crc.go:5-18 | Two messages that differ only within two adjacent bytes, a swap of them included, have different checksums. |
| `Crc16.CrcResidue` | internal/solarman/frame.go:126-133 | For any 16-bit trailer: message plus trailer (low byte first) has checksum 0 if and only if the trailer is the message's own checksum. |
| `Frame.BuildFrame` | internal/solarman/frame.go:114-124 | Filling the header by offset and appending payload, checksum and end mark yields the frame laid out field by field in `FrameOf`. |
| `FrameFields.BuiltCarries` | internal/solarman/frame.go:114-124 | Any built frame, read back by offset: markers, payload length, control, sequence and serial with their lowest byte first, the payload, and the sum of what lies between. |
| `Frame.AdditiveChecksum` | internal/solarman/frame.go:135-141 | The loop returns the sum of all bytes modulo 256. |
| `FrameFields.ChecksumIsTotal` | internal/solarman/frame.go:135-141 | As a number the checksum is the sum of the byte values modulo 256. |
| `Frame.ChecksumSeesOneByte` | internal/solarman/frame.go:135-141 | Changing exactly one byte always changes the additive checksum. |
| `Frame.BuildReadRequest` | internal/solarman/frame.go:32-48 | Refuses a register count outside 1..125 (MODBUS Application Protocol V1.1b3, section 6.3); otherwise the request frame, whose bytes `FrameFields.RequestArrives` gives one by one. |
| `FrameFields.RequestArrives` | internal/solarman/frame.go:32-48 | The logger's side: the request is 36 bytes, carries its control, serial and sequence, a type byte and fourteen zeros, then slave, function 3, start and count with their high byte first, and a CRC that leaves residue 0. |
| `Frame.ParseReadResponse` | internal/solarman/frame.go:52-112 | For every byte string, every check in the code's order with the code's error, or the registers; no input indexes out of range. |
| `FrameFields.Verdicts` | internal/solarman/frame.go:52-112 | For every byte string, exactly when it is accepted and exactly what each of the four specific errors means, by offset and value; the rest is malformed. |
| `FrameFields.AcceptedRegisters` | internal/solarman/frame.go:107-111 | Register i of an accepted frame is 256 times the byte at 28 + 2i plus the byte after it. |
| `Frame.ValidateModbusCRC` | internal/solarman/frame.go:126-133 | Accepts exactly when the last two bytes are the checksum of the rest. |
| `Frame.CrcMatchesIffResidueZero` | internal/solarman/frame.go:126-133 | A Modbus message passes the CRC check if and only if the checksum of the whole message is 0. |
| `Frame.CrcMatchesIffBuilt` | internal/solarman/frame.go:126-133 | A Modbus message passes the CRC check if and only if it is some message with its own checksum appended. |
| `Frame.ParseOfResponse` | internal/solarman/frame.go:52-124 | Round trip: parsing a response frame built for 1..125 registers returns exactly those registers, whatever the free fields hold. |
| `Frame.AcceptedIsResponse` | internal/solarman/frame.go:52-112 | Converse: every accepted frame is such a build of the returned registers; only the high sequence byte and 12 metadata bytes are free. |
| `Frame.OneByteChangedIsRejected` | internal/solarman/frame.go:52-112 | Changing exactly one byte of an accepted frame, anywhere, makes it rejected. |
| `Frame.TwoModbusBytesChangedIsRejected` | internal/solarman/frame.go:66-81 | A change confined to two adjacent Modbus bytes is rejected even when it leaves the additive checksum as it was. |
| `Transport.Connection.ReadFrame` | internal/solarman/transport.go:67-93 | Cuts one frame off the stream by its declared length, or reports a short or oversized one; closes the connection on failure. |
| `ExchangeFields.FramesEndWhereAnnounced` | internal/solarman/transport.go:67-93 | The frame is the first 13 + n bytes, n being the announced payload length, if there are that many and they are at most 512; otherwise exactly which error. |
| `Transport.Connection.RoundTrip` | internal/solarman/transport.go:41-65 | For every incoming byte stream: what is written, what is left unread and what is returned are those of `RunExchange`. |
| `Transport.BuildLoggerTimeResponse` | internal/solarman/transport.go:107-115 | The reply carries the request's serial, its sequence with the low byte raised by one modulo 256, the answering control code and the time. |
| `ExchangeFields.ReplyIs` | internal/solarman/transport.go:107-115 | Every byte of the reply by offset: command less 0x30, low sequence byte plus one, the request's serial, the fixed word, the time with its lowest byte first, zeros and the checksum. |
| `ExchangeFields.ChatterIs` | internal/solarman/transport.go:95-105 | A frame is chatter if and only if its markers and checksum are sound and its command is one of the five, by offset and value. |
| `Transport.ExchangeSkipsChatter` | internal/solarman/transport.go:49-65 | On any sequence of logger frames followed by another frame, that frame is returned and exactly one reply per logger frame is written, in order. |
| `Transport.ExchangeIsASplit` | internal/solarman/transport.go:49-65 | Conversely every byte stream is a sequence of logger frames and then what ends the exchange, be it an answer, a short read or an oversized frame; the replies are one per skipped frame, in order, and what follows the answer is left unread. |
| `Transport.AcceptedIsNeverSkipped` | internal/solarman/transport.go:95-105 | No frame that `ParseReadResponse` accepts is taken for a logger frame. |
| `Transport.ReplyIsNotChatter` | internal/solarman/transport.go:107-115 | No reply is itself a logger frame, so two ends cannot answer each other for ever. |
| `Transport.RegistersArriveThroughChatter` | internal/solarman/transport.go:22-65 | End to end: a response behind any amount of chatter comes back and parses to its registers. |
| `LimiterSpec.SomeVictim` | internal/auth/limiter.go:179-190 | In a well-formed table with an idle entry one entry is evicted before all others: fewest failures, then longest idle. |
| `LimiterSpec.RefusedOnlyInFlight` | internal/auth/limiter.go:85-89 | Room is refused if and only if the table is full and every entry has work in flight. |
| `Limiter.Limiter.constructor` | internal/auth/limiter.go:45-59 | A new limiter is empty, indexed correctly and has the given capacity. |
| `Limiter.Limiter.PruneExpired` | internal/auth/limiter.go:169-177 | Popping the front of the expiry list deletes exactly the entries a scan of the whole table finds expired. |
| `Limiter.Limiter.MakeRoom` | internal/auth/limiter.go:179-190 | Looking only at the fronts of six lists deletes exactly the entry a full scan evicts, and refuses exactly when the scan finds none. |
| `Limiter.Limiter.DeleteBucket` | internal/auth/limiter.go:205-215 | Removes the bucket from the map and from both lists it may be on; the other buckets and lists are unchanged. |
| `Limiter.Limiter.RecordLateFailure` | internal/auth/limiter.go:149-167 | A failure whose generation is gone counts in the key's present bucket, or opens one that is evictable at once. |
| `Limiter.Limiter.Admit` | internal/auth/limiter.go:71-94 | The three indexes stay exact and the outcome, the wait and the new state are those of `LimiterSpec.Admit` on the scanned table. |
| `LimiterAdmission.AdmittedIff` | internal/auth/limiter.go:71-94 | An attempt is admitted if and only if its key has an unexpired bucket with failures plus pending below 5, or has none and there are fewer unexpired buckets than places or some unexpired one is idle; and how long each refusal says to wait. |
| `LimiterAdmission.AdmittingLeaves` | internal/auth/limiter.go:71-94 | After an admission the key's bucket holds one attempt more or is new and lasts 15 minutes; every other unexpired bucket is as before, but for the idle one with the fewest failures, longest idle, if a new bucket needed its place. |
| `Limiter.Limiter.Complete` | internal/auth/limiter.go:108-147 | Completing refines `LimiterSpec.Complete`; a null or already completed admission changes nothing. |
| `LimiterAdmission.CompletingCounts` | internal/auth/limiter.go:108-167 | What success, failure and cancellation do to the key's bucket, own, later or absent: when it is there afterwards and with which failures, pending count and expiry. |
| `LimiterAdmission.CompletingSpares` | internal/auth/limiter.go:108-167 | Every other unexpired bucket is as before, but for the first to go if a late failure opens a bucket in a full table. |
| `LimiterAdmission.LatestIdleGoesLast` | internal/auth/limiter.go:132-158 | A bucket that has just become idle, or failed while idle, is evicted after all others with as many failures. |
| `Limiter.Limiter.BucketCount` | internal/auth/limiter.go:217-222 | The number of unexpired entries of the scanned table. |
| `LimiterRuns.RunKeepsInvariant` | internal/auth/limiter.go:71-167 | Every run of admissions and completions under a clock that does not go back keeps the system invariant. |
| `LimiterAdmission.FailuresAreCounted` | internal/auth/limiter.go:108-167 | In every reachable state a bucket's failures are the failed attempts of its key since it was opened, or 5 if there were more; and the key had no success since. |
| `LimiterAdmission.FewFailuresAreAdmitted` | internal/auth/limiter.go:71-94 | In every reachable state: a key whose failed attempts of the last 15 minutes since its last success, with its attempts in flight, are fewer than 5 is admitted, as long as attempts of fewer keys than places are in flight. |
| `LimiterRuns.QuotaOverRuns` | internal/auth/limiter.go:77-83 | In every reachable state a live bucket's pending count is the number of unfinished admissions of its generation; these plus its own counted failures never exceed 5, failures never exceed 5, and the table never exceeds its capacity. |
| `LimiterRuns.QuotaOfEveryGeneration` | internal/auth/limiter.go:77-83 | For every generation, dead ones included: in every reachable state its unfinished admissions plus its counted failures never exceed 5. |
| `LimiterRuns.NothingExpiredIsLeft` | internal/auth/limiter.go:169-177 | After every operation each remaining entry is unexpired and expires within the window. |
| `LimiterRuns.RefusalIsBounded` | internal/auth/limiter.go:224-230 | Every refusal names a wait between one second and the window. |
| `LimiterRuns.DeadGenerationKeepsPending` | internal/auth/limiter.go:141-167 | Completing an admission whose generation is gone leaves the generation, pending count and expiry of every bucket that remains as they were; failures change by at most one, only under its own key and only on failure. Which buckets remain is the next row. |
| `LimiterLimits.DeadGenerationSurvivors` | internal/auth/limiter.go:118-167 | After such a completion a bucket is still there if and only if it is neither the key's own bucket after a success nor the one evicted because a failure of a key without a bucket found the table full. |
| `LimiterLimits.ReservationsLostIff` | internal/auth/limiter.go:118-124 | Such a completion destroys a bucket with work in flight if and only if it is a success and its key has a newer bucket with work in flight. |
| `LimiterLimits.LateSuccessDestroysNewerBucket` | internal/auth/limiter.go:118-124 | A concrete run in which a success of the first bucket's attempt destroys the second bucket with its attempt in flight. |
| `LimiterLimits.StepStaysWithinIff` | internal/auth/limiter.go:141-158 | From an invariant state in which no bucket's failures plus pending exceed 5, a step takes one past 5 if and only if it is the failure of an open admission whose generation is gone and whose key has a bucket with fewer than 5 failures that stands exactly at 5. |
| `LimiterLimits.RunStaysWithinIff` | internal/auth/limiter.go:71-167 | Over a whole run no bucket exceeds 5 in any state if and only if no event of the run is such a failure. |
| `LimiterLimits.SixOutOfFive` | internal/auth/limiter.go:149-158 | A concrete run to one failure and five attempts in flight in one bucket. |
| `LimiterRuns.SecondCompletionIsNoOp` | internal/auth/limiter.go:108-147 | Completing an admission a second time, with any result, changes nothing. |
| `Telemetry.Store.SaveMinute` | internal/storage/telemetry.go:203-246 | The upsert: refused without an observation time, otherwise the minute's row merges as the `ON CONFLICT` clause says; a store that is down leaves the table as it was. |
| `Telemetry.Collector.Run` | internal/collector/collector.go:106-160 | For every sequence of answers, and for a store that fails whenever it likes: the snapshots handed to the store are the kept ones, each taken or lost on its own, and the events follow. With a store that always takes them the table is that of `Flush(TakeAll(...))`; when the snapshots are coherent too, that of saving every snapshot. |
| `Telemetry.Collector.RecordChanges` | internal/collector/collector.go:139-154 | The status and fault events of one snapshot against the one before; one that fails does not keep the other from being written. |
| `CollectorEvents.EventsTell` | internal/collector/collector.go:139-154 | A row is in the event log if and only if it reports that a success differs in status, or in its fault codes as a multiset, from the success before it, stamped with its own time or else the clock's. |
| `CollectorEvents.EachChangeOnce` | internal/collector/collector.go:139-154 | There are exactly as many rows as such changes. |
| `Telemetry.CoalescingLosesNothing` | internal/collector/collector.go:128-138 | Keeping one snapshot per run of a minute and flushing at the end builds the same table as saving every snapshot, for every coherent read order. |
| `Telemetry.DistinctTimesAreCoherent` | internal/collector/collector.go:136-138 | Distinct observation times and a lifetime counter that does not fall in time are enough for that. |
| `Telemetry.CoalescingIsExact` | internal/collector/collector.go:136-138 | For two snapshots of a minute, coalescing agrees with saving both on every table if and only if they are coherent. |
| `Telemetry.MinuteCoalescingIsExact` | internal/collector/collector.go:136-138 | For any run of one minute it agrees on every table if and only if the kept snapshot has the largest lifetime counter and the first reading of the latest time. |
| `Telemetry.FlushedIsKepts` | internal/collector/collector.go:128-138 | The coalescing collector with its final flush saves exactly the kept snapshots, one after the other. |
| `Telemetry.CoalescingIsExactOverall` | internal/collector/collector.go:128-138 | For any read order, over any minutes and coming back to any of them, the collector agrees with saving every snapshot on every table if and only if in every minute the kept snapshots have the largest lifetime counter and the first reading at the latest time. |
| `Telemetry.TieLosesReading` | internal/collector/collector.go:136-138 | Any two different readings at one instant: saving both keeps the first, the collector the second. |
| `Telemetry.DipLosesLifetime` | internal/collector/collector.go:136-138 | A lifetime counter that falls within a minute: saving both keeps the larger value, the collector the later one. |
| `Telemetry.SaveAllSummarises` | internal/storage/telemetry.go:221-236 | Saved from empty, a minute shows the reading of its latest observation time and the largest lifetime energy of the minute. |
| `HourSplit.SplitCalendarHour` | internal/storage/calendar.go:116-147 | The cursor loop and the rounding loop produce the segments of `Segments`: the stretches between midnights with the minutes of `Apportion`. |
| `HourSplit.SplitTerminatesIff` | internal/storage/calendar.go:119-134 | For zones whose boundaries do not go back, the loop ends if and only if at every instant of the hour the next boundary lies strictly ahead, which the code does not check. |
| `HourSplit.SkippedMidnightNeverEnds` | internal/storage/calendar.go:119-134 | A zone in which the loop stays where it is for ever. |
| `HourSplit.StretchesTile` | internal/storage/calendar.go:119-134 | The segments are non-empty and their durations add up to the hour. |
| `HourSplit.LargestRemainder` | internal/storage/calendar.go:127-145 | Minutes add up exactly to the input, each segment gets the floor or the ceiling of its share, and who is rounded up has a larger remainder (or the same and comes first) than who is not. |
| `Calendar.StretchesAreOverlaps` | internal/storage/calendar.go:119-134 | Each segment is the whole overlap of the hour with its local day, and days come in order. |
| `Calendar.StretchOf` | internal/storage/calendar.go:119-134 | Every local day the hour overlaps has a segment. |
| `Summaries.RebuiltDayIsScan` | internal/storage/calendar.go:46-65 | For any hourly rows, the one pass over segments and the scan over a day's bounds give the day the same energy, peak, coverage weight and length. |
| `Summaries.HasSegmentsIffTouched` | internal/storage/calendar.go:119-134 | Where local days tile time, the loop gives some hour a segment on a day if and only if some hour lies partly between that day's bounds. |
| `Summaries.ScanAnyOrder` | internal/storage/telemetry.go:459-486 | The scan does not depend on the order in which the rows are read. |
| `Summaries.DaysConserve` | internal/storage/calendar.go:46-65 | In every zone in which the cutting loop ends, the rebuilt days together hold exactly the energy and the productive minutes of all hours. |
| `Summaries.RebuildConserves` | internal/storage/calendar.go:27-114 | In every such zone energy, and productive minutes, summed over hours, over rebuilt days and over rebuilt months are the same. |
| `SummaryStore.RebuiltDayAgrees` | internal/storage/telemetry.go:445-498 | A rebuilt day has the energy, peak and coverage that `AggregateDay` finds between that day's bounds, whatever order either reads the rows in. |
| `SummaryStore.MissingDayIsEmpty` | internal/storage/calendar.go:46-65 | A day the rebuild leaves out is one on which `AggregateDay` finds no energy, no peak and no coverage. |
| `SummaryStore.CollectDays` | internal/storage/calendar.go:32-66 | The map of sums has a key for exactly the days on which some hour has a segment, each with the day's fold. |
| `SummaryStore.WriteDays` | internal/storage/calendar.go:80-102 | Writing the sorted days and collecting months: every day's row, a month for exactly the days written, each with the fold over its days. |
| `SummaryStore.Repository.AggregateDay` | internal/storage/telemetry.go:445-538 | Refuses an empty period; otherwise the scanned summary, upserted under its day, the other days untouched. |
| `SummaryFacts.DayScanFacts` | internal/storage/telemetry.go:445-538 | Column by column: energy is the sum of each hour's share by overlap, the peak the highest of the hours that overlap (0 if none is higher), coverage times the period's minutes the sum of each hour's coverage times its overlapping minutes, productive minutes one per live minute with power and five per minute of cloud history. |
| `SummaryStore.Repository.AggregateMonth` | internal/storage/telemetry.go:554-615 | The fold over the month's daily rows in day order, upserted under its month. |
| `SummaryFacts.MonthRowFacts` | internal/storage/telemetry.go:554-615 | Column by column: sums over the days of the month, the highest of their peaks, their coverage weighted by their length. |
| `SummaryStore.Repository.RebuildCalendar` | internal/storage/calendar.go:27-114 | Whenever the cutting loop ends, replaces both tables: exactly the days with segments, each with its fold, and every month equal to what `AggregateMonth` computes from the rebuilt days. Where local days tile time, these are exactly the overlapped days, each agreeing with `AggregateDay` on its bounds. |
| `SummaryFacts.RebuiltDayFacts` | internal/storage/calendar.go:46-91 | Column by column, in any zone in which the cutting loop ends: energy, productive minutes and covered minutes of the segments booked on the day, and the highest peak of the hours that have a segment on it. |
| `Ledger.NothingIsLost` | internal/storage/calendar.go:46-65 | Whatever is booked under distinct keys, the balances of the keys add up to all that was booked; days and months are such keys. |
| `Credits.ConsumeCreditLots` | internal/storage/finance.go:527-551 | The loop in expiry order takes the amount from the lots, or reports that it exceeds them without a change. |
| `Credits.ConsumePrefix` | internal/storage/finance.go:533-543 | Closed form per lot: what is taken from it is what the lots before it could not cover, at most all of it. |
| `Credits.ConsumptionShape` | internal/storage/finance.go:533-543 | A prefix of the lots is emptied, at most one lot is left partly used, the rest is untouched. |
| `Credits.EarliestExpiryIsOptimal` | internal/storage/finance.go:528-543 | For every date, no other way of consuming the same amount leaves less credit expiring by then. |
| `Credits.ConsumeLeavesLeast` | internal/storage/finance.go:528-543 | For every date, what is left to expire by then is what was, less the amount, but not less than nothing. |
| `Credits.PostingStages` | internal/storage/finance.go:198-230 | The total after injecting, topping up, consuming and reconciling; it ends at the reported balance. |
| `Credits.CreditRepository.SaveCycle` | internal/storage/finance.go:143-238 | Accepted exactly when the cycle is valid, a tariff covers it, its projection succeeds and the reported balance is at least max(previous + injected - used, 0); then the lots add up to that balance; otherwise nothing changes and each failure has its own error. The "exceed" error cannot occur. |
| `CreditBills.BillIsRecordedIff` | internal/storage/finance.go:143-238 | Said of the bill's fields: it is recorded, with the tariff's number written in, if and only if its dates and amounts are sensible, a tariff with a projection covers it and the balance is at least total plus injected less used; otherwise nothing changes. |
| `CreditBills.LotsAfterBill` | internal/storage/finance.go:198-230 | No old lot goes and none gains; a lot naming the bill is opened if it injects, an estimated one without origin for use beyond what there is and one for balance beyond what is left; new lots expire five years after the reading. |
| `CreditBills.LotsStayInOrder` | internal/storage/finance.go:527-533 | After any bills the lots stand in order of expiry, and of those that expire together the older first. |
| `Credits.CreditRepository.CreditSummary` | internal/storage/finance.go:336-351 | The sum of all lots and the earliest expiry of a lot that still has credit, if any. |
| `Credits.LotsMatchLastBalance` | internal/storage/finance.go:143-238 | After any run of bills, accepted or not, no lot is negative, the lots add up to the last recorded balance, and every recorded bill met the balance before it. |
| `Credits.OldCreditIsUsedFirst` | internal/storage/finance.go:198-230 | Credit expiring before the bill's own is used first and never added to. |
| `AlertRules.EvaluateKeepsState` | internal/alerts/rules.go:72-79 | Each of the seven rules leaves a state the repository accepts, stamped with the input's time; it opens only a closed and resolves only an open alert. |
| `AlertRules.JudgeLawful` | internal/alerts/rules.go:91-252 | Every rule's verdict on any valid input and stored state: counters, pending and evidence times stay within what storage validation demands. |
| `AlertRules.EvaluateTwice` | internal/alerts/rules.go:91-252 | Evaluating the same input again, with the alert's new standing, decides nothing and changes no state. |
| `AlertHistory.RunFacts` | internal/alerts/rules.go:72-79 | Over every accepted history a rule's changes alternate, the alert is open exactly after an odd number of them, and the clock check never misfires. |
| `AlertHistory.LoggerOfflineMeansThreeFailures` | internal/alerts/rules.go:91-114 | logger_offline is open if and only if the three latest polls at distinct times all failed. |
| `AlertHistory.PollsInTimeOrder` | internal/alerts/rules.go:96-99 | The polls counted are at strictly later and later times. |
| `AlertHistory.TelemetryStaleMeansLastKnownStale` | internal/alerts/rules.go:116-127 | telemetry_stale is open if and only if the last input with a telemetry time was at least the configured age behind it. |
| `AlertHistory.InverterFaultMeansRecentFault` | internal/alerts/rules.go:129-158 | inverter_fault is open if and only if one of the two latest fresh sightings at distinct times showed a fault. |
| `AlertHistory.PendingIsStreakStart` | internal/alerts/rules.go:160-184 | The stored pending time is the time of the first input of the current unbroken run of qualifying inputs. |
| `AlertHistory.WaitingAlertTransitions` | internal/alerts/rules.go:222-252 | A grid or zero-generation alert opens at an input if and only if it was closed and every input over a span of at least the configured time qualified; it resolves if and only if the input clears it. `Qualifies` and `Clears` are said of the input's and the configuration's fields. |
| `AlertHistory.WaitingAlertOpenIff` | internal/alerts/rules.go:160-252 | A grid or zero-generation alert is open if and only if at some time every input over at least the configured span qualified and no input since has cleared it, both said of the readings and limits themselves. |
| `AlertHistory.VoltageOutOfBandOpens` | internal/alerts/rules.go:222-252 | Fresh readings below the minimum or above the maximum at every input over the configured time leave the voltage alert open. |
| `AlertHistory.UnderproductionSummary` | internal/alerts/rules.go:186-220 | The stored counter is the number of trailing qualifying days pointing the way of the next change, since the last one. |
| `AlertHistory.UnderproductionTransitions` | internal/alerts/rules.go:186-220 | The underproduction alert changes if and only if that count reaches the configured days; the days are distinct, later than those of the change before, and all point that way. |
| `AlertHistory.DaysStrictlyLater` | internal/alerts/rules.go:191-194 | The days counted are strictly increasing. |
| `AlertEvidence.LoggerEvidence` | internal/alerts/rules.go:91-114 | Opening reports, as critical, how many polls have failed in a row and the time of the first of them; resolving reports none. |
| `AlertEvidence.TelemetryStaleEvidence` | internal/alerts/rules.go:116-127 | Every change reports the age, the threshold and the last telemetry time. |
| `AlertEvidence.InverterFaultEvidence` | internal/alerts/rules.go:129-158 | Opening reports, as critical, the number of active strings with a fault; resolving reports none. |
| `AlertEvidence.WaitingEvidence` | internal/alerts/rules.go:160-252 | Opening reports the readings and the whole span of the qualifying inputs, from the first of them; resolving reports the reading that clears it. |
| `AlertEvidence.UnderproductionEvidence` | internal/alerts/rules.go:186-220 | Every change reports the number of days that brought it about and the last day's ratio and energies. |
| `AlertEngine.NewEngine` | internal/alerts/engine.go:20-80 | An engine is made if and only if there is a repository and every threshold, duration and day count is in its range. |
| `AlertEngine.Engine.Decide` | internal/alerts/engine.go:37-63 | The callback's loop over the rules, stopping at the first regressed clock, computes `RunWork`. |
| `AlertEngine.AlertRepository.Transact` | internal/storage/alerts.go:49-84 | Commits if and only if every state and transition is storable, said of their fields; an invalid mutation changes nothing, a valid one is committed with the transitions that took effect. |
| `AlertEngine.Engine.Evaluate` | internal/alerts/engine.go:33-64 | Validation, callback and commit together are one `Transaction` on the tables: all of it or nothing. |
| `AlertEngine.RunWorkPointwise` | internal/alerts/engine.go:47-61 | The loop over shared maps steps every rule once from its own state and touches no other. |
| `AlertEngine.ApplyAllFollows` | internal/storage/alerts.go:139-188 | Every transition found takes effect, the open rows are the callback's open set and the audit log gains exactly those transitions. |
| `AlertRows.ReportsChanges` | internal/alerts/engine.go:46-63 | An accepted input reports for each rule exactly the change it makes, with the decision's severity and evidence and the input's time. |
| `AlertRows.RowsTellHistory` | internal/storage/alerts.go:139-188 | After any inputs the alert table holds for each rule one row per opening, in order, with time, severity and evidence of the decision that opened or resolved it, and the audit table one row per change with the same details. |
| `AlertRuns.EveryRunAgrees` | internal/alerts/engine.go:33-64 | After any inputs whatever the tables agree, rule by rule, with the history of the accepted inputs, which is in time order; at most one alert per rule is open. |
| `AlertRuns.RunStep` | internal/alerts/engine.go:33-64 | An input is committed if and only if it is valid and not earlier than the last one; a regressed clock or an invalid input changes nothing. |
| `AlertRuns.CommittedIff` | internal/alerts/engine.go:82-106 | Said of the input's fields: exactly which inputs are committed. |
| `AlertRuns.TransitionsAlternate` | internal/storage/alerts.go:139-188 | In the audit log each rule's transitions alternate, opened first, and its alert is open if and only if the last one opened it. |
| `AlertRuns.CallbackIsValid` | internal/storage/alerts.go:239-282 | Every mutation the engine proposes passes the repository's own validation. |
| `AlertRuns.ReplayChangesNothing` | internal/alerts/engine.go:33-64 | Replaying an accepted input yields no transition and leaves every table as it was. |
| `Hub.StepKeeps` | internal/collector/hub.go:36-105 | Every step of subscribers, publishers and receivers keeps the hub's invariant. |
| `HubHistory.StateTellsStory` | internal/collector/hub.go:36-82 | In every interleaving a subscriber is known if and only if it has subscribed, with capacity one or, buffered, what it asked for and one at least; it is registered and its channel open until it is removed, leaving from when it says so. |
| `HubHistory.QueuesAreBounded` | internal/collector/hub.go:59-63 | In every interleaving no channel holds more than that capacity. |
| `Hub.Delivery` | internal/collector/hub.go:36-105 | In every interleaving: received plus queued is a subsequence of what was published while subscribed; for a buffered subscriber not leaving it is all of it, less the event of a publish that has not reached it; a lossy one has the latest. |
| `HubHistory.NothingAfterLeaving` | internal/collector/hub.go:46-82 | Once a subscriber is removed nothing more is offered or sent to it; it can only receive what is queued. |
| `Hub.NoUseAfterClose` | internal/collector/hub.go:46-105 | In every interleaving no send hits a closed channel and nothing is closed twice. |
| `Hub.BlockedIff` | internal/collector/hub.go:84-105 | A publish under way cannot go on by itself if and only if the subscriber at hand is buffered, full and not leaving; never because of a lossy one. |
| `Hub.UnsubscribingReleases` | internal/collector/hub.go:73-105 | A publisher stuck at a subscriber can go on once that subscriber begins to leave or receives one event. |
| `HubHistory.CanLeave` | internal/collector/hub.go:46-82 | Between two publishes every registered subscriber can leave, in one step or two, after which its channel is closed. |
| `Hub.PublishGetsDone` | internal/collector/hub.go:84-105 | Every step of the publisher brings its end nearer and nobody else's step puts it off. |
| `Runtime.StepKeeps` | internal/app/app.go:479-664 | Every step of applying, stopping, cancelling, gates and goroutines keeps the runtime's invariant. |
| `Runtime.AtMostOneLive` | internal/app/app.go:566-664 | In every interleaving at most one collector goroutine has not closed its done channel, and it is the recorded one. |
| `Runtime.LaunchedAlone` | internal/app/app.go:586-664 | A goroutine is started only when all earlier ones have closed their done channels. |
| `Runtime.FailedPersistRestarts` | internal/app/app.go:604-640 | After a failed persist the collector that ran before is started again under its own settings, after its goroutine has ended; without one nothing is started. |
| `RuntimeCalls.SucceededPersistLaunches` | internal/app/app.go:604-640 | After a successful persist, with or without an earlier collector, launching starts what the latest call asked for, under its settings and the present gate, records it and makes its settings the active ones. |
| `RuntimeCalls.LaunchStartsWhatWasAsked` | internal/app/app.go:619-640 | The same at whatever moment the launch comes, whatever was interleaved; without a context nothing is started. |
| `RuntimeCalls.ApplyReplaces` | internal/app/app.go:566-640 | A whole call over a running collector: it is cancelled, ends, is waited for, settings are saved, and the new one is started in its place. |
| `RuntimeCalls.TimedOutStartsNothing` | internal/app/app.go:589-603 | A call that waits too long saves and starts nothing, and once the old collector has ended it is forgotten. |
| `RuntimeCalls.StopEndsCollector` | internal/app/app.go:519-544 | A whole stop over a running collector: the context goes, the collector is cancelled and waited for, nothing stays recorded. |
| `RuntimeCalls.EndedIsForgotten` | internal/app/app.go:641-663 | A collector that ends by itself closes its channel and takes itself off the record. |
| `Runtime.StoppedForGood` | internal/app/app.go:519-544 | From the moment stopping takes the context away no goroutine is started, and once it has returned none is live, whatever happens later short of a new start. |
| `Runtime.HeldBack` | internal/app/app.go:641-652 | No collector enters `Run` while its gate is held. |
| `Runtime.EntersIff` | internal/app/app.go:641-652 | A collector can enter `Run` after the release if and only if it has not come past its select; one cancelled before the release can if and only if it had not even reached the select. |
| `Runtime.ParkedAndCancelledStaysOut` | internal/app/app.go:641-652 | A collector that is parked in its select when it is cancelled under a held gate never enters `Run`, whoever cancels it and whatever follows. |
| `Runtime.CancelledYetEnters` | internal/app/app.go:641-652 | A concrete run in which a collector is cancelled while its gate is held and enters `Run` after the release. |
| `Runtime.CancelledAndStaysOut` | internal/app/app.go:641-652 | The same seen from outside, but parked when cancelled: a concrete run in which the collector stays out. |
| `Runtime.CancelledStaysOut` | internal/app/app.go:497-507 | If `cancelCurrentCollector` has returned while the gate is held, that collector never enters `Run`. |
| `Runtime.WaitedForCanEnd` | internal/app/app.go:586-603 | Whoever waits for a goroutine has cancelled it, so until it ends it can take a step of its own that brings its end nearer, a held gate notwithstanding. |
| `RuntimeCalls.NothingBeforeStart` | internal/app/app.go:629-634 | Before the runtime has a context no goroutine is started, in any interleaving. |
| `RuntimeCalls.GateComesAndGoes` | internal/app/app.go:479-495 | A gate that is held, released and cleared leaves none behind; one held meanwhile stays in force. |
| `RuntimeCalls.UngatedEnters` | internal/app/app.go:641-652 | A collector without a gate goes to `Run`, and nowhere else, even if it is cancelled. |
| `RuntimeCalls.RootCancelReaches` | internal/app/app.go:635-652 | Cancelling the root cancels every goroutine, and turns away the one parked at a held gate. |
| `RuntimeCalls.CancellerWaits` | internal/app/app.go:497-507 | A whole call of `cancelCurrentCollector`: the collector is cancelled and the caller cannot return before its done channel is closed. |
| `PushScheduler.OnePushAtATime` | integrations/alexa-relay/src/app.js:268-297 | In every interleaving at most one push is in flight. |
| `PushScheduler.NeverTwoUnsettled` | integrations/alexa-relay/src/app.js:268-297 | Said of the steps alone: of the promises handed out by pushes at most one has not settled at any time. |
| `PushScheduler.NoPushUnasked` | integrations/alexa-relay/src/app.js:268-297 | There are never more pushes than calls of `schedule`. |
| `PushScheduler.CallsAreCoalesced` | integrations/alexa-relay/src/app.js:271-294 | Any number of calls during a push come to exactly one more push when it is done, and leave nothing pending. |
| `PushScheduler.OneCallOnePush` | integrations/alexa-relay/src/app.js:271-294 | A call at rest makes exactly one push, after which all is at rest again. |
| `PushScheduler.ThrowingEndsTheLoop` | integrations/alexa-relay/src/app.js:277-294 | When even the logging of an error throws, the loop ends without another push and what is pending is queued for later. |
| `PushScheduler.PendingIsPickedUp` | integrations/alexa-relay/src/app.js:271-294 | Pending work always has a loop or a queued immediate to pick it up; at rest nothing is pending. |
| `PushScheduler.NoLostWakeup` | integrations/alexa-relay/src/app.js:271-294 | At rest, every earlier call of `schedule` has been answered by a push that read the state then or later, even when pushes and logging threw. |
| `PushScheduler.QuietsDown` | integrations/alexa-relay/src/app.js:277-294 | Unless at rest the scheduler can take a step of its own, and each leaves strictly less to do: it comes to rest by itself. |
| `Baseline.MedianAnyOrder` | internal/analysis/baseline.go:115-126 | The median does not depend on the order of its values. |
| `BaselineFacts.MedianIsMiddle` | internal/analysis/baseline.go:115-126 | The median is the middle of any rising arrangement of the values, or halfway between the two in the middle; 0 without values. |
| `Baseline.HalfAtMostMedian` | internal/analysis/baseline.go:115-126 | At least half of the values are no larger than the median. |
| `Baseline.MadClip` | internal/analysis/baseline.go:98-113 | The two loops keep exactly the values within three median absolute deviations of the median. |
| `BaselineFacts.KeptIsNearTheMedian` | internal/analysis/baseline.go:98-113 | What is kept is each value, as often as it occurs, that is no further from the median than three times the median of all distances from it. |
| `Baseline.ClippingKeepsHalf` | internal/analysis/baseline.go:98-113 | Clipping keeps at least half of the samples, all from the input, so no bucket with samples vanishes. |
| `Baseline.CollectSamples` | internal/analysis/baseline.go:42-76 | Fails if and only if some day's zone is not configured, differs from the first or its date is missing; otherwise each bucket's samples in order and the qualifying days. |
| `BaselineFacts.HourSamplesAre` | internal/analysis/baseline.go:63-76 | A day gives a bucket one sample for each hour with a time, power of at least 0 and that month and hour, and the sample is its share of the installed power, 1 at most. |
| `Baseline.BuildBaseline` | internal/analysis/baseline.go:42-85 | The error case exactly, or a bucket for exactly the month and hour pairs with samples, each learned from its samples. |
| `BaselineFacts.BuiltIs` | internal/analysis/baseline.go:42-85 | Said of the days' fields: exactly when building fails, how many days count, which buckets there are, and that each holds the median and the number of its kept samples. |
| `Baseline.LearnedIsBounded` | internal/analysis/baseline.go:63-83 | What a bucket learns from its samples lies in [0, 1] and between any bounds of its samples, and counts at least half of them. |
| `Baseline.BaselineAnyOrder` | internal/analysis/baseline.go:42-85 | The baseline, or the failure, does not depend on the order of the training days. |
| `Expectation.Accumulate` | internal/analysis/model.go:70-101 | The loop's four totals: expected energy is the installed power times the day's yield, and the daylight, matched and weather-matched hours. |
| `ExpectationFacts.TotalsAre` | internal/analysis/model.go:78-101 | The totals as sums over the daylight hours of terms given by the input's fields: the learned share, the duration, and the forecast's irradiance per thousand between a quarter and 1.15. |
| `ExpectationFacts.ReadingIsTheLast` | internal/analysis/model.go:70-76 | The reading of a local hour is that of the last dated row for it. |
| `Expectation.AssessConfidence` | internal/analysis/confidence.go:5-41 | High if and only if the day qualifies, the history, telemetry and model coverage are full and a fresh forecast covers the day; low if and only if it does not qualify, or a stale forecast comes on top of another reservation. |
| `Expectation.Evaluate` | internal/analysis/model.go:54-123 | Refuses an unconfigured zone or a missing day; otherwise the bounded expectation, actual energy, their ratio, both coverages, the confidence and whether the day qualifies. |
| `ExpectationFacts.ExpectationIs` | internal/analysis/model.go:78-113 | Expectation and both coverages from those sums, by multiplication alone. |
| `Expectation.ExpectationIsBounded` | internal/analysis/model.go:78-113 | The expectation lies between 0 and full power through all daylight; the model coverage is a percentage; the weather coverage is at most 100 and negative if and only if the forecast claims a negative coverage. |
| `Expectation.MoreInstalledMoreExpected` | internal/analysis/model.go:66-102 | More installed power never lowers the expectation, which is in proportion to it. |
| `Expectation.MoreSunMoreExpected` | internal/analysis/model.go:93-102 | Raising any of the forecast irradiances never lowers the expectation. |

## Left out

- Limiter.Limiter.Admit: asks that the clock is not behind the last operation (as a monotonic clock read under the mutex guarantees), because with a clock that goes back the front of the expiry list need not expire first.
- Limiter.Limiter.Complete: the same condition on the clock as for admitting.
- Limiter.Limiter.constructor: the secret and the derivation of keys from address and user name are not modelled; a capacity below five, on which the code panics, is excluded by its precondition.
- Transport.Connection.RoundTrip: write errors, deadlines and cancellation are not modelled, because they depend on the network alone; short reads and oversized frames are.
- Telemetry.Collector.Run: publishing to the hub, the backoff delays and the freshness monitor are not modelled; which writes of the store fail is a parameter.
- SummaryStore.Repository.RebuildCalendar: asks that the cutting loop ends on the stored hours (`Summaries.Cuts`), because otherwise the code does not return; the agreement with `AggregateDay` is about zones whose local days tile time (`Calendar.Proper`), and leaves out the productive minutes, which `AggregateDay` counts in the minute table.
- SummaryStore.Repository.AggregateDay: parse and database errors are not modelled.
- Credits.CreditRepository.SaveCycle: 64-bit overflow of kilowatt-hours is not modelled; what the money projection computes is not, only whether it succeeds.
- Credits.ConsumeCreditLots: lots are kept in the order of their index (expiry, then id) instead of being sorted by each query.
- AlertRules.JudgeLawful: NaN and infinite inputs, which the validation refuses, do not exist among reals; the text of reasons is left out.
- AlertEngine.AlertRepository.Transact: JSON encoding, alert identifiers and database errors are left out.
- Hub.Delivery: events are values, so the copying that keeps subscribers from sharing snapshots is not modelled.
- Runtime.StoppedForGood: speaks of runs without a later `start`, because the code does not prevent one; the application calls `start` once (internal/app/app.go:327).
- Runtime.StepKeeps: the reported state text and the settings that do not parse (an error before anything changes) are left out.
- Expectation.Evaluate: the evidence texts are left out, because they only restate the inputs.
- `AggregateHour` and `RebuildSummaries` (internal/storage/telemetry.go:345-443): sums over one hour's minutes and a loop over days that calls the aggregates modelled here.
- `RecalculateCycle` (internal/storage/finance.go:242-298): changes no lot.
- Floating-point rounding, the time zone database, date parsing and daylight-saving rules.
- Jobs, HTTP handlers, sessions, backups, weather, tariff scraping and the user interface: plumbing, or short straight-line code.
