# Power meter firmware: verified model

A Dafny model of the algorithmic core of a three-phase power-quality meter: its calendar, its path handling, its
checksums, the ten-minute and weekly quality reports with their hand-over to the file task, the sag and interruption
detector, the waveform capture, and the alarm and event logs. What the firmware runs step by step on
its own fields or buffers is a method proved equal to a specification function; the promises are then proved about
those functions, over all inputs or over all runs.

`dafny verify dfyconfig.toml` checks everything.

| files | what they hold |
|---|---|
| `Calendar`, `DateTime` | the Gregorian calendar counted year by year and month by month (the reference of POSIX.1-2017 Base Definitions section 4.16), and the three closed forms measured against it |
| `CrcRegister`, `Crc`, `CrcCheck` | polynomial division one bit at a time, the algebra of its register, and the two table-driven CRCs (section 8 of RFC 1952; section 6.2.2 of MODBUS over Serial Line V1.02), with their check values |
| `PathSpec`, `PathNormal`, `PathShadow`, `Path`, `PathElements`, `PathCanonicalize`, `PathMatch` | what a path means, its canonical form, both passes of the in-place rewriting, and wildcard matching |
| `QualWeekFile`, `PqHandoff`, `PqTasks`, `PqRuns`, `QualWeekImage`, `QualCounters`, `QualMeasures` | the weekly file byte by byte, the interleaving of metering and file task write by write, the two tasks' code as runs of it, overruns and misses over whole runs, the bytes as the image of the records, the accumulated error counts, and the same counts from the measurements alone |
| `SagMachine`, `SagComplete`, `StatusLatch`, `WaveRing`, `Despike`, `WaveCapture`, `WaveRuns` | the event detector over whole sample histories, what it records and that it misses nothing, the latching status registers, the page ring, spike repair, the two on the capture's buffers, and runs of whole capture calls |
| `Rings`, `Words`, `LogRing`, `LogPages`, `AlarmStatus` | the ring index arithmetic and narrow counters shared by several files, circular logs against plain sequences, their filtered pages, and the alarm status machine |

Some promises are false of the code. For each the exact condition under which it holds is proved, with a case or a
family of cases that breaks it:

- Seconds come back unchanged from the date exactly for 0 <= t < 2005949145600, the first second of year 65536
  (`SecondsRoundTripExactly`).
- Where `time_t` has 32 bits a date comes back exactly if it is before 2106-02-07 06:28:16 (`DateRoundTrip32Exactly`).
- A ".." is left behind a component other than ".." exactly when it matches a name that begins with two dots, because
  the prefix test compares two characters (`PathShadow.DotsLeadExactly`, `ShadowExample`).
- The event count of the running week equals the records of its file except after a write that fails and after one of
  three misses: an overrun at a week change onto a file that already has records, new events for a file whose tail no
  longer fits the 4096-byte buffer, and a tail read short (`AgreeExactly`). The first two are reached from boot without
  any fault (`StaleRolloverReached`, `UnreadReached`), the second exactly when the week already counts more than 170
  events (`UnreadForeseen`). The comment at `src/Quality.c:566-567` promises that events of an overrun are recorded ten
  minutes later; they are, first in the next job (`OverrunDefers`), but after a week change in the new week.
- A weekly file keeps its records through an update that reports success exactly when every read of the old tail was
  complete: a file that does not open for reading, or a short read, counts as the end of the file, and the old events
  are overwritten in silence (`TailSurvivesExactly`, `SilentLoss`).
- A power loss finds a torn or miscounting weekly file exactly while a file is truncated, while its header stands
  without records still to be written, or while the old records stand without the new ones (`PowerLoss`).
- STATUS1 events are never lost if and only if no acknowledge finds a bit that was set again between its handler and
  that late acknowledge (`Status1KeptExactly`, `AcknowledgeLosesExactly`, `Status1LossExample`); for STATUS0,
  acknowledged early, none ever is (`NoStatus0EventLost`).
- A window of pages is handed to its consumer before the call that completed it repairs its spikes: a word changes
  after being handed over exactly when its page came in that same call and it is a spike whose replacement differs
  (`HandedExactly`, `HandedWordChanges`, and `HandedThenRepaired` for 200 slots).
- After the offline reset of the wave ring the first window is the latest half exactly when the reset came between two
  halves, because the page count is not reset (`ResetWindowExactly`).
- Frequency errors can exceed the sixty slots they are divided by when the ten-second index swings back inside a
  ten-minute window without the clock being reported as set (`TenSecondsExactly`, `SwingOverruns`, `SwingFromBoot`).
- An alarm delay of 256 s or more is never reached by the eight-bit timer (`DelayExactly`), and an alarm can both
  raise and clear on one input exactly when the level is negative and the dead band is not zero (`NoChatterExactly`).

## Model

| member | source | states |
|---|---|---|
| DateTimes.DateOfDayUnwrapped | common/date_time.c:221-242 | for every day whose year fits 16 bits no 32-bit intermediate wraps: the result is the plain March-based one |
| DateTimes.DateOfDayCorrect | common/date_time.c:221-247 | the closed form picks exactly the calendar's own year, month and day of every such day |
| DateTimes.UnixTimeToDateCorrect | common/date_time.c:198-250 | every second below the limit becomes the calendar time it is, with weekday (t / 86400 + 3) % 7 + 1 and no milliseconds |
| DateTimes.DateToUnixTimeCorrect | common/date_time.c:259-294 | on every valid calendar time of a 16-bit year from 1970 the March form counts exactly the seconds elapsed, in a time_t that holds them |
| DateTimes.DateRoundTrip | common/date_time.c:198-294 | every valid date comes back from seconds unchanged, up to its milliseconds and a wrong weekday |
| DateTimes.DateRoundTrip32Exactly | common/date_time.c:198-294 | with an unsigned 32-bit time_t, as common/compiler_port.h defines it for some compilers, a valid date comes back from seconds if and only if it lies below 2^32 seconds |
| DateTimes.SecondsRoundTripExactly | common/date_time.c:198-294 | seconds come back from their date if and only if they are not negative and below the first second of year 65536, for every integer |
| DateTimes.ConversionStrictlyMonotone | common/date_time.c:198-372 | comparing the dates of two seconds gives the sign of their difference |
| DateTimes.CompareIsSign | common/date_time.c:304-372 | comparison is the sign of the distance in milliseconds on the calendar |
| DateTimes.DayOfWeekCorrect | common/date_time.c:383-406 | Zeller's congruence gives the weekday counted from day 0, a Thursday, with the year decrement in January and February |
| DateTimes.DateRecord.ConvertUnixTimeToDate | common/date_time.c:198-250 | the field-by-field conversion leaves the specified date in the record: below the limit the calendar time of the argument |
| DateTimes.DateRecord.SetDay | common/date_time.c:221-249 | year, month, day and weekday of a day number, all other fields untouched |
| DateTimes.DateRecord.SplitMonth | common/date_time.c:225-246 | month and day from the shifted day of the year, months 13 and 14 going to the next year |
| CrcRegister.TableStepIsFeed | src/crc.c:46 | one table step is eight bit-at-a-time division steps with the byte, for any polynomial |
| CrcRegister.FeedAppend | src/crc.c:45-46 | dividing a concatenation is dividing its parts in turn |
| CrcRegister.BurstDetected | src/crc.c:45-46 | from equal registers, messages that differ inside a window no wider than the register end in different registers |
| CrcRegister.ResidueZero | src/crc.c:74-75 | the register ends at zero if and only if the closing bytes equal what it held before them |
| Crc.TableRight | src/crc.c:3-37 | each of the 256 constants is the remainder of its index under the Modbus polynomial |
| Crc.TableEntry | src/crc.c:57-62 | the inner loop divides its index eight times by the CRC-32 polynomial |
| Crc.MakeCRC32table | src/crc.c:51-66 | the filled table holds the remainder of every byte |
| Crc.GenCrc32 | src/crc.c:41-49 | with that table, the CRC-32 defined bit by bit, for every byte string and every start value |
| Crc.GenCrcModbus | src/crc.c:69-77 | with the constant table, the Modbus CRC defined bit by bit, for every byte string |
| Crc.Crc32Append | src/crc.c:41-49 | the CRC-32 of a whole is that of its second part continued from that of its first |
| Crc.Crc32BurstDetected | src/crc.c:41-49 | two messages that differ only within four neighbouring bytes never have the same CRC-32 |
| Crc.ModbusBurstDetected | src/crc.c:69-77 | two messages that differ only within two neighbouring bytes never have the same Modbus CRC |
| Crc.ModbusFrameCheck | src/gateway.c:242 | a received frame checks to zero if and only if it ends in the CRC of the rest, low byte first |
| CrcCheck.Crc32Check | src/crc.c:41-66 | the CRC-32 of the digits "123456789" is CBF43926 |
| CrcCheck.ModbusCheck | src/crc.c:69-77 | their Modbus CRC is 4B37 |
| Path.CollapseSeparators | common/path.c:158-191 | the first pass, in place: runs of either slash become one slash, the rest of the buffer is untouched |
| Path.CollapseComponents | common/path.c:169-188 | collapsing keeps the list of components |
| Path.CollapseCanonical | common/path.c:169-191 | collapsing keeps the canonical form |
| PathElements.PlaceDot | common/path.c:205-226 | the text after a "." element is that of the unchanged list, formatted for what follows |
| PathElements.PlaceDotDot | common/path.c:229-240 | the text after a ".." element is that of the list with its last component cancelled, or with the ".." kept where it must be |
| PathElements.PlaceParent | common/path.c:241-303 | the same for a list that is not empty: pop, keep behind "..", or empty the path |
| PathElements.PlaceName | common/path.c:304-314 | a name is appended even where it overlaps its own source |
| PathElements.LastElement | common/path.c:243-248 | the backward search finds the length of the last component and its slash, reaching the start exactly for a single relative component |
| PathElements.Cancel | common/path.c:253-268 | dropping the last component keeps the root slash and a slash that follows |
| PathElements.PlaceElement | common/path.c:204-314 | any element turns the text of a reduced list into the text of the list one step further, never writing past the element |
| PathCanonicalize.PlaceToken | common/path.c:201-323 | one turn of the second pass advances the reduced list by one component or, at the end, leaves the canonical form |
| PathCanonicalize.CanonicalizeElements | common/path.c:193-322 | the second pass ends with the canonical form; the write index never passes the token start |
| PathCanonicalize.PathCanonicalize | common/path.c:158-323 | for every string the buffer ends up holding its canonical form, not longer than before; nothing past the old terminator changes |
| PathSpec.CanonicalPreservesMeaning | common/path.c:158-323 | a path and its canonical form lead to the same directory from every directory and are absolute alike |
| PathSpec.CanonicalIdempotent | common/path.c:158-323 | canonicalising twice is canonicalising once |
| PathSpec.CanonicalHasNoDot | common/path.c:205-226 | no "." component survives unless the result is "." or "./" |
| PathShadow.DotsLeadExactly | common/path.c:241-303 | every remaining ".." is at the front of a relative path if and only if no ".." of the input matches, counting opened and closed names, a name that merely begins with two dots, other than the only component left of a relative path |
| PathShadow.ShadowFreeExactly | common/path.c:241-303 | the same condition on the input against the reduction of its prefixes, and what then remains: the unmatched ".." followed by the names left open |
| PathShadow.NoLookalikes | common/path.c:249 | the condition holds when no component begins with two dots without being ".." |
| PathShadow.CanonicalIsMatched | common/path.c:158-323 | under it the result is what ordinary matching of ".." with names leaves |
| PathNormal.ShadowExample | common/path.c:249-253 | x/..foo/.. keeps its three components although it leads to x |
| PathShadow.CanonicalDecides | common/path.c:158-323 | paths under that condition, alike in absoluteness and final slash, have one canonical form if and only if they lead to the same place from every directory |
| PathMatch.PathMatch | common/path.c:435-503 | ends on all strings, and is true if and only if the path can be cut into one fitting piece per pattern character |
| PathMatch.GlobIsLanguage | common/path.c:435-503 | matching one pattern character at a time accepts exactly the language of the pattern |
| PathMatch.StarStep | common/path.c:460-477 | a star takes nothing or one character more |
| PathMatch.CaseBlind | common/path.c:481-495 | changing the case of letters in the path or the pattern does not change what matches |
| PathMatch.LetterMatches | common/path.c:481-495 | a character that is no wildcard matches itself and the other case of an ASCII letter, and nothing else |
| QualWeekFile.Store.ReadTail | src/Quality.c:44-77 | reads what the file delivers behind the header: all of it, up to a short read, or nothing if it does not open; fails if and only if that exceeds 4096 bytes |
| QualWeekFile.Store.UpdateQualWeekData | src/Quality.c:493-546 | result and file for every combination of failing reads and writes, other files untouched |
| QualWeekFile.SuccessMeans | src/Quality.c:493-546 | an update that reports success leaves header ++ what was read ++ new events |
| QualWeekFile.TailSurvivesExactly | src/Quality.c:50-67 | after a reported success the old records are still there if and only if every read was complete |
| QualWeekFile.SilentLoss | src/Quality.c:50-53 | a file that does not open for reading loses all its records while success is reported |
| QualWeekFile.Store.Rewrite | src/Quality.c:508-529 | header and old tail over the file, or a failure that is reported |
| QualWeekFile.Store.AppendEvents | src/Quality.c:531-543 | all events appended, or a failure that is reported |
| QualWeekFile.TailGrows | src/Quality.c:493-546 | over any series of updates that read all and succeed, the file keeps all records in order, and each update but the last had to leave a tail within the buffer |
| PqHandoff.InvPreserved | src/Quality.c:470-617 | under every interleaving and every failing read, write or creation each accepted event is, in order, in exactly one place: written off, in the job, or queued |
| PqHandoff.JobStable | src/Quality.c:595-616 | from commit to the end of its file work the job does not change |
| PqRuns.OverrunDefers | src/Quality.c:568-593 | an overrun takes nothing, and over any run in which the slot stays taken its queued events are, in order, the first of the next job, which counts all it takes |
| PqHandoff.DeferredIsAtomic | src/Quality.c:568-617 | without faults the interleaved system refines one that saves each record, and creates each new week's file, in a single action |
| PqHandoff.AgreeExactly | src/Quality.c:580-590 | unless a write fails, a step keeps the week's count equal to the records its file has or is about to have if and only if it is none of the three misses |
| PqHandoff.StaleRollover | src/Quality.c:1108-1127 | an overrun at a week change onto a file that has records leaves the count wrong |
| PqRuns.StaleRolloverReached | src/Quality.c:1099-1127 | a run from boot without faults that ends so |
| PqHandoff.UnreadForeseen | src/Quality.c:580-582 | the tail a new record meets is too long for the buffer if and only if the week already counts more than fit |
| PqHandoff.UnreadExactly | src/Quality.c:504-507 | and so it is when the file task reads it, by the count in the job |
| PqRuns.UnreadReached | src/Quality.c:493-546 | from an empty week file, any first batch of more than 170 events makes the second be given up |
| PqHandoff.GoodPreserved | src/Quality.c:568-617 | otherwise the count stays right and every file's header counts its own records, across week changes too |
| PqHandoff.PowerLoss | src/Quality.c:470-543 | at any moment every file on flash has a header that counts its records, if and only if no file is truncated, no header stands without records still to be written, and no old records without new ones |
| PqHandoff.EventsConserved | src/Quality.c:568-617 | event conservation over whole runs |
| PqHandoff.RunFromBoot | src/Quality.c:568-1127 | over every run from boot: accepted = written off ++ in the job ++ queued; in runs without faults and misses the RAM count is the records in the file plus those in the job |
| PqTasks.PqReport.PqQueueJob | src/Quality.c:568-593 | takes the whole queue into the slot and counts it, or takes nothing |
| PqTasks.PqReport.TenMinutes | src/Quality.c:1088-1128 | the report part of a ten-minute boundary is a run of hand-over steps; week, file names, queue and job afterwards, inside a week and at its end, with the slot free and taken |
| PqTasks.PqReport.PqIoTick | src/Quality.c:600-616 | one call of the file task is a run of hand-over steps |
| PqTasks.PqReport.UpdateQualWeekData | src/Quality.c:493-546 | write by write, without faults: header, old tail, new events, or nothing when the tail does not fit |
| QualWeekImage.UpdateImage | src/Quality.c:493-546 | for any layout of header and records, the file task's steps leave the file whose bytes the byte-level update leaves, also when reading stops after any number of records |
| PqTasks.FileTurn | src/Quality.c:600-616 | the file steps of one undisturbed call and what they leave |
| QualCounters.TickKeeps | src/Quality.c:923-1144 | each second keeps every error count within its divisor and every ratio in 0..1, and no divisor at a boundary is zero |
| QualCounters.ReportsInRange | src/Quality.c:722-799 | over every run from boot whose ten-second index never goes back inside a window unreported, all counts of the running and the closed week stay within their divisors and all percentages in 0..10000 |
| QualCounters.WeekIsTally | src/Quality.c:755-799 | over every such run each of the week's counts is the number of its closed records out of limits on that channel (for frequency, the sum of their errors), and each ratio is exactly that count over the records (or slots) closed since the week began |
| QualCounters.TickTallies | src/Quality.c:1055-1128 | one second keeps this, at a week change for the week closed as well as for the new one |
| QualCounters.WeekFrequencyExactly | src/Quality.c:957-984 | over every steady run from boot under fixed frequency limits, the week's frequency errors are exactly its stored ten-second means outside them |
| QualCounters.FrequencyErrorsAreSlots | src/Quality.c:957-984 | with slots left, a ten-second step stores the mean of the samples since the last and keeps the record's errors equal to its stored means outside the limits |
| QualCounters.BoundaryHasSlot | src/Quality.c:957-992 | whatever the clock does, a ten-minute boundary is also a ten-second one, so no weekly divisor is zero |
| QualCounters.PercentInRange | src/Quality.c:722-724 | the truncated percentage of a sound week is in 0..10000 |
| QualCounters.TenSecondsExactly | src/Quality.c:957-984 | a ten-second step keeps the error count within the slots if and only if not all sixty are errors already and this is one more |
| QualCounters.SwingOverruns | src/Quality.c:957-984 | an index that swings n times inside one window counts n errors over at most sixty slots |
| QualCounters.SwingFromBoot | src/Quality.c:957-984 | from boot, sixty-one such seconds count sixty-one errors over sixty slots |
| QualCounters.CheckChannels | src/Quality.c:1060-1078 | the loops over phases and harmonics add one error to exactly the channels out of limits |
| QualCounters.UpdateQualWeek | src/Quality.c:755-799 | the weekly sums of all 24 channels, each over its own divisor |
| QualMeasures.WeeksReportMeasurements | src/Quality.c:704-1144 | over every steady run from boot, with the seconds cut by the clock alone: each of the week's counts is the number of its ten minutes whose mean voltage or unbalance over all seconds, or whose distortion or harmonics at the last one, was out of the limits in force; the frequency counts are the ten-second means out of theirs; the divisors, the complete flag and every percentage follow; and so for the last week closed |
| QualMeasures.GatherMeasures | src/Quality.c:957-1033 | one second more keeps sums, means, stored ten-second means and their error counts equal to those of the seconds |
| QualCounters.PercentExactly | src/Quality.c:722-724 | the percentage is 10000 times the good ones over all, rounded down |
| QualCounters.QualLogData.UpdateQualData | src/Quality.c:923-1144 | one call is one step of the accumulation that WeeksReportMeasurements is about, reports a boundary exactly when there is one, and clears the clock-set flag only there |
| SagMachine.RunInv | src/ade9000.c:2716-2807 | the invariant of the detector over every sample history |
| SagMachine.EventIntervals | src/ade9000.c:2769-2801 | with a clock that never goes back every event has start <= end, and an interruption is short or long as it lasted under 60000 ms or not |
| SagMachine.EventsOrdered | src/ade9000.c:2716-2807 | events do not overlap, and after an ended sag some sample more than the hold-off later comes before the next event |
| SagMachine.SagEvent | src/ade9000.c:2725-2780 | a pushed sag's mask is the union of the phases seen below level, its values the minima over its first and all sagging samples, it ends with three recovered phases, and no sample after the first interrupted |
| SagMachine.IntrEvent | src/ade9000.c:2742-2801 | an interruption's mask and minima stop before the sample that made it one; it ends at the first sample after that with three recovered phases |
| SagMachine.CountersAddUp | src/ade9000.c:2769-2801 | the two 16-bit counters add up to the events pushed, modulo their width |
| SagComplete.EverySagAccounted | src/ade9000.c:2658-2807 | over every history, a sample with a phase below the sag level comes before the meter was first online without one, or inside a recorded event, or inside the event under way, or while the hold-off after a sag runs |
| SagComplete.FirstSagDetected | src/ade9000.c:2718-2737 | once the meter was online with no phase low, the first sample with one begins an event |
| SagComplete.NextSagDetected | src/ade9000.c:2725-2806 | after each event, the first sample with a phase low begins the next: at once after an interruption, after a sag from the first sample that finds the hold-off over |
| SagComplete.SpanMeans | src/ade9000.c:2742-2801 | a recorded sag ends at the first sample with all phases back, none before losing the voltage; an interruption at the first such after the one that lost it |
| SagComplete.UnderWayMeans | src/ade9000.c:2742-2801 | an event under way has met no sample that would end it |
| SagComplete.OnlineIs | src/ade9000.c:2658-2676 | online means that more than twelve zero crossings were once counted and none failed since |
| SagComplete.MasksMean | src/ade9000.c:2684-2693 | the masks by the voltages and levels |
| SagComplete.HistoryOfAllKinds | src/ade9000.c:2716-2807 | a history of ten samples that records a sag, a short and a long interruption |
| SagMachine.SagDetector.BuildMasks | src/ade9000.c:2684-2693 | the two masks hold exactly the phases below level and those recovered |
| SagMachine.SagDetector.OnSagging | src/ade9000.c:2742-2781 | one sample during a sag: interruption, deeper, ended, or nothing |
| SagMachine.SagDetector.OnInterrupted | src/ade9000.c:2783-2801 | one sample during an interruption |
| SagMachine.SagDetector.CheckPqEvent | src/ade9000.c:2648-2807 | one call is one step of the machine that RunInv and EverySagAccounted are about |
| StatusLatch.NoStatus0EventLost | src/ade9000.c:2974-3039 | whenever latches are set, each STATUS0 event is still latched, or in the snapshot with its handler to come, or already followed by a run of its handler |
| StatusLatch.Status0HandledSoon | src/ade9000.c:2974-3039 | whatever happens before, meanwhile and after: once any of the events 0, 17, 18, 19, 20, 21, 25 has come, twenty-six more actions of the scan include a run of its handler |
| StatusLatch.Status1HandledSoon | src/ade9000.c:2974-3070 | the same for the events 6 and 9 of STATUS1 in a run in which no bit comes again between its handler and the acknowledge |
| StatusLatch.ScanHandlesAllOlder | src/ade9000.c:2974-3039 | once a scan's handlers are over every event older than its register read has been handled |
| StatusLatch.Status1KeptExactly | src/ade9000.c:2974-3070 | over every run, every STATUS1 event is at all times latched, pending or handled if and only if no acknowledge finds a bit of its snapshot set again since its handler |
| StatusLatch.AcknowledgeLosesExactly | src/ade9000.c:3045-3070 | at the acknowledge of any run each handled bit's handler has run in this scan, and exactly the events after that run are lost |
| StatusLatch.QuietRunLosesNothing | src/ade9000.c:3045-3070 | a run in which no bit comes again between its handler and the acknowledge loses nothing |
| StatusLatch.Status1LossExample | src/ade9000.c:3045-3070 | a reachable run in which a zero crossing is never seen |
| WaveRing.NotifiedWindow | src/ade9000.c:2121-2161 | at a notification the window from the read position holds exactly the pages of the half just transferred, in order |
| WaveRing.RunHolds | src/ade9000.c:2066-2161 | after any number of transfers alone (as where WV_NO_DESPIKE leaves repair out) the ring holds the latest pages behind the write position |
| WaveRing.WindowAlways | src/ade9000.c:2121-2166 | where WV_NO_DESPIKE leaves repair out: at every moment from the first notification on the window is the half completed last |
| WaveRing.WindowUntouched | src/ade9000.c:2121-2161 | no transfer, not even the one that completes the next half, overwrites a slot of the window |
| WaveRing.WindowsTile | src/ade9000.c:2121-2166 | where WV_NO_DESPIKE leaves repair out: laid end to end the windows are the stream of pages, none lost, repeated or out of order |
| WaveRuns.ReadWfbData | src/ade9000.c:2077-2206 | one call on the buffers is eight ring puts followed by the repair of those eight pages, with the windows handed over in between |
| WaveRuns.CallsKeep | src/ade9000.c:2077-2206 | after any number of calls the ring holds the latest pages, all repaired, and the window is the half completed last |
| WaveRuns.WindowAtEveryMoment | src/ade9000.c:2121-2161 | and so between the transfers of a call, the pages of that call being still unrepaired |
| WaveRuns.HandedExactly | src/ade9000.c:2121-2206 | over all runs of calls the windows handed over are the stream cut into halves, none lost, repeated or out of order, each page repaired unless its own call completed the window |
| WaveRuns.LastWindowSettles | src/ade9000.c:2121-2206 | until the next half is complete the window last handed over stands, after every call, as the same pages all repaired |
| WaveRuns.HandedWordChanges | src/ade9000.c:2172-2206 | a word of it differs from what was handed over if and only if its page came in the call that completed the window and it is a spike whose replacement differs |
| WaveRuns.HandedThenRepaired | src/ade9000.c:2121-2206 | with 200 slots, a run of thirteen calls in which a window is handed over with a spike that the same call then repairs |
| WaveRing.ResetWindowExactly | src/ade9000.c:2965-2966 | with distinct slots, the first window after the offline reset is the latest half if and only if the reset came between two halves |
| WaveCapture.StableHalf | src/ade9000.c:2082-2089 | the half read never contains the page being written |
| WaveCapture.WaveQueue.ReadPage | src/ade9000.c:2066-2161 | taking a slot, moving on, transferring and notifying is one ring step; 96 of the 128 words of the slot are replaced |
| WaveCapture.WaveQueue.ReadBurst | src/ade9000.c:2121-2161 | eight transfers are eight ring steps, handing over the windows of the ring of used words |
| WaveCapture.WaveQueue.CopyWindow | src/meter.c:2385-2399 | the consumer's copy is the window |
| WaveCapture.WaveQueue.RepairChannel | src/ade9000.c:2175-2203 | the slots with one channel replaced by its repair: all other words stay, across the wrap of the ring |
| WaveCapture.WaveQueue.RepairBurst | src/ade9000.c:2172-2203 | the eight slots just read, all six channels repaired from the samples as read |
| WaveCapture.MarkSpikes | src/ade9000.c:2181-2188 | a sample is marked exactly when it is further than the threshold from the median of three; the ends never |
| WaveCapture.RepairAt | src/ade9000.c:2190-2201 | both anchor searches and the repair value, which LinearExactly and IsolatedValue pin down |
| WaveRuns.FixedWordExactly | src/ade9000.c:2172-2202 | the repair of a burst changes a word if and only if it is a spike of its channel, taken across the eight pages, whose replacement differs |
| WaveRuns.BurstSpikeExactly | src/ade9000.c:2176-2188 | a word is a spike if and only if it lies more than 50000 (odd channels, voltages) or 80000 (even ones, currents) above or below the samples before and after it in its channel, the ends of the burst excepted |
| Despike.LinearBetweenAnchors | src/ade9000.c:2191-2201 | a repair in a cluster or at an edge lies between its two unmarked anchors, with C's truncating division |
| Despike.LinearExactly | src/ade9000.c:2191-2200 | it is the straight line through the nearest unmarked samples on both sides, rounded toward the left one |
| Despike.LineRestored | src/ade9000.c:2191-2200 | and exactly on that line where the line is at an integer |
| Despike.SpikeExactly | src/ade9000.c:2181-2188 | a sample is marked if and only if it lies further than the threshold above, or below, both its neighbours |
| Despike.IsolatedExactly | src/ade9000.c:2194 | the test on the anchors holds if and only if the spike stands alone with two unmarked samples on each side |
| Despike.CubicRestored | src/ade9000.c:2195-2196 | an isolated spike whose four neighbours lie on a cubic that is an integer there gets exactly that integer |
| Despike.IsolatedValue | src/ade9000.c:2194-2196 | off a cubic, an isolated spike gets the cubic interpolation of its four neighbours rounded toward zero |
| LogRing.PushAppends | src/meter.c:4930-4939 | a push keeps the ring well formed and appends to its contents, dropping the oldest record once full |
| LogRing.RingHoldsLatest | src/alarm.c:789-800 | after any number of pushes the ring is exactly the latest records in order |
| LogRing.PushedComesFirst | src/alarm.c:789-800 | the record pushed last is shown first, before what was shown until then |
| LogRing.FilterMeans | src/alarm.c:975-1000 | the filtered list is the matching records, each once and in order |
| LogRing.CursorOnPage | src/alarm.c:829-879 | from a page start every command leads to a page start and never past the last record, and both lists' cursors move alike |
| LogRing.PagingInverse | src/alarm.c:829-879 | paging up undoes paging down; "bottom" is the page with the last record, where paging down stops |
| LogRing.PagingShowsAll | src/alarm.c:938-1001 | from any cursor, going to the top and paging down until the cursor stays shows every record once, in order |
| LogRing.BottomThenUp | src/alarm.c:829-879 | from any cursor, going to the bottom and paging up, once for every page before the last, ends at the top |
| LogPages.LogFifo.Store | src/alarm.c:789-800 | the two-branch push on the array is one ring push |
| LogPages.PageView.FetchAlarm | src/alarm.c:829-879 | the page is the slice of the newest-first log at the cursor, padded with zero records; where each command leaves the cursor, top showing the newest records and bottom the page with the oldest; the log is untouched |
| LogPages.PageView.CountMatches | src/alarm.c:950-959 | the total is the number of matching records |
| LogPages.PageView.ScanMatches | src/alarm.c:975-1000 | the backward scan with early exit collects a prefix of the matches that fills the page or is all of them |
| LogPages.PageView.FetchItic | src/alarm.c:938-1001 | the same for the filtered log, paging up from less than a page down leading to the top |
| AlarmStatus.LogAlternates | src/alarm.c:1048-1120 | each slot logs alarm and recovery in turn, and its count is that of the alarms logged |
| AlarmStatus.NoChatterExactly | src/alarm.c:1048-1105 | no input both raises and clears an alarm if and only if the level is not negative or the dead band is zero |
| AlarmStatus.BandExactly | src/alarm.c:1048-1105 | an alarm is raised strictly beyond the level and clears once the input has come back by the dead band, in percent of the level |
| AlarmStatus.ConstantFlipsOnce | src/alarm.c:1048-1120 | then an unchanging input flips the status at most once |
| AlarmStatus.DelayExactly | src/alarm.c:1058-1112 | a lasting input flips a rested slot at second delay + 1 exactly when the delay is under 256, and never otherwise |
| AlarmStatus.FlipsExactly | src/alarm.c:1058-1115 | an input that comes and goes flips a rested slot exactly when it has lasted one second longer than the delay without a break |
| AlarmStatus.AlarmSlot.AlarmProc | src/alarm.c:1048-1120 | the loop body is one second of the status machine |

## Left out

- Hardware and operating system: SPI, DMA, GPIO, UART, flash drivers, RTOS and file-system ports, console and network.
  Files are byte or record sequences; a lock or an event flag is one atomic step.
- Floating point: measurements, limits, ratios and percentages are reals, so rounding of `float` is not modelled.
- Metering arithmetic (phasors, unbalance, gains, power factor): numeric code without a protocol.
- Swell and over-current detection: swell repeats the sag machine's shape in a simpler form; the over-current return
  mask is not cleared with the others, so its hysteresis promises nothing.
- Capture requests and per-phase counts of the detector (putEventCap, updateLastCapType, updateEventCount).
- Trimming of old logs, appending to the ten-minute log, local time and file naming: file names and week ends are
  parameters. Meters other than the first, and inactive reports, hand nothing over.
- Saving and loading the alarm log after it has wrapped: the file keeps slot order, not record order.
- Weekly compliance and report values per phase: their loops do not index the phase.
- The file task's watchdog counter.
- DateTimes.SecondsRoundTripExactly: `time_t` is unbounded here; DateTimes.DateRoundTrip32Exactly is the 32-bit case.
- PqTasks.PqReport.PqQueueJob: copying the queue and emptying it is one atomic step, as in a system where only the
  metering task touches the queue.
- PqHandoff.InvPreserved: an event counts as written off when its file write is over, whether or not the write failed;
  a failed write leaves an arbitrary file.
- PqHandoff.PowerLoss: the points looked at are those between two operations on the file; a loss inside one `fwrite`
  leaves part of what it was writing.
- QualWeekImage.UpdateImage: in records, reading stops between two of them; in QualWeekFile it stops at any byte.
- SagMachine.SagDetector.CheckPqEvent: the 64-bit clock is read once a call; voltages and levels are unbounded naturals.
- Despike.LinearBetweenAnchors: samples are unbounded integers; the 32-bit differences and sums of two samples are
  taken not to overflow.
- WaveRuns.HandedWordChanges: a window is looked at when it is handed over and after each call; a consumer that copies
  while the repair is running may see some of its words replaced and others not.
- AlarmStatus.AlarmSlot.AlarmProc: one slot; the branch for a third kind of condition cannot be reached, since the kind
  is reduced to one bit.
- PathMatch.PathMatch: letters are compared as in the C locale; strings are sequences without their terminator.
