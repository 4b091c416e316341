# Crash-safe order execution: a Dafny model

This project models the part of the TWAP executor that must not lose, double
or repeat a fill when processes crash: the journal on disk, the replay that
interprets it, the nonces and the writer lock, the exchange's price grid, and
the planning and resuming of position and ordinary runs.  The main results hold for
all inputs, all runs or all reachable states; where a promise fails, a
counterexample stands beside the exact condition under which it holds.
`dafny verify dfyconfig.toml` checks the project.

| file | what it is about |
|---|---|
| `Wrappers`, `Types`, `Decimals` | results, the trading vocabulary, exact decimals, directed rounding, decimals as text |
| `PriceGrid` | tick rounding (`src/format.rs`) |
| `JournalRecords`, `FingerprintCheck`, `Replay` | the records, the header's own check, the replay as a state machine |
| `ReplayTheory`, `ReplayLoop`, `LogReading` | invariants of replay; the in-place loop and tables; the declarative reading they compute |
| `RecordRules`, `ReportRules`, `HeaderRules`, `Refusals` | on the fields of the records alone: which record may come next, what is accounted for, what a report and a header must say, and what each refusal means |
| `CapAccounting`, `FillValidation`, `Reports` | soundness of the notional cap; the two fill validators; report writer against report checker |
| `JournalFile`, `CrashRuns`, `CutJournal` | parsing and repairing the file; every run of appends, crashes and repairs; files cut anywhere, replayed |
| `Nonce`, `NonceProtocol`, `NonceLog`, `LockKeys` | the high-water mark and counter as classes; the protocol of processes and threads; when a restart is at risk, told from logged events; lock file names |
| `Position`, `PositionRun`, `PositionResume`, `PhaseFingerprint` | planning; executing with partial fills and restarts; resuming from a journal; planner against header check |
| `Sizing`, `Continuation` | slices and what rounding drops; what resumes of an ordinary run still have to do |
| `Startup` | lock, scan, then start, resume or abandon, by any number of processes that may die anywhere |

How to read it.  A decimal is an exact `real` with the largest magnitude of the
decimal type written out where a checked operation can fail; a decimal in the
journal is a text, that is a value together with the number of fractional
digits it is written with, because the code compares some of them as strings.
JSON is a pair of functions on some type of written records, with the promises
of RFC 8259, sections 4 and 7, that `JournalFile.JsonObjects` spells out; what
the replay makes of a written record is a function of it, so that exact reals
never have to be encoded.  `CutJournal.EveryJournalHasAFile` shows that the
promises can be met, and together with every accepted journal.  The code's loops and objects are methods and
classes proved against specification functions; the state machines
(`CrashRuns`, `NonceProtocol`, `PositionRun`, `Startup`) are sets of events
with all interleavings allowed.

## Where the code differs from what it promises

- A position plan with one phase is written with its size in canonical
  spelling (`src/main.rs:255-269`), but the header check compares it with the
  difference of the endpoints as that prints (`src/journal.rs:1834`).  From
  1.5 to 0.5 the plan says "1" and the check expects "1.0", so the run's own
  journal is refused on replay.  `PhaseFingerprint.OwnHeaderIsAcceptedExactly`
  gives the exact condition and `PhaseFingerprint.ShrinkingByOneIsRefused` the
  input.
- The message `next_nonce` logs when a write fails (`src/client.rs:964-976`)
  says that a restart is at risk before the next
  successful persist.  With several threads that is not enough:
  `NonceProtocol.LaterWriteIsNotEnough` has a run in which a later write
  succeeds and the restart still can repeat a nonce.
  `NonceProtocol.RestartRepeatsExactlyWhenExposed` and
  `NonceLog.ExposedExactlyByTheLog` give the exact condition, on the state and
  on the logged events, and `NonceLog.NextWriteIsEnoughForOneThread` shows that
  the message is exact when each process has one thread.
- A header whose fingerprint is of another version is only checked for its
  cap, so a run can be accepted whose own stop report is then refused:
  `Reports.OtherVersionsCanRefuseTheirOwnReport`, with the exact condition in
  `Reports.WriterAndCheckerAgree`.
- The header check accepts one adjustment straight through zero, which the
  planner never makes: `PhaseFingerprint.CheckerAcceptsExactly`.  The
  comparison at resume (`src/main.rs:574-584`) refuses it.
- A torn last line is dropped if it does not parse; a beginning of it that
  does parse would come back as a record if the file were cut there.
  `CrashRuns.CutsHarmlessExactly` says when that is excluded, and
  `CrashRuns.RunFile` that it is excluded for every file the journal writes.

## Model

| member | source | states |
|---|---|---|
| CrashRuns.FileReadsAsTheLog | src/journal.rs:544-694 | after any run of appends, crashes that keep any prefix of the last write, interrupted repairs and reopenings, the file parses to exactly the log: every acknowledged record once and in order, at most one unacknowledged record per crash, and reopening never fails |
| CrashRuns.EverythingCanHappen | src/journal.rs:544-694 | no crash is ruled out: any part of a line may reach the file, and a repair may be cut short |
| CrashRuns.StepSound | src/journal.rs:544-694 | each single step keeps the file readable as the log, its torn line never readable in part, and the file at a line boundary while it is open |
| CrashRuns.ReadAppended | src/journal.rs:579-603 | appending to a readable file at a boundary adds exactly that record to what is read |
| CrashRuns.ReadTorn | src/journal.rs:617-648 | a torn append reads as nothing until its JSON is complete and as the record from then on |
| CrashRuns.CutAnywhere | src/journal.rs:617-648 | cutting a file anywhere after its header object leaves a readable file whose records are a beginning of the full file's |
| CrashRuns.CutsHarmlessExactly | src/journal.rs:617-648 | all such cuts are harmless if and only if no beginning of the torn line reads as a record |
| CrashRuns.RunFile | src/journal.rs:544-694 | every file a run leaves starts with the header line, reads as the log, and has no torn line with a readable beginning |
| CutJournal.CutFileIsAccepted | src/journal.rs:1141-1504 | a cut of an accepted journal file replays: same header and cap, and filled size and notional no larger than the full file's |
| CutJournal.CutOfAnyRun | src/journal.rs:544-694 | the same for the file left by any run of appends, crashes and repairs, its records a beginning of the log |
| CutJournal.EveryJournalHasAFile | src/journal.rs:579-648 | every accepted journal is what the file of some run means under an encoding that keeps the promises, and that file meets the hypotheses of the two statements above |
| JournalFile.SegmentsRejoin | src/journal.rs:617-648 | the lines and the tail are the file: joined by newlines they give it back and none holds a newline |
| JournalFile.ReadAll | src/journal.rs:617-648 | the parsing loop returns the specified reading, error line included |
| JournalFile.ReadingExactly | src/journal.rs:617-648 | reading fails if and only if some segment with text does not decode and is newline-terminated, or is the last one with no record before it; it names the first such line; on success it is the decodes of the segments in order, and only an unterminated last one was dropped |
| JournalFile.RepairPreservesReading | src/journal.rs:668-694 | repair of a readable file succeeds, ends at a boundary, changes nothing in what parsing returns and is idempotent; it is refused exactly for an unreadable file that is not at a boundary |
| JournalFile.RepairTouchesOnlyTheTail | src/journal.rs:668-694 | repair adds one newline, or takes away a corrupt unterminated line, and nothing else |
| JournalFile.Handle.Record | src/journal.rs:579-603 | a record is appended as its encoding and one newline, and nothing else changes |
| JournalFile.Handle.RestoreLineBoundary | src/journal.rs:668-694 | the in-place repair leaves exactly the specified bytes, or reports the parse error and leaves the file alone |
| JournalFile.PromisesCanBeKept | src/journal.rs:579-648 | the promises made of the JSON encoding hold together for an encoding of natural numbers |
| ReplayLoop.RunReplay | src/journal.rs:1042-1504 | the imperative replay over its tables returns exactly the specified result, first error included |
| ReplayLoop.CalculateTotals | src/journal.rs:1077-1129 | the totals loop, taking the map's entries in any order, returns the sums over cloids and the price average of the specification; its own execution sums never overflow |
| ReplayLoop.Tables.Apply | src/journal.rs:1141-1484 | one round of the loop changes the tables exactly as one step of the state machine, or returns that step's error |
| ReplayLoop.Tables.ApplyOutcome | src/journal.rs:1238-1404 | submission, acknowledgement and terminal records: same transitions, same order of rejections, same credited fill |
| ReplayLoop.Tables.ApplyPrepared | src/journal.rs:1178-1237 | the in-place step for a Prepared record is the specified one, error included |
| ReplayLoop.Tables.CheckReport | src/journal.rs:1405-1447 | a report is refused with the specified error or accepted, without changing anything |
| ReplayLoop.UnresolvedOf | src/journal.rs:923-929 | the loop over first-seen order collects exactly the cloids with no final outcome |
| LogReading.ReplayIsTheReading | src/journal.rs:1131-1404 | on an accepted journal each cloid was prepared once and the tables are those read off the log, by the last record about each cloid |
| RecordRules.PreparedTermsAreTheRecord | src/journal.rs:1178-1237 | each order of an accepted journal is replayed under exactly the slice, symbol, side, time-in-force, price and size its Prepared record states |
| RecordRules.FillsObeyTheirOrder | src/journal.rs:1285-1370 | every Terminal record of an accepted journal follows its order's Prepared record and is within that record's own size, price and side |
| RecordRules.PreparedAcceptedExactly | src/journal.rs:1178-1237 | an open journal takes a Prepared record if and only if the cloid is new, the size reads and is not negative, and the price reads and is positive |
| RecordRules.ProgressAcceptedExactly | src/journal.rs:1238-1284 | a submission of unknown outcome is taken exactly right after the Prepared record, an acknowledgement exactly before any Terminal, both only for the same slice |
| RecordRules.TerminalAcceptedExactly | src/journal.rs:1285-1404 | a Terminal record is taken if and only if its status is final, its slice the order's, its fill within the order's size and limit and within a decimal, and it takes back neither size nor notional of the last one |
| RecordRules.StrangersAreRefused | src/journal.rs:1149-1284 | nothing is taken about an order that was not prepared, nor a second header |
| RecordRules.AccountedByTheRecords | src/journal.rs:1077-1129 | filled size and notional are the sums over Prepared records of the last record about each, a fill costing its size at the reported average or else at the limit; the average is trusted exactly when something filled and every fill was reported; only sums that do not fit refuse the journal |
| RecordRules.StatesByTheRecords | src/journal.rs:1275-1290 | the summary gives each order the state its last record puts it in |
| ReportRules.ReportAcceptedExactly | src/journal.rs:1405-1471 | a report is taken if and only if its filled total, unknown cloids and every figure of its whole-run summary are true of the records before it |
| ReportRules.WrongCapIsRefused | src/journal.rs:1551-1568 | a report naming any other remaining cap than what is left is refused |
| ReportRules.AbandonedAcceptedExactly | src/journal.rs:1472-1480 | a run is given up if and only if no order is without a final outcome |
| ReportRules.OpenCapExactly | src/journal.rs:1558-1563 | the open cap plus what was spent is the header's cap, or the open cap is zero when more was spent |
| ReportRules.LastReportIsKept | src/journal.rs:1436-1440 | the summary repeats the last report as written |
| ReportRules.WrittenReportsAreTrue | src/main.rs:4054-4130 | every figure of the written stop and completion reports, elapsed time included, is that of the records |
| HeaderRules.HeaderAcceptedExactly | src/journal.rs:1613-1892 | a journal may start with a header if and only if it has no fingerprint, or a positive cap and, for version 3, a fingerprint in order field by field; the replay has that cap |
| HeaderRules.SizedRunPassesItsCheck | src/main.rs:2730-2890 | the sizing of a freshly sized ordinary run passes the header check, whatever else is in order |
| HeaderRules.LogicalTotalIsTheDistance | src/journal.rs:288-304 | the phases of a position run add up to the distance between its endpoints, and a single one is repeated as spelt |
| HeaderRules.HeaderRefusal | src/journal.rs:1149-1177 | a refused header has a cap that is not positive, or a fingerprint not in order |
| Refusals.RefusalsAreTrue | src/journal.rs:1141-1484 | every error an open journal answers with names a fault the record has |
| Refusals.ClosedTakesNothing | src/journal.rs:1141-1147 | a closed journal refuses every record with the error of how it was closed |
| Refusals.HeaderMustComeFirst | src/journal.rs:1042-1050 | an empty journal and one that does not start with a header are refused as such |
| LogReading.FoldAdmissible | src/journal.rs:1141-1484 | replay accepts exactly the journals in which every record is admissible after the ones before it, with admissibility stated on the log alone |
| LogReading.AcceptedExactly | src/journal.rs:1042-1504 | a journal is accepted if and only if it is not empty, every record is admissible and its totals fit |
| ReplayTheory.FoldConsistent | src/journal.rs:1131-1404 | in every accepted state the tables agree: one entry per prepared cloid, exactly the closed cloids carry a fill, each the credit of its terminal record |
| ReplayTheory.ErrorsStick | src/journal.rs:1141-1504 | once refused, a journal stays refused with the same error whatever is appended |
| ReplayTheory.SumsGrowAlong | src/journal.rs:1371-1386 | filled size and notional never decrease along an accepted journal and no cloid is forgotten |
| ReplayTheory.PrefixAccepted | src/journal.rs:1371-1496 | every non-empty prefix of an accepted journal is accepted, with the same header and cap and no larger totals |
| ReplayTheory.CapNeverGrowsBack | src/journal.rs:1496-1504 | the cap still open never grows as a journal is extended, and is never negative |
| ReplayTheory.TwoComputationsAgree | src/journal.rs:908-929 | the summary's filled size, summed over state strings, equals the accounting's; the unresolved list has no duplicates and names exactly the cloids that are not terminal |
| ReplayTheory.CompleteExactlyWhenClosed | src/journal.rs:887-901 | an accepted journal reads as complete exactly when its last record abandons it or reports completion; then nothing is unresolved and no extension is accepted |
| ReplayTheory.DistinctCount | src/journal.rs:1448-1471 | comparing the size of the set of reported cloids with the length of the list is exactly a check for duplicates |
| CapAccounting.AccountedNotionalIsSound | src/journal.rs:1304-1370 | for every accepted journal and every history of matches within the limits that explains its fills, the true notional is at most the accounted one; with a trusted average price, both equal that price times the filled size |
| CapAccounting.EveryJournalHasAHistory | src/journal.rs:1304-1370 | every accepted journal has such a history |
| CapAccounting.FillCovers | src/journal.rs:1304-1370 | one credited fill is worth at least what any permitted executions behind it cost |
| CapAccounting.VwapIsExact | src/journal.rs:1099-1127 | a trusted average price exists only if every positive fill is priced, and times the filled size it is the accounted notional |
| FillValidation.ValidatorsCoincide | src/client.rs:744-864 | for an order prepared with its time-in-force and not yet final, the order-status validator passes a fill exactly when replay takes its terminal record, and both credit the same size and price |
| FillValidation.CreditAgrees | src/journal.rs:1285-1370 | the validator's verdict and the replay's crediting agree on every fill whose value fits |
| FillValidation.PlaceIsStricter | src/client.rs:839-864 | the placement validator agrees on priced fills and refuses resting outcomes; what order status passes beyond that is exactly the unpriced fills the limit itself bounds |
| FillValidation.VerdictIsTrue | src/client.rs:744-837 | a refused fill has the fault its error names |
| FillValidation.TermsAreConsistent | src/journal.rs:1178-1237 | every intent of an accepted journal has a non-negative size and a positive price |
| Reports.WriterAndCheckerAgree | src/main.rs:4054-4130 | appending the stop report built from the replay keeps the journal accepted, totals and cloids unchanged, if and only if the plan totals in the header read; the completion report needs in addition that nothing is unresolved |
| Reports.StopReportAlwaysAccepted | src/main.rs:4226-4255 | with no fingerprint or one of the current version the stop report is always accepted |
| Reports.CurrentVersionIsReportable | src/journal.rs:1613-1892 | a current-version header that passes its check has plan totals a report can repeat |
| Reports.OtherVersionsCanRefuseTheirOwnReport | src/journal.rs:1512-1607 | a concrete header of another version whose own stop report is refused |
| Reports.WholeRunClaimHolds | src/journal.rs:1512-1607 | the whole-run summary computed by the writer passes the checker's comparison exactly when the header's totals read |
| Reports.TotalsAreWritable | src/journal.rs:1077-1129 | the totals and the average price of an accepted journal are non-negative and fit a decimal |
| PriceGrid.RoundPriceIsNearestGridPrice | src/format.rs:45-117 | for a positive price the two directed roundings give exactly the least grid price not below it for a long, and the greatest not above it (or zero) for a short |
| PriceGrid.CountLeadingFractionZeros | src/format.rs:105-117 | the loop counts the zeros after the point: moving it that far keeps the price below one and one more does not, up to the cap |
| PriceGrid.RoundPriceIdempotent | src/format.rs:45-64 | a grid price rounds to itself, so rounding twice is rounding once |
| PriceGrid.RoundPriceMonotone | src/format.rs:45-64 | rounding keeps order, across powers of ten |
| PriceGrid.ShortPriceFloorsToZero | src/format.rs:45-64 | a short price rounds to zero exactly when it is below one unit of the finest allowed place |
| PriceGrid.TakerLimitIsMarketable | src/format.rs:126-139 | a taker buy limit is never below the ask and a sell limit never above the bid, after rounding |
| PriceGrid.TakerLimitExactly | src/format.rs:126-139 | the taker limit is exactly the grid price nearest, in its direction, to the touch moved by the slippage in basis points |
| PriceGrid.RoundSizeNeverExceeds | src/format.rs:35-37 | size rounding gives the greatest size on the grid that is not above the request |
| Nonce.NonceHwm.Advance | src/lock.rs:324-357 | a nonce above the mark reaches the file and then memory; a lower one writes nothing; a failed write changes neither |
| Nonce.NonceHwm.Load | src/lock.rs:273-284 | the mark starts as the file's value, or zero without a file |
| Nonce.Client.NextNonce | src/client.rs:948-978 | whatever other threads exchange in between, the call returns the clock or one past the last counter value, whichever is larger, leaves it in the counter, and raises the durable mark to it unless the write fails |
| Nonce.Client.SeedNonce | src/client.rs:917-933 | seeding leaves the counter one below the seed and keeps the mark to persist to |
| Nonce.FirstNonceExactly | src/lock.rs:290-292 | the first nonce after seeding is at least both clock readings and above the mark, and is one of those two or the mark plus one |
| NonceProtocol.NoNonceReturnedTwice | src/client.rs:917-978 | in every interleaving of processes, threads, failed writes, deaths and arbitrary clocks, no nonce is returned twice, as long as no process reads a mark below a returned nonce and the counter does not wrap |
| NonceProtocol.AnythingCanGoWrong | src/client.rs:917-978 | clocks say anything, any write can fail and any process can die at any step |
| NonceProtocol.MarkCoversEveryNonce | src/lock.rs:273-357 | the mark never falls and one process at most is past the lock; with no failed write the mark is at least every nonce returned, however out of order the threads reach it |
| NonceProtocol.RestartRepeatsExactlyWhenExposed | src/client.rs:948-978 | with no process alive, some restart without further failures can return a nonce again if and only if a returned nonce lies above the mark |
| NonceProtocol.LaterWriteIsNotEnough | src/client.rs:935-976 | a run in which a write fails, a later one succeeds, and the restart is still exposed and can repeat a nonce |
| NonceLog.ExposedExactlyByTheLog | src/client.rs:964-976 | in every reachable state a restart is at risk if and only if some nonce whose write failed is above every nonce ever renamed into the file |
| NonceLog.NextWriteIsEnoughForOneThread | src/client.rs:964-976 | with one thread per process and no restart between a failed write and the next successful one, a restart is at risk precisely from the failure to that write, and no nonce is returned twice |
| NonceProtocol.StepSafe | src/main.rs:1721-1834 | every step of start-up, minting, persisting and dying keeps nonces in flight distinct, below the counter and apart from those returned |
| LockKeys.LockFilesAreDistinct | src/lock.rs:111-128 | for network names and addresses without separator characters, two lock files coincide exactly when network and agent do |
| Position.PlanIsUnique | src/position.rs:165-200 | a sequence of phases is the planner's result if and only if it leads from position to target in positive legs toward it, never through zero within a leg, broken only at zero, with reduce-only exactly on shrinking legs |
| Position.PlanningSucceeds | src/position.rs:165-200 | planning between two positions that fit never fails |
| Position.PlanCoversTheDistance | src/position.rs:165-200 | the phase sizes add up to the distance between position and target |
| Position.CrossesExactly | src/position.rs:158-162 | a plan closes then opens exactly when the endpoints lie on opposite sides of zero, and closes the whole position |
| Position.TargetPlan | src/position.rs:99-125 | planning a target succeeds exactly for the right symbol and a position on the size grid; the target is cut back by less than one unit and never beyond the request, and all sizes are on the grid |
| Position.UsdPlan | src/position.rs:130-144 | a dollar target is planned as the size it buys, never more, and fails exactly in the listed cases |
| Position.FlattenPlan | src/position.rs:146-152 | flattening is one reduce-only leg of the whole position, or nothing |
| PositionRun.RunStaysBetween | src/position.rs:87-93 | over all partial fills and restarts the position stays between the frozen endpoints, what was traded plus what a new plan asks is the frozen total, and a full last phase lands on the target |
| PositionRun.PhasesKeepTheirPromise | src/main.rs:3420-3660 | a reduce-only phase never grows or flips the position, the opening phase starts at exactly zero, no fill crosses zero |
| PositionResume.ExpectedPositionFromReplay | src/main.rs:613-651 | the loop over the replayed cloids returns the specified position or the first error |
| PositionResume.ExpectedExactly | src/main.rs:613-651 | the reconstruction succeeds exactly when every fill goes the frozen way and together they do not pass the target; it is then the initial position moved by the filled size |
| PositionResume.ExpectedRefusal | src/main.rs:613-651 | a failed reconstruction has found a fill the wrong way or fills that pass the target |
| PositionResume.ExpectedFromAccepted | src/main.rs:613-651 | on an accepted journal that filled size is the replay's own total |
| PositionResume.ResumeConservesThePlan | src/main.rs:2428-2464 | planning again from there goes the same way, asks for exactly the frozen total less what was filled, and closes then opens exactly when flat is not yet reached |
| PhaseFingerprint.PlannerIsAcceptedExactly | src/journal.rs:1826-1860 | the planner's own phases pass the header check if and only if they are not a single phase whose size loses its last digit in the subtraction |
| PhaseFingerprint.OwnHeaderIsAcceptedExactly | src/journal.rs:1613-1892 | for a position fingerprint with every other field in order, the whole header check, and replay of the journal that starts with the header, accept the planner's phases if and only if that condition holds |
| PhaseFingerprint.CheckerAcceptsExactly | src/journal.rs:1816-1880 | the check accepts exactly those, and one crossing adjustment the planner never makes |
| PhaseFingerprint.ShrinkingByOneIsRefused | src/journal.rs:1834-1842 | the plan from 1.5 to 0.5 is written as planned and its journal refused |
| PhaseFingerprint.PhaseCheckSplits | src/journal.rs:1816-1880 | with side and reduce-only copied from the first phase, the header's phase check is the check of the phases alone |
| Sizing.RoundingDropsLittle | src/twap.rs:503-531 | the adjusted total is on the grid, at most the request, short of it by less than one unit per slice, and is exactly slices times the slice size as the header check demands |
| Sizing.StoredSizingIsTheOriginal | src/main.rs:286-348 | whatever the price at resume, a stored sizing passes exactly when it is the one computed at the start |
| Sizing.SlicesNeverOvershoot | src/twap.rs:545-573 | whatever each slice fills of its order, the filled size is at most what is due and at most the total |
| Sizing.SizingExactly | src/twap.rs:503-531 | sizing takes the largest grid size that fits the total that many times; it succeeds if and only if the total is positive and that size is positive and worth ten dollars, and names what fails |
| Sizing.StoredSizingExactly | src/main.rs:286-348 | a stored sizing passes if and only if it is that sizing, field by field |
| Sizing.SliceOrderExactly | src/twap.rs:545-573 | a slice orders nothing once what is due is filled, and else the largest grid size still due |
| Sizing.FullSliceCatchesUp | src/twap.rs:545-573 | after a slice that fills completely exactly that many slice sizes are filled, or after the last the total, whatever earlier slices missed |
| Sizing.LastSliceCatchesUp | src/twap.rs:545-573 | a last slice that fills completely lands exactly on the total, whatever earlier slices missed |
| Continuation.ContinuationSlices | src/main.rs:3319-3324 | the 32-bit slice count is just enough for the remainder whenever such a count exists, and one otherwise |
| Continuation.ContinuationPlan | src/main.rs:3187-3367 | a resume is satisfied, too small to place, or continues with exactly the remainder at the same slice size |
| Continuation.DecisionIsUnique | src/main.rs:3187-3367 | those conditions determine the decision |
| Continuation.ResumesConserveTheTotal | src/main.rs:3187-3367 | over any number of crashes and resumes, filled plus remaining is the adjusted total, filled never exceeds it, and the slice count is just enough and never above the original |
| Continuation.LaterResumesNeverGrow | src/main.rs:3187-3367 | a later resume never plans more slices nor a larger remainder than an earlier one |
| Continuation.ResumesOfOneJournal | src/main.rs:3060-3097 | the same for two resumes from one accepted journal, the second after more was recorded |
| Startup.AtMostOneIncompleteRun | src/main.rs:1721-1810 | in every reachable state at most one run per network and agent is incomplete, no run is written by two processes, and a run is only created when none is incomplete |
| Startup.FindIncompleteRun | src/journal.rs:1896-1954 | the scan returns the first run that is refused, or incomplete with that network and agent in its header; never skips a refused one, and finds none exactly when every run is passed over |
| Startup.OneIncompletePerNetworkAndAgent | src/journal.rs:376-385 | in every reachable state two incomplete runs whose headers have the same network and agent are the same run |
| Startup.StepSafe | src/journal.rs:490-541 | every step of locking, scanning, creating, opening, appending and dying keeps that |
| Startup.RefusedJournalStopsNewRuns | src/journal.rs:1896-1954 | from any state with a refused journal that nobody is writing, it stays refused and no more runs are ever created, for any network and agent, than there were processes already past it in their scan |
| Startup.DeathBeforeHeaderBlocks | src/journal.rs:490-541 | a process that dies between creating a run's directory and its header leaves such a journal, whatever the other processes are doing |
| Startup.NoNewRunAfterDeath | src/journal.rs:490-541 | after such a death in any run, if no process was already past that directory in its scan, no run is ever created again |
| Decimals.RoundUpIsLeast | src/format.rs:45-64 | rounding up to a number of places is the least value with those places that is not below |
| Decimals.TruncationBound | src/position.rs:60-62 | truncation keeps the sign, never grows the magnitude and drops less than one unit |
| Decimals.CanonicalUnique | src/journal.rs:1613-1740 | a value has at most one canonical spelling |

## Left out

- Rounding of decimals to 28 digits: sums, products and quotients are exact reals bounded by the largest magnitude, so where the code divides (average price, share of a slice, dollars to size, slice count) the last digit may differ from a rounded quotient.
- Overflow panics of the unchecked decimal operators: in the header's phase check an overflowing difference of the endpoints counts as a refusal; elsewhere the operands are bounded so that it cannot occur or the operator is modelled as exact.
- The status vocabulary table: a status is only final, live, journal-final or unrecognised.
- Payloads of errors (field values, record numbers, operation names) and messages: an error keeps its kind and, where it has one, its cloid or line; `HeaderRules.HeaderRefusal` does not say which field of a fingerprint is named first.
- Which of two totals a summation overflow names: the code names the entry its hash map happened to reach.
- Fields that no check reads: account names in Prepared records, order ids, reasons and times beyond those in the header.
- JSON itself: encoding and decoding are any functions that keep the stated promises.
- Directory and rename durability: a record that returned is durable, and so is a rename that returned; a failed append is a crash, after which the file is reopened.
- Symbolic links, run id validation, lock metadata and file permissions.
- CapAccounting.AccountedNotionalIsSound: takes from the exchange that it matches within the limit, reports as average price that of its matches, and matches a post-only order at its own price where it reports none.
- Locks across hosts and lock poisoning: one file system and one lock per network and agent; a poisoned mutex is not modelled.
- NonceProtocol.NoNonceReturnedTwice: says nothing after the 64-bit counter wraps, where the code's successor restarts from zero.
- Position changes made outside the program: resume compares the exchange's position with the expected one and stops; the model starts where they agree.
- PositionRun.PhasesKeepTheirPromise: takes from the execution loop only that a phase is not filled past its size.
- The passive and follow quoting loops, trigger waits, deadlines, shutdown grace, pair barriers and risk checks of each order.
- Sizing.SlicesNeverOvershoot: models the catch-up sizes of the slices, without the gate that skips a slice below the minimum notional; a skipped slice is one that fills nothing.
- The order in which the scan reads runs: `Startup` allows any order between processes; `Startup.FindIncompleteRun` keeps the listing's.
- HTTP, signing, key handling, configuration, command line, rendering and logging.
