# Verified model of Falcon's ledger, bookkeeping and scoring code

The project models, in Dafny, the parts of Falcon whose comments claim an
invariant, and proves those invariants. Each module stands for one component.
Code that updates fields or arrays step by step is a class or a method with
loops, proved equal to a function of its inputs or of the old state; the
properties are lemmas about that function.

- `Ledger`, `EventReader`, `EventLog`, `LedgerProtocol`, `LedgerProgress`: the
  hash-chained event ledger. Files are byte strings; the reader is proved against
  splitting the file at newlines and folding the lines; writers are processes
  interleaving file-system operations over one lock file and one ledger, and may
  crash or write short anywhere.
- `CheckpointText`, `PacketText`, `Checkpoint`, `CheckpointFacts`,
  `CheckpointSafety`: the resume packet, its text and its verification.
- `TrendDetector`, `TrendFlags`, `RunHistory`: trend flags, one by one and in a
  batch, what each of them means, and the two surfaces that show them.
- `FlakinessTracker`: outcome history, quarantine decisions, eviction.
- `SiteSweep`: the sweep's plan, repeated runs that may crash after any row,
  dedupe claims, page records and coverage.
- `PageSelector`, `PlanSelector`, `LogRedaction`, `RateLimits`,
  `CompetitiveScore`, `ScoreOrder`, `ScoreFacts`, `CiWait`, `CiWaitExits`,
  `Journey`, `JourneyFacts`: structural selectors, the selector check, log
  redaction, the two rate limiters, the benchmark scorer, the CI wait, and
  journeys with their report. `Positions` and `Options` are shared helpers.

## What is assumed

- SHA-256 (section 6.2 of FIPS 180-4), JSON text, the schema validator and the
  redaction scan are the function fields of `Ledger.Codec`. `Codec.Sound` lists
  everything assumed of them; `LedgerWitness` shows that the list is consistent,
  also together with the hypotheses of the torn-write and checkpoint theorems.
  Collision freedom is assumed only of the finitely many texts two ledgers hash,
  and only where a lemma's hypotheses say so (`NoCollision`); the same lemmas
  assume that JSON text determines its event (`TextDeterminesEvent`).
- Writers share one host and process ids are not reused. Fresh event ids are a
  hypothesis only of what a reader finds, not of exclusion or of the file.
- Browsers, git, gh, clocks and URL handling are parameters: `Visit`, `World`,
  `Git`, `Web`, lists of times. `normalizeUrl` is an arbitrary partial function.
- Floating-point numbers are reals; `Math.sqrt` is known by its square.
- A root element without a parent is taken to match nth-of-type(1), as browsers
  do. Section 6.6.5.4 of Selectors Level 3 asks for a parent; under that reading
  a structural path matches nothing, which `PathSelectsExactly` also states.
- Rows of required assertions are never in the report's optional index set.
- `validateRecord` returns the record of a valid row unchanged; rates follow
  src/core/history/RunRecord.js:113-130.

## Where the code does not do what its comments say

Each item is proved, with the exact condition where one exists.

- Breaking a stale lock: the re-check and the rename are two operations, and two
  breakers can interleave so that both end up holding the lock
  (`TwoBreakersBreakExclusion`). A run keeps exclusion, whoever takes the lock
  next, exactly if no rename in it takes the lock of a live process
  (`ExclusionIff`).
- Torn writes: recovery fails exactly when only the newline was lost, and after a
  torn repair of a ledger that holds an event (`TornWriteRecovery`,
  `TornRepairRecovery`, `CleanTearIff`).
- `FlakinessTracker`: a quarantine whose history entry is missing when the files
  are loaded is not in force for the next recorded outcome
  (`LostHistoryForgetsQuarantine`, `LedgerStaysInForceIff`); the bound of 500 or
  only protected scenarios can fail between a release and the next record
  (`ReleaseKeepsCapIff`), and a new scenario can be evicted by its own first
  record (`NewcomerSurvivesIff`).
- `SiteSweep`: claims are released by description, so after a crash a page can be
  credited with a scenario that ran nowhere (`CrashCreditsAnother`,
  `ClaimsAreTrueIff`); a signature can belong to two different scenarios
  (`SignatureIdentifiesIff`); a deduped row that names its own page need not have
  run (`OwnPageRowsAreTrueIff`); the entry page leads only if normalizing it again
  changes nothing (`PlanStartsAtEntry`).
- The structural selector is unique exactly if the root's tag occurs only at the
  root (`PathsAreUniqueIff`).
- The benchmark score depends on the order of its records when two groups'
  labels compare equal (`OrderIndependentIff`), and a composite can exceed 1
  within the tolerance on the sum of the weights (`CompositeWithinOneIff`).
- The token bucket's bound needs a clock that does not step back
  (`BurstIsBoundedIff`, `WindowIsBoundedIff`).

## Model

| member | source | states |
|---|---|---|
| `Ledger.SplitRender` | src/production-cycle/EventReader.js:46-82 | splitting a file at newlines loses nothing: the complete lines, each with its newline, followed by the unfinished rest are the file |
| `Ledger.RenderSplit` | src/production-cycle/EventReader.js:46-82 | newline-free lines written one after another, with a newline-free rest, split back into exactly those lines and that rest |
| `Ledger.SplitConcat` | src/production-cycle/EventLog.js:61-75 | the pieces of a concatenation are the pieces of both parts, joined into one line where they meet, so a window cut out of the end of a file shows its last lines |
| `EventReader.ChunksCompose` | src/production-cycle/EventReader.js:30-128 | parsing b after parsing a is parsing a followed by b, as equality of whole parser states, from any state |
| `EventReader.StaysBounded` | src/production-cycle/EventReader.js:68-80 | whatever bytes arrive, the carry stays at most 4096 bytes and newline-free, is empty while a long line is dropped, and the partial-byte count is exact |
| `EventReader.FeedIsFold` | src/production-cycle/EventReader.js:30-128 | from the start of a line, feeding bytes is splitting at newlines and folding complete lines one by one, lines dropped over many chunks included |
| `EventReader.ReadIsFold` | src/production-cycle/EventReader.js:138-190 | so a whole file, fed in any way, reads as its lines do |
| `EventReader.FeedSuspended` | src/production-cycle/EventReader.js:53-90 | refusing an over-long line while it is still growing and refusing it when it is complete leave the same state |
| `EventReader.CarryIsReplayed` | src/production-cycle/EventReader.js:46-80 | concatenating the carry with the next chunk is the same as seeing the carried bytes again |
| `EventReader.ReadingOnlyGrows` | src/production-cycle/EventReader.js:99-124 | more bytes never take back an event, a malformed line or the tampered flag |
| `EventReader.NextLine` | src/production-cycle/EventReader.js:51-90 | after the line that ends at a newline, dropped or complete, the rest of the chunk means what it meant before |
| `EventReader.LedgerParser.ParseChunk` | src/production-cycle/EventReader.js:30-128 | the loop over `start` and `idx` updates all parser fields to exactly what feeding the chunk byte by byte gives |
| `EventReader.LedgerParser.TakeLine` | src/production-cycle/EventReader.js:82-124 | one complete line: malformed, duplicate id, broken link or good, with the hash of the raw line kept for the next link |
| `EventReader.ReadAll` | src/production-cycle/EventReader.js:138-190 | reading in 64 KiB requests that may return fewer bytes gives the summary of folding the file line by line |
| `EventReader.UntamperedIff` | src/production-cycle/EventReader.js:99-124 | a file is reported tampered exactly when its accepted lines do not form one unbroken chain: seq 1..n, each prevHash the hash of the raw line before, no id twice |
| `EventReader.FirstBadSeqIs` | src/production-cycle/EventReader.js:101-119 | the first bad sequence number reported is that of the first accepted line that breaks the chain, and none is reported exactly if none does |
| `EventReader.EveryLineIsAccountedFor` | src/production-cycle/EventReader.js:46-124 | every complete line of a file is an event, a refused line reported with its own line number and byte length, or a repetition of an earlier id; events and refused lines keep their order, and the last sequence number is that of the last event |
| `EventLog.LedgerFile.ReadTailState` | src/production-cycle/EventLog.js:48-80 | the tail read from the last 64 KiB: whether the file ends in a newline and the last complete line inside the window |
| `EventLog.LedgerFile.AppendEvent` | src/production-cycle/EventLog.js:187-299 | the answer and the file after an append are those decided from its tail, whose exact conditions `AppendLandsIff` states; every refusal leaves every byte as it was |
| `EventLog.TailSeesLastLine` | src/production-cycle/EventLog.js:61-75 | when the last complete line and the rest fit in the window, the tail is that of the whole file |
| `EventLog.CandidateIs` | src/production-cycle/EventLog.js:82-93 | on any file whose last line fits the window, the next event continues the last complete line, and restarts at seq 1 with the genesis hash without one, or if it is empty or unreadable |
| `EventLog.TailOfHealthy` | src/production-cycle/EventLog.js:48-93 | on a ledger that is an unbroken chain with at most one unrepaired fragment, the next append finds the true last event and its hash |
| `EventLog.HealthyReadsClean` | src/production-cycle/EventReader.js:99-124 | such a ledger reads back exactly: its events in order, last seq equal to their number, no tampering, one malformed line per repaired fragment, the fragment's bytes pending |
| `EventLog.PreparedLinks` | src/production-cycle/EventLog.js:230-257 | the event an append builds on such a ledger has seq one more than the number of events, the hash of the last line, and is accepted by the reader |
| `EventLog.AppendLandsIff` | src/production-cycle/EventLog.js:222-262 | when an append to such a ledger lands, and why it does not: refused by redaction; LEDGER_FULL exactly with 20000 events or more than 8 MiB; SCHEMA_INVALID exactly if the next event does not validate; too large exactly above 4096 bytes; otherwise it returns the next sequence number and adds exactly that record |
| `EventLog.AppendKeepsHealth` | src/production-cycle/EventLog.js:222-297 | an undisturbed append keeps the ledger in that shape, seals a fragment into one malformed line, and adds exactly its event |
| `EventLog.TearKeepsHealth` | src/production-cycle/EventLog.js:264-281 | a first write that stops anywhere inside its line leaves every committed event and one fragment |
| `EventLog.TornWriteRecovery` | src/production-cycle/EventLog.js:48-93 | a non-repair append cut after k bytes, then one more append: the chain is unbroken if and only if k is not exactly the line length; otherwise all earlier events, the first one if it arrived whole, and the new one are read, with one malformed line exactly for a nonempty fragment |
| `EventLog.LostNewlineReusesSeq` | src/production-cycle/EventLog.js:72-74 | if only the newline was lost the next append reuses that line's sequence number and the reader reports tampering |
| `EventLog.TornRepairRestarts` | src/production-cycle/EventLog.js:82-92 | after a repair append was itself cut, the next append restarts at seq 1 with the genesis hash; the reader reports tampering exactly when an event had been committed or the cut line was whole |
| `EventLog.TornRepairRecovery` | src/production-cycle/EventLog.js:222-297 | a repair append cut after k bytes, then one more append: untampered if and only if nothing or everything was written, or no event was committed before and the line did not arrive whole |
| `EventLog.TearFirstRepair` | src/production-cycle/EventLog.js:222-297 | a repair append cut inside its line while no event is committed leaves a ledger in the healthy shape, with one more sealed fragment |
| `EventLog.ReadRendered` | src/production-cycle/EventReader.js:46-82 | a file of complete newline-free lines reads as the fold over those lines |
| `LedgerProtocol.StepKeepsLockInv` | src/production-cycle/EventLog.js:95-176 | every action of any process keeps: whoever is between acquire and release owns the lock, the owner is there or dead, a confirmed nonce names a dead owner; asked only of a rename, that it finds no lock or that of any dead process |
| `LedgerProtocol.ConfirmedNonceIsSafe` | src/production-cycle/EventLog.js:137-154 | a rename whose lock still carries the nonce that was re-read is such a rename |
| `LedgerProtocol.RenameThenCreateIff` | src/production-cycle/EventLog.js:134-154 | after a rename the breaker can take the lock at once, and then at most one process holds it if and only if the rename found no lock or the lock of a dead process |
| `LedgerProtocol.ExclusionIff` | src/production-cycle/EventLog.js:95-176 | the renames of a run are all of that kind if and only if, at each of its moments, whoever takes the lock next is alone in holding it |
| `LedgerProtocol.TwoBreakersBreakExclusion` | src/production-cycle/EventLog.js:134-154 | re-check and rename are two operations, and a concrete interleaving of two breakers ends with two processes holding the lock |
| `LedgerProtocol.StepKeepsInv` | src/production-cycle/EventLog.js:187-299 | every such action keeps, besides, that a tail read under the lock is still current when it is used and that the file is the sequential result of the writes in lock order, whatever is written |
| `LedgerProtocol.RunKeepsInv` | src/production-cycle/EventLog.js:187-299 | the same at every moment of every run of any number of processes with such renames: crashes, short writes, lost newlines, torn repairs and reused event ids included |
| `LedgerProtocol.AlwaysExclusive` | src/production-cycle/EventLog.js:95-176 | at every moment of every such run at most one process is between acquire and release |
| `LedgerProtocol.LedgerReadsAsSequential` | src/production-cycle/EventLog.js:187-299 | if besides every write has a fresh event id and every torn write is one the next append recovers from, the reader at every moment finds an untampered chain, seq exactly 1..n and each prevHash the hash of the line before, of at most 20000 events, exactly the drafts whose records arrived whole, plus one malformed line or pending fragment per record whose line was cut |
| `LedgerProtocol.CleanTearIff` | src/production-cycle/EventLog.js:48-93 | a torn write, repairing or not, counts as recoverable if and only if the next append leaves a ledger that reads as untampered |
| `LedgerProtocol.UntornRunReadsEveryWrite` | src/production-cycle/EventReader.js:99-124 | when no write is cut, the reader finds every write, nothing else, and no malformed or partial line |
| `LedgerProtocol.FileOnlyGrows` | src/production-cycle/EventLog.js:272-281 | no action ever takes back a byte of the ledger |
| `LedgerProtocol.FileIsBounded` | src/production-cycle/EventLog.js:233-238 | at every moment of every run with such renames the ledger is at most the size limit plus one record long |
| `LedgerProtocol.NothingReadIsLost` | src/production-cycle/EventReader.js:138-190 | what a reader saw at one moment is the beginning of what any later reader sees |
| `LedgerProtocol.ApplyCleanOp` | src/production-cycle/EventLog.js:222-297 | one recoverable write, whole or cut, accounts for exactly one more event or one more fragment |
| `LedgerProgress.UndisturbedAppend` | src/production-cycle/EventLog.js:95-299 | an idle process that is not disturbed completes its append whenever the lock is free or its owner is dead: the lock is free again, the file is the sequential append, nothing else changed |
| `LedgerProgress.ValidDraftLands` | src/production-cycle/EventLog.js:187-299 | after any run with safe renames and clean writes that leaves the lock free or stale, an undisturbed append of a valid event within the limits is read back as the next event of an untampered chain |
| `LedgerProgress.FreshWholeWritesAreRead` | src/production-cycle/EventLog.js:187-299 | in every run with safe renames, fresh event ids and no cut write, the reader finds every write, in lock order, and nothing else in an untampered chain |
| `LedgerWitness.ToyIsSound` | src/production-cycle/EventLog.js:39-41 | the assumptions on hash, JSON text, validator and redaction scan are consistent with each other and with a text that determines every field of its event |
| `LedgerWitness.TornWriteCanHappen` | src/production-cycle/EventLog.js:264-281 | all assumptions and the hypotheses of `TornWriteRecovery` can hold together, with two different event ids and a cut inside the line |
| `LedgerWitness.CheckpointCanPass` | scripts/production-cycle/checkpoint.js:792-863 | all hypotheses of `WrittenCheckpointPinsPrefix` can hold together, on a ledger that has grown by an event since |
| `CheckpointText.PacketRoundTrip` | scripts/production-cycle/checkpoint.js:671-688 | a rendered packet parses back to its header and body, and its digest covers exactly the header lines before it and the body |
| `CheckpointText.SplitJoin` | scripts/production-cycle/checkpoint.js:671-688 | joining newline-free lines and splitting again gives the lines |
| `CheckpointText.DecimalRoundTrip` | scripts/production-cycle/checkpoint.js:671-688 | a sequence number written in decimal reads back as the same number |
| `PacketText.JoinSplit` | scripts/production-cycle/checkpoint.js:914-925 | joining inverts splitting |
| `PacketText.ParsedTextIs` | scripts/production-cycle/checkpoint.js:914-940 | a text that parses is exactly its eight header lines, in order and with the values read from them, a blank line, and the body |
| `PacketText.EditNeedsCollision` | scripts/production-cycle/checkpoint.js:654-660 | two different texts that parse, carry one digest and both pass its check digest two different texts to one value: an unnoticed edit is a SHA-256 collision |
| `PacketText.PacketIs` | scripts/production-cycle/checkpoint.js:657-712 | the text of a packet, key by key, and what its digest is taken of |
| `Checkpoint.CollectInvalidatedIds` | scripts/production-cycle/checkpoint.js:272-286 | an id is collected if and only if some invalidating event names it |
| `Checkpoint.ComputeVerdicts` | scripts/production-cycle/checkpoint.js:288-327 | the stale list is every stale verdict in order; a current verdict is exactly the last verdict of a task when it is not stale |
| `Checkpoint.ComputeInFlight` | scripts/production-cycle/checkpoint.js:254-270 | a task is in flight if and only if its last opening or closing event opened it; no task is listed twice; the list is sorted by seq |
| `Checkpoint.BuildPacket` | scripts/production-cycle/checkpoint.js:690-719 | the first compression level that fits is used, over is reported exactly when none fits, and a packet judged to fit with the placeholder still fits with its real SIZE line |
| `Checkpoint.RealSizeFits` | scripts/production-cycle/checkpoint.js:698-714 | the real SIZE line of a fitting packet is never longer than the placeholder |
| `CheckpointFacts.StaleVerdictsAre` | scripts/production-cycle/checkpoint.js:272-310 | the stale list is exactly the review and release verdicts about another revision or named as invalidated by some event, in order, each with its reason |
| `CheckpointFacts.CurrentVerdictIff` | scripts/production-cycle/checkpoint.js:288-324 | a task's current verdict is its last one, exactly if that one is about this revision and not invalidated |
| `CheckpointFacts.RevisionMatchesIff` | scripts/production-cycle/checkpoint.js:238-252 | two revisions match exactly if both are known and nonempty, equally dirty, and one commit id abbreviates the other |
| `CheckpointFacts.InFlightIff` | scripts/production-cycle/checkpoint.js:254-270 | a task is in flight exactly if, of six kinds of events about it, the last was a dispatch or a start |
| `CheckpointFacts.TargetRevisionIff` | src/production-cycle/EventSchema.js:165 | an explicit revision is 7 to 40 lower-case hexadecimal digits, marked dirty or not |
| `CheckpointFacts.GenerateExits` | scripts/production-cycle/checkpoint.js:792-807 | nothing is written, with exit 3, exactly without a valid ledger, and with exit 2 exactly for an explicit revision that is none |
| `CheckpointFacts.WrittenHeaderIs` | scripts/production-cycle/checkpoint.js:834-851 | the written text parses back to the run, the last event's number and hash, the revision and the worktree identity, with an intact digest |
| `CheckpointFacts.PacketSizeIs` | scripts/production-cycle/checkpoint.js:690-722 | the packet is rendered at the least compressed of four levels with at most 6000 characters, and its SIZE line says so |
| `CheckpointSafety.ValidLedger` | src/production-cycle/EventReader.js:99-124 | an accepted ledger's events are what its raw lines say, numbered 1..n, each with the hash of the raw line before it |
| `CheckpointSafety.AgreeingEventFixesPrefix` | scripts/production-cycle/checkpoint.js:122-126 | backwards along the chain: two ledgers that agree on one event agree on everything before it, unless two of their lines collide |
| `CheckpointSafety.VerifiedMeansSamePrefix` | scripts/production-cycle/checkpoint.js:876-1013 | exit 0 or 6 for a checkpoint recorded at the end of a ledger means the ledger read now begins with exactly the recorded events, unless two of the hashed texts collide |
| `CheckpointSafety.WrittenCheckpointPinsPrefix` | scripts/production-cycle/checkpoint.js:792-863 | the same for the very text generateMode wrote, also with the revision or the worktree unknown, whatever happened to the ledger since |
| `CheckpointSafety.NewlyStaleIff` | scripts/production-cycle/checkpoint.js:981-1005 | the comparison of the two stale lists is empty exactly when no new verdict is stale at birth and no new event invalidates a verdict that was current |
| `CheckpointSafety.StaleListIs` | scripts/production-cycle/checkpoint.js:288-327 | the stale list names exactly the sequence numbers of the stale verdicts |
| `CheckpointSafety.StaysStaleIff` | scripts/production-cycle/checkpoint.js:272-327 | a growing ledger keeps every verdict's staleness exactly when it adds no stale one |
| `CheckpointSafety.FreshCheckpointVerifiesIff` | scripts/production-cycle/checkpoint.js:876-1013 | a fresh checkpoint verifies with exit 0 on every valid extension of its ledger at the same known revision and worktree, and with exit 6 exactly when the extension adds a stale verdict |
| `CheckpointSafety.WrittenCheckpointExit` | scripts/production-cycle/checkpoint.js:876-1013 | what verification of a written checkpoint answers, whatever happened since: 3 exactly without a valid ledger; else 5 exactly if the ledger does not begin with the recorded events; else 2 for an invalid --revision; else 6 exactly if the revision differs or is unknown, both worktrees were computed and differ or are unknown, or a verdict went stale; else 0 |
| `CheckpointSafety.DamagedCheckpointFails` | scripts/production-cycle/checkpoint.js:876-945 | exit 4 exactly for an unsafe file, and no answer but 4 and 5 unless the file parses, names this run and has an intact digest |
| `CheckpointSafety.RevisionLaws` | scripts/production-cycle/checkpoint.js:238-252 | revisions match symmetrically, as one abbreviates the other, never across the dirty mark and never with an unknown one; of equal length only if equal |
| `CheckpointSafety.VerifiedMeansNoDrift` | scripts/production-cycle/checkpoint.js:876-1013 | exit 0 means same run, intact text, valid ledger, the recorded revision still current and known, and, without --revision, equal and known worktree ids whenever both were computed |
| `TrendDetector.SortSorts` | src/core/history/TrendDetector.js:103-109 | the stable sort by (timestamp, runId) yields a sorted permutation |
| `TrendDetector.FilterSort` | src/core/history/TrendDetector.js:103-110 | filtering the eligible records and stable-sorting commute, ties included |
| `TrendDetector.NothingLaterIsEligible` | src/core/history/TrendDetector.js:197-200 | in a sorted list no record at or after an index is strictly before the record at that index |
| `TrendDetector.BaselineIsPrefixFilter` | src/core/history/TrendDetector.js:92-115 | the baseline evaluate() finds in any raw ledger is the eligible records before that position in the sorted list |
| `TrendDetector.ScanBack` | src/core/history/TrendDetector.js:196-202 | the backward scan that stops after baselineN hits, reversed, is the last baselineN eligible records before the index |
| `TrendDetector.EvaluateMany` | src/core/history/TrendDetector.js:186-206 | for every list of indexes, each result is what evaluate() gives on the raw ledger for that record; an index outside the list is an invalid record |
| `TrendDetector.EvaluateReadsSorted` | src/core/history/TrendDetector.js:92-115 | evaluate() gives the same verdict on the raw ledger and on its sorted valid records |
| `TrendDetector.OrderDoesNotMatter` | src/core/history/TrendDetector.js:86-115 | records may come in any order with any malformed rows between them, as long as no two valid ones share timestamp and run id |
| `TrendDetector.MedianIsBounded` | src/core/history/TrendDetector.js:45-49 | the median respects every bound on the values |
| `TrendDetector.MedianSplits` | src/core/history/TrendDetector.js:45-49 | at least half of the values are at most the median and at least half are at least it |
| `TrendDetector.SteadyBaselineFlags` | src/core/history/TrendDetector.js:118-176 | against a baseline without variation each signal is flagged exactly beyond its fixed margin, and pending depth never |
| `TrendDetector.NoWorseIsNotFlagged` | src/core/history/TrendDetector.js:118-176 | a run that is no worse than any run of its baseline on any signal is never flagged |
| `TrendFlags.TextLessIff` | src/core/history/TrendDetector.js:62-66 | the order on text: a proper beginning, or the smaller character where two texts first differ |
| `TrendFlags.BaselineIs` | src/core/history/TrendDetector.js:92-115 | a record is judged against the latest baselineN (10 if unusable) of the valid rows that are complete, of its branch and repeat count, and strictly earlier by timestamp, then run id |
| `TrendFlags.MedianIff` | src/core/history/TrendDetector.js:45-49 | the median is the middle of the sorted values, or the mean of the two middle ones |
| `TrendFlags.UsualIff` | src/core/history/TrendDetector.js:51-56 | the band is 3 times 1.4826 times the median distance from the median |
| `TrendFlags.RateIs` | src/core/history/RunRecord.js:113-130 | the heal rate is heals per verified scenario, the pass rate passes per decided one, quarantined ones left out; neither exists without a denominator |
| `TrendFlags.RatesAre` | src/core/history/TrendDetector.js:136-139 | the baseline values of a rate are those of exactly the records that have it, in order |
| `TrendFlags.CoverageReducedIff` | src/core/history/TrendDetector.js:121-129 | coverage is reduced exactly without a page count, or below 80% of the baseline's median page count |
| `TrendFlags.UnjudgedIs` | src/core/history/TrendDetector.js:98-101 | a malformed record and an incomplete run are not judged, each for its reason |
| `TrendFlags.SuppressedIs` | src/core/history/TrendDetector.js:118-143 | every reason not to judge, in order, and nothing is flagged where a run is not judged |
| `TrendFlags.HealRateFlaggedIff` | src/core/history/TrendDetector.js:144-148 | flagged exactly at 10% or more and above the median by more than the larger of the band and 5 points, with these figures |
| `TrendFlags.PassRateFlaggedIff` | src/core/history/TrendDetector.js:149-152 | flagged exactly below 95% and under the median by more than the larger of the band and 10 points, with these figures |
| `TrendFlags.UnknownRateIsNotFlagged` | src/core/history/TrendDetector.js:136-143 | a rate undefined now, or known for too few baseline runs, is not flagged |
| `TrendFlags.DurationFlaggedIff` | src/core/history/TrendDetector.js:154-158 | flagged exactly above the median by more than the largest of the band, a quarter of the median and 30 seconds, with these figures |
| `TrendFlags.PendingFlaggedIff` | src/core/history/TrendDetector.js:160-167 | flagged exactly if the last two baseline depths rise strictly to this one and it is at least 5 above the median, with these figures |
| `TrendFlags.QuarantineFlaggedIff` | src/core/history/TrendDetector.js:169-173 | flagged exactly at 2 or more above the median, with these figures |
| `RunHistory.HistorySnapshot` | src/core/Dashboard.js:424-455 | row n of the history body is the n-th newest of the last 50 runs with the flags of its own evaluation; the top-level flags are those `history check` computes for the latest complete run, also when it is older than all rows |
| `RunHistory.LastIndexOfComplete` | src/core/Dashboard.js:431 | the last index of a complete run, or -1 exactly when there is none, is where the reversed search finds its run |
| `RunHistory.RunsAre` | src/core/Dashboard.js:426-430 | what is read is the valid rows, sorted, none lost and none added |
| `RunHistory.ExportFlags` | scripts/history.js:177-192 | entry i of the CSV flags column holds the signals of the i-th run in time order, judged against the ledger as it was written, although the export judges against the sorted valid runs |
| `RunHistory.ExportAgreesWithDashboard` | scripts/history.js:177-205 | for one ledger, every dashboard row carries the flags the CSV column holds for the same run, and the dashboard's own flags are those of the column's last complete run |
| `RunHistory.SignalsAre` | src/core/Dashboard.js:426-460 | the signals shown for a run are those of its flags, in order |
| `RunHistory.CheckedRunIs` | scripts/history.js:194-215 | the run that is checked is the last complete one |
| `FlakinessTracker.ClassificationMeans` | src/core/FlakinessTracker.js:194-212 | new: fewer than three results; stable: the last ten all passed; broken: all failed; flaky: both occur among them |
| `FlakinessTracker.CapKeepsVerdict` | src/core/FlakinessTracker.js:194-259 | keeping only twenty results never changes a classification |
| `FlakinessTracker.WindowOfWholeHistory` | src/core/FlakinessTracker.js:255-259 | after each outcome the kept history is the last twenty of all outcomes and classifies as all of them would |
| `FlakinessTracker.LedgerWins` | src/core/FlakinessTracker.js:80-136 | whatever the two files hold, after a load every tracked scenario with a retained decision is in the state that decision left it in |
| `FlakinessTracker.LoadEstablishesInv` | src/core/FlakinessTracker.js:80-136 | a load that leaves no untracked quarantine verdict establishes the invariant below, whatever the stored classifications |
| `FlakinessTracker.LedgerStaysInForceIff` | src/core/FlakinessTracker.js:65-136 | the retained decisions stay in force over every sequence of operations after a load if and only if the load left no quarantined scenario without a history entry |
| `FlakinessTracker.LostHistoryForgetsQuarantine` | src/core/FlakinessTracker.js:72-76 | with the history file gone, the first outcome recorded for a quarantined scenario is stored as not quarantined while the ledger still says quarantine |
| `FlakinessTracker.CapFirstDiffersIff` | src/core/FlakinessTracker.js:84-115 | capping the ledger before reconciling would differ exactly when a dropped row held the only decision on a tracked scenario whose stored flag disagrees |
| `FlakinessTracker.ReloadIsIdentity` | src/core/FlakinessTracker.js:80-136 | reloading a tracker in good order changes nothing |
| `FlakinessTracker.StepKeepsInv` | src/core/FlakinessTracker.js:237-447 | record, quarantine, unquarantine and reload each keep, whatever the stored classifications: retained decisions are in force, no quarantined scenario is untracked, at most 500 decision rows |
| `FlakinessTracker.RunKeepsInv` | src/core/FlakinessTracker.js:80-447 | the same over every sequence of operations |
| `FlakinessTracker.RunKeepsClassified` | src/core/FlakinessTracker.js:80-447 | over every sequence of operations, whatever the decisions: each classification is classify(history) of at most twenty results if it was so at the start |
| `FlakinessTracker.ProtectedIsHeld` | src/core/FlakinessTracker.js:155-162 | then the scenarios protected from eviction are exactly the quarantined ones |
| `FlakinessTracker.EvictionIsLru` | src/core/FlakinessTracker.js:473-486 | eviction changes no surviving entry, never drops a protected one, and every victim is at most as recently used as every unprotected survivor |
| `FlakinessTracker.EvictionRestoresCap` | src/core/FlakinessTracker.js:473-500 | eviction does nothing at or below 500, never goes below 500, and leaves at most 500 or only protected scenarios |
| `FlakinessTracker.QuarantinedAreNeverEvicted` | src/core/FlakinessTracker.js:449-486 | over every run a quarantined scenario stays tracked and quarantined until its own release |
| `FlakinessTracker.QuarantineTakesIff` | src/core/FlakinessTracker.js:368-400 | a quarantine takes hold, in the book and in the ledger, exactly of a tracked scenario that has a retained pass or is quarantined already |
| `FlakinessTracker.RegressionsAreNeverQuarantined` | src/core/FlakinessTracker.js:330-383 | over every run a scenario is quarantined only by a decision taken while its retained history held a pass |
| `FlakinessTracker.RecordRestoresCap` | src/core/FlakinessTracker.js:284-285 | after every recorded outcome at most 500 scenarios are tracked, or only quarantined ones |
| `FlakinessTracker.QuarantineKeepsCap` | src/core/FlakinessTracker.js:368-399 | a quarantine decision keeps that bound |
| `FlakinessTracker.ReleaseKeepsCapIff` | src/core/FlakinessTracker.js:405-432 | a release keeps it if and only if at most 500 scenarios are tracked |
| `FlakinessTracker.ReleaseCanExceedCap` | src/core/FlakinessTracker.js:405-432 | with 501 quarantined scenarios, one release exceeds the bound until the next record |
| `FlakinessTracker.RecordTouchesOnlyItsKey` | src/core/FlakinessTracker.js:237-302 | recording changes no decision, no quarantine and no other scenario except by eviction, and stores exactly the new entry |
| `FlakinessTracker.RecordAppends` | src/core/FlakinessTracker.js:238-300 | a recorded outcome is stored as passed exactly if passed was reported, dated now, after the earlier results, of which the last twenty stay; it classifies by all of them and decides nothing |
| `FlakinessTracker.FirstRecord` | src/core/FlakinessTracker.js:252-300 | the entry a first outcome creates |
| `FlakinessTracker.HistoryIsWhatWasReported` | src/core/FlakinessTracker.js:80-447 | over every run of operations from an empty book on at most 500 scenarios, exactly the reported scenarios are tracked, each with the last twenty of its reported results, classified by them and dated by the last |
| `FlakinessTracker.PassesAreStable` | src/core/FlakinessTracker.js:188-210 | three or more reported passes and nothing else make a scenario stable, with a retained pass |
| `FlakinessTracker.UnavailableCountsAsFailure` | src/core/FlakinessTracker.js:218-243 | an unreachable target leads to the same classification as a failure |
| `FlakinessTracker.ReviewClock` | src/core/FlakinessTracker.js:263-282 | the review clock runs exactly while a scenario is flaky: started on entry, kept while it stays flaky, cleared on leaving |
| `FlakinessTracker.NewcomerSurvivesIff` | src/core/FlakinessTracker.js:473-486 | in any book within its cap (at most 500 scenarios, or only protected ones), a new scenario survives its own first record if and only if there was room or some other scenario is not quarantined, also when others were recorded in the same millisecond |
| `FlakinessTracker.FailureEndsCandidacy` | src/core/FlakinessTracker.js:550-585 | one failed or unavailable result since the quarantine and a scenario is no rehabilitation candidate |
| `FlakinessTracker.FreshQuarantineIsNoCandidate` | src/core/FlakinessTracker.js:529-570 | results from before the quarantine never make a candidate |
| `FlakinessTracker.CandidateIff` | src/core/FlakinessTracker.js:550-583 | a quarantined scenario is a candidate for release exactly if at least windowSize results are retained from the time since and the last windowSize of them passed |
| `FlakinessTracker.Tracker.EffectiveDecisionMap` | src/core/FlakinessTracker.js:144-153 | the folded map holds exactly each key's latest decision; malformed rows are ignored |
| `FlakinessTracker.Tracker.Reconcile` | src/core/FlakinessTracker.js:102-109 | every tracked entry's flag is forced to the ledger's latest decision, in any order of keys |
| `FlakinessTracker.Tracker.Reload` | src/core/FlakinessTracker.js:80-136 | the fields after a load: reconciled against the whole ledger, then the last 500 rows |
| `FlakinessTracker.Tracker.EvictLeastRecentlyUsed` | src/core/FlakinessTracker.js:473-486 | the fields after an eviction are those of the specification above |
| `FlakinessTracker.Tracker.Record` | src/core/FlakinessTracker.js:237-315 | the fields after an outcome, the entry returned, and the flaky alert exactly on the transition into flaky |
| `FlakinessTracker.Tracker.Quarantine` | src/core/FlakinessTracker.js:368-399 | refused exactly for a tracked scenario that is not quarantined and has never passed; idempotent when already quarantined; otherwise flag and row are added |
| `FlakinessTracker.Tracker.Unquarantine` | src/core/FlakinessTracker.js:405-432 | acts exactly when the scenario is quarantined; flag, row and review clock afterwards |
| `FlakinessTracker.Tracker.RehabilitationCandidates` | src/core/FlakinessTracker.js:550-585 | the candidates are exactly the quarantined scenarios whose last results since the quarantine all passed |
| `SiteSweep.SignatureIdentifiesIff` | src/core/SiteSweep.js:91-116 | a signature belongs to one scenario only if and only if no field can be confused with the separator: no "::" inside a field, no colon at an inner edge |
| `SiteSweep.DedupeCovers` | src/core/SiteSweep.js:469-493 | kept and deduped together are the page's scenarios, and afterwards every signature of the page is claimed |
| `SiteSweep.KeptAreNew` | src/core/SiteSweep.js:469-493 | kept scenarios had no claim before and have pairwise different signatures |
| `SiteSweep.DedupeClaims` | src/core/SiteSweep.js:476-488 | earlier claims stand; the new claims are exactly the kept scenarios' and name this page |
| `SiteSweep.ReleaseIs` | src/core/SiteSweep.js:416-424 | a claim survives a page's failure exactly if every kept scenario with that signature was reached |
| `SiteSweep.RunRepeatedPlan` | src/core/TestRunner.js:607-650 | the loops over rounds and scenarios push one row per scenario, under its description, until the error that ends them |
| `SiteSweep.RowNamesAre` | src/core/SiteSweep.js:413-420 | however often a plan repeats, the names of the rows at a crash are exactly the descriptions of the scenarios that ran |
| `SiteSweep.RepeatedRowsAre` | src/core/TestRunner.js:607-650 | a repeated plan writes its rows round after round, at least one round, each kept scenario once per round under its description; after a crash just the rows before it |
| `SiteSweep.ClaimSurvivesIff` | src/core/SiteSweep.js:416-424 | the claim of a kept scenario survives its page if and only if the plan finished or a scenario with the same description ran |
| `SiteSweep.SurvivesUnrunIff` | src/core/SiteSweep.js:416-424 | a claim survives although its scenario did not run if and only if a scenario that did run has its description |
| `SiteSweep.VisitKeepsClaims` | src/core/SiteSweep.js:330-439 | whatever happens to a page, earlier pages' claims stand, and those it adds are of kept scenarios whose plan finished or whose description has a row |
| `SiteSweep.EveryClaimIsCredited` | src/core/SiteSweep.js:132-158 | between pages every claim names a page that kept that signature and finished, or has a row with that scenario's description |
| `SiteSweep.ClaimsAreTrueIff` | src/core/SiteSweep.js:476-493 | every claim names a page that ran its signature, that is, has a row for a scenario with it, if and only if on no page a scenario that did not run shares its description with one that did |
| `SiteSweep.AlwaysTruthfulIff` | src/core/SiteSweep.js:413-424 | a crash can fall anywhere on a page without leaving such a claim if and only if no two kept scenarios of the page have the same description |
| `SiteSweep.CrashCreditsAnother` | src/core/SiteSweep.js:413-424 | two buttons with one description, a crash after the first, and a second page with the second button: that page reports it as first run on the first page, but no page ran it |
| `SiteSweep.DedupedRowsAreHonest` | src/core/SiteSweep.js:469-493 | if no earlier page is of that kind, every deduped row stands for a scenario of its page and names an earlier page that ran the signature, or its own page, which keeps it |
| `SiteSweep.RanTheSameScenario` | src/core/SiteSweep.js:91-116 | a page that ran an unambiguous signature ran that very scenario |
| `SiteSweep.FinishedPagesAreCovered` | src/core/SiteSweep.js:385-440 | if no earlier page is of that kind, every scenario generated on a page that finished was run, that is, has a row, on that page or an earlier one |
| `SiteSweep.NothingRunsTwice` | src/core/SiteSweep.js:469-493 | a signature that ran on one page, or that its page is credited with, is kept by no later page |
| `SiteSweep.ReleasedScenariosRunLater` | src/core/SiteSweep.js:416-424 | a page keeps a scenario with a given signature exactly if no claim on it is held when the page starts |
| `SiteSweep.RepeatIsARow` | src/core/SiteSweep.js:469-493 | every repeat of a scenario within a page becomes a row that says it first ran on that page |
| `SiteSweep.OwnPageRowsAreTrueIff` | src/core/SiteSweep.js:413-431 | those rows are all true if and only if no kept scenario that did not run occurs twice on the page |
| `SiteSweep.BrokenPagesFail` | src/core/SiteSweep.js:353-431 | a page that did not load or broke has a failed row and a reason, and every scenario that ran before a crash keeps its row with its verdict |
| `SiteSweep.GeneratedIsKeptPlusDeduped` | src/core/SiteSweep.js:385-396 | generated equals kept plus deduplicated on every page whose dedupe completed |
| `SiteSweep.VisitRecordIs` | src/core/SiteSweep.js:330-470 | the record of a visited page: status, reason, counts and every row, for a page that did not load, had no plan, finished or broke |
| `SiteSweep.PlanAccountsForEveryLink` | src/core/SiteSweep.js:267-289 | every discovered link's key is eligible or rejected, and no key is counted twice |
| `SiteSweep.EligiblePagesAreDistinct` | src/core/SiteSweep.js:267-289 | eligible pages are distinct, come from links that normalize, and are in scope |
| `SiteSweep.PlanSortsLinks` | src/core/SiteSweep.js:264-287 | link by link: the first link with a key leads to a page if it normalizes and is in scope, and is rejected otherwise, as cross-origin exactly if it normalizes; both lists keep the order of the links |
| `SiteSweep.EligibleIff` | src/core/SiteSweep.js:273-287 | a key is eligible if and only if the first link with that key normalizes and is in scope |
| `SiteSweep.RejectedIff` | src/core/SiteSweep.js:273-287 | a key is rejected as cross-origin, or as no page, if and only if the first link with that key is that |
| `SiteSweep.PlanStartsAtEntry` | src/core/SiteSweep.js:262-289 | the first eligible URL is the entry URL normalized once more, so the entry page leads when it normalizes to itself |
| `SiteSweep.CoverageAddsUp` | src/core/SiteSweep.js:499-520 | tested, skipped and unreachable add up to discovered, and if exactly the first n pages were visited the rest are skipped |
| `SiteSweep.CoverageIs` | src/core/SiteSweep.js:499-520 | what each figure of the coverage counts |
| `SiteSweep.Summarize` | src/core/SiteSweep.js:499-520 | the loop computes the tally |
| `SiteSweep.Sweep.Claim` | src/core/SiteSweep.js:469-493 | the loop splits the scenarios and updates the claims as specified; with dedupe off nothing is claimed |
| `SiteSweep.Sweep.SweepPage` | src/core/SiteSweep.js:330-440 | the page's record and the claims after a visit: unreachable, broken before its scenarios were known, finished, or crashed with the claims of unreached scenarios released |
| `SiteSweep.Sweep.MakePlan` | src/core/SiteSweep.js:267-289 | the loop over links computes the plan |
| `SiteSweep.Sweep.Run` | src/core/SiteSweep.js:132-180 | refused exactly without an http(s) entry URL; otherwise every eligible page has a record in order, visited while the budget lasts, then budget-exhausted, then max-pages, and tested plus unreachable is the number visited |
| `PageSelector.PathSelectsExactly` | src/core/PageAnalyser.js:52-75 | if the root's tag occurs only at the root, the structural path selects exactly its element (and nothing at all under a reading where a parentless root cannot match) |
| `PageSelector.PathsAreUniqueIff` | src/core/PageAnalyser.js:52-75 | no structural path selects a second element if and only if the root's tag occurs only at the root |
| `PageSelector.TypeIndexIsInjective` | src/core/PageAnalyser.js:64-68 | two children of one parent with the same tag and index are the same child |
| `PageSelector.TypeIndexIs` | src/core/PageAnalyser.js:64-68 | the index counts from 1 the child itself and the siblings before it with its tag |
| `PageSelector.PlaceAmongSameTag` | src/core/PageAnalyser.js:64-68 | the place in the filtered sibling list is the nth-of-type index |
| `PageSelector.PartAt` | src/core/PageAnalyser.js:62-69 | the step found by searching the siblings is the nth-of-type step of the node |
| `PageSelector.UniqueSelectorFor` | src/core/PageAnalyser.js:52-75 | the candidate if it matches once, otherwise the path built by walking from the element up to the root |
| `PageSelector.ChosenSelectorIsExact` | src/core/PageAnalyser.js:52-75 | either form selects the element alone, given that the candidate matches the element it was built from |
| `PlanSelector.ScanIsGrammar` | src/core/PlanFile.js:69-88 | the one-pass stack-and-quote scan accepts exactly the texts derived by the grammar of nested () and [], quoted strings and in-quote escapes |
| `PlanSelector.ScanPasses` | src/core/PlanFile.js:69-88 | a derived text leaves the scan's stack and quote as they were, whatever follows |
| `PlanSelector.ReadTexts` | src/core/PlanFile.js:69-88 | an accepting scan yields a derivation of what it read |
| `PlanSelector.ProblemIs` | src/core/PlanFile.js:65-94 | a quote is reported open exactly if the text can be completed, but not by closing brackets alone; brackets are reported unbalanced exactly if closing brackets are all that is missing or nothing can complete the text |
| `PlanSelector.CharactersAre` | src/core/PlanFile.js:68-84 | what counts as a quote, a bracket, a control character and white space, by code point |
| `PlanSelector.ScanSelector` | src/core/PlanFile.js:69-88 | the loop, whose escape may step past the end, computes the scan |
| `PlanSelector.SelectorProblem` | src/core/PlanFile.js:65-89 | no problem exactly for a nonblank string of at most 1000 characters without control characters that the grammar derives; each earlier problem exactly in its case |
| `LogRedaction.HasPasswordIs` | utils/Logger.js:54-66 | the loop's test means: a ':' before the first '@' of the authority |
| `LogRedaction.SafeIs` | utils/Logger.js:43-76 | a text is safe exactly if no "://" in it is followed by such an authority |
| `LogRedaction.RedactIsSafe` | utils/Logger.js:47-76 | the output is safe |
| `LogRedaction.RedactChangesIff` | utils/Logger.js:47-76 | a text is changed if and only if it is unsafe, so redacting twice is redacting once |
| `LogRedaction.NoPasswordIsLeft` | utils/Logger.js:47-76 | in no output does a :// have a ':' and then an '@' after it before anything that ends the authority, and a text is left alone exactly if it has none |
| `LogRedaction.OnlySecretsChange` | utils/Logger.js:67-75 | text and output agree piece by piece: only credentials, which hold a ':' and lie inside one authority, are replaced; everything else is copied |
| `LogRedaction.MaskIsComplete` | utils/Logger.js:58-69 | the mask covers the credentials up to the last '@', so nothing of a password that itself contains '@' is left |
| `LogRedaction.AuthorityIs` | utils/Logger.js:51-63 | the authority runs up to the first '/', '?', '#' or white space |
| `LogRedaction.ScanAuthority` | utils/Logger.js:53-66 | the inner loop finds the last '@' of the authority and whether a ':' comes before any '@' |
| `LogRedaction.RedactUrlUserinfo` | utils/Logger.js:47-76 | the outer loop terminates and computes the redaction |
| `RateLimits.LevelStaysInBounds` | src/production-cycle/Server.js:84-94 | tokens stay between 0 and the capacity, whatever the clock does |
| `RateLimits.GrantsAreBounded` | src/production-cycle/Server.js:84-94 | with a non-decreasing clock, grants plus tokens left are at most the capacity plus the refill since the first call |
| `RateLimits.BurstIsBounded` | src/production-cycle/Server.js:76-95 | so between any two calls at most capacity plus rate times elapsed are granted |
| `RateLimits.WindowsCompose` | src/production-cycle/Server.js:84-94 | the run over a window is the run over the whole seen from the window's start |
| `RateLimits.WaitingHelps` | src/production-cycle/Server.js:84-94 | after a refusal, waiting for one token's worth of refill is enough |
| `RateLimits.CallsAtOnce` | src/production-cycle/Server.js:75-94 | of the calls at one instant as many are granted as there are whole tokens, refill included, and each takes exactly one |
| `RateLimits.GrantsFollowClock` | src/production-cycle/Server.js:84-94 | whatever the clock does, grants plus tokens left are at most the tokens at the start plus the refill for every forward step of the clock, and at most the capacity plus that refill from the first call on |
| `RateLimits.BurstIsBoundedIff` | src/production-cycle/Server.js:76-95 | that bound holds for every bucket and between any two calls if and only if the clock never steps back |
| `RateLimits.WindowIsBoundedIff` | src/production-cycle/Server.js:84-94 | with a step back counted as no time, the bound holds on every window and for every bucket if and only if the clock never changes direction: one that turns earns the same refill twice |
| `RateLimits.TokenBucket.Take` | src/production-cycle/Server.js:84-94 | the fields after a call and whether it was granted |
| `RateLimits.KeptIsLastMinute` | src/core/Dashboard.js:463-471 | the list kept for an address is exactly its attempts of the last minute, refused ones included |
| `RateLimits.AdmittedIff` | src/core/Dashboard.js:463-471 | an attempt is let through if and only if fewer than 120 were made in the minute before it |
| `RateLimits.WindowIsBounded` | src/core/Dashboard.js:463-471 | at most 120 attempts per address are let through in any window shorter than 60 s |
| `RateLimits.SocketLimiter.IsLimited` | src/core/Dashboard.js:463-471 | the map after an attempt, other addresses untouched, and the answer |
| `CompetitiveScore.RatesAreShares` | scripts/benchmark/competitive-score.js:79-104 | in every group every rate's numerator is at most its denominator |
| `CompetitiveScore.RatesMean` | scripts/benchmark/competitive-score.js:79-104 | each rate is zero exactly if no record of its group is of its kind, full exactly if all that could be are, and undefined exactly if none could be |
| `CompetitiveScore.ValidRatesAreCoherent` | scripts/benchmark/competitive-score.js:41-45 | on valid records correct plus wrong repairs are at most attempts, refusals and attempts exclude each other, and a false green is never a pass |
| `CompetitiveScore.WilsonHoldsRate` | scripts/benchmark/competitive-score.js:52-61 | 0 <= low <= numerator/denominator <= high <= 1 |
| `CompetitiveScore.WilsonOfAllPassed` | scripts/benchmark/competitive-score.js:52-61 | a group that always passed has the interval from 1/(1 + z^2/n) to exactly 1 |
| `ScoreFacts.WilsonIs` | scripts/benchmark/competitive-score.js:52-61 | there is an interval exactly with three distinct runs, and its two ends are the rates x with n(p - x)^2 = 1.96^2 x(1 - x) |
| `CompetitiveScore.ShiftIsWithin` | scripts/benchmark/competitive-score.js:56-60 | the centre's shift from the observed rate is within the half-width, before dividing by 1 + z^2/n |
| `CompetitiveScore.CompositeIsBounded` | scripts/benchmark/competitive-score.js:113-127 | a composite lies between 0 and the sum of its weights, which is at most 1 + 1e-9 |
| `CompetitiveScore.CompositeWithinOneIff` | scripts/benchmark/competitive-score.js:113-127 | accepted weights, over any dimensions, keep the composite of every admissible group within 1 if and only if they sum to at most 1 or name something that is not a rate |
| `CompetitiveScore.SampleSum` | scripts/benchmark/competitive-score.js:79-127 | the composite of one correct refusal, one honest failure, one correct repair and n plain passes is at least the weight total times 1 - 2/(n+3) |
| `CompetitiveScore.ComputeComposite` | scripts/benchmark/competitive-score.js:113-127 | the loop computes the weighted sum, absent as soon as one dimension is, and refuses bad weights |
| `CompetitiveScore.Admit` | scripts/benchmark/competitive-score.js:129-137 | the loop accepts exactly lists of valid records with pairwise different identities |
| `CompetitiveScore.GroupRows` | scripts/benchmark/competitive-score.js:138-143 | the map holds each group's rows in order, the groups in order of first appearance |
| `CompetitiveScore.Score` | scripts/benchmark/competitive-score.js:129-151 | the result: refused, or the groups' entries stably sorted by label |
| `ScoreFacts.AcceptedIff` | scripts/benchmark/competitive-score.js:18-46 | every reason to refuse a record, and no other |
| `ScoreFacts.DuplicateIff` | scripts/benchmark/competitive-score.js:131-138 | accepted records without NUL characters are duplicates exactly if they agree in tool, version, workload, mode and run |
| `ScoreFacts.RepairRatesAre` | scripts/benchmark/competitive-score.js:83-100 | healing precision, unsafe actions and false greens as counts of records over counts of records |
| `ScoreFacts.RefusalRatesAre` | scripts/benchmark/competitive-score.js:84-102 | correct and unnecessary refusals as counts of records over counts of records |
| `ScoreFacts.GroupIs` | scripts/benchmark/competitive-score.js:79-110 | the remaining figures of a group, and that it is rated exactly if some record was tested |
| `ScoreFacts.CompositeIs` | scripts/benchmark/competitive-score.js:112-127 | the composite is the weighted sum of the rates, lower-is-better ones counted from 1 down; absent if a weighted rate is undefined; weights are refused exactly if not positive or not summing to 1 within 1e-9 |
| `ScoreFacts.RowsAre` | scripts/benchmark/competitive-score.js:139-144 | a group consists of exactly its records, in order |
| `ScoreFacts.ScoreIs` | scripts/benchmark/competitive-score.js:129-151 | refused exactly for a faulty record, a duplicate or refused weights; otherwise one entry per tool, version and mode with the figures of its records, in the order of their labels |
| `ScoreOrder.GroupPermutes` | scripts/benchmark/competitive-score.js:79-104 | a group's rates, interval and sums do not depend on the order of its records |
| `ScoreOrder.SortIsStable` | scripts/benchmark/competitive-score.js:150 | entries that do not compare greater keep their order |
| `ScoreOrder.InvalidPermutes` | scripts/benchmark/competitive-score.js:129-151 | whether a list is scored at all does not depend on its order |
| `ScoreOrder.OrderIndependentIff` | scripts/benchmark/competitive-score.js:129-151 | the score is the same for every order of the records if and only if no two groups have labels that compare equal |
| `ScoreOrder.LabelsCanCoincide` | scripts/benchmark/competitive-score.js:150 | two different groups can have the same label |
| `CiWait.FetchPrOnce` | scripts/production-cycle/ci-wait.js:495-552 | the loop over required names computes the answer |
| `CiWait.GreenExitIff` | scripts/production-cycle/ci-wait.js:513-549 | exit 0 if and only if the head commit matches and every required name has at least one entry and all its entries are successes |
| `CiWait.WaitingIff` | scripts/production-cycle/ci-wait.js:513-552 | the wait goes on if and only if the commit matches, nothing required has ended badly, and some required name is not green |
| `CiWait.MissingIs` | scripts/production-cycle/ci-wait.js:514-519 | the names reported missing are exactly the required names without an entry |
| `CiWait.PollsAreBounded` | scripts/production-cycle/ci-wait.js:580-605 | at most floor(timeout/interval) + 1 fetches, none started at or after the deadline |
| `CiWait.WaitIsBounded` | scripts/production-cycle/ci-wait.js:580-605 | with fetches of at most the call timeout and sleeps of the interval, the loop ends before deadline + max of the two |
| `CiWait.GreenIsAnAnswer` | scripts/production-cycle/ci-wait.js:555-605 | exit 0 is always the answer of the last poll made; running out of polls or time is never green |
| `CiWait.GreenWaitMeansGreenChecks` | scripts/production-cycle/ci-wait.js:495-605 | in PR mode exit 0 means that at some poll the commit matched and every required name was green |
| `CiWait.GreenWaitMeansGreenRun` | scripts/production-cycle/ci-wait.js:426-479 | in run mode exit 0 means that the run of that commit completed with conclusion success |
| `CiWait.FastFetchesUseEveryPoll` | scripts/production-cycle/ci-wait.js:256-260 | with instant fetches and no answer all floor(timeout/interval) + 1 polls are made |
| `CiWait.PollLoop` | scripts/production-cycle/ci-wait.js:580-605 | the loop's result, number of fetches and end time |
| `CiWaitExits.PrExitIs` | scripts/production-cycle/ci-wait.js:481-552 | what a look at a pull request answers: 5 or 6 for a failed call, 6 without a head, 5 for another commit, the code of the first failure of the first failing required name (2 cancelled, 3 skipped or neutral, 1 other), 0 if all are green, otherwise to wait on with the required names without entry, in order |
| `CiWaitExits.RunExitIs` | scripts/production-cycle/ci-wait.js:388-456 | what a look at a run answers |
| `CiWaitExits.LoopStops` | scripts/production-cycle/ci-wait.js:555-605 | how the loop stops: with the last answer, interrupted, or out of polls or time with every answer to wait, and then with 5 in PR mode if names were still missing and 4 otherwise; each poll starts when the fetch and sleep before it are over |
| `CiWaitExits.BoundsAre` | scripts/production-cycle/ci-wait.js:256-258 | the poll ceiling is floor(timeout/interval) + 1 and the deadline is the timeout plus one call timeout after the start |
| `Journey.TestRunner.ExecuteTest` | src/core/TestRunner.js:84-129 | the rows of a run: all scenarios up to the first stopping one, the origin row if the journey left its origin, and the rows of everything not run |
| `Journey.TestRunner.RunVerify` | src/core/TestRunner.js:271-361 | one row per assertion with its verdict, or one unavailable row when the contract is not bound |
| `Journey.TestRunner.SkipRemaining` | src/core/TestRunner.js:131-178 | every later scenario gets its rows for not having run |
| `Journey.NotRunRowsAre` | src/core/TestRunner.js:131-178 | a skipped row per step; per verify step one unavailable row per assertion with its required flag, or one required row when the contract is not bound |
| `JourneyFacts.VerifyRowsAre` | src/core/TestRunner.js:271-361 | the rows of a verify step that ran: one per assertion with its verdict and required flag, or one naming the binding failure |
| `JourneyFacts.UnrunRowsAre` | src/core/TestRunner.js:131-178 | the rows of a scenario that was not run, with the reason |
| `JourneyFacts.RunIs` | src/core/TestRunner.js:84-129 | a journey ends at the first scenario without rows, with a row that did not pass, or off the plan's origin; which rows follow |
| `Journey.PassesEndAtStop` | src/core/TestRunner.js:105-124 | the rows of a journey are those of the steps before the stop, all passed, those of the stopping step, and a rest of which none passed, nonempty if the stopping step itself passed |
| `Journey.PlainPlansRunEverything` | src/core/TestRunner.js:84-129 | a plan that is not a journey runs every scenario |
| `Journey.SummaryAddsUp` | src/core/ReportManager.js:221-238 | total = passed + failed + skipped + quarantined + deduped + unavailable + optionalNotPassed |
| `JourneyFacts.SummaryIs` | src/core/ReportManager.js:221-246 | what each figure of the summary counts, excused optional rows apart |
| `Journey.PassedIff` | src/core/ReportManager.js:239-281 | PASSED if and only if something was verified, no gating row failed, was unavailable or is a quarantined bound assertion, and the evidence is intact |
| `Journey.OtherResultsIff` | src/core/ReportManager.js:258-281 | NO_TESTS_RUN exactly when no row reached a verdict that counts; PARTIAL only with a gating pass, FAILED only without one |
| `Journey.LeavingOriginFails` | src/core/TestRunner.js:110-119 | a journey that left the plan's origin after a passing step is not PASSED |
| `Journey.PassedMeansVerified` | src/core/TestRunner.js:131-178 | a run with a verify step is reported PASSED only if the contract is bound and every required assertion of it held in every verify step, so a contract with a required assertion leaves no verify step unrun, even behind a quarantined or skipped step |
| `Journey.PassedMeansRanIff` | src/core/TestRunner.js:131-178 | for a bound contract, PASSED implies that every verify step ran if and only if some assertion is required |
| `Journey.PassedUnverified` | src/core/TestRunner.js:131-178 | the failing input: behind a quarantined step, optional assertions that did not run leave the run PASSED with its verify step not run |

## Left out

- LedgerProtocol.StepKeepsLockInv: asks of a rename that it does not take the lock of a live process, because otherwise exclusion is lost (`RenameThenCreateIff`, `ExclusionIff`).
- LedgerProtocol.LedgerReadsAsSequential: is about runs whose torn writes are those the next append recovers from, because the others are shown to break the chain (`CleanTearIff`).
- ScoreOrder.OrderIndependentIff: says nothing about refused inputs; `InvalidPermutes` does.
- SiteSweep.PlanStartsAtEntry: is about an entry URL that normalizes and is in its own scope, because otherwise the entry page is rejected like any other link.
- Lock staleness by age and inode, and retry delays: a breaker may act whenever the owner is dead and the nonce is unchanged.
- RUNDIR, DRAFT and permission errors, chmod and fsync: no effect on the bytes of the ledger.
- The schema field by field, redaction patterns, JSON syntax and UUIDs: long case lists behind one acceptance function.
- The body sections of the resume packet, acceptance-criteria input and atomic file replacement: text rendering and file plumbing.
- UTF-16: strings are sequences of characters, so lengths and comparisons of text outside the basic plane may differ.
- `evaluation-error` results: the modelled evaluation cannot throw.
- Reading, caching and size limits of the run-history file: I/O.
- FlakinessTracker's write queue, parallel diversion, unreviewed-flaky report, and the descriptive fields of entries: no effect on the proved state.
- SiteSweep's discovery, UI issue scan, events and durations: browser work, given as `Visit`; a page limit or a repeat count that is not an integer.
- SiteSweep.RunRepeatedPlan: gives every scenario of a generated plan that runs exactly one row, so an error thrown while an outcome is being stored after its row was pushed, which could add a second row of that name, is not modelled.
- Page analysis beyond `uniqueSelectorFor`, tag-name case of non-HTML elements, and the textual form of the selector path.
- Plan validation beyond `selectorProblem`: flat case checks.
- Log redaction beyond `redactUrlUserinfo`: patterns over token shapes.
- `ciEconomics` and the validation of the `ci` fields of benchmark records: sums and medians like the ones proved.
- Argument parsing, process handling and messages of the CI wait; a system clock that is set back while it waits.
- How each assertion is evaluated, healing and retries of ordinary steps, and the reconciliation of several journeys: rows and verdicts are parameters.
- LocatorStore, LlmBudget, AdaptiveRetry, RunPaths, healing stores, servers and demos: easier copies of properties listed here, or I/O.
