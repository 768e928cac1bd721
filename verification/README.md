# Verified model of joshibot's data desk

This project models the algorithms and state machines of joshibot in Dafny and proves what
they promise, for every input and over every run:

- the sparse-algebra layer (`dregg_d4m`): CSR kernels against set and graph definitions;
- the crew matcher and the launch screen (`dregg_screen`, `dregg_d4m/parity.py`);
- the token gate (`dregg_gate`): members, sweep, outbox, update cursor, rate limit;
- the callout archive (`dregg_archive`): derivation, deletion inference, outcomes;
- the movers feed (`dregg_feed`): the verdict index, the detector, montages and pruning.

`dafny verify dfyconfig.toml` checks everything.

## How the model reads

- Code that fills arrays or rewrites fields is a `method` or a `class`; each method is tied by
  its `ensures` to a definition that does not mention the loop, and the laws are lemmas about
  that definition. Code made of expressions is functions.
- Values, prices and Jaccard ratios are exact reals; clocks are reals or integers that do not
  go back; keys (mints, wallets, ids) are numbers that stand for their sort rank.
- sqlite tables are maps, sets or sequences; what the engine returns without a defined order
  enters as a sequence about which only its contents are known.
- Networks, files and clocks are inputs: each answer may succeed or fail in any pattern.

| file | component |
|---|---|
| Vectors, Sparse, MaxPlus, Semirings | numpy vocabulary, CSR, the segment-max product, `matmul` |
| CoOccurrence | pruned chunked co-occurrence, Jaccard alignment, the two mean-Jaccard forms |
| Graphs, LabelPropagation | walks, `_hop_levels`, `label_propagation` |
| Ledger, LedgerBuild, Parity, Agreement | `crew_match`, `build`, `algebra_matches`, and their agreement |
| Features, OwnerNets, Screen, Hydrate | birth-slot features, verdict precedence, hydration policy and budget |
| GateSweep, Outbox, OutboxFlush, GateIntake | member state machine, durable outbox, cursor and rate limit |
| ArchiveStore, Deletion, Outcomes, OutcomeReadings | derived tables, removal verdicts, callout outcomes |
| VerdictIndex, Feed, FeedSelection, FeedRetention | incremental file index, detector and montages, pruned history |

## Where the code does less than its comments say

The model follows the code; each item names the lemma that shows the gap or its exact extent.

- Outbox order holds inside one flush; a row in backoff when the batch is read is overtaken (`Outbox.BackingOffIsOvertaken`).
- Outbox dedup lasts until the row leaves the table (`Outbox.DedupLastsUntilDelivery`).
- The skip alert's "nobody was warned or ejected" is true of the day iff every plan opened for that
  day counted neither; for the first plan of the day, iff its own counters are zero
  (`GateSweep.SkipAlertTruth`). Earlier batches can have warned (`GateSweep.SkippedDayCanWarn`), and a
  restart forgets a plan without marking its day (`GateSweep.RestartHidesWarning`).
- A partial slot's sniper count is not a floor (`Features.PartialCountIsNotAFloor`): it is one, whatever
  was seen, iff no owner but the curve loses over the omitted transactions (`Features.PartialCountFloorIff`).
- `matmul` drops a cell whose best value is zero (`Semirings.PatternIsBooleanProduct`).
- A row that names a callout but is quarantined widens the window and leaves no sighting, so a page that
  served the callout counts as its absence (`Deletion.QuarantinedRowIsEvidence`): iff every row of that
  page naming it was quarantined (`Deletion.ServedIsEvidenceIff`, `Deletion.NoServedEvidenceIff`).
- A day re-run after a crash can warn a member twice, but only if the member recovered or verified in
  between (`GateSweep.WarnedTwiceNeedsReset`, `GateSweep.RecoveredIsWarnedAgain`).
- The single-pass drawdown is the largest fall over all pairs, for every baseline, iff no positive close
  precedes a negative one (`Outcomes.DrawdownExactIff`).
- The verdict index notices a replaced file by its size only (`VerdictIndex.ReplacedFileIsMisread`). For
  every cursor and file a refresh is right iff the two agree, at a line start: iff the cursor and the
  new head give the same verdict to every mint the unread lines do not score again
  (`VerdictIndex.RefreshRightIff`, `VerdictIndex.AgreesAtLineStart`, `VerdictIndex.RunRightIff`). A line
  that is JSON but not an object raises out of `_refresh`.
- The feed's cooldown, window and freshness bound hold, or are unaffected by pruning, exactly
  when they fit the retention (`FeedRetention.CooldownHoldsIff`, `FeedRetention.WindowHoldsIff`,
  `FeedRetention.PruningInvisibleIff`); the configuration puts no upper bound on them.
- "Dead" speaks of the widest gated candle series only: it is exact for every candle content iff at
  most one interval was fetched past the gate (`Outcomes.DeadExactIff`), and for given candles iff the
  chosen series ends after the first day or no gated series does (`Outcomes.DeadByLastStamps`).
- A silent policy skip is safe iff what the chain reports, the record of the wallet it is keyed by and
  the dev buy, still fails a gate (`Screen.SilentSkipSafeIff`); a chain that agrees with the event does,
  another recipient of clean record does not (`Screen.DisagreeingChainCouldBeClean`).

## Model

| member | source | states |
|---|---|---|
| Vectors.RaggedGather | joshibot/dregg_d4m/assoc.py:388-401 | difference encoding plus running sum equals the ranges laid one after the other, empty ranges included |
| Vectors.CumSum | joshibot/dregg_d4m/assoc.py:388-401 | the in-place running sum undoes a difference encoding |
| Vectors.Argsort | joshibot/dregg_d4m/assoc.py:404-445 | lists every index once, by key and then by position (stability) |
| Vectors.RunStarts | joshibot/dregg_d4m/assoc.py:404-445 | exactly the positions where the key vector changes, and position 0 |
| Vectors.BinCountTotals | joshibot/dregg_d4m/assoc.py:404-445 | running sums of `bincount` count the entries below each row |
| Sparse.RowsOfFromRows | joshibot/dregg_d4m/assoc.py:286-291 | rows laid out as CSR, pointers the running sum of the lengths, read back unchanged, and the CSR is well formed |
| Sparse.FromRowSets | joshibot/dregg_d4m/assoc.py:279-291 | a 0/1 matrix with sorted rows whose row sets are exactly the given sets |
| Sparse.RowSetsDetermine | joshibot/dregg_d4m/assoc.py:272-291 | a 0/1 matrix is determined by its row sets, so rebuilding from `row_sets` is the identity |
| Sparse.FromRowsOfRows | joshibot/dregg_d4m/assoc.py:272-291 | a well-formed CSR is determined by its rows |
| Sparse.EliminateZerosRows | joshibot/dregg_d4m/assoc.py:376-376 | `eliminate_zeros` keeps exactly the non-zero entries of every row, in order |
| Sparse.EliminateZerosAligned | joshibot/dregg_d4m/assoc.py:495-514 | the structure survives unchanged iff no stored value is zero |
| Sparse.DegreeIsCardinality | joshibot/dregg_d4m/assoc.py:232-237 | on sorted rows the stored degree is the size of the row's set |
| MaxPlus.SegmentMax | joshibot/dregg_d4m/assoc.py:404-445 | one entry per distinct key, keys ascending, value the largest that key carried |
| MaxPlus.Expand | joshibot/dregg_d4m/assoc.py:404-445 | the ragged expansion of a row chunk lists exactly the chunk's product terms |
| MaxPlus.EncodeDecode | joshibot/dregg_d4m/assoc.py:404-445 | `row * n + col` is undone by division and remainder |
| MaxPlus.ReduceCells | joshibot/dregg_d4m/assoc.py:404-445 | encode, reduce, decode gives one row-major entry per cell with the cell's maximum |
| MaxPlus.Chunk | joshibot/dregg_d4m/assoc.py:404-445 | one chunk yields exactly its rows of the product |
| MaxPlus.FillIndptr | joshibot/dregg_d4m/assoc.py:404-445 | the row pointers written per chunk count the entries of the rows below |
| MaxPlus.Product | joshibot/dregg_d4m/assoc.py:404-445 | for every chunk size: well formed, row-sorted, (i,j) stored iff some k joins a and b, with value the maximum over k |
| Semirings.NegatedMaxIsMin | joshibot/dregg_d4m/assoc.py:345-378 | max-plus of negated operands is min-plus negated, cell by cell |
| Semirings.LargestIsBest | joshibot/dregg_d4m/assoc.py:362-374 | the kernel's largest term under the picked ufunc is the largest sum, or the largest weaker link of a chain |
| Semirings.Matmul | joshibot/dregg_d4m/assoc.py:345-378 | refuses iff the inner keys differ; otherwise the rows, sorted, hold exactly the non-zero values: the largest sum of two chained entries, the smallest, or for max-min the largest weaker link |
| Semirings.PatternIsBooleanProduct | joshibot/dregg_d4m/assoc.py:345-378 | the result's pattern is the boolean product's iff no cell's best value is zero |
| Semirings.ZeroSumChainIsDropped | joshibot/dregg_d4m/assoc.py:376-376 | a concrete chain of weights 1 and -1 that is computed and then dropped |
| CoOccurrence.CoOccur | joshibot/dregg_d4m/assoc.py:451-492 | the chunked, in-loop pruned product equals the unchunked pruned product for every chunk size |
| CoOccurrence.PruneIsZeroAndEliminate | joshibot/dregg_d4m/assoc.py:451-492 | zeroing values under the floor and eliminating zeros is keeping exactly the cells at the floor |
| CoOccurrence.DotCountsIntersection | joshibot/dregg_d4m/assoc.py:451-492 | on 0/1 rows the inner product is the size of the intersection |
| CoOccurrence.ProductOfSets | joshibot/dregg_d4m/assoc.py:451-492 | on 0/1 operands (i,j) is stored iff the sets share at least max(1, floor) elements, with that count |
| CoOccurrence.JaccardAligned | joshibot/dregg_d4m/assoc.py:495-525 | the ratio array stays position-aligned with the overlap array iff no value and no denominator is degenerate |
| CoOccurrence.JaccardCell | joshibot/dregg_d4m/assoc.py:495-525 | each cell of the normalised self-product is the Jaccard of the two row sets, stored or not |
| CoOccurrence.MeanJaccardOverPairs | joshibot/dregg_d4m/nulls.py:142-158 | the set loop computes the mean Jaccard over the pair list, undefined on no pairs |
| CoOccurrence.AlgebraMeanJaccard | joshibot/dregg_d4m/analyses.py:89-102 | one product gives the same mean for every pair list, diagonal pairs and empty rows included |
| HopLevels.Levels | joshibot/dregg_d4m/analyses.py:592-612 | level k iff k is the shortest walk length from the seeds within the bound, -1 iff no such walk, also after an early break |
| HopLevels.NextFrontier | joshibot/dregg_d4m/analyses.py:592-612 | the masked frontier product marks exactly the nodes first reached at this hop |
| HopLevels.EmptyLevelEnds | joshibot/dregg_d4m/analyses.py:592-612 | no level is inhabited beyond an empty one |
| LabelPropagation.BestLabel | joshibot/dregg_d4m/analyses.py:257-304 | the smallest label of maximal incident weight |
| LabelPropagation.Round | joshibot/dregg_d4m/analyses.py:257-304 | one asynchronous pass in ascending order, each node taking the best of the labels it sees; a quiet pass leaves every node settled, and labels stay inside components |
| LabelPropagation.CompactSettled | joshibot/dregg_d4m/analyses.py:257-304 | relabelling by rank keeps a settled node settled |
| LabelPropagation.Propagate | joshibot/dregg_d4m/analyses.py:257-304 | labels go through such passes until one moves nothing or the rounds are spent, stopping early exactly then; the result keeps the order of the last labels without gaps; on a symmetric graph equal labels imply connected nodes; an early stop is a stable labelling |
| Ledger.CrewMatchIsFunction | joshibot/dregg_screen/ledger.py:367-476 | tables and launch set determine the whole match: row order, duplicates and lookup chunking cannot show |
| Ledger.Match | joshibot/dregg_screen/ledger.py:367-476 | None iff no coin meets both floors; else the largest Jaccard, largest overlap among ties, no tied coin of worse conduct, exact tied crews and how many of them are dirty |
| Ledger.KeyIsConduct | joshibot/dregg_screen/ledger.py:455-460 | the representative's key puts a dirty crew first, then more rips and dumps, then more coins, then the lower crew id and mint |
| Ledger.LoadRecords | joshibot/dregg_screen/ledger.py:367-476 | the chunked crew lookup loads the record of every requested crew |
| LedgerBuild.CrewWalletsAreSnipers | joshibot/dregg_screen/ledger.py:155-176 | every stored crew wallet has a positive sniper count |
| LedgerBuild.BuildIsConsistent | joshibot/dregg_screen/ledger.py:134-176 | references resolve, stored sets are non-empty, sized right, exclude their deployer, and belong to repeat deployers |
| LedgerBuild.SetRowOrigin | joshibot/dregg_screen/ledger.py:155-176 | a set row comes from a sniper row before the cutoff on a crew mint, not by its deployer |
| LedgerBuild.CountTables | joshibot/dregg_screen/ledger.py:134-158 | who is in the two count tables, and that launches, rips, dumps, graduations and appearances are numbers of rows, each event before the cutoff at its own clock |
| LedgerBuild.CrewMintsIff | joshibot/dregg_screen/ledger.py:160-163 | a mint is a crew's iff it is a launch before the cutoff of a deployer with at least two |
| LedgerBuild.SetRowsCount | joshibot/dregg_screen/ledger.py:164-165 | a wallet is stored for a crew mint once per sniper row of its there before the cutoff, never the deployer |
| LedgerBuild.CountMintIsRows | joshibot/dregg_screen/ledger.py:166-167 | a stored set's size is its number of rows |
| Parity.PickRow | joshibot/dregg_d4m/parity.py:80-121 | over the first `limit` positions by overlap: floor, maximum ratio, larger overlap, lower position, all ties |
| Parity.ProductNormalisable | joshibot/dregg_d4m/parity.py:63-92 | launch sizes at least the query degree leave nothing to eliminate, so the two arrays stay aligned |
| Parity.Matches | joshibot/dregg_d4m/parity.py:63-121 | each row's answer is the best candidate by set overlap and ratio over the given sizes, among the candidates within the limit |
| Parity.TruncationNeverBetter | joshibot/dregg_d4m/parity.py:94-108 | a truncated scan never reports a better ratio, nor a match where there is none |
| Parity.TruncationExactIff | joshibot/dregg_d4m/parity.py:94-108 | the truncated scan picks what the full one picks iff that pick is within the limit, and reports the same ties iff all of them are |
| Parity.ArgsortRank | joshibot/dregg_d4m/parity.py:94-98 | the stable order of the negated overlaps lists every position at its rank |
| Agreement.OverlapsAgree | joshibot/dregg_d4m/parity.py:124-148 | matrix overlap and SQL count count the same wallets |
| Agreement.AlgebraAgreesWithLedger | joshibot/dregg_d4m/parity.py:63-121 | untruncated algebra and `crew_match` agree on None, best Jaccard and overlap, and on the mint when the argmax is unique |
| Features.MintLegs | joshibot/dregg_screen/features.py:84-124 | the legs of accounts that moved, then of accounts that vanished, owners required |
| Features.LegsConserve | joshibot/dregg_screen/features.py:84-124 | with owners and unique indices the legs sum to total post minus total pre |
| OwnerNets.OwnerNetIsChange | joshibot/dregg_screen/features.py:84-124 | an owner's legs sum to what the owner's accounts hold afterwards less what they held before, an account that changed hands counting for the taker |
| Features.NetByOwner | joshibot/dregg_screen/features.py:246-254 | the running dictionary holds each owner's net over the successful transactions |
| Features.ExtractBirth | joshibot/dregg_screen/features.py:220-281 | curve and dev buy are the two largest legs; the sniper list is ascending and exactly the net-positive owners other than the curve |
| Features.SnipersIgnoreOrderAndFailures | joshibot/dregg_screen/features.py:246-254 | reordering or adding failed transactions changes no sniper |
| Features.PartialSniperKept | joshibot/dregg_screen/features.py:246-254 | a sniper of a capped slot remains one iff its net outweighs the omitted net |
| Features.PartialCountFloorIff | joshibot/dregg_screen/features.py:246-254 | the partial count is at most the full one for every seen part iff no owner but the curve loses over the omitted transactions |
| Features.LoserBreaksFloor | joshibot/dregg_screen/features.py:246-254 | for any loser among the omitted, a seen part whose count exceeds the full one |
| Features.PartialCountIsNotAFloor | joshibot/dregg_screen/features.py:246-254 | one omitted sell removes the only sniper |
| Screen.ScoreLaunch | joshibot/dregg_screen/score.py:115-277 | each verdict and each reason holds exactly when its facts do, read off the tables, the event, the birth and the crew match; on a built ledger any crew match is KNOWN_CREW and CLEAN is the five gates |
| Screen.DecideMeans | joshibot/dregg_screen/score.py:176-277 | KNOWN_CREW iff standard with a record; BUNDLED iff no record and several snipers; NOT_CLEAN iff neither and a dev buy of 2%; UNSCORED iff nonstandard or nothing found and something unseen; which reasons are listed when |
| Screen.CrewMatchImpliesPrior | joshibot/dregg_screen/ledger.py:360-420 | over any built ledger a crew match makes some sniper a recidivist |
| Screen.AnyCrewMatchIsKnownCrew | joshibot/dregg_screen/score.py:182-277 | a hydrated standard launch with any crew match, dirty or clean, is KNOWN_CREW |
| Screen.CleanIsFiveGates | joshibot/dregg_screen/score.py:182-277 | a hydrated, standard, full-slot, SOL-curve launch is CLEAN iff the five gates pass |
| Screen.WantsHydrationIff | joshibot/dregg_screen/live.py:194-213 | the policy spends exactly when the event is named and either everything is hydrated or no flag, record, dev buy or stratum rules it out; which reason is reported when |
| Screen.SilentSkipLosesNoClean | joshibot/dregg_screen/live.py:194-213 | a skip without a reason has a cheap verdict other than UNSCORED, and a hydration agreeing with the event would not be CLEAN |
| Screen.SilentSkipSafeIff | joshibot/dregg_screen/live.py:194-213 | no hydration reporting a given recipient and dev buy can be CLEAN iff that recipient's record or that dev buy fails its gate |
| Screen.DisagreeingChainCouldBeClean | joshibot/dregg_screen/live.py:194-213 | with another dev-buy recipient of clean record the skipped launch could be CLEAN |
| Hydrate.DailyBudget.Attempt | joshibot/dregg_screen/hydrate.py:85-107 | guard and spend across a possible day roll; a request is sent iff the counter of the guard's day is below the ceiling, and counts on the day it is spent |
| Hydrate.CeilingHolds | joshibot/dregg_screen/hydrate.py:85-107 | in any interleaving of workers and day rolls no UTC day sends more than the ceiling, earlier use counted; a counter loaded at or above the ceiling sends nothing that day |
| Hydrate.SentIff | joshibot/dregg_screen/hydrate.py:85-107 | in any interleaving an attempt is sent iff the day of its guard has used less than the ceiling |
| Hydrate.WalkSignatures | joshibot/dregg_screen/hydrate.py:165-223 | a completed walk found every wanted signature, an exhausted one those of exactly its pages; it completes iff those pages end or pass the birth slot |
| Hydrate.FetchBirthSlot | joshibot/dregg_screen/hydrate.py:165-223 | partial iff the walk fell short or the slot holds more than the cap; otherwise it holds every successful same-slot transaction; none is invented, the newest come first; a failure has a failed request behind it |
| GateSweep.RunKeepsShape | joshibot/dregg_gate/state.py:323-352 | in every run grace iff a deadline is set, and user and wallet are one-to-one |
| GateSweep.GraceHasCause | joshibot/dregg_gate/sweep.py:152-208 | grace stems from a successful below-threshold reading that set the deadline, not reset since |
| GateSweep.EveryEjectionJustified | joshibot/dregg_gate/sweep.py:152-208 | each ejection is a successful below-threshold reading at or after such a deadline, nothing having reset it between |
| GateSweep.EjectedIff | joshibot/dregg_gate/sweep.py:178-208 | in every run a member is ejected at a reading iff it is below the threshold, a group is bound and the deadline that a warning set, unreset since, has passed |
| GateSweep.GraceIff | joshibot/dregg_gate/sweep.py:152-208 | in every run a member is in grace until a moment iff a warning set that deadline and nothing reset or ejected the member since |
| GateSweep.WarnedIff | joshibot/dregg_gate/sweep.py:167-177 | an ok member is warned iff read below the threshold, and the clock then runs for the grace period from that reading |
| GateSweep.RestoredIff | joshibot/dregg_gate/sweep.py:156-166 | a member in grace is ok again iff read at or above the threshold or verified, an ejected one iff verified |
| GateSweep.ReadingRewritesRow | joshibot/dregg_gate/sweep.py:134-208 | a reading rewrites the row of that member only, if not ejected: balance, time and the move that applies |
| GateSweep.EjectedUntilVerified | joshibot/dregg_gate/sweep.py:121-208 | over any stretch of a run an ejected row is untouched until the member verifies again, which makes it ok |
| GateSweep.WarnedTwiceNeedsReset | joshibot/dregg_gate/sweep.py:11-13 | between two warnings of one member stands a reading at or above the threshold or a verification |
| GateSweep.RecoveredIsWarnedAgain | joshibot/dregg_gate/sweep.py:11-13 | one day with two restarts and a recovery in which a member is warned twice |
| GateSweep.Sweeper.RecordVerification | joshibot/dregg_gate/state.py:323-336 | binds iff no other user holds the wallet; a refusal changes no row |
| GateSweep.Sweeper.ApplyReading | joshibot/dregg_gate/sweep.py:152-208 | the row moves as one event of the trace, whose laws are above; counters follow, a return to ok counting as restored |
| GateSweep.Sweeper.RunBatch | joshibot/dregg_gate/sweep.py:121-150 | only successful lookups become events; the first failure ends the day and changes no row; the next batch waits for the spread over the batches |
| GateSweep.Sweeper.Tick | joshibot/dregg_gate/sweep.py:104-119 | starts a plan iff none is open and the day is due; waits exactly while the gap lasts; a plan reads members of its queue only, each at most once, and all of them if it finishes |
| GateSweep.BatchProgress | joshibot/dregg_gate/sweep.py:130-146 | a batch reads the pending members in order, all of them unless a lookup fails, and leaves exactly the unread ones pending |
| GateSweep.BatchGapSpreads | joshibot/dregg_gate/sweep.py:82-84 | the gap times the number of batches the members need, at least one, is the spread |
| GateSweep.ClockReads | joshibot/dregg_gate/sweep.py:76-80 | day and hour are those in which the moment lies |
| GateSweep.BatchFromProvider | joshibot/dregg_gate/sweep.py:121-150 | every event of a batch carries a balance, threshold and binding that were really read |
| GateSweep.SkipAlertTruth | joshibot/dregg_gate/sweep.py:92-102 | the alert is true of the day iff every plan opened for it counted no warning and no ejection; for the first plan of the day iff its own counters are zero |
| GateSweep.Sweeper.Skip | joshibot/dregg_gate/sweep.py:92-102 | marks the day, touches no row, and its alert is true iff the counters of all the day's plans are zero |
| GateSweep.RestartHidesWarning | joshibot/dregg_gate/sweep.py:104-113 | a run where a restart drops a plan that warned, and the reopened plan's counters are zero |
| GateSweep.SkippedDayCanWarn | joshibot/dregg_gate/sweep.py:134-146 | a batch that warns a member and is then skipped |
| Outbox.PendingOrdered | joshibot/dregg_gate/state.py:206-216 | a batch is in increasing id order |
| Outbox.SmallerIdsAreBackingOff | joshibot/dregg_gate/telegram.py:141-171 | when an item is sent, a smaller id is still queued iff it was inside its backoff as of the batch read |
| Outbox.BackingOffIsOvertaken | joshibot/dregg_gate/state.py:206-216 | a smaller id in backoff is overtaken by a later one |
| Outbox.EveryItemAccountedFor | joshibot/dregg_gate/telegram.py:141-175 | over every run each enqueued item is in exactly one of queue, delivered, dropped, dropped and reported |
| Outbox.DedupLastsUntilDelivery | joshibot/dregg_gate/state.py:196-220 | a key is refused iff queued, and is free once its row is gone |
| Outbox.Gate.FlushOutbox | joshibot/dregg_gate/telegram.py:141-171 | handles a prefix of the due items in order, stops at the first transient failure and backs that one off |
| OutboxFlush.FlushRows | joshibot/dregg_gate/telegram.py:141-171 | after a flush a row is as before unless the flush got to it; then it is gone, or deferred if its delivery failed transiently |
| OutboxFlush.FlushPlaces | joshibot/dregg_gate/telegram.py:141-171 | an id joins the delivered or the dropped iff the flush got to it and its answer says so |
| OutboxFlush.PendingIff | joshibot/dregg_gate/state.py:206-216 | a row is in a batch iff it is due and fewer than twenty due rows have smaller ids |
| OutboxFlush.DelayDoubles | joshibot/dregg_gate/state.py:222-228 | the wait doubles from two seconds with every failure and stays at 256 |
| Outbox.Gate.Put | joshibot/dregg_gate/state.py:196-204 | appends under a fresh id unless the key is queued |
| GateIntake.CursorIsMaximum | joshibot/dregg_gate/state.py:163-167 | the cursor is the largest valid id ever delivered |
| GateIntake.HandledOnce | joshibot/dregg_gate/gateway.py:176-192 | ids are handled in strictly increasing order |
| GateIntake.HandledIffRecord | joshibot/dregg_gate/gateway.py:176-192 | an update is handled iff its id beats every valid id before it; otherwise nothing changes |
| GateIntake.RedeliveryIsIgnored | joshibot/dregg_gate/gateway.py:176-192 | redelivery changes nothing |
| GateIntake.Gateway.ProcessUpdate | joshibot/dregg_gate/gateway.py:176-192 | the cursor passes every handled update, whatever the handler does |
| GateIntake.AdmittedIff | joshibot/dregg_gate/lookup.py:386-394 | in every run a call is admitted iff fewer than the limit of the user's own admissions lie in the last minute |
| GateIntake.EveryMinuteIsLimited | joshibot/dregg_gate/lookup.py:386-394 | no minute, wherever it ends, holds more admissions of one user than the limit |
| GateIntake.ScreenLookup.AdmitCall | joshibot/dregg_gate/lookup.py:386-394 | pops the expired hits, then admits or refuses |
| ArchiveStore.RunOfBodies | joshibot/dregg_archive/store.py:254-312 | over any bodies the sighting counter is the number of sighting rows, and "new" is reported exactly once per callout |
| ArchiveStore.LaterBodiesKeep | joshibot/dregg_archive/store.py:262-312 | first-seen fields and a known event time never change; a non-null last value never becomes null |
| ArchiveStore.TablesTellSightings | joshibot/dregg_archive/store.py:254-312 | over any bodies a callout is held iff some row sighted it; firsts are those of the first sighting, the event time the first known one, the last fetch that of the latest, each last value that of the latest sighting that has one |
| ArchiveStore.WindowSpansLastBody | joshibot/dregg_archive/crawl.py:105-116 | a fetch has a window iff a body of it was derived, empty ones included, from the oldest to the newest stamp of the last such body |
| ArchiveStore.Store.DeriveRows | joshibot/dregg_archive/crawl.py:61-117 | sightings and upserts row by row, the window last; new callouts, new sightings and refusals per reason counted, the stamps' extremes reported, refused rows included |
| ArchiveStore.Store.WalkFirehose | joshibot/dregg_archive/crawl.py:136-205 | of reached, truncated and failed exactly one is set, within the page limit, each with its cause; unless reached no page was past the bound |
| Deletion.Classify | joshibot/dregg_archive/deletion.py:102-113 | removed iff at least two events, an hour apart, on two surfaces |
| Deletion.BodySpansIff | joshibot/dregg_archive/deletion.py:80-99 | a body's window spans a moment iff one of its rows is stamped before it and one after it |
| Deletion.BarIsMonotone | joshibot/dregg_archive/deletion.py:102-113 | more evidence never lowers the verdict |
| Deletion.RunPass | joshibot/dregg_archive/deletion.py:125-172 | each evaluated callout has a verdict row iff it has a fresh absence, equal to the classification of exactly those, dated when that last changed; nothing else changes |
| Deletion.SummaryCounts | joshibot/dregg_archive/deletion.py:125-172 | the summary counts the callouts found removed, unknown and cleared, and lists the mints of unknown ones absent from the firehose only |
| Deletion.EvidenceOnlyGrows | joshibot/dregg_archive/deletion.py:80-99 | without a new sighting append-only tables only add evidence |
| Deletion.RunsAreSound | joshibot/dregg_archive/deletion.py:71-172 | in every reachable database no evidence against a callout is a fetch with a sighting of it |
| Deletion.ServedIsEvidenceIff | joshibot/dregg_archive/crawl.py:71-83 | a body that serves a known callout, from a fetch that walks through its moment, is evidence against it iff every row naming it is quarantined |
| Deletion.SightingsInRun | joshibot/dregg_archive/crawl.py:71-83 | in every run the sightings are exactly the accepted rows of the bodies derived |
| Deletion.RunEvidenceIff | joshibot/dregg_archive/deletion.py:80-99 | over any run a fetch that served a callout is evidence against it iff it walked through its moment and its rows naming it were all quarantined |
| Deletion.NoServedEvidenceIff | joshibot/dregg_archive/deletion.py:80-99 | a run never holds a serving fetch as evidence iff no fetch with only quarantined rows of a callout walks through its moment; always, if no body has such rows |
| Deletion.VerdictEvidence | joshibot/dregg_archive/deletion.py:125-172 | a serving fetch in a verdict's evidence had only quarantined rows of the callout |
| Deletion.QuarantinedRowIsEvidence | joshibot/dregg_archive/crawl.py:71-85 | a run in which a page serving the callout counts as its absence |
| Deletion.RemovedRetreatsOnlyOnSighting | joshibot/dregg_archive/deletion.py:125-172 | over any run a removed verdict stays until the callout is sighted again |
| Deletion.PassBacksRemoved | joshibot/dregg_archive/deletion.py:125-172 | a removed verdict is backed by evidence in the tables |
| Outcomes.MaxDrawdown | joshibot/dregg_archive/outcomes.py:126-133 | the running peak finds the largest fall over all earlier-peak/later-close pairs, baseline first, as long as no positive close precedes a negative one; within [0,1] iff no close is negative |
| Outcomes.DrawdownExactIff | joshibot/dregg_archive/outcomes.py:126-133 | the result is that maximum for every positive baseline iff no positive close precedes a negative one |
| Outcomes.NegativeClosesBreakPairs | joshibot/dregg_archive/outcomes.py:126-133 | closes 2 and -1 over baseline 1: the loop's result is not the maximum over the pairs |
| OutcomeReadings.RunningFalls | joshibot/dregg_archive/outcomes.py:126-133 | for any closes, negative ones included, the result is the largest fall of a close from the highest point up to it, or 0 |
| Outcomes.CloseAtIsLast | joshibot/dregg_archive/outcomes.py:87-89 | the close of the candle covering the moment |
| OutcomeReadings.ReturnIff | joshibot/dregg_archive/outcomes.py:79-99 | a series answers iff it was fetched past the horizon, has a positive baseline close (the last by the event, else the first within a quarter hour) and a candle by the horizon; the answer is the growth between them |
| OutcomeReadings.WindowInOrder | joshibot/dregg_archive/outcomes.py:125-125 | the seven-day window keeps the candles' order |
| OutcomeReadings.ReachSpans | joshibot/dregg_archive/outcomes.py:121-123 | a series' reach is the distance of its two furthest candles |
| Outcomes.ReturnIsFinal | joshibot/dregg_archive/outcomes.py:92-99 | a judgeable return is never changed by candles after its horizon |
| Outcomes.FinestAnswers | joshibot/dregg_archive/outcomes.py:105-110 | the first series in interval order that can answer answers |
| Outcomes.FirstRetIsFinest | joshibot/dregg_archive/outcomes.py:102-114 | the answer is that of a finest series that has one, and none iff no series has |
| Outcomes.ByIntervalSorted | joshibot/dregg_archive/outcomes.py:103-103 | series are ordered from the finest interval |
| Outcomes.Compute | joshibot/dregg_archive/outcomes.py:102-135 | each return is that of a finest series that has one; complete iff some series was fetched past seven days; then the seven-day fields are judged from the widest gated series, the finest among equals |
| Outcomes.DeadExactIff | joshibot/dregg_archive/outcomes.py:119-134 | for given intervals and fetch times the flag is exact for every candle content iff at most one interval is gated |
| Outcomes.DeadByLastStamps | joshibot/dregg_archive/outcomes.py:119-134 | for given candles it is exact iff the chosen series ends after the first day or no gated series does; "alive" always has a late trade behind it |
| Outcomes.TwoGatedMissATrade | joshibot/dregg_archive/outcomes.py:119-134 | for any two gated intervals, candles that make the flag miss a late trade |
| Outcomes.WinningIsLatest | joshibot/dregg_archive/outcomes.py:178-205 | with rows in response order the winning close is from a latest fetch that serves the stamp |
| OutcomeReadings.WinningIff | joshibot/dregg_archive/outcomes.py:178-205 | the close kept for a stamp is that of the last candle there, by fetch and then by position; none iff no usable fetch has one |
| OutcomeReadings.LastFetchIsLatest | joshibot/dregg_archive/outcomes.py:178-205 | a series' fetch time is the latest response among the usable fetches of its interval |
| Outcomes.LoadSeries | joshibot/dregg_archive/outcomes.py:170-209 | one series per usable interval, stamps strictly increasing, the winning close at each, the latest fetch time |
| VerdictIndex.LinesConcat | joshibot/dregg_feed/verdicts.py:55-58 | splitting after a newline is additive, carriage returns included |
| VerdictIndex.LinesAre | joshibot/dregg_feed/verdicts.py:58-58 | newline, carriage return and the two together end a line, the unterminated rest is one of its own; these equations fix the splitting |
| VerdictIndex.FoldTells | joshibot/dregg_feed/verdicts.py:58-66 | the map holds the verdict of the last line read that scores the mint, and reading raises iff some line does |
| VerdictIndex.RefreshEqualsReread | joshibot/dregg_feed/verdicts.py:40-68 | a refresh gives the map of a full re-read up to the last newline, and raises iff the re-read would |
| VerdictIndex.EveryInterleavingFollows | joshibot/dregg_feed/verdicts.py:40-68 | while the file is only appended to, the offset is 0 or after a newline and the next answer is the re-read's |
| VerdictIndex.TruncationRebuilds | joshibot/dregg_feed/verdicts.py:48-49 | a file shorter than the offset is reread whole, as by a fresh index |
| VerdictIndex.ReplacedFileIsMisread | joshibot/dregg_feed/verdicts.py:48-51 | a run in which a replacement of equal length is not noticed |
| VerdictIndex.RefreshRightIff | joshibot/dregg_feed/verdicts.py:40-68 | for every cursor and every file the refresh answers what a full re-read would iff cursor and file agree |
| VerdictIndex.AgreesAtLineStart | joshibot/dregg_feed/verdicts.py:48-67 | at a line start, agreement is: the head raises only if the rest does, and cursor and head give the same verdict to every mint the rest does not rescore |
| VerdictIndex.RightFollows | joshibot/dregg_feed/verdicts.py:40-68 | a right answer from a line start puts the cursor back on its file |
| VerdictIndex.RunRightIff | joshibot/dregg_feed/verdicts.py:40-68 | over runs of appends, replacements and refreshes every refresh is right iff each finds agreement, which holds as long as no replacement follows the start or a right answer from a line start |
| VerdictIndex.Index.RefreshDay | joshibot/dregg_feed/verdicts.py:40-68 | the day's cursor is right afterwards iff it agreed with its file before; a missing file drops it |
| VerdictIndex.Index.Verdict | joshibot/dregg_feed/verdicts.py:70-79 | where cursors and files agree the newest day that scored the mint wins; stale cursors go; good cursors stay good |
| VerdictIndex.NewestTells | joshibot/dregg_feed/verdicts.py:70-79 | the answer is that of the newest day that scored the mint, none iff no day did |
| Feed.ParseMovers | joshibot/dregg_feed/movers.py:97-131 | malformed rows dropped, a repeated mint counted where first seen |
| Feed.FirstSeenOnce | joshibot/dregg_feed/movers.py:97-131 | no mint twice, none lost, none invented |
| FeedSelection.BoardKeepsFirsts | joshibot/dregg_feed/movers.py:97-131 | the board keeps exactly the first well-formed row of each mint, in the order served |
| Feed.RankedIsStableSort | joshibot/dregg_feed/movers.py:306-309 | volumes descending, and the rows of each volume exactly the board's in board order |
| FeedSelection.TopFiveIff | joshibot/dregg_feed/movers.py:306-309 | a mint is in the top five iff it has a volume and fewer than five rows have more, or as much and come earlier |
| Feed.Detect | joshibot/dregg_feed/movers.py:301-364 | candidates judged against the previous poll only, cut to the hour's room; this poll becomes the baseline; which alerts those are is `FeedSelection.QualifiersIff` |
| FeedSelection.QualifiersIff | joshibot/dregg_feed/movers.py:311-342 | an alert is proposed iff the board lists the coin at that volume, its last observation is recent enough, no alert of it lies within the cooldown, and it speeds up or else has just entered the top five with volume enough |
| FeedSelection.QualifiersOrdered | joshibot/dregg_feed/movers.py:362-364 | alerts are proposed in ranking order, so what a cap drops has the least volume |
| FeedSelection.ObservationsTell | joshibot/dregg_feed/movers.py:195-212 | in every run a coin is remembered iff no pruning dropped the last poll that listed it, with the volume, moment and top-five standing of that poll |
| FeedSelection.RunQualifiesIff | joshibot/dregg_feed/movers.py:301-364 | in every run the alerts proposed on the next board are exactly those whose case the polls make, against the last poll that listed the coin |
| Feed.RecordedIsSafe | joshibot/dregg_feed/service.py:393-408 | whatever is recorded is distinct, few enough, not cooling, inside the hour's room and outside the window |
| Feed.EveryRunKeepsLimits | joshibot/dregg_feed/service.py:363-417 | over every run: montage size and distinctness, every trailing hour under the cap, window and cooldown spacing up to the retention |
| Feed.HourStep | joshibot/dregg_feed/movers.py:362-364 | a batch that fits the room now keeps every trailing hour under the cap, not only the current one |
| Feed.ValveNeverBinds | joshibot/dregg_feed/service.py:98-112 | the derived hourly clamp never drops a coin: an open window sends the top qualifiers |
| FeedSelection.HourlyCap | joshibot/dregg_feed/service.py:98-112 | the clamp is full montages at the window rate, rounded up, and one more |
| FeedSelection.HeldIff | joshibot/dregg_feed/service.py:394-404 | a montage is held iff some alert was recorded less than the window ago |
| Feed.ArrangedIsPermutation | joshibot/dregg_feed/service.py:265-312 | charted-first reordering loses and repeats nothing |
| FeedSelection.ChartedFirst | joshibot/dregg_feed/service.py:265-312 | charted coins come first, and the order of the batch is kept among them and among the others |
| Feed.FeedState.PruneTables | joshibot/dregg_feed/movers.py:257-263 | keeps exactly the rows inside the two retentions |
| Feed.FeedService.EmitMontage | joshibot/dregg_feed/service.py:312-342 | all coins of a montage share one stamp; an error leaves a prefix |
| Feed.FeedService.Cycle | joshibot/dregg_feed/service.py:363-417 | poll, hold or emit, then prune, as one step of the run |
| FeedRetention.PruningChangesNothing | joshibot/dregg_feed/movers.py:257-263 | if the windows fit the retention, pruned and never-pruned runs decide alike at every step |
| FeedRetention.PruningInvisibleIff | joshibot/dregg_feed/movers.py:257-263 | pruning is invisible over every run iff cooldown, window and freshness bound fit the retention |
| FeedRetention.CooldownHoldsIff | joshibot/dregg_feed/movers.py:338-340 | same-coin alerts are more than the cooldown apart in every run iff it fits the alert retention |
| FeedRetention.WindowHoldsIff | joshibot/dregg_feed/service.py:394-404 | montages are at least the window apart in every run iff it fits the alert retention |
| FeedRetention.HistoryIsForgotten | joshibot/dregg_feed/movers.py:257-263 | a run where pruning lets the same coin out again too early |
| FeedRetention.ObservationIsForgotten | joshibot/dregg_feed/movers.py:257-261 | a run where pruning loses an observation the detector would still use |
| FeedRetention.NegativeAgeIsSilent | joshibot/dregg_feed/movers.py:315-316 | with a negative freshness bound nothing ever goes out |

## Left out

- Floating point: ratios, prices and clocks are exact, so the rounding of Jaccard to four decimals and the 1e-12 tie tolerance (taken as equality) are not captured; nor is 64-bit overflow of `row * n + col`.
- NaN volumes and prices: a `"nan"` string parses to a float in the source and has no counterpart in the reals.
- The plus-times and or-and arms of `matmul`, `axis="col"`, `overlap_coeff`, `cosine`, `_dedupe`, `drop_diagonal` and `threshold`: library calls or row filters that add easy members.
- scipy's product `@` and `tocsr` are taken by their specification; the model lists a product row's columns in ascending order, while scipy may not sort them before `sort_indices`.
- A panel that lists one mint twice, which the ledger's `crew_coins` key refuses: here the later launch row counts.
- Negative numpy indices and out-of-range pair lists in the mean-Jaccard forms.
- Chunk sizes below 1, which the source does not guard.
- Strings: keys are their sort ranks, so key parsing, display labels and base58 checks are absent.
- `detect_curve_seed`, population notes and rendered reasons in the screen: the curve's quote currency is an input and only verdicts and gate reasons are kept.
- `Hydrator._rpc` retries and the archive's own request budget: each attempt is a budget step, other transport behaviour is a success or failure.
- `_prune_spool`, heartbeats and the feed's daily request budget: a spent budget is a poll that returns nothing; candle retries may pass the budget and are not bounded here.
- A montage handed to the gate whose alert rows then fail to be written is not in the feed's history, so the spacing laws speak of recorded alerts.
- Configuration reload: the feed and rate-limit laws are for a fixed configuration.
- Gate challenges, approvals, invites, `format_tokens`, message texts and DMs: single-row updates or text.
- Crash recovery between commits, threads and asyncio scheduling: the steps are atomic where the source has no await between them.
- Callers table, due-work queue, outcome rows in sqlite and candle scheduling of the archive.
- HTTP, Telegram, Helius and pump.fun transports, signature checks, rendering, CLIs and the duckdb and pandas builders beyond the relational content of the ledger build.
