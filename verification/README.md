# A verified model of the LiJ wallet's hard core

LiJ is a browser Lightning wallet with its own helper services. This project models six of its
components in Dafny and proves what each keeps over whole runs, or that what it picks is optimal.

* **The tweak index** (`TweakIndex`, `TweakBreaks`, `TweakPass`, `TweakFills`, `TweakIndexer`,
  `ServedRun`, `ScriptPushes`). The silent-payment indexer stores, for each block, a commitment and a head that
  hashes the head below it with the commitment. Heads are written out of order and repaired later.
  The invariant is that a head which does not chain from its predecessor lies inside a marker's range;
  so when no marker and no hole is left, every head is the fold of the commitments from the start.
  Each atomic write keeps it exactly when a condition on the database holds, and each write that fails
  the condition can be continued to a head or stamp that nothing marks as wrong. Each pass of the loop
  is a run of the transition system whatever the node answers, and on a node that answers the passes
  settle; a whole re-index ends with rows that depend on the chain, the start and the parser alone.
  The range the server advertises is gap-free, under every history whose re-index writes fit
  the range, exactly when the highest row a request read is still there. The script parser splits
  every byte string in exactly one way.
* **Coin selection and channel funding** (`CoinSelect`, `MixedLast`, `WalletCoins`, `ChannelOpen`,
  `FundingMax`, `FundingRuns`). Both picks are optimal for an arbitrary need function, by an exchange
  argument; a funding transaction balances; the quoted maximum is exact for chosen coins, and the
  amounts that the automatic pick builds are exact for every wallet; and over runs of opens and
  waiting sends it is exact when an outpoint is committed twice.
* **The broadcast queue** (`Text`, `Broadcast`, `BroadcastPass`). Under overlapping passes and any
  answers of the two paths, every entry is in exactly one place and every parked or conflicted one
  was reported; which answers are strikes is told by the answers' own words, and every parked entry is
  tried within thirty calls.
* **The chain coordinator** (`ChainCoordinator`). Two lanes of tips under one ratchet, the agreement
  of the held confirmations with what LDK was told, and what each of LDK's three consumers hears.
* **The watch subscription** (`WatchProtocol`, `WatchObjects`). What LDK asked to watch reaches the
  connected provider over a link that drops messages to an absent peer.
* **The cold start** (`ColdStart`). A pure decision, iterated to a fixpoint inside each tick.

Code that the source writes as loops and updated fields is a method or a class here, proved against
a function of the same state; the properties are lemmas about those functions.
`dafny verify dfyconfig.toml` checks everything.

## Where the code and its documentation differ

The model follows the code in each case.

* Lowering the start a second time while a backfill runs keeps the older re-link marker
  (`ops/lij-sp-index.py:463-465`) and leaves a broken head that nothing marks:
  `SecondLoweringBreaksAHead` is such a run and `LowerSafe` is the exact condition. Two more boots
  lose the invariant: arming a re-index while the marker lies more than one above the highest row
  (`ArmingBelowTheMarkerBreaksAHead`, `ArmSafe`), and a new parser taking over a half-done re-index
  (`UpgradeMidReindexBreaksTheStamp`, `UpgradeSafe`).
* The re-index slice and the re-link trust the tip the node names. When that tip drops below rows
  already indexed, the reorg check can open a hole that no gap list sees: a slice that then writes
  above the hole (`SliceOverAHoleBreaksAHead`, `EndSliceSafe`) or a re-link across it
  (`RelinkAcrossAHoleBreaksAHead`, `RelinkSafe`) leaves a broken head that nothing marks. The same
  slice can make a cached answer name missing heights (`MisfitMisleads`). A pass is safe whenever the
  node's tip is not below any row or any height left to re-index and the cursor is not above a hole
  (`PassSafeWhen`).
* Only a gap-free run is meant to be advertised, but a request reads the highest row and the start of
  its run in two statements: a reorg committed in between leaves an answer that ends at a deleted row
  (`ReorgDuringRequestMisleads`), with the exact condition in `EveryAnswerGapFreeIff`.
* Recording a pending transaction is meant to reserve its inputs (`lij/lij-wasm/src/lib.rs:1732-1735`),
  but a send records only after its broadcast and looks at nothing then, so an open handled while it
  waits can take the same coin: `SendAcrossAnOpenSpendsTwice`, with the exact condition in
  `EveryRunSpendsOnceIff`. Opens among themselves never clash (`EveryRunOpensApart`).
* `pick_mixed_last` can refuse an amount that some set covers, when a plain coin is worth less than
  its own input: `DustBlocksMixedCoins` is an instance and `CompleteIff` the exact condition.
* The quoted Max uses real input sizes and the automatic pick counts every coin at 68 vB, so the
  automatic pick can refuse the quoted Max: `QuotedMaxRefused` is an instance, `QuotedMaxBuildsIff`
  the exact condition, and when each candidate is worth its input it is that none is a taproot coin
  (`QuotedMaxBuildsIffPlain`).
* The fee floor of 253 sat a kiloweight is described as about one sat a vbyte
  (`lij/lij-core/src/fee_estimator.rs:41-44`); rounding up to whole sats charges two (`FloorRateFee`).
* A parked transaction that the independent path alone calls already known is parked again, although
  the comments say it retires: `RetiresAsDocumentedIff`, `KnownToIndependentStaysParked`.
* The ratchet's comment says equal heights pass; both lanes drop a height equal to the tip before the
  ratchet sees it, so a height equal to an earlier candidate is never emitted (`RatchetExact`).
* The sweeper is meant to hear every action in lockstep with monitor and manager
  (`lij/lij-core/src/node.rs:1553-1559`), but promoted independent confirmations are applied without
  it (lines 4090 and 8461) and two places call it alone (lines 1764 and 3408): `PromotedSkipsSweeper`,
  with the exact condition in `LockstepIff` and `NodeLockstepIff`.
* A confirmation whose raw bytes do not parse is held as confirmed and never reported:
  `UnparsedIsHeldUnreported`, with the exact condition in `StepAgreesIff`.
* The move from ReadOnly to Ready does not check that the independent path was queried
  (`ReadyUnqueriedIff`); over runs it always was (`EveryMoveIntoReady`).

## Model

| member | source | states |
|---|---|---|
| TweakIndex.IndexSound | ops/lij-sp-index.py:434-440 | writing a missing row of the forward or gap walk keeps the invariant: it breaks at most the link of the row above, which a marker already excuses |
| TweakIndex.DeleteSound | ops/lij-sp-index.py:479-487 | deleting a suffix on a reorg keeps the invariant |
| TweakIndex.RedoSound | ops/lij-sp-index.py:515-526 | re-indexing one row in place keeps the invariant and extends the chained part of the slice, wherever the row stands |
| TweakIndex.EndSliceSoundIff | ops/lij-sp-index.py:527-538 | moving the cursor, or completing the re-index with its stamp and its re-link marker, keeps the invariant exactly when the slice's first row is at the start, above a row or under a marker |
| TweakIndex.RelinkRowsLinks | ops/lij-sp-index.py:542-549 | the re-link loop links every row it passes to the row below it and changes only heads |
| TweakIndex.RelinkSoundIff | ops/lij-sp-index.py:539-551 | with no gap up to the tip the re-link drops its marker and keeps the invariant exactly when every row above a hole is one the re-index is still to rewrite |
| TweakIndex.LowerSoundIff | ops/lij-sp-index.py:458-465 | lowering the start keeps the invariant exactly when no older marker lies above the old start (or nothing depends on that start) |
| TweakIndex.ArmSoundIff | ops/lij-sp-index.py:469-471 | arming a re-index keeps the invariant exactly when no re-link marker lies more than one above the highest row |
| TweakIndex.UpgradeSoundIff | ops/lij-sp-index.py:466-473 | another parser may take over exactly when, during a re-index, no row lies outside what is left of it, and otherwise the stamp does not name that parser or every row is its own |
| TweakIndex.StepSoundIff | ops/lij-sp-index.py:434-551 | each atomic write of the process, crashes included, keeps the invariant if and only if it is safe in the sense of the five conditions above |
| TweakIndex.EveryRunChained | ops/lij-sp-index.py:434-551 | in every safe run, in memory and on disk, a head that does not chain from the row below lies inside [reindex_cursor, reindex_to + 1] or at or above rechain_from |
| TweakIndex.QuietHeadIsFold | ops/lij-sp-index.py:324-328 | with no hole and no marker, a head is the fold of chain_head over the commitments from the genesis value at the start |
| TweakIndex.QuietHeadsAgree | ops/lij-sp-index.py:488-551 | two finished databases with the same start and commitments hold the same heads, whatever order they were indexed in |
| TweakIndex.EveryRunFolds | ops/lij-sp-index.py:434-551 | every safe run that ends with no hole and no marker has folded every head over the commitments from the start |
| TweakIndex.EveryRunStampTrue | ops/lij-sp-index.py:466-473 | in every run whose parser only moves forward and not during a re-index, outside a re-index a database stamped with the running parser holds only rows that parser computed |
| TweakBreaks.SecondLoweringBreaksAHead | ops/lij-sp-index.py:463-465 | a run with a second lowering during a backfill that ends with no marker, no hole and a head that does not chain |
| TweakBreaks.ArmingBelowTheMarkerBreaksAHead | ops/lij-sp-index.py:469-471 | a run that arms a re-index below the re-link marker and ends with no marker, no hole and a head that does not chain |
| TweakBreaks.UpgradeMidReindexBreaksTheStamp | ops/lij-sp-index.py:534-536 | a run in which a parser change during a re-index ends with a stamp that a row contradicts |
| TweakBreaks.RelinkAcrossAHoleBreaksAHead | ops/lij-sp-index.py:539-551 | a run in which a re-link up to a dropped tip links across a hole and drops its marker; the hole is filled, and the run ends with no marker, no hole and a head that does not chain |
| TweakBreaks.SliceOverAHoleBreaksAHead | ops/lij-sp-index.py:513-538 | a run in which a slice ends above an unmarked hole, and filling the hole leaves a head that does not chain and that no marker covers |
| TweakBreaks.UnsafeStepBreaks | ops/lij-sp-index.py:434-551 | no weaker condition would do: from every sound database, every unsafe write of the five kinds has a continuation of safe writes to a head that does not chain and that nothing excuses, or to a false stamp |
| TweakBreaks.UnsafeEndsWrongIff | ops/lij-sp-index.py:434-551 | every unsafe write can be continued by safe writes to a finished index (no marker, no hole) with a head that does not chain or a false stamp, if and only if it does not leave a re-index under way with no marker, whose end then marks and mends every head |
| TweakPass.MissingExact | ops/lij-sp-index.py:493-495 | the gap list holds exactly the heights of the range that have no row |
| TweakPass.TodoReady | ops/lij-sp-index.py:493-498 | every height a pass walks is missing and is the start or has its predecessor present or walked before it |
| TweakPass.PassLeads | ops/lij-sp-index.py:475-551 | whatever the node answers, one pass of the loop is a run of the transition system, and a safe run if the pass is safe |
| TweakPass.PassSoundIff | ops/lij-sp-index.py:475-551 | from every sound database, whatever the node answers, the pass leaves a sound one if and only if the slice and the re-link it reaches are safe |
| TweakPass.PassSafeWhen | ops/lij-sp-index.py:488-551 | they are, whatever else the node answers, when its tip is not below any row or height left to re-index and the cursor is at the start, above a row or under the marker |
| TweakPass.PassProgress | ops/lij-sp-index.py:488-551 | on an answering node each pass strictly lowers (missing blocks, blocks left to re-index, marker present) in lexicographic order until nothing is left, and then changes nothing |
| TweakPass.PassesSettle | ops/lij-sp-index.py:475-551 | within a bounded number of passes nothing is left to do |
| TweakPass.FirstPass | ops/lij-sp-index.py:479-551 | whatever rows the reorg check finds mismatched, one pass deletes and refills them, and no more passes are needed than before |
| TweakPass.SettlesToFold | ops/lij-sp-index.py:475-551 | from any sound database, its rows matching or not, the passes end with exactly the blocks from the start to the tip, each head the fold of the commitments below it |
| TweakFills.ReorgCheckExact | ops/lij-sp-index.py:479-487 | the check looks at the six highest heights not below the start, lowest first; at the first row that does not match it deletes from there up, or stops if the node did not answer, and with none it changes nothing |
| TweakFills.WalkFills | ops/lij-sp-index.py:488-509 | a finished walk has filled every height above the highest row and the lowest four batches of the gap below: exactly the rest of the gap is still missing |
| TweakFills.PassFills | ops/lij-sp-index.py:475-551 | of the heights up to the tip a finished pass, whatever the node answered, leaves missing at most that rest, and exactly it when no slice was re-indexed |
| TweakFills.PassMoves | ops/lij-sp-index.py:511-551 | a finished pass moves the re-index by four batches, or to its end with the stamp, and waits while there are new blocks; the marker is gone when no gap is left and kept when one is |
| TweakFills.ReindexRenewsAll | ops/lij-sp-index.py:469-551 | a re-index over every row ends, within a bounded number of passes, with a database that depends on the chain, the start and the running parser alone: each row from the start to the tip is the one that parser computes, and the stamp names it |
| TweakFills.PassCommits | ops/lij-sp-index.py:475-551 | a finished pass has committed everything; one that stops at an error leaves fewer rows than a batch uncommitted or, where it reached no commit, fewer than a batch more than it found |
| TweakFills.StoppedPassesAddUp | ops/lij-sp-index.py:501-509 | across passes there is no bound: for every n there are n passes that each stop after one block and leave all n rows uncommitted |
| TweakIndexer.BootSoundIff | ops/lij-sp-index.py:451-473 | a start of the process with any settings leaves a sound database sound exactly under the three conditions together |
| TweakIndexer.BootLeads | ops/lij-sp-index.py:451-473 | a start of the process is a run of the transition system from what was committed, each write committed before the next |
| TweakIndexer.FirstBootStamps | ops/lij-sp-index.py:450-468 | the first start on a new database stamps it with the running parser, whatever the settings |
| TweakIndexer.SameParserNeverReindexes | ops/lij-sp-index.py:466-473 | from a new database, after its first start and every run under one parser, the stamp names that parser, nothing was ever re-indexed, and a further start that lowers nothing leaves the database as it was, re-index asked for or not |
| TweakIndexer.OtherParserReindexesIff | ops/lij-sp-index.py:469-471 | a start under another parser arms a re-index from the start to the highest row exactly when it is asked to and there are rows |
| TweakIndexer.Indexer.constructor | ops/lij-sp-index.py:450-457 | a new database satisfies the invariant |
| TweakIndexer.Indexer.Boot | ops/lij-sp-index.py:451-473 | the boot's writes start from what was committed and come to the boot function, and the invariant holds afterwards exactly when the boot was safe |
| TweakIndexer.Indexer.CheckTop | ops/lij-sp-index.py:479-487 | the six-deep reorg check deletes from the first differing hash, commits exactly then, and keeps the invariant |
| TweakIndexer.Indexer.WalkList | ops/lij-sp-index.py:501-509 | the walk loop does what the walk function says, commits at each full batch, and keeps the invariant on memory and disk |
| TweakIndexer.Indexer.RedoSlice | ops/lij-sp-index.py:513-538 | one slice of the re-index, with its batch commits, does what the slice function says, and when it ends keeps the invariant exactly when its first row did not stand above a hole unmarked |
| TweakIndexer.Indexer.RelinkFromMarker | ops/lij-sp-index.py:541-550 | the re-link loop equals the re-link function and commits, and keeps a sound database sound exactly when every row above a hole is still to be rewritten |
| TweakIndexer.Indexer.RunPass | ops/lij-sp-index.py:475-551 | a whole pass equals the pass function in memory and on disk, whatever the node answers; a finished pass keeps the invariant exactly when it was safe, and one stopped at an error always does |
| ServedRun.ServedIsLongestRun | ops/lij-tier2-filters.py:211-213 | a height is advertised if and only if it is at or above the start and no height from it to the highest row is missing |
| ServedRun.ReplyExact | ops/lij-tier2-filters.py:205-215 | the reply is none exactly on an empty index; the cached run exactly when it is recent and ends at the top read; else every height from which no row is missing up to any row the query sees, from the start read to the top read |
| ServedRun.AnswerIsLongestRun | ops/lij-tier2-filters.py:205-215 | a request that nothing interrupts and the cache does not answer is told a height if and only if no height from it to the highest row is missing; an answer that is not recent never depends on the cache |
| ServedRun.HitIsAnEarlierLongest | ops/lij-tier2-filters.py:209-214 | in every history an answer from the cache is what the last query answered: the longest run of the rows then on disk |
| ServedRun.NextKeepsCacheSoundIff | ops/lij-tier2-filters.py:195-215 | each write, and each read of a request, leaves every run that an answer may still name free of rows above a missing height exactly when it is no re-index write into the run above a missing height of it |
| ServedRun.EveryAnswerGapFreeIff | ops/lij-tier2-filters.py:195-223 | in every history of overlapping requests, each of three reads, and of indexer writes, unsafe ones included, whose re-index writes fit: an answer, cached or not, names no missing height exactly when the highest row it read is still there, or it names no height |
| ServedRun.EveryAnswerGapFree | ops/lij-tier2-filters.py:195-215 | so every answer to a request with no commit during it, cached or not, ends at the highest committed row and names no missing height |
| ServedRun.ReorgDuringRequestMisleads | ops/lij-tier2-filters.py:205-214 | from every world with rows, a reorg committed between a request's two reads of the rows leaves it with an answer that ends at a deleted row |
| ServedRun.MisfitMisleads | ops/lij-tier2-filters.py:205-207 | after every re-index write that does not fit, some continuation ends with a cached answer that names a missing height |
| ServedRun.OnlyReorgShrinks | ops/lij-tier2-filters.py:195-215 | from one committed database to any later one with no reorg's delete and no re-index write beyond the highest row's successor between them, crashes included, every advertised height stays advertised |
| ServedRun.JumpShrinks | ops/lij-sp-index.py:513-526 | a re-index write beyond the highest row's successor takes the highest advertised height out of the range |
| ServedRun.Server.Served | ops/lij-tier2-filters.py:195-215 | the two reads, each of what is committed by then, and the cache give the reply, which outside the cache is the longest run, and which is stored |
| ScriptPushes.FirstOfEncode | ops/lij-sp-index.py:225-246 | reading the first item of an encoded item followed by anything gives that item back |
| ScriptPushes.EncodeOfFirst | ops/lij-sp-index.py:225-246 | an item read from a script encodes to the bytes it was read from |
| ScriptPushes.TruncatedIff | ops/lij-sp-index.py:229-243 | no item can be read exactly when the bytes are a proper prefix of some item's encoding |
| ScriptPushes.SplitExistsAndIsUnique | ops/lij-sp-index.py:213-248 | every byte string splits into push encodings, non-push opcodes and at most one truncated tail in exactly one way |
| ScriptPushes.Pushes | ops/lij-sp-index.py:213-248 | the loop returns exactly the payloads of the script's one split, in order |
| ScriptPushes.FindKey | ops/lij-sp-index.py:281-286 | the backward search returns the last compressed push whose hash matches |
| ScriptPushes.SameKeysSameAnswer | ops/lij-sp-index.py:281-286 | scripts with the same matching pushes give the same key whatever surrounds them |
| ScriptPushes.InsertionKeepsKey | ops/lij-sp-index.py:213-248 | inserting opcodes or non-matching pushes between items never changes the key found |
| ScriptPushes.KeyFoundIff | ops/lij-sp-index.py:281-286 | a key is found exactly when some push is 33 bytes, starts with 2 or 3 and hashes to what the output names, and what is found is such a push |
| ScriptPushes.UsualSpendGivesKey | ops/lij-sp-index.py:281-286 | a signature and a compressed key, with any items before them, give that key |
| CoinSelect.LargestFirstIsMost | lij/lij-core/src/coin_select.rs:29-39 | no set of k coins is worth more than the k largest |
| CoinSelect.PickOptimal | lij/lij-core/src/coin_select.rs:17-41 | for every need function: None exactly when no non-empty set covers, else a distinct covering set of the least size, a single one being the smallest that covers with ties by index |
| CoinSelect.PickAmongOptimal | lij/lij-core/src/coin_select.rs:17-41 | the same over any list of candidate coins |
| CoinSelect.PickAmongTakesLargest | lij/lij-core/src/coin_select.rs:29-40 | a pick of several coins is exactly the largest candidates, equal values by index, in that order |
| CoinSelect.TakeCoins | lij/lij-core/src/coin_select.rs:29-40 | the accumulating loop in saturating 64-bit arithmetic returns the first covering prefix |
| CoinSelect.FindSingle | lij/lij-core/src/coin_select.rs:21-28 | the search over the sorted list returns the first coin that covers alone |
| CoinSelect.PickCoins | lij/lij-core/src/coin_select.rs:17-41 | the two loops together are the pick |
| MixedLast.PickThrough | lij/lij-core/src/coin_select.rs:55-59 | picking from the gathered plain values and mapping back is picking among those coins |
| MixedLast.PickCoinsMixedLast | lij/lij-core/src/coin_select.rs:54-83 | the three-stage search with its loops is the mixed-last pick |
| MixedLast.PlainCase | lij/lij-core/src/coin_select.rs:55-60 | when some plain set covers the answer is the optimal pick among plain coins, so it has no mixed coin |
| MixedLast.SingleMixedCase | lij/lij-core/src/coin_select.rs:61-67 | else, when some mixed coin covers alone, the answer is exactly the smallest such coin |
| MixedLast.LastCase | lij/lij-core/src/coin_select.rs:68-82 | else the answer is every plain coin and the least number of mixed coins any set with every plain coin needs; None exactly when no such set covers |
| MixedLast.LastCaseOrder | lij/lij-core/src/coin_select.rs:68-82 | that answer lists the plain coins before the mixed ones, each kind largest first |
| MixedLast.PickHasFewestMixed | lij/lij-core/src/coin_select.rs:43-83 | when each plain coin is worth the marginal need: None exactly when no set covers, and no covering set has fewer mixed coins |
| MixedLast.CompleteIff | lij/lij-core/src/coin_select.rs:43-83 | at a fee per input, every coverable amount is answered exactly when every plain coin is worth its input, or no mixed coin is worth more than its input, or at most one coin is |
| MixedLast.RefusesBestNet | lij/lij-core/src/coin_select.rs:68-82 | otherwise the amount that the worthwhile coins carry exactly is covered by them and refused |
| MixedLast.AnswersIff | lij/lij-core/src/coin_select.rs:43-83 | for all coins, a positive amount at a fee per input is answered exactly when it is at most what the plain coins worth their input carry, or one mixed coin, or all plain coins with the mixed ones worth their input |
| MixedLast.DustBlocksMixedCoins | lij/lij-core/src/coin_select.rs:68-82 | two mixed coins of 100 cover 180 at a fee of 10 an input; with a plain coin of 1 beside them the pick refuses |
| WalletCoins.ChangeIsMostRecent | lij/lij-core/src/channel_open.rs:181-196 | the unconfirmed change offered is that of the most recent pending rows that have any, unreserved, unheld and not in the view, at most three |
| WalletCoins.CandidatesExact | lij/lij-core/src/channel_open.rs:274-293 | candidates are unspent, signable, unreserved and unheld coins with distinct outpoints, and every such coin of the view is one |
| ChannelOpen.SatPerVb | lij/lij-core/src/onchain_send.rs:325 | the least whole rate of at least one sat a vbyte that reaches the rate asked for |
| ChannelOpen.EstimateIsEnough | lij/lij-core/src/onchain_send.rs:301-330 | the 68-vB estimate is never below the real fee of as many coins, and equals it exactly when none is a taproot coin |
| ChannelOpen.PickPinned | lij/lij-core/src/channel_open.rs:234-261 | the loop over the seen set resolves the chosen coins or names the first fault |
| ChannelOpen.ResolveExact | lij/lij-core/src/channel_open.rs:234-261 | chosen coins resolve exactly when some are chosen and each is an unheld candidate; the result is those candidates, each once, whatever the case of the ids |
| ChannelOpen.ResolveKeepsOrder | lij/lij-core/src/channel_open.rs:234-261 | chosen coins are spent in the order their pins are first given |
| ChannelOpen.ResolveNamesFirstFault | lij/lij-core/src/channel_open.rs:234-261 | a refusal names the fault of the first pin that cannot be spent, held before unknown |
| ChannelOpen.AutoPickSilent | lij/lij-core/src/channel_open.rs:322-338 | when some set of silent-payment coins covers, only such coins are picked |
| ChannelOpen.AutoPickPlain | lij/lij-core/src/channel_open.rs:331-340 | else, when some unmixed set covers, no mixed coin is picked |
| ChannelOpen.FinishFunding | lij/lij-core/src/channel_open.rs:402-460 | the builder's checks and its change rule compute the finish function |
| ChannelOpen.FinishBalances | lij/lij-core/src/channel_open.rs:402-460 | a finished transaction balances: inputs are channel, change and fee, change is none or at least dust, and the fee exceeds the coins' own by less than dust |
| ChannelOpen.BuildFundingTx | lij/lij-core/src/channel_open.rs:374-512 | the size check, the selection and the finish in order are the build |
| ChannelOpen.SelectedEnough | lij/lij-core/src/channel_open.rs:266-353 | whatever is selected, chosen or automatic, consists of candidates and covers the channel and its real fee |
| ChannelOpen.BuildsIffSelected | lij/lij-core/src/channel_open.rs:402-420 | the checks after the pick never fire: an open of at least the minimum builds exactly when coins are selected |
| ChannelOpen.BuildBalances | lij/lij-core/src/channel_open.rs:400-460 | every built funding transaction balances |
| ChannelOpen.BuildReachesRate | lij/lij-core/src/onchain_send.rs:318-327 | every built transaction pays at least the rate asked for on the real size of its inputs and two outputs and, above the least rate, less than one sat a vbyte and a dust output more |
| ChannelOpen.BuildBounds | lij/lij-core/src/channel_open.rs:383-460 | nothing below 5000 sats builds, and change is at least 294 sats or goes to the fee |
| ChannelOpen.FloorRateFee | lij/lij-core/src/onchain_send.rs:318-327 | at the wallet's floor of 253 sat a kiloweight one P2WPKH coin pays 282 sats |
| ChannelOpen.AutoBuildPrefers | lij/lij-core/src/channel_open.rs:318-345 | every automatic open spends silent-payment coins only if some set of them covers, else no mixed coin if some unmixed set covers |
| FundingMax.QuoteSeesCandidates | lij/lij-core/src/channel_open.rs:155-171 | the quote and the build see the same coins, total and size, although in different orders |
| FundingMax.ChosenBuildsIffWithinMax | lij/lij-core/src/channel_open.rs:155-172 | for any chosen coins a channel of at least the minimum builds if and only if the quote answers and its value is at most the quote |
| FundingMax.AutoBuildsUpTo | lij/lij-core/src/channel_open.rs:318-340 | every value up to the total minus the 68-vB fee of all coins builds automatically |
| FundingMax.AutoBuildsIffCovered | lij/lij-core/src/channel_open.rs:318-352 | an automatic open builds only if some set covers at 68 vB an input, and exactly then when the pick refuses nothing coverable |
| FundingMax.AutoBuildsIff | lij/lij-core/src/channel_open.rs:318-340 | for every wallet, an automatic open builds exactly when its value with 73 vB is at most what the unmixed candidates worth a 68-vB input carry, or one mixed candidate, or all unmixed ones with the mixed ones worth their input |
| FundingMax.QuotedMaxBuildsIff | lij/lij-core/src/channel_open.rs:155-172 | for every wallet, the quoted Max builds automatically exactly when the candidates afford in that sense what they all carry together and 10 vB more for each taproot coin |
| FundingMax.QuotedMaxBuildsIffDust | lij/lij-core/src/channel_open.rs:155-172 | where the pick refuses nothing coverable, exactly when 10 vB for each taproot coin is no more than what the coins not worth their input cost |
| FundingMax.QuotedMaxBuildsIffPlain | lij/lij-core/src/channel_open.rs:155-172 | when each candidate is worth its input, exactly when none is a taproot coin |
| FundingMax.QuotedMaxRefused | lij/lij-core/src/channel_open.rs:169-172 | one silent-payment coin of 100000 at one sat a vbyte: the quote is 99869 and the automatic open of it is refused |
| FundingRuns.OpenSpendsOnlyFree | lij/lij-core/src/channel_open.rs:400-412 | no open, automatic or chosen, spends a held, already spent or already committed coin |
| FundingRuns.NextOpenSpendsOthers | lij/lij-core/src/node.rs:2400-2420 | an open reserves every coin it spends, so no later open, of whatever size and coins, spends one of them while it is pending |
| FundingRuns.OpenOffersChangeIff | lij/lij-core/src/channel_open.rs:181-196 | after an open the next one is offered its change, the second output with exactly the change's value, if and only if there is change that is not held and that nothing pending spends |
| FundingRuns.RecordOffersChange | lij/lij-wasm/src/lib.rs:1738-1752 | a send recorded now is the newest row, so its open change is offered next |
| FundingRuns.DropFreesIff | lij/lij-core/src/tier2_wallet.rs:1380-1390 | a dropped transaction frees exactly what no other row reserves |
| FundingRuns.ShownIsOfferedIff | lij/lij-core/src/channel_open.rs:274-293 | after a sync and a change of the held coins, a coin of the view is offered exactly when it is unspent, signable, not held and not reserved |
| FundingRuns.RecordSafeIff | lij/lij-core/src/tier2_wallet.rs:1366-1371 | recording a row keeps the outpoints disjoint if and only if the row spends each once and none that a row of another transaction holds |
| FundingRuns.StepSafeIff | lij/lij-core/src/tier2_wallet.rs:1366-1371 | an open, a choice, a drop, a sync or a mark always keeps the pending transactions' outpoints disjoint, and recording a send or another path's row does exactly when its outpoints are free of the other rows by then |
| FundingRuns.EveryRunOpensApart | lij/lij-core/src/node.rs:2372-2412 | in every run, whatever sends and other paths record, a pending open shares no outpoint with a row recorded before it, so no two opens share one, and what the next open spends is not held, spent or reserved |
| FundingRuns.ClearIffNotTaken | lij/lij-wasm/src/lib.rs:1704-1760 | a send's outpoints are free when it records them exactly when nothing still pending took one since it chose them |
| FundingRuns.EveryRunSpendsOnceIff | lij/lij-wasm/src/lib.rs:1704-1760 | in every run, with any number of sends waiting for their broadcast, no two pending transactions ever spend the same outpoint exactly when no send records an outpoint that an open or another record, still pending, took since it chose it, and no other path records one that another row holds |
| FundingRuns.EveryChoiceSettledOnce | lij/lij-wasm/src/lib.rs:1704-1760 | each choice of a send is recorded or given up at most once: those waiting are those chosen and not settled |
| FundingRuns.OpenWhileSendWaits | lij/lij-wasm/src/lib.rs:1718-1740 | from every wallet, an open that builds on a coin of a waiting send and records it makes the send's record a second pending spend of that coin |
| FundingRuns.SendAcrossAnOpenSpendsTwice | lij/lij-core/src/onchain_send.rs:1112-1126 | such a run from a new wallet, with one coin of 100000 and a channel of 50000 |
| FundingRuns.Store.OpenChannel | lij/lij-core/src/channel_open.rs:374-512 | a successful open records its outpoints and its change as pending and keeps the invariant; a failed one changes nothing |
| FundingRuns.Retain | lij/lij-core/src/tier2_wallet.rs:1366-1371 | the retain loop drops exactly the rows of that transaction |
| Broadcast.JoinedKnown | lij/lij-core/src/broadcaster.rs:48-59 | a joined or prefixed message reads as already known exactly when one of its parts does |
| Broadcast.JoinedClashes | lij/lij-core/src/broadcaster.rs:48-59 | and as a conflict exactly when one of its parts does |
| Broadcast.FastDoneIff | lij/lij-core/src/broadcaster.rs:247-314 | a fast entry is done exactly when a path accepts it or says it is known in this attempt; earlier words never decide |
| Broadcast.SlowRetiresIff | lij/lij-core/src/broadcaster.rs:351-381 | a parked entry is retired exactly when a path accepts it or the cooperative path knows it |
| Broadcast.RetiresAsDocumentedIff | lij/lij-core/src/broadcaster.rs:348-381 | the documented rule is met exactly unless the independent path alone says the transaction is known |
| Broadcast.KnownToIndependentStaysParked | lij/lij-core/src/broadcaster.rs:371-377 | in that case the entry goes back to the ring with no strike |
| Broadcast.SlowTurnExact | lij/lij-core/src/broadcaster.rs:386-430 | a parked entry's turn by the answers' own words: retired when a path accepts or the cooperative one knows it; a strike exactly when no path accepts, neither says known and some refusal says conflict; on the tenth retired as conflicted and reported in those words; else parked with its strikes unchanged |
| Broadcast.StaysParkedIff | lij/lij-core/src/broadcaster.rs:386-430 | over any turns an entry is still in the ring exactly as long as no answer retired it and its strikes are fewer than ten |
| Broadcast.FastTurnExact | lij/lij-core/src/broadcaster.rs:247-344 | a fast entry's turn by the answers' own words: done when a path accepts or knows it; at the third attempt parked and reported with each refusal's words, and the pass goes on; else queued again with one attempt more, and the pass stops |
| Broadcast.FastTurnBalances | lij/lij-core/src/broadcaster.rs:231-344 | a fast turn moves its entry to exactly one place and reports exactly when it parks it |
| Broadcast.SlowTurnBalances | lij/lij-core/src/broadcaster.rs:395-429 | a slow turn moves its entry to exactly one place and reports exactly when it retires it as conflicted |
| Broadcast.StepAccounted | lij/lij-core/src/broadcaster.rs:177-430 | every step of every pass keeps the accounts, attempts under 3 in the queue, attempts 3 and under 10 strikes in the ring |
| Broadcast.EveryRunAccounted | lij/lij-core/src/broadcaster.rs:222-430 | in every run of overlapping passes with any answers each entry is in exactly one place and each parked or conflicted one has had a failure reported |
| Broadcast.RunKeepsLog | lij/lij-core/src/broadcaster.rs:207-209 | no step takes a reported failure back |
| Broadcast.EveryFailureTakenOnce | lij/lij-core/src/broadcaster.rs:207-209 | over every run the lists of failures taken, one after another, are the reported failures in order, each once |
| Broadcast.EnqueueRawOnce | lij/lij-core/src/broadcaster.rs:179-185 | enqueueing raw bytes leaves one entry of a transaction that had none queued and changes nothing for one that had |
| Broadcast.PushAllAppends | lij/lij-core/src/broadcaster.rs:443-467 | broadcasting appends a fresh entry for each transaction, in order, and changes nothing else |
| BroadcastPass.CallBalances | lij/lij-core/src/broadcaster.rs:222-346 | one call keeps each transaction's account |
| BroadcastPass.CallWorks | lij/lij-core/src/broadcaster.rs:222-346 | a call with something queued takes at least one attempt off the queue's total |
| BroadcastPass.QueueDrains | lij/lij-core/src/broadcaster.rs:222-346 | with nothing new enqueued the fast queue is empty after as many calls as the sum of the attempts left, whatever the paths answer |
| BroadcastPass.EveryParkedTried | lij/lij-core/src/broadcaster.rs:222-230 | within thirty calls every parked entry gets a turn: after the ring's next round those that their own answers leave parked are in the ring, in order, ahead of any parked since |
| BroadcastPass.AcceptingPathsEmptyTheRing | lij/lij-core/src/broadcaster.rs:222-430 | while the paths accept, the queue is sent with the first call and the ring is emptied, each entry retired once and nothing reported, exactly once the ring has come around |
| BroadcastPass.CallIsRun | lij/lij-core/src/broadcaster.rs:222-346 | a call is a run of one pass, from idle to idle, so what holds of overlapping passes holds of it |
| BroadcastPass.Broadcaster.BroadcastTransactions | lij/lij-core/src/broadcaster.rs:443-467 | the loop appends a fresh entry for each transaction in order |
| BroadcastPass.Broadcaster.EnqueueRaw | lij/lij-core/src/broadcaster.rs:179-185 | nothing happens if an entry of the transaction is queued, else a fresh one is appended |
| BroadcastPass.Broadcaster.TakeFailures | lij/lij-core/src/broadcaster.rs:207-209 | returns every unshown failure and leaves none unshown |
| BroadcastPass.Broadcaster.ProcessParked | lij/lij-core/src/broadcaster.rs:386-430 | drains the ring and gives each entry one turn in order |
| BroadcastPass.Broadcaster.ProcessQueue | lij/lij-core/src/broadcaster.rs:222-346 | terminates, equals the call function and lowers the queue's attempts left |
| ChainCoordinator.RatchetExact | lij/lij-core/src/chain_coordinator.rs:358-447 | a tip or header candidate yields BestBlockUpdated exactly when it exceeds the initial tip and every earlier candidate and is at least every floor seeded before it; no other call yields one |
| ChainCoordinator.EmittedIncrease | lij/lij-core/src/chain_coordinator.rs:537-578 | emitted heights strictly increase across both lanes |
| ChainCoordinator.TipExact | lij/lij-core/src/chain_coordinator.rs:358-447 | in every run the tip is the initial one and no candidate was above it, or it is the height and the hash of the first candidate of the greatest height |
| ChainCoordinator.ReportExact | lij/lij-core/src/chain_coordinator.rs:388-426 | the i-th call of a run reports a confirmation exactly when it is a bridge one, or an independent one not yet held at its height, and its bytes parse, and then with that call's header, index and height and the parsed transaction; an unconfirmation exactly when it is forced |
| ChainCoordinator.HeldExact | lij/lij-core/src/chain_coordinator.rs:388-426 | in every run what is held for a transaction is the height, block, index, bytes and source that the last call to touch it stored, or nothing if that call forced it unconfirmed |
| ChainCoordinator.NothingHeldUntouched | lij/lij-core/src/chain_coordinator.rs:334-426 | nothing is held for a transaction that no call touched |
| ChainCoordinator.ObservedExact | lij/lij-core/src/chain_coordinator.rs:459-472 | in every run the observed tip is the greatest height observed or seeded, with the hash of a call of that height |
| ChainCoordinator.ConsumersAgree | lij/lij-core/src/chain_coordinator.rs:212-248 | in every run of routed calls and direct sweeper calls, monitor and manager receive the same sequence, the coordinator's actions in order |
| ChainCoordinator.LockstepIff | lij/lij-core/src/node.rs:1553-1564 | the sweeper has the same sequence throughout a run exactly when no action is applied without it and no call is made on it alone |
| ChainCoordinator.EndsInLockstepIff | lij/lij-core/src/node.rs:1553-1564 | a run that ends with equal sequences added as many calls as it withheld, and when it did only one of the two, none at all |
| ChainCoordinator.NodeLockstepIff | lij/lij-core/src/node.rs:8446-8461 | in the node's own runs that is exactly when every promoted confirmation is already held at its height or does not parse, the sweeper never lags the bridge, and it is fed nothing |
| ChainCoordinator.PromotedSkipsSweeper | lij/lij-core/src/node.rs:4071-4090 | one promoted confirmation that parses reaches monitor and manager and not the sweeper |
| ChainCoordinator.SweeperHearsAlone | lij/lij-core/src/node.rs:1748-1773 | after a feed the sweeper was last told of each fed transaction at the height it was fed with; after it is raised past where it stood its last call is that best block; monitor and manager hear nothing of either |
| ChainCoordinator.StepAgreesIff | lij/lij-core/src/chain_coordinator.rs:388-426 | a call keeps the agreement with LDK exactly when the confirmation it stores, if any, parses to its own transaction or was already reported at that height |
| ChainCoordinator.EveryRunAgrees | lij/lij-core/src/chain_coordinator.rs:334-426 | in every run whose raw transactions parse, each non-hydrated confirmation was last reported to LDK as confirmed at its recorded height |
| ChainCoordinator.OnlyForceUnconfirmRemoves | lij/lij-core/src/chain_coordinator.rs:703-713 | a confirmation leaves only through force_unconfirm of that transaction, and LDK is told |
| ChainCoordinator.HydrateAllOnly | lij/lij-core/src/chain_coordinator.rs:334-354 | hydration stores each given channel as hydrated at its height and index and changes nothing else |
| ChainCoordinator.HydrateKeepsLast | lij/lij-core/src/chain_coordinator.rs:334-354 | of several channels with one transaction the last is held, and the rest of the records stay |
| ChainCoordinator.UnparsedIsHeldUnreported | lij/lij-core/src/chain_coordinator.rs:391-417 | one confirmation whose bytes do not parse is held as confirmed and never reported |
| ChainCoordinator.VerifyOnlyIrrelevant | lij/lij-core/src/chain_coordinator.rs:459-620 | without its verify-only observations every run ends with the same tip, floor and confirmations and has delivered the same calls |
| ChainCoordinator.Apply | lij/lij-core/src/chain_coordinator.rs:212-248 | an action reaches monitor, manager and the sweeper handed over, if any, and no action reaches none |
| ChainCoordinator.ReconcileSweeper | lij/lij-core/src/node.rs:1748-1773 | the loop feeds each transaction to the sweeper alone, in order, and returns how many |
| ChainCoordinator.Router.HydrateFromChannels | lij/lij-core/src/chain_coordinator.rs:334-354 | the loop performs the hydration step |
| ChainCoordinator.Router.IngestBridgeTip | lij/lij-core/src/chain_coordinator.rs:358-384 | performs the tip lane's step |
| ChainCoordinator.Router.IngestBridgeBlockHeader | lij/lij-core/src/chain_coordinator.rs:431-447 | performs the header lane's step |
| ChainCoordinator.Router.IngestBridgeConf | lij/lij-core/src/chain_coordinator.rs:388-426 | stores the confirmation first and reports it only if its bytes parse |
| ChainCoordinator.Router.IngestIndependentConfirmation | lij/lij-core/src/chain_coordinator.rs:624-682 | does nothing at the height already held, else stores and reports |
| WatchProtocol.StepSound | lij/lij-core/src/cooperative_chain_handler.rs:322-352 | every step of the protocol keeps the invariant |
| WatchProtocol.EveryRunSound | lij/lij-core/src/cooperative_chain_bridge.rs:155-249 | in every run, while the provider is connected either a resubscribe is wanted or every watched txid and script is pending in the filter, queued for it or sent on this connection |
| WatchProtocol.EveryRunCatchesUp | lij/lij-core/src/cooperative_chain_bridge.rs:229-249 | after every run, one registration tick, one subscribe tick and one flush leave nothing watched unsent to the connected provider |
| WatchProtocol.ReconnectHearsAtOnce | lij/lij-core/src/cooperative_chain_handler.rs:329-352 | a provider that connects again is sent its last subscription on the first flush |
| WatchProtocol.SnapshotMentions | lij/lij-core/src/cooperative_chain_bridge.rs:155-179 | a fresh subscription names every watched txid and script |
| WatchProtocol.FlagIff | lij/lij-core/src/node.rs:3126-3166 | the flag is up after a step exactly when the subscribed peer has just come or gone, or it was up and no subscribe tick found the provider connected; such a tick queues a fresh snapshot, and one that finds it away changes nothing |
| WatchProtocol.FlagStaysUp | lij/lij-core/src/cooperative_chain_handler.rs:322-352 | a raised flag stays up throughout an absence of the provider |
| WatchProtocol.EveryRunRegistersOnce | lij/lij-core/src/chain_filter.rs:157-186 | in every run what is watched is exactly what was registered, each once, in the order first registered; a repeated registration adds nothing, watched or pending |
| WatchProtocol.EveryRunHonest | lij/lij-core/src/cooperative_chain_bridge.rs:155-249 | in every run no peer is queued or sent anything but what was registered, with its own transaction, index, script and block |
| WatchProtocol.TickForwardsAll | lij/lij-core/src/cooperative_chain_bridge.rs:229-249 | a registration tick queues every pending registration for the provider, field by field, in order, and leaves none pending |
| WatchProtocol.MarkedIsForwarded | lij/lij-core/src/chain_filter.rs:125-129 | after everything is marked for resubscribing a registration tick queues every registration again |
| WatchProtocol.EveryRunProviderIff | lij/lij-core/src/cooperative_chain_bridge.rs:155-258 | in every run the provider is the peer last made so, unless it was marked disconnected since |
| WatchObjects.ChainFilter.RegisterTx | lij/lij-core/src/chain_filter.rs:157-172 | a new entry joins the watched and the pending list, a repeated one changes nothing |
| WatchObjects.ChainFilter.RegisterOutput | lij/lij-core/src/chain_filter.rs:174-186 | the same for outputs |
| WatchObjects.ChainHandler.PeerConnected | lij/lij-core/src/cooperative_chain_handler.rs:329-352 | for the target, queues the last subscription and raises the flag |
| WatchObjects.ChainBridge.SendSubscribe | lij/lij-core/src/cooperative_chain_bridge.rs:155-179 | the loops build a snapshot of everything watched, queue it and make the peer the provider |
| WatchObjects.ChainBridge.ProcessNewRegistrationsTick | lij/lij-core/src/cooperative_chain_bridge.rs:229-249 | forwards everything pending to the provider in order, or keeps it when there is none |
| WatchObjects.ChainBridge.SubscribeTick | lij/lij-core/src/node.rs:3126-3166 | takes the flag and sends a fresh snapshot, or puts a taken flag back |
| ColdStart.SettlesByTwo | lij/lij-core/src/cold_start.rs:232-326 | from every state on every input two rounds reach a state the decision maps to itself |
| ColdStart.TickEnds | lij/lij-core/src/cold_start.rs:232-326 | where a tick ends, exactly: Ready, ReadOnly, Frozen and Initializing each if and only if, so that a lost path always leads from Ready to ReadOnly or Frozen, and Frozen is left as soon as a path is back |
| ColdStart.EndByInputs | lij/lij-core/src/cold_start.rs:232-326 | the same for Ready and Frozen in the inputs' own terms: one healthy source of a usable quorum, a subscribed provider with a height, two blocks of tolerance, thirty and sixty ticks |
| ColdStart.ReadyUnqueriedIff | lij/lij-core/src/cold_start.rs:302-312 | on its inputs alone a whole tick ends in Ready unqueried exactly from ReadOnly with both paths up and heights agreeing |
| ColdStart.HeightIsAnswered | lij/lij-core/src/cold_start.rs:97-103 | a remembered independent height comes from an answer since the last reset, which also marked the query |
| ColdStart.AnswerIsRemembered | lij/lij-core/src/cold_start.rs:197-202 | and the last such answer is remembered |
| ColdStart.QueriedIff | lij/lij-core/src/cold_start.rs:97-202 | the path counts as queried exactly when it was since the last reset |
| ColdStart.StartedIff | lij/lij-core/src/cold_start.rs:97-135 | budgets run from the last reset or, without one, from the first tick |
| ColdStart.CooperativeHeightIff | lij/lij-core/src/cold_start.rs:97-192 | the cooperative height remembered is the last one seen since the last reset |
| ColdStart.EveryMoveIntoReady | lij/lij-core/src/cold_start.rs:117-202 | in every run each move into Ready had the independent path queried since the last reset, its last answer within two blocks of the cooperative height |
| ColdStart.EveryTickSettles | lij/lij-core/src/cold_start.rs:117-192 | after every tick of every run Ready means both paths available, Frozen neither, and the decision has nothing left to move |
| ColdStart.Tracker.Settle | lij/lij-core/src/cold_start.rs:165-190 | the loop of four rounds makes at most two moves and ends at a fixpoint |
| ColdStart.Orchestrator.OnTick | lij/lij-core/src/cold_start.rs:117-192 | performs the tick's step on its fields and the tracker |

## Left out

- Hashes, curves, signatures, key derivation and txid parsing: uninterpreted functions or parameters.
- RPC, HTTP, sqlite, browser storage, clocks and logging: the node, the paths and the peers answer anything.
- 64-bit overflow of coin sums and fees in channel funding: sums are over the naturals; only the pick's own loops are in saturating arithmetic.
- CoinSelect.PickCoins: requires values and needs that fit 64 bits, as the source's types do.
- TweakPass.PassProgress: assumes an answering node with a fixed tip at or above every row and re-index bound whose chain the top six rows match; `FirstPass` brings any rows to that, and a deeper mismatch is seen only by a later reorg check.
- TweakPass.SettlesToFold: assumes such a tip and that the cursor is at the start, above a row or under the marker, which is what keeps a pass sound (`PassSoundIff`, `PassSafeWhen`).
- What LDK's sweeper does with a call: only the calls it receives are modelled, and the height it reports is an input.
- The indexer's mempool leg and its delta feed: its guarantee needs several side conditions of its own.
- FundingRuns.EveryRunSpendsOnceIff: lower-case transaction ids and one view row an outpoint, as the scan writes them; how a send picks its coins is not modelled, only that they are unreserved when it does; rows of other paths (pools, speed-ups) are recorded unchecked.
- ServedRun.EveryAnswerGapFreeIff: the three fields of the server's cache are read and written as one.
- What happens to a pending record after eviction, replacement or a reorg: a Drop step at any time stands for all of it.
- The parked chosen coins of an open (PARKED_PINS), the pick's quote and the change index: short list updates and lookups.
- The quote's error texts: each refusal is one short message.
- BroadcastPass.Broadcaster.ProcessQueue: one call at a time; overlapping calls are the steps of Broadcast, where new entries may arrive during a pass.
- A broadcast pass whose future is dropped between two awaits, the ring of recent transactions and the raw bytes: entries are told apart by id.
- The coordinator's event ring, watch mirror and freshness stamps: diagnostics that nothing reads back.
- Inbound bridge messages (tips, fees, acknowledgements, confirmations): routed to other components; the tick's reasons for asking again are one boolean.
- RegisterOutput messages also name the outpoint and its block; the protocol's invariant speaks of txids and scripts, which is what a snapshot repeats.
- Ready implies heights still agree: false of the machine, which stays Ready while both paths are up and heights drift.
