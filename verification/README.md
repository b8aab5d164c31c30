# Drivechain wallet server: verified model

A Dafny model of the parts of the server that compute something a user or a peer relies on: descriptor checksums,
block templates, the withdrawal-bundle database, coin selection, block sync with its caches, and denial plans.
`dafny verify dfyconfig.toml` checks everything.

Every file is one component. Code that updates state in place is a class or a method over an array, proved against a
specification function or relation; the theorems are lemmas about that specification, about whole runs, or about
several components together.

| files | what they model | main results |
|---|---|---|
| `ChecksumState`, `DescriptorChecksum`, `ChecksumAnswers` | the checksum of output descriptors (BIP 380, section "Checksum") | the code is BIP 380's, fixed by its five basis steps and known answers; the checksum is the only completion to a code word; two descriptors that differ only inside two adjacent groups never share a checksum, at any length |
| `Base58`, `Base58Numbers`, `Hex`, `Numerals`, `LittleEndian` | Base58Check, hex, variable-length integers | a text encodes bytes exactly when both are the same number behind as many zeros; Base58 is a bijection between byte strings and strings over its alphabet; a checksum is reported valid exactly for strings the encoder produces |
| `Merkle`, `Coinbase`, `CoinbaseReader` | the miner's in-place Merkle fold, the explorer's level list, the coinbase buffer and the signature splice (BIP 34, section "Specification") | both trees have one root, which every leaf reaches along its branch; a reader of the wire format gets back height, value, scripts and commitment, before and after the splice; the first push of the script is the minimal height; the splice is one push exactly when it fits 100 bytes |
| `M4Messages`, `Scdb`, `ScdbRuns`, `ScdbScores`, `M4Generate` | M3/M4 parsing, the bundle table, runs of blocks, generating M4 bytes from preferences | the score of a row is the exact tally of its votes in any run, and 13149 supporting calls approve it; k approvals in a slot need 13149 k blocks; lifetime and finality of bundles; generate, parse and apply agree, exactly when the pending slots have no gap |
| `CoinSelection`, `CoinStrategies`, `CoinChoices` | greedy selection with a fee per input | which coins a selection takes and what it pays, in numbers; largest-first is optimal and complete; which coins each extreme strategy succeeds on, and a condition on the coins that holds if and only if all strategies agree; accounting |
| `BlockSync`, `BlockSyncRuns`, `BlockSyncTicks` | the block parser's tick over its table of processed heights | what a successful tick asks for and leaves in the table, in full; no gap in any run; heights are 1 to the tip throughout exactly when no tick rewinds a chain of height 19; exactly which reorganisations are repaired; failed batches leave no trace |
| `WithdrawalEvents`, `WithdrawalCache`, `WithdrawalRuns`, `WithdrawalStatuses` | the cached listing of withdrawal bundles, merged in place | the last row of every bundle says what its last event said; the last state of every bundle is that of one scan, exactly when no settled bundle is reopened; when the rows themselves agree with the scan |
| `OpReturnCache`, `OpReturnRaces` | the read-through list cache, alone and under interleaving | which cached lists can be stale; no hit two seconds after its store; current rows without overlap; after a write, current rows one lifetime later exactly when no List holds older rows it has still to store |
| `DenialPlans`, `DenialEngine`, `DenialRuns`, `DenialSends`, `DenialTicks`, `DenialEffects`, `TargetSizes` | denial plans, the engine's tick, user requests between any two of its steps, the text form of target sizes | recorded hops never exceed the plan's hops and chain; all transactions sent are accounted for; every send respects delay, pause, cancellation, tip and fee; what a tick leaves of each plan; what pausing and cancelling hold back; the text codec round trip |

## Reading the model

- A SHA-256d digest is an arbitrary function to 32 bytes, given as a parameter (`H`, `doubleHash`).
- A database statement is one atomic change of a map or a sequence. Statements succeed, except where a failed batch is
  the point (`Answers.commits` in `BlockSync`). SQL order with ties is any order that respects the sort key.
- Replies of the node, the validator and the wallets are parameters of one call (`Answers`, `Attempt`); clocks are
  numbers; a random choice is a parameter that ranges over all its values.
- `sort.Slice` is given a body (an insertion sort), but callers only know its contract: sorted, and a permutation.

## Where the code does not do what it is meant to

- M4 bytes (`AlignedIffGapless`, `GapMisleads`): the generator leaves out slots without pending bundles, while the
  parser numbers votes by position. With a gap the votes reach the wrong slots.
- Reorganisations near the start of the chain (`OneToTipThroughoutIff`, `LowReorgStays`, reached by `ReplacedTip`): the
  rewind subtracts 20 from a uint32. At height 19 height 0 is processed too; below 19 nothing is fetched and the replaced
  rows stay.
- Reorganisations to a longer chain (`LongerChainKeeps`, reached by `ReplacedBelowTip`): the tip is rewound only if the
  node's chain has the height of the table. Rows that a longer chain has replaced stay below the new tip.
- Signature splice (`OnePushIff`): the test for a one-byte push adds in a byte and can wrap, and a long signature is
  inserted without any push.
- Coin selection (`DustDivides`): with a coin worth less than its own input the strategies can disagree. They do exactly
  when the required coins cover together with all coins that pay for themselves, but neither alone nor with all coins
  (`StrategiesAgreeIff`).
- Failure reports of coin selection (`FailureAccounts`): coins that are both frozen and required are counted twice.
- Version bytes of Base58Check above 255 are truncated, and do not come back (`DecodeCheckOfEncodeCheck`).
- Withdrawal listings (`RowsDependOnHistory`): a full fetch lists one row per event, so that a bundle submitted and then
  failed has a pending and a failed row; after an incremental fetch it has one. What is listed depends on the calls that
  came before, unless every bundle has a single event (`RowsAgreeIff`, `ListingIsFullScan`).
- Withdrawal bundles (`AnySplitAgreesIff`): if a settled bundle is followed by a pending event, incremental reading and
  a full scan disagree.
- OP_RETURN lists (`CurrentAfterLifetimeIff`, `SlowListSurfaces`): the two seconds of a cached list count from its store,
  not from its query. A List that is overtaken by a write while it holds its rows stores and returns the old ones however
  late it comes.
- Denial plans (`OverrunIff`, `ListedTwiceOverruns`): an outpoint of the enforcer's wallet is listed twice when a plan
  without a wallet id stands beside one with the enforcer's id. If the active wallet is Litecoin Core, whose send names
  only destinations, the first plan sends and records two hops for one output; the enforcer's own send names the output
  and cannot spend it again.
- Denial plans (`SendsBounded`, `SendsTwice`): a transaction that does not show up in the wallet within five minutes is not
  recorded, and the plan sends once more if the wallet still lists the output it spent.
- Coinbase (`PutScriptNum`): on a negative template height the height loop writes past the 256-byte buffer and panics.
- The comment on the incremental fetch says it starts after the last cached block, while the request names that block;
  the model covers a validator that includes it and one that does not; the last state of every bundle is the same.

## Model

The main results first, component by component; then the operations and the lemmas behind the results.

| member | source | states |
|---|---|---|
| DescriptorChecksum.BurstDetected | litwindow/server/engines/descriptor_checksum.go:15-85 | descriptors of equal length that differ only inside two adjacent three-character groups have different checksums |
| DescriptorChecksum.CodeWordIffChecksum | litwindow/server/engines/descriptor_checksum.go:67-83 | eight symbols complete the expanded descriptor to residue 1 if and only if they are the computed checksum |
| DescriptorChecksum.ChecksumSpellsCodeWord | litwindow/server/engines/descriptor_checksum.go:39-85 | the same for the returned text, character by character |
| ChecksumAnswers.BasisSteps | litwindow/server/engines/descriptor_checksum.go:15-34 | the steps of the five top bits give the generator constants, in literals; with linearity they determine every step |
| ChecksumAnswers.RawAnswer | litwindow/server/engines/descriptor_checksum.go:39-85 | the checksum of raw(deadbeef) is 89f8spxm, as in BIP 380, section "Test Vectors" |
| ChecksumAnswers.ReceivingAnswer | litwindow/server/engines/descriptor_checksum.go:39-85 | the checksum of the receiving descriptor of descriptor_checksum_test.go is v39n29tr |
| ChecksumAnswers.ChangeAnswer | litwindow/server/engines/descriptor_checksum.go:39-85 | the checksum of its change descriptor is a9qjhsmm |
| Base58.DecodeEncode | litwindow/server/engines/utils_engine.go:159-224 | decoding inverts encoding on every byte string, leading zeros included |
| Base58.EncodeDecode | litwindow/server/engines/utils_engine.go:159-224 | exactly the strings over the alphabet decode, and encoding gives them back, leading ones included |
| Base58.ChecksumValidIffEncoded | litwindow/server/engines/utils_engine.go:108-157 | a checksum is reported valid exactly for the strings the encoder produces |
| Base58.DecodeCheckOfEncodeCheck | litwindow/server/engines/utils_engine.go:108-157 | payload and a valid checksum come back for every version and payload; the version exactly when it fits a byte |
| Base58Numbers.EncodeIff | litwindow/server/engines/utils_engine.go:159-224 | a text is the encoding of a byte string if and only if it has as many leading zero digits as the bytes have zero bytes and both have the same place-value sum, most significant digit first |
| Merkle.RootsAgree | litwindow/server/cpuminer/miner.go:384-397 | the in-place fold over a block gives the root of its leaves; the explorer's levels over the same leaves are their rows in hex, the last of which is that root alone |
| Merkle.FoldInPlace | litwindow/server/cpuminer/miner.go:384-397 | the loop that overwrites its own array never leaves it and ends with the root of the original leaves in slot 0 |
| Merkle.BranchProves | litwindow/server/cpuminer/miner.go:384-397 | from every leaf, hashing with the siblings from the bottom, sibling on the right at even places and on the left at odd ones, ends at the root |
| Merkle.RootUnfolds | litwindow/server/engines/utils_engine.go:295-321 | the level-wise root is the recursive one |
| Merkle.DuplicatedTail | litwindow/server/cpuminer/miner.go:387-390 | repeating the last leaf of an odd row does not change the root |
| Coinbase.SignedCoinbase | litwindow/server/cpuminer/miner.go:170-335 | after the splice the script still opens with the height and the outputs are those built |
| CoinbaseReader.SignedCoinbaseReads | litwindow/server/cpuminer/miner.go:170-335 | read as a transaction, the spliced coinbase has version 1, the null outpoint, height and signature in its script, the whole value paid to the given script, the commitment of a segwit block, final sequence and lock time 0, as long as the script has a one-byte length |
| CoinbaseReader.CoinbaseReads | litwindow/server/cpuminer/miner.go:170-281 | the same of the coinbase as built |
| Coinbase.OnePushIff | litwindow/server/cpuminer/miner.go:305-331 | the inserted bytes are one push of the signature if and only if old script, signature and two bytes fit 100 |
| Coinbase.HeightIsFirstPush | litwindow/server/cpuminer/miner.go:182-200 | the first operation of the script is the height: a small-integer opcode for 1 to 16, a minimal push otherwise |
| Coinbase.MinimalIsScriptNum | litwindow/server/cpuminer/miner.go:189-198 | no other minimal encoding of the height exists |
| ScdbScores.ScoreIsTally | litwindow/server/engines/m4_engine.go:333-469 | in any run the score of a row is 1 at insertion, plus 1 for each upvote that selects it while pending, minus 1 but not below 0 for each alarm of its slot while pending |
| ScdbScores.SupportApproves | litwindow/server/engines/m4_engine.go:333-469 | a bundle upvoted and not alarmed in 13149 consecutive calls, from the one that inserts it on, is approved by the last of them |
| ScdbRuns.ApprovalsNeedBlocks | litwindow/server/engines/m4_engine.go:333-469 | k approved bundles of a slot need at least 13149 k calls, in any order, with any alarms and re-proposals |
| ScdbRuns.ExcessWithinVotes | litwindow/server/engines/m4_engine.go:333-469 | the scores above 1 of a slot never exceed the votes the blocks can hold for it |
| ScdbRuns.Lifetime | litwindow/server/engines/m4_engine.go:352-361 | blocks_left counts down from 26300 while pending; a bundle is approved or failed by the 26300th call and never expired |
| ScdbRuns.FinalStates | litwindow/server/engines/m4_engine.go:421-469 | approved and failed rows never change again |
| M4Generate.PreferencesTakeEffect | litwindow/server/engines/m4_engine.go:367-418 | applied to the same table, the parsed votes add 1 to the score of exactly the preferred bundles, take 1 from those of alarmed slots that have any, and leave all other scores |
| M4Generate.GeneratedBytesParse | litwindow/server/api/m4/m4.go:166-232 | behind the M4 header the bytes parse to one vote per pending slot, ascending, matching the preferences |
| M4Generate.AlignedIffGapless | litwindow/server/api/m4/m4.go:174-179 | the votes reach the slots they are meant for exactly when the pending slots are 0 to k-1 |
| M4Generate.GapMisleads | litwindow/server/api/m4/m4.go:174-179 | with a gap an alarm for slot 1 is applied to slot 0 |
| CoinSelection.LargestFirstIsOptimal | litwindow/server/engines/coin_selection.go:76-114 | no covering choice of unfrozen coins uses fewer inputs; if there is one, selection succeeds |
| CoinChoices.SelectionExplained | litwindow/server/engines/coin_selection.go:39-164 | a selection holds every required coin and no other frozen one, none more often than the wallet; fee and change are exact, at 10, 68 and 31 virtual bytes; the last coin added was needed; no coin left over is larger, or smaller for smallest-first, than one added |
| CoinChoices.RefusalExplained | litwindow/server/engines/coin_selection.go:116-142 | a refusal names the worth of all coins that may be spent, less than the target and the fee for spending them all, and the worth of the frozen ones |
| CoinStrategies.StrategiesAgreeIff | litwindow/server/engines/coin_selection.go:76-114 | two runs on the same wallet agree whatever their strategies if and only if dust does no harm: where the required coins cover together with all coins that pay for their own input, the required coins alone or all coins cover |
| CoinStrategies.LargestSucceedsIff | litwindow/server/engines/coin_selection.go:149-153 | largest-first succeeds exactly when the required coins cover together with all coins that pay for themselves |
| CoinStrategies.SmallestSucceedsIff | litwindow/server/engines/coin_selection.go:154-157 | smallest-first succeeds exactly when the required coins cover alone or together with all coins |
| CoinStrategies.StrategyIndependent | litwindow/server/engines/coin_selection.go:93-114 | when every coin pays for its own input, selection succeeds exactly when all coins together cover |
| CoinStrategies.DustDivides | litwindow/server/engines/coin_selection.go:93-114 | a pool with a dust coin on which the extremes disagree |
| CoinSelection.FailureAccounts | litwindow/server/engines/coin_selection.go:116-142 | available plus frozen is the whole wallet plus the coins that are both frozen and required, so the whole wallet if the two sets are disjoint |
| BlockSyncTicks.SuccessfulTick | litwindow/server/engines/bitcoind_engine.go:97-275 | a successful tick, in full and in numbers: the heights it asked for, in order; the rows it wrote; the rows it kept; no others |
| BlockSyncTicks.OtherFirstBlock | litwindow/server/engines/bitcoind_engine.go:700-727 | when block 1 is gone or another one, a successful tick asks for exactly 1 to the height of the node, and the table then holds exactly the chain |
| BlockSyncTicks.NoOldRowLeft | litwindow/server/engines/bitcoind_engine.go:700-727 | however such a tick ends, no old row is left |
| BlockSyncRuns.OneToTipThroughoutIff | litwindow/server/engines/bitcoind_engine.go:119-271 | in a run the heights are always 1 to the tip if and only if no tick of it rewinds a chain of height 19 |
| BlockSyncRuns.RunEqualsOneScan | litwindow/server/engines/bitcoind_engine.go:97-275 | once a tick of a run on one chain, whose blocks and tips all belong to it, succeeds, the table is the one a single scan produces |
| BlockSyncRuns.RepairIff | litwindow/server/engines/bitcoind_engine.go:143-196 | after success the hashes agree with the chain if and only if those below the resume point did |
| BlockSyncRuns.ReorgRepaired | litwindow/server/engines/bitcoind_engine.go:143-196 | growth, a replacement at the same height of 20 or more above a common block at most 20 below, and another first block are repaired |
| BlockSyncRuns.LowReorgStays | litwindow/server/engines/bitcoind_engine.go:177-188 | below height 19 a replaced tip is left as it is |
| BlockSyncRuns.ReplacedTip | litwindow/server/engines/bitcoind_engine.go:177-188 | for every height from 2 to 19, two ticks that replace the tip: at 19 height 0 is processed, below 19 the second tick succeeds and leaves the stale row |
| BlockSyncRuns.LongerChainKeeps | litwindow/server/engines/bitcoind_engine.go:143-196 | when the node's chain is longer than the table, a successful tick keeps every row, so that the hashes agree with the chain if and only if they already did |
| BlockSyncRuns.ReplacedBelowTip | litwindow/server/engines/bitcoind_engine.go:143-196 | two ticks that replace a block and add one on top: the second succeeds and leaves the stale row |
| BlockSyncRuns.AsksOnce | litwindow/server/engines/bitcoind_engine.go:188-271 | in every tick the requested heights ascend, so that none is asked for twice |
| WithdrawalStatuses.ListingTellsEvents | litwindow/server/api/drivechain/drivechain.go:351-556 | after any calls without a reopened bundle, a successful listing has for every id with events a last row that says what its last event says: succeeded with its number and transaction, failed, or pending exactly if all its events are submissions or unknown |
| WithdrawalRuns.ListingIsFullScan | litwindow/server/api/drivechain/drivechain.go:351-497 | after any calls, a successful listing gives every id the last status, sequence number and transaction of the full scan; its rows are one per id if the last fetch was an incremental one merged into rows, and those of the scan as they come otherwise; they show the same as the scan exactly in the second case or if the scan has one entry per id |
| WithdrawalEvents.AnySplitAgreesIff | litwindow/server/api/drivechain/drivechain.go:559-588 | every split of a stream gives every bundle the last state of one scan if and only if no settled bundle has a pending entry as its last |
| WithdrawalEvents.RedeliveryChangesNothing | litwindow/server/api/drivechain/drivechain.go:425-455 | delivering the boundary block's events again changes the last state of no bundle |
| WithdrawalEvents.RowsAgreeIff | litwindow/server/api/drivechain/drivechain.go:559-588 | a list with one row per id shows the rows of a full scan, each as often, if and only if the scan has one entry per id |
| WithdrawalEvents.RowsDependOnHistory | litwindow/server/api/drivechain/drivechain.go:559-588 | a bundle submitted and then failed has two rows after one full fetch and one row after two fetches |
| OpReturnRaces.StaleEntryExplained | litwindow/server/models/opreturns/opreturns.go:36-159 | a cached list differs from the table only while a write is between commit and invalidation, or if it was stored after the invalidation of a write its query had not seen |
| OpReturnRaces.WithoutOverlapCurrent | litwindow/server/models/opreturns/opreturns.go:36-159 | without overlap of List and Persist every List returns the table's rows |
| OpReturnRaces.CurrentAfterLifetimeIff | litwindow/server/models/opreturns/opreturns.go:104-159 | in every reachable state: however the run goes on without a write, two seconds later every List returns the table's rows, if and only if no List holds rows to store that no longer list the table |
| OpReturnRaces.StaleAtMostTwoSeconds | litwindow/server/models/opreturns/opreturns.go:16-18 | two seconds after a moment when no List holds rows that no longer list the table, and with no write since, every List returns the table's rows |
| OpReturnRaces.SlowListSurfaces | litwindow/server/models/opreturns/opreturns.go:104-159 | a run in which, any time after the only write, a slow List and the next hit return no rows of a table that has one |
| OpReturnRaces.ReturnsAreSnapshots | litwindow/server/models/opreturns/opreturns.go:104-112 | a hit is served less than two seconds after its store; every result was once the table's listing |
| DenialRuns.HopsNeverExceed | litwindow/server/models/deniability/deniability.go:341-373 | in every reachable state a plan has at most its number of distinct recorded hops, and they chain |
| DenialRuns.SendIsSafe | litwindow/server/engines/deniability_engine.go:70-340 | every send is of a plan neither paused nor cancelled when the current tick listed it, at least the delay after creation and each hop, from the plan's tip, within value less fee |
| DenialSends.SendsAccounted | litwindow/server/engines/deniability_engine.go:236-340 | in every run the transactions sent for a plan are its recorded hops, those given up unrecorded and the one under way |
| DenialSends.SendsBounded | litwindow/server/engines/deniability_engine.go:236-340 | a plan sends at most as many transactions as it has hops and transactions given up unrecorded |
| DenialSends.SendsWithinHops | litwindow/server/engines/deniability_engine.go:236-340 | when every transaction is recorded before the engine finishes with it, a plan sends at most as many transactions as it has hops |
| DenialSends.SendsTwice | litwindow/server/engines/deniability_engine.go:294-315 | a run in which a plan of one hop sends twice, because its first transaction does not show up in time |
| DenialTicks.TickWithin | litwindow/server/engines/deniability_engine.go:70-107 | an uninterrupted tick over the plans the cleanup lists keeps every plan within its hops |
| DenialEffects.TickEffect | litwindow/server/engines/deniability_engine.go:70-340 | what a tick leaves of every plan: a due plan whose tip is listed is cancelled if the output is below 10000, otherwise exactly the outputs that showed up are recorded, from the tip; every other plan stays as it was |
| DenialEffects.PauseHolds | litwindow/server/models/deniability/deniability.go:290-325 | once a live plan is paused, and until it is resumed, no tick that begins later sends for it |
| DenialEffects.CancelHolds | litwindow/server/models/deniability/deniability.go:271-288 | once a plan is cancelled, and until it is updated, no tick that begins later sends for it |
| DenialTicks.OverrunIff | litwindow/server/engines/deniability_engine.go:208-234 | a tip listed m times keeps the plan within its hops exactly if m hops were left |
| DenialTicks.ListedTwiceOverruns | litwindow/server/engines/deniability_engine.go:160-165 | a plan of one hop whose output two wallet ids list records two, if both sends go through |
| TargetSizes.RoundTrip | litwindow/server/models/deniability/deniability.go:46-167 | every list of 64-bit integers is read back, the empty one and negative values included |
| TargetSizes.TypedList | litwindow/server/models/deniability/deniability.go:149-167 | blanks around the numbers of a list do not change what is read |
| TargetSizes.ReencodingIsStable | litwindow/server/models/deniability/deniability.go:46-167 | whatever text parses means the same after being stored again |
| ChecksumState.PolymodStep | litwindow/server/engines/descriptor_checksum.go:15-34 | one step of the checksum register, generator by generator |
| ChecksumState.PolymodLinear | litwindow/server/engines/descriptor_checksum.go:15-34 | the step is linear over XOR in state and symbol together |
| ChecksumState.PolymodBelow | litwindow/server/engines/descriptor_checksum.go:15-34 | 40-bit states stay 40-bit states |
| ChecksumState.PolymodKernel | litwindow/server/engines/descriptor_checksum.go:15-34 | only the zero state steps to zero on symbol zero |
| ChecksumState.PolymodInjective | litwindow/server/engines/descriptor_checksum.go:15-34 | the step by symbol zero is injective on 40-bit states |
| ChecksumState.PolymodNoWrap | litwindow/server/engines/descriptor_checksum.go:16-17 | below 35 bits a step only shifts the symbol in |
| ChecksumAnswers.PositionIsPlace | litwindow/server/engines/descriptor_checksum.go:12-12 | the arithmetic that reads a character gives its place in the input charset |
| DescriptorChecksum.ComputeDescriptorChecksum | litwindow/server/engines/descriptor_checksum.go:39-85 | the source's loops compute the specified checksum, or report the first character outside the charset |
| DescriptorChecksum.AddDescriptorChecksum | litwindow/server/engines/descriptor_checksum.go:88-94 | the result is the descriptor, `#` and its checksum, for exactly the descriptors over the charset |
| DescriptorChecksum.Absorb | litwindow/server/engines/descriptor_checksum.go:44-65 | register, class and count after any prefix of the descriptor |
| DescriptorChecksum.RunBelow | litwindow/server/engines/descriptor_checksum.go:52-75 | the register stays below 2^40 over any symbol string |
| DescriptorChecksum.RunLinear | litwindow/server/engines/descriptor_checksum.go:15-34 | whole runs of the register are linear over XOR |
| DescriptorChecksum.RunInjective | litwindow/server/engines/descriptor_checksum.go:15-34 | a common symbol string never merges two different states |
| DescriptorChecksum.ShortRunInjective | litwindow/server/engines/descriptor_checksum.go:15-34 | up to eight different symbols never lead to the same state |
| DescriptorChecksum.ExpandSplit | litwindow/server/engines/descriptor_checksum.go:44-65 | the symbols of a descriptor split at any group boundary |
| DescriptorChecksum.GroupInjective | litwindow/server/engines/descriptor_checksum.go:50-64 | a three-character group is determined by its four symbols |
| DescriptorChecksum.TextInjective | litwindow/server/engines/descriptor_checksum.go:77-83 | different residues are spelled differently |
| Base58Alphabet.DigitIsIndexOf | litwindow/server/engines/utils_engine.go:174-182 | digit values are the positions in the alphabet |
| Base58.Base58Encode | litwindow/server/engines/utils_engine.go:194-224 | repeated division and prepending computes the specified encoding |
| Base58.Base58Decode | litwindow/server/engines/utils_engine.go:159-192 | the letter loop computes the specified decoding, or names the first character outside the alphabet |
| Base58.EncodeInjective | litwindow/server/engines/utils_engine.go:194-224 | different byte strings have different encodings |
| Base58Numbers.DecodesIffSpelled | litwindow/server/engines/utils_engine.go:174-182 | exactly the texts over the 58 signs decode |
| Base58Numbers.EncodeCheckIs | litwindow/server/engines/utils_engine.go:141-157 | what is encoded is the version byte, the data and four bytes of the hash of both |
| Base58Numbers.DecodeCheckIs | litwindow/server/engines/utils_engine.go:108-139 | decoded bytes are taken apart in that order, from five on |
| Base58Numbers.KnownText | litwindow/server/engines/utils_engine.go:194-224 | 0000287fb4cd in hexadecimal is 11233QC4 |
| Hex.DecodeHex | litwindow/server/cpuminer/util.go:27-49 | decoded bytes go to the front of the buffer, or one of the four errors is returned and the buffer is untouched |
| Hex.DecodeEncoded | litwindow/server/cpuminer/util.go:27-49 | hex text of any bytes decodes to them, unless they are empty or do not fit |
| Hex.HexDigits | litwindow/server/api/m4/m4.go:232-232 | two lower-case digits a byte, the high one first |
| Hex.NibbleIs | litwindow/server/cpuminer/util.go:27-49 | exactly the digits and the letters a to f in either case are read, as their values |
| LittleEndian.VarintEncode | litwindow/server/cpuminer/util.go:52-77 | the bytes written are the variable-length integer |
| LittleEndian.VarIntRoundTrip | litwindow/server/cpuminer/util.go:52-77 | every 64-bit integer is read back and what follows is untouched |
| LittleEndian.VarIntBytes | litwindow/server/cpuminer/util.go:52-77 | the bytes of each of the four widths, low byte first |
| Merkle.PairRow | litwindow/server/cpuminer/miner.go:393-396 | a row is overwritten by the next one without losing an unread child |
| Merkle.BlockMerkleRoot | litwindow/server/cpuminer/miner.go:332-397 | the root over coinbase hash and transaction ids |
| Merkle.WitnessCommitment | litwindow/server/cpuminer/miner.go:228-275 | the commitment is the hash of the witness root and 32 zero bytes |
| Merkle.CalculateMerkleTree | litwindow/server/engines/utils_engine.go:272-345 | root and levels in hex over the decoded ids; an error for no ids or the first id that is no hex |
| Merkle.NodeShift | litwindow/server/engines/utils_engine.go:295-321 | the tree over the second level is the upper part of the tree over the leaves |
| Merkle.BuildLevels | litwindow/server/engines/utils_engine.go:295-321 | all levels in order, the last one the root alone |
| Coinbase.BuildCoinbase | litwindow/server/cpuminer/miner.go:170-281 | writing at a moving offset yields the specified transaction bytes for every 64-bit height from 0 on; a negative height runs off the buffer |
| Coinbase.ScriptNumDecodes | litwindow/server/cpuminer/miner.go:189-198 | the height loop writes a minimal script number that decodes to the height |
| Coinbase.TransactionParts | litwindow/server/cpuminer/miner.go:170-281 | script length byte, script and tail sit where the parser looks for them |
| CoinbaseReader.HeightsKnown | litwindow/server/cpuminer/miner.go:182-200 | the script bytes of heights at the edges of the encoding |
| Coinbase.SpliceSignature | litwindow/server/cpuminer/miner.go:303-335 | the copy into a larger buffer yields the specified spliced bytes |
| Coinbase.SpliceFrame | litwindow/server/cpuminer/miner.go:303-335 | bytes before the script length, old script and tail are unchanged; byte 41 is the new length exactly if that fits a byte |
| CoinbaseReader.SpliceIs | litwindow/server/cpuminer/miner.go:303-335 | for every length the signature goes between script and tail, behind one, two or no push bytes, and the script length is the new one modulo 256 |
| Coinbase.GatherSignature | litwindow/server/cpuminer/miner.go:284-302 | signature and auxiliary data are gathered in order, with the source's errors |
| Coinbase.SignatureBounds | litwindow/server/cpuminer/miner.go:284-302 | auxiliary data never displaces the signature nor pushes it over 100 bytes |
| CoinbaseReader.SignatureTakes | litwindow/server/cpuminer/miner.go:284-302 | a value of 1 to 100 bytes is appended if it still fits 100 and skipped otherwise; a longer one or no hex text is an error |
| Coinbase.PutScriptNum | litwindow/server/cpuminer/miner.go:185-198 | the height loop writes the script number, or runs off the buffer exactly for a negative height |
| M4Messages.ParseM4Bytes | litwindow/server/models/m4/parser.go:12-124 | the parser computes the specified message or error |
| M4Messages.VoteSlots | litwindow/server/models/m4/parser.go:70-124 | vote i is for slot i modulo 256 |
| M4Messages.Version01Iff | litwindow/server/models/m4/parser.go:70-94 | exactly the header, the version and one byte a vote, 255 for abstain and 254 for alarm, parse to given votes of version 1 |
| M4Messages.Version02Iff | litwindow/server/models/m4/parser.go:96-124 | exactly the header, the version and two bytes a vote, the low one first, 65535 for abstain and 65534 for alarm, parse to given votes of version 2 |
| M4Messages.ReadableIff | litwindow/server/models/m4/parser.go:12-68 | which scripts parse and which error the others give |
| M4Messages.ParseM3Bytes | litwindow/server/models/m4/parser.go:168-204 | the in-place reversal yields the display hash of the proposal |
| M4Messages.M3Injective | litwindow/server/models/m4/parser.go:168-204 | a proposal script is determined by the slot and hash it parses to |
| M4Messages.ProposalBytes | litwindow/server/models/m4/parser.go:168-204 | the bytes of a proposal are the header, the hash and the slot; the hash is shown backwards in lower-case hex |
| Scdb.M4Engine.ApplyM4Votes | litwindow/server/engines/m4_engine.go:367-418 | the votes are applied in order, each as its statement says |
| Scdb.M4Engine.ProcessBlock | litwindow/server/engines/m4_engine.go:24-87 | proposals, then the votes of the first commitment, then ageing |
| ScdbScores.VoteInNumbers | litwindow/server/engines/m4_engine.go:367-418 | one vote in numbers: which row it selects and what becomes of every field of every row |
| ScdbScores.BlockInNumbers | litwindow/server/engines/m4_engine.go:333-469 | one block in numbers: proposals, votes and ageing |
| ScdbScores.OpenedIs | litwindow/server/engines/m4_engine.go:333-350 | a new proposal is a pending row with score 1 and 26300 blocks left; known ones are ignored |
| ScdbScores.VotesOfFirst | litwindow/server/engines/m4_engine.go:24-87 | the votes are those of the first M4 commitment of the block |
| ScdbScores.AgedInNumbers | litwindow/server/engines/m4_engine.go:421-469 | countdown, approval from 13150 on and failure at 0 |
| ScdbRuns.VotesForBound | litwindow/server/models/m4/parser.go:70-124 | a vector holds one vote for a slot per 256 entries begun |
| ScdbRuns.BlockEffect | litwindow/server/engines/m4_engine.go:333-469 | what one block does to every row, to the invariant and to the scores above 1 |
| ScdbRuns.RunInv | litwindow/server/engines/m4_engine.go:421-469 | after every call pending bundles have at least one block left and a score below the mark |
| M4Generate.GenerateM4Bytes | litwindow/server/api/m4/m4.go:128-239 | grouping and the slot loop produce the specified bytes in hex |
| M4Generate.ValueCarriesIntent | litwindow/server/api/m4/m4.go:183-225 | the word written for a slot parses to what the preference means |
| M4Generate.ListingUnique | litwindow/server/engines/m4_engine.go:374-383 | with distinct first-seen heights the upvote counts bundles as the generator does |
| CoinSelection.SelectCoins | litwindow/server/engines/coin_selection.go:39-143 | the result is the shortest covering prefix behind the required coins of an arrangement the strategy allows, or a report that none covers; on success inputs equal target, fee and a change that is not negative |
| CoinSelection.SortByStrategy | litwindow/server/engines/coin_selection.go:147-164 | the pool is permuted into the strategy's order |
| CoinSelection.PrefixIsGreatest | litwindow/server/engines/coin_selection.go:149-153 | no choice of k coins is worth more than the k first of the largest-first order |
| CoinSelection.PartsAddUp | litwindow/server/engines/coin_selection.go:56-64 | required, available and frozen coins make up the wallet |
| CoinStrategies.BetweenExtremes | litwindow/server/engines/coin_selection.go:93-114 | smallest-first is the last arrangement to succeed, largest-first the first |
| CoinStrategies.ArrangementsAgreeIff | litwindow/server/engines/coin_selection.go:93-114 | the same for every permutation of the unfrozen coins |
| CoinStrategies.SuccessIsSucceeds | litwindow/server/engines/coin_selection.go:93-114 | a result is a success exactly when some prefix of its arrangement covers |
| BlockSync.Parser.HandleBlockTick | litwindow/server/engines/bitcoind_engine.go:97-275 | a tick changes the table, returns and asks for blocks as the specified step does |
| BlockSync.Parser.ScanFrom | litwindow/server/engines/bitcoind_engine.go:188-271 | the batch loop terminates and does what the specified batches do |
| BlockSync.Parser.FetchBatch | litwindow/server/engines/bitcoind_engine.go:195-249 | all blocks of a batch or none, in any order |
| BlockSync.Parser.EnsureSyncIsHealthy | litwindow/server/engines/bitcoind_engine.go:700-727 | the table is wiped exactly when block 1 is gone or differs |
| BlockSyncTicks.QuietTicks | litwindow/server/engines/bitcoind_engine.go:97-141 | ticks that do not scan ask for nothing, and wipe only what has to be wiped |
| BlockSyncTicks.FailedScan | litwindow/server/engines/bitcoind_engine.go:188-249 | a scan that cannot fetch a block keeps exactly the whole batches of thirty before it |
| BlockSyncTicks.GoalScan | litwindow/server/engines/bitcoind_engine.go:188-271 | a scan with a sync goal writes and asks for the heights up to it, and reports it |
| BlockSync.Parser.GetProcessedTip | litwindow/server/models/blocks/processed_blocks.go:16-46 | the greatest processed height with its hash |
| BlockSync.Parser.MarkBlocksProcessed | litwindow/server/models/blocks/processed_blocks.go:49-97 | upserting the rows in any order writes the range over the table |
| BlockSyncRuns.BatchesTable | litwindow/server/engines/bitcoind_engine.go:188-271 | committed batches write one gapless range |
| BlockSyncRuns.BatchesRequest | litwindow/server/engines/bitcoind_engine.go:188-271 | a finished scan has asked for every height of its range once and written them all |
| BlockSyncRuns.TickKeepsGapless | litwindow/server/engines/bitcoind_engine.go:119-271 | failed batches, wipes, rewinds and sync goals never leave a gap |
| BlockSyncRuns.ZeroAppearsIff | litwindow/server/engines/bitcoind_engine.go:177-188 | height 0 is processed exactly when it was kept or the tick rewinds a chain of height 19 |
| BlockSyncRuns.SuccessReachesTip | litwindow/server/engines/bitcoind_engine.go:119-275 | a successful tick that scanned ends with the tip at the node's height |
| WithdrawalEvents.FoldIsScan | litwindow/server/api/drivechain/drivechain.go:559-588 | a bundle that does not end reopened gets the last state one full scan gives it |
| WithdrawalStatuses.FoldKeepsHeight | litwindow/server/api/drivechain/drivechain.go:559-588 | a merge keeps the height a bundle was first known at |
| WithdrawalStatuses.AgeInNumbers | litwindow/server/api/drivechain/drivechain.go:591-618 | ages in numbers |
| WithdrawalCache.ProcessPegDataBlocks | litwindow/server/api/drivechain/drivechain.go:504-556 | new bundle objects carry the entries of the events in order |
| WithdrawalCache.MergeBundles | litwindow/server/api/drivechain/drivechain.go:559-588 | an empty cache takes the new list as it is; otherwise the result has exactly one row per id, in the state of the specified merge, with known objects settled in place |
| WithdrawalCache.UpdateBundleAges | litwindow/server/api/drivechain/drivechain.go:591-618 | ages are computed on copies and no cached bundle changes |
| WithdrawalCache.WithdrawalServer.ListWithdrawals | litwindow/server/api/drivechain/drivechain.go:351-497 | a hit returns the cached rows, a full fetch the entries of the events one row each, an incremental fetch one row per id; failures change nothing |
| WithdrawalRuns.ListKeepsSound | litwindow/server/api/drivechain/drivechain.go:351-497 | one call keeps the last state of every bundle that of a full scan and brings the cache to the tip |
| OpReturnCache.OpReturns.List | litwindow/server/models/opreturns/opreturns.go:104-159 | alone, List returns the table's newest rows and keeps every cached list current |
| OpReturnCache.OpReturns.Persist | litwindow/server/models/opreturns/opreturns.go:43-86 | the values are upserted and the cache is dropped |
| OpReturnCache.UpsertTakes | litwindow/server/models/opreturns/opreturns.go:70-76 | the last value for a key is found afterwards; the creation time of an existing row stays |
| OpReturnCache.UpsertCreates | litwindow/server/models/opreturns/opreturns.go:43-86 | the first value for a new key creates its row, at its own time or now |
| OpReturnCache.UpsertRest | litwindow/server/models/opreturns/opreturns.go:70-76 | rows under other keys are left alone |
| OpReturnRaces.StepKeepsInv | litwindow/server/models/opreturns/opreturns.go:36-159 | every interleaved step keeps the explanation of every cached list |
| DenialPlans.DueIff | litwindow/server/models/deniability/deniability.go:327-373 | a plan is due exactly when it is live, unpaused, has hops left and its delay has passed since creation and every recorded hop |
| DenialPlans.DenialStore.List | litwindow/server/models/deniability/deniability.go:170-230 | every plan once, with tip, records and next execution |
| DenialPlans.DenialStore.Pause | litwindow/server/models/deniability/deniability.go:290-306 | exactly a plan that is neither paused nor cancelled becomes paused |
| DenialPlans.DenialStore.Resume | litwindow/server/models/deniability/deniability.go:308-325 | exactly a paused plan becomes unpaused |
| DenialPlans.DenialStore.Cancel | litwindow/server/models/deniability/deniability.go:271-288 | exactly the plan with this id becomes cancelled |
| DenialPlans.DenialStore.Update | litwindow/server/models/deniability/deniability.go:424-435 | the hops are added, delay and first output replaced, the cancellation taken back; other plans stay |
| DenialEffects.StatementsUndo | litwindow/server/models/deniability/deniability.go:271-325 | pausing and resuming a live plan, or cancelling it and updating it with no more hops, changes nothing in the end |
| DenialEngine.AmountWithinValue | litwindow/server/engines/deniability_engine.go:489-604 | the amount sent never exceeds the output's value less the fee |
| DenialEngine.AmountIs | litwindow/server/engines/deniability_engine.go:489-604 | a hop with a target size sends it, or what is left after 10000 if that is less; any other sends the drawn percentage of what is left, rounded down |
| DenialEngine.DeniabilityEngine.CleanupDenials | litwindow/server/engines/deniability_engine.go:109-171 | plans whose wallet answers without their tip are cancelled, then the live ones are listed |
| DenialEngine.CancelGoneIff | litwindow/server/engines/deniability_engine.go:173-206 | a plan is cancelled exactly when it was, or its wallet was listed without its tip; nothing else changes |
| DenialEngine.DeniabilityEngine.ProcessUtxo | litwindow/server/engines/deniability_engine.go:236-340 | too small an output cancels the plan; a sent and seen transaction is recorded |
| DenialEngine.DeniabilityEngine.CheckDenials | litwindow/server/engines/deniability_engine.go:70-107 | exactly the due plans are executed, in order |
| DenialEngine.MatchingAtMostOne | litwindow/server/engines/deniability_engine.go:208-217 | with each outpoint listed once a plan's tip is found at most once |
| DenialRuns.StepKeepsInv | litwindow/server/engines/deniability_engine.go:70-340 | every step of engine or user keeps hops, chaining and the tick's queue consistent |
| DenialTicks.ListingPending | litwindow/server/models/deniability/deniability.go:170-230 | every listed plan is queued with its current records and due time |
| TargetSizes.EncodeTargetSizes | litwindow/server/models/deniability/deniability.go:46-56 | the loop computes the specified text |
| TargetSizes.ParseTargetUtxoSizes | litwindow/server/models/deniability/deniability.go:149-167 | the loop computes the specified list, or the first part that is no number |
| TargetSizes.ParseFormat | litwindow/server/models/deniability/deniability.go:52-52 | every 64-bit integer is read back from its decimal text |
| TargetSizes.ParsesSigned | litwindow/server/models/deniability/deniability.go:149-167 | either sign is read, and numbers beyond 64 bits are refused |
| TargetSizes.RefusesOthers | litwindow/server/models/deniability/deniability.go:149-167 | a sign with no digits behind it, or with anything else, is refused |
| TargetSizes.KnownNumbers | litwindow/server/models/deniability/deniability.go:46-56 | 0, 7 and -120 in decimal |
| TargetSizes.JoinedText | litwindow/server/models/deniability/deniability.go:46-56 | sizes are joined by single commas |
| TargetSizes.SplitJoin | litwindow/server/models/deniability/deniability.go:54-153 | splitting at commas inverts joining |

## Left out

- Coinbase.BuildCoinbase: the payout script is at most 67 bytes, the length of the longest script PayToAddrScript returns (a push of an uncompressed key); address decoding is not part of this model.
- BlockSync.Parser.HandleBlockTick: the node's height is required to be below 2^32 - 30, so that the uint32 batch counter does not wrap; node heights are signed 32-bit numbers.
- BlockSync.Parser.ScanFrom: the same bound on the height it scans to.
- CoinSelection.SelectCoins: amounts are unbounded integers; int64 overflow of sums and fees is not modelled.
- WithdrawalCache.WithdrawalServer.ListWithdrawals: one sidechain and one call at a time; the lock over the caches and calls that mutate shared bundles concurrently are not modelled.
- WithdrawalRuns.ListingIsFullScan: compares ids, status, sequence number and transaction; block heights and ages may differ between incremental and full reading.
- DenialPlans.DenialStore.List: the order by updated_at, a column that mixes two time formats, is left open.
- DenialRuns.SendIsSafe: transactions sent through Litecoin Core name only destinations, so that the wallet may spend other outputs than the tip; the record still names the tip.
- DenialRuns.HopsNeverExceed: each outpoint is listed once and a sent transaction id is new; what happens when an outpoint is listed more often is stated by OverrunIff.
- Scdb.M4Engine.ApplyM4Votes: assumes an SQLite build that accepts UPDATE with ORDER BY and LIMIT.
- Scdb.M4Engine.ProcessBlock: the tables of raw M3 and M4 messages, the columns updated_at and max_age, and repeated processing of the same block, which counts as another call.
- `EncodeVotePreferences`, which nothing calls.
- M4 versions 0 and 3 are parsed to no votes, as the source does; their meaning is not modelled.
- Merkle.CalculateMerkleTree: RCB levels and text formatting are left out.
- M4Generate.GenerateM4Bytes: the human-readable interpretation is left out.
- `submitCoinbase`, the coinbasetxn template form (the source panics on it), transaction hex assembly, and target decoding of block templates.
- Address types, paper wallets, BIP 21 URIs.
- OP_RETURN text rendering; row ids of the OP_RETURN table; storing data as hex text.
- GetByTip, which decides between creating and updating a plan; both are covered for any plan.
- RPC servers and clients, ZMQ, logging, process management, JSON backup, hash-rate statistics.
