# Equium: the solver, the on-chain rounds and the miner's race, verified

Equium is a proof-of-work token. Miners look for Equihash solutions bound to the current challenge, their own
key and the block height; an on-chain program checks a solution and its difficulty, pays the scheduled reward out
of a vault, and opens the next round. This project models the parts of that system where most can go wrong, in
Dafny, and proves what they do.

Four parts, from the bottom up:

* **The Wagner search.** `Equihash` states what a solution is, twice: by the windows of section 7.7.1 of the Zcash
  Protocol Specification, and as a binary tree; the two are proved equal. `Pairs`, `Levels` and `Generations` state
  what a round must do and that k rounds enumerate all index trees, each once. `CountingSort`, `KeySort`, `Storage`
  and `FastRounds` prove the production round (counting sort, pairing inside buckets, flat buffers written in place)
  against that. `ReferenceRounds` does the same for the sort-based round, `GpuKernel` and `GpuSearch` for the CUDA
  kernel with its cap of 131072 rows. `Packing`, `Leaves`, `DistinctCheck` and `Solver` complete the search for one
  nonce: a solution is returned exactly when one exists.
* **Targets and schedule.** `Target` proves the five-limb multiply and divide. `Schedule` sums the halving rewards
  exactly, `Retarget` turns the branches of the retarget into one clamped formula.
* **The on-chain program.** `ProgramState`, `Rounds` and `Instructions` are the handlers, writing a copy of the
  configuration field by field; `Transactions` keeps the copies of a handler that succeeds and drops those of one that
  fails. `ScheduleKept`, `Runs`, `Guarantees` and `Drift` prove what holds in every reachable state and between any two
  states of a run; `Chronicle` tells the configuration back from the rounds that were closed, and `Launch` whole runs from
  their two opening transactions. `EndToEnd` joins search and program: what the solver finds, the program pays.
* **The miner's race.** `Race` is a state machine whose steps are the accesses of each thread to shared memory.
  `RaceResults` proves over all interleavings and any number of workers what the race returns, that no run is
  infinite, and exactly when it gets stuck.

Conventions. BLAKE2b, SHA-256 and the upstream Equihash verifier are function parameters about which nothing is
assumed, except that the verifier unpacks the fields and checks section 7.7.1 (`Solver.IsUpstream`,
`EndToEnd.SameVerifier`). Rows are values; where the source keeps rows in flat vectors or device buffers, the classes
`Storage.RowBuffer` and `GpuKernel.Slab` hold those vectors together with the rows they stand for. Handlers are
methods on an object with one field per configuration field; each is proved equal to a function of the old
configuration, and the results about runs are proved of that function. A history (`Runs.History`) adds counters that
the program itself does not keep.

Where the code and what is said about it differ, the code is followed:

* The comment above the final scan says that merge-time checks do not make a whole row distinct. They do
  (`Solver.ZeroRowPasses`); the scan never rejects a row.
* The early overflow guard in the scaling function can never fire (`Target.ScaleTargetLimbs`); saturation happens at
  the later check of the top quotient limb.
* A positive target can become zero, and a zero target stays (`Retarget.NextTargetZero`, `Drift.ZeroTargetStays`).
* The supply cap, the overflow check and the transfer in `mine` can never refuse in a reachable state
  (`Guarantees.MineAcceptedIff`).
* The race's counter is not the number of nonces tried (`RaceResults.ReturnedCount`), and the race can wait for ever
  (`RaceResults.StuckIff`).

## Model

| member | source | states |
|---|---|---|
| `Solver.TryNonce96_5` | crates/equihash-core/src/solver.rs:139-202 | For every digest function the fast search returns a solution if and only if the puzzle has one, and the bytes returned are the packing of a solution in the sense of section 7.7.1 |
| `Solver.TryNonceGeneric` | crates/equihash-core/src/solver.rs:480-519 | The same statement for the allocation-heavy generic search |
| `Solver.TryNonce` | crates/equihash-core/src/solver.rs:83-89 | Whichever path the parameters select, a solution comes back exactly when there is one |
| `Solver.Solve` | crates/equihash-core/src/solver.rs:97-115 | Parameters are refused exactly when `BaseState::new` refuses them; otherwise the first solvable nonce offered is solved, and "no solution" means that none offered was solvable |
| `Solver.FastLevel` | crates/equihash-core/src/solver.rs:158-177 | After r rounds the fast path holds every depth-r index tree exactly once, each with its trimmed XOR, and nothing else |
| `Solver.GenericLevel` | crates/equihash-core/src/solver.rs:497-503 | The same level invariant for the generic path |
| `Solver.PathsAgree` | crates/equihash-core/src/solver.rs:83-89 | Round for round both paths hold the same multiset of rows |
| `Solver.ZeroRowPasses` | crates/equihash-core/src/solver.rs:183-195 | A final row with zero hash is a solution: it always passes the distinctness scan and the verifier. This is more than the comment beside the scan claims |
| `Solver.ScanFinal` | crates/equihash-core/src/solver.rs:187-201 | The final scan answers with the packing of the first row whose remaining hash is zero, and with nothing exactly when there is no such row |
| `Solver.FiveRounds` | crates/equihash-core/src/solver.rs:158-177 | Five rounds on two alternating buffers end in the fifth generation, or stop early only when nothing is left |
| `Solver.RunGenericRounds` | crates/equihash-core/src/solver.rs:497-503 | The generic rounds end with all depth-k trees, or empty only when there is no solution |
| `Solver.AcceptedIffSolution` | crates/equihash-core/src/solver.rs:197-199 | A packed index list is accepted by the upstream verifier exactly when it is a solution |
| `Equihash.TreeIffWindows` | crates/equihash-core/src/solver.rs:294-333 | The trees that pairwise merging builds are the lists whose aligned windows satisfy section 7.7.1: distinct, colliding, left-first |
| `Equihash.SolutionIffTree` | crates/equihash-core/src/solver.rs:183-200 | A solution is a depth-k tree whose XOR is zero |
| `Equihash.TreeIndices` | crates/equihash-core/src/solver.rs:183-195 | The indices of a tree are distinct, in range and begin with their minimum, so merge-time checks already make whole rows distinct |
| `Levels.LevelStep` | crates/equihash-core/src/solver.rs:249-334 | One round takes all depth-r trees, each once, to all depth-(r+1) trees, each once |
| `Levels.LeafLevel` | crates/equihash-core/src/solver.rs:206-239 | The leaves are exactly the depth-0 trees |
| `Levels.JoinIffTree` | crates/equihash-core/src/solver.rs:300-331 | Two rows are merged exactly when their index lists, smaller first index first, form a tree one level up |
| `Levels.MergedHash` | crates/equihash-core/src/solver.rs:313-320 | XOR and trim leave the next row with the XOR of its leaves less the bytes already known to be zero |
| `Levels.ZeroRowIffSolution` | crates/equihash-core/src/solver.rs:187-191 | A row of the last level has a zero hash exactly when it is a solution |
| `Levels.SolutionsAreZeroRows` | crates/equihash-core/src/solver.rs:187-201 | Every solution is one of the zero rows of the last level |
| `Pairs.AllMergesPermuted` | crates/equihash-core/src/solver.rs:293-333 | The merges of a list of rows do not depend on its order, as a multiset |
| `Pairs.AllMergesNoRepeats` | crates/equihash-core/src/solver.rs:300-331 | Rows with different index lists never produce the same index list twice |
| `PairLoops.AllPairsPermuted` | crates/equihash-core/src/solver.rs:300-331 | Combining every pair of a list gives the same multiset for every order of the list, for a symmetric combination |
| `PairLoops.AllPairsConcat` | crates/equihash-core/src/solver.rs:294-302 | When nothing combines across a cut, the pairs of the whole are the pairs of the two parts |
| `Bytes.CollisionExtendsZeros` | crates/equihash-core/src/solver.rs:313-320 | Colliding on the next bits extends the zero prefix of the XOR by those bits |
| `CountingSort.SortIds` | crates/equihash-core/src/solver.rs:267-289 | Histogram, prefix sum and placement: afterwards each bucket slice lists exactly the row ids with its key, in increasing order, with every index in range |
| `CountingSort.Histogram` | crates/equihash-core/src/solver.rs:268-273 | Each cell counts the rows with the key before it |
| `CountingSort.PrefixSum` | crates/equihash-core/src/solver.rs:275-277 | Each cell becomes the number of rows with a smaller key |
| `CountingSort.Place` | crates/equihash-core/src/solver.rs:279-289 | Every row id is placed in its bucket after the earlier ids with the same key |
| `CountingSort.SortedIsPermutation` | crates/equihash-core/src/solver.rs:281-289 | Every row id stands at some position of the placed ids, within the slice of its key |
| `CountingSort.KeyIsShiftOr` | crates/equihash-core/src/solver.rs:271 | The key is the source's shift-and-or of the two leading bytes |
| `CountingSort.KeyIffSameLead` | crates/equihash-core/src/solver.rs:285 | Equal keys are exactly colliding on the first 16 bits |
| `FastRounds.WagnerRound` | crates/equihash-core/src/solver.rs:249-334 | The round on flat buffers stores exactly the merges of all pairs of rows in key order: every merge, each once, in the order of the loops |
| `FastRounds.MergeBuckets` | crates/equihash-core/src/solver.rs:294-333 | The bucket loop yields the merges of all pairs although it looks only inside buckets |
| `FastRounds.MergeBucket` | crates/equihash-core/src/solver.rs:300-332 | The two loops over one bucket append the merges of its pairs |
| `FastRounds.MergeInto` | crates/equihash-core/src/solver.rs:303-330 | One pair is appended when it has no index in common, else nothing is |
| `KeySort.FastRoundIsRound` | crates/equihash-core/src/solver.rs:267-333 | Sorting by key first does not change which merges a round yields |
| `KeySort.SortedSlice` | crates/equihash-core/src/solver.rs:295-296 | The slice between two bucket starts holds the rows with that key, in their original order |
| `Storage.RowBuffer.Push` | crates/equihash-core/src/solver.rs:321-330 | The flat hash and index vectors hold one more row and every earlier row unchanged |
| `Storage.RowBuffer.Get` | crates/equihash-core/src/solver.rs:301-305 | Reads back the hash and index slice of one row |
| `Storage.XorTrim` | crates/equihash-core/src/solver.rs:315-320 | The fixed-size buffer receives the XOR of two rows without its first two bytes, zero-padded |
| `Storage.DistinctIndices` | crates/equihash-core/src/solver.rs:340-349 | Decides whether two index lists share no index |
| `ReferenceRounds.GenericRound` | crates/equihash-core/src/solver.rs:426-460 | The sort-based round yields the merges of all pairs of rows in hash order |
| `ReferenceRounds.FastRefinesReference` | crates/equihash-core/src/solver.rs:249-334 | From rows that are equal as multisets, the fast and the sort-based round yield equal multisets |
| `ReferenceRounds.FirstCbitsEq` | crates/equihash-core/src/solver.rs:386-397 | Decides whether two hashes agree on their first bits |
| `ReferenceRounds.RunEnd` | crates/equihash-core/src/solver.rs:434-437 | Finds the whole run of rows that collide with the one it starts at |
| `ReferenceRounds.LeadBetween` | crates/equihash-core/src/solver.rs:429-437 | In hash order, rows between two colliding rows collide with both, so runs are contiguous |
| `Generations.GenerationLevel` | crates/equihash-core/src/solver.rs:158-177 | Any round that yields the merges of all pairs keeps the level invariant, generation by generation |
| `Generations.GenerationsAgree` | crates/equihash-core/src/solver.rs:158-177 | Two such rounds hold the same multisets in every generation |
| `Leaves.GenerateLeaves96_5` | crates/equihash-core/src/solver.rs:206-239 | The batched generator emits exactly 131072 rows, row i carrying index i and the bytes of the per-index generator, although the last digest is cut short |
| `Leaves.AcceptedParamsIff` | crates/equihash-core/src/solver.rs:66-68 | Parameters are accepted exactly when 0 < k < n, 8 divides n and k + 1 divides n |
| `Leaves.SlotByte` | crates/equihash-core/src/solver.rs:376-384 | Each byte of a leaf by its place in the digest it is cut from |
| `Leaves.SlotIsLeaf` | crates/equihash-core/src/solver.rs:376-384 | A slot of a batched digest is the leaf the per-index generator gives for its index |
| `DistinctCheck.GloballyDistinct` | crates/equihash-core/src/solver.rs:353-363 | Sorting and comparing neighbours decides pairwise distinctness |
| `DistinctCheck.NeighboursDecide` | crates/equihash-core/src/solver.rs:357-361 | A sorted rearrangement has equal neighbours exactly when the list repeats an element |
| `DistinctCheck.InsertionSort` | crates/equihash-gpu/src/kernel.cu:199-212 | The in-place insertion sort leaves the array ascending and a rearrangement of what it was |
| `Packing.CompressIndices` | crates/equihash-core/src/solver.rs:462-478 | Each index is written as its own big-endian field, the length is the total rounded up to bytes, and padding bits are zero |
| `Packing.CompressIndices96_5` | crates/equihash-gpu/src/cuda_impl.rs:146-161 | The GPU client's copy writes the same fields for 32 indices of 17 bits |
| `Packing.UnpackPacked` | crates/equihash-core/src/solver.rs:462-478 | A bit-field reader recovers every packed index |
| `Packing.PackingInjective` | crates/equihash-core/src/solver.rs:462-478 | Different index lists never pack to the same bytes |
| `Packing.PackedUnique` | crates/equihash-core/src/solver.rs:462-478 | The fields determine the bytes, so the two packers agree |
| `GpuKernel.WagnerRound` | crates/equihash-gpu/src/kernel.cu:224-300 | From the same rows the kernel stores exactly the first 131072 rows of the CPU round, or all of them when there are fewer, and never writes past its buffers |
| `GpuKernel.MergeBuckets` | crates/equihash-gpu/src/kernel.cu:261-299 | Stopping inside the nested loops leaves the same prefix of rows that the complete loops would begin with |
| `GpuKernel.Slab.Write` | crates/equihash-gpu/src/kernel.cu:273-294 | Writing row n of the flat buffers leaves rows below n as they were |
| `GpuSearch.SolveOneNonce` | crates/equihash-gpu/src/kernel.cu:305-385 | The kernel raises its flag exactly when its capped generations end in a zero row, and then reports the first one |
| `GpuSearch.CappedSound` | crates/equihash-gpu/src/kernel.cu:356-368 | Capped rounds hold only valid trees, each at most once |
| `GpuSearch.GpuSubset` | crates/equihash-gpu/src/kernel.cu:356-368 | In every round the GPU's trees are among the CPU's |
| `GpuSearch.CappedSameIffFits` | crates/equihash-gpu/src/kernel.cu:294-295 | The capped and the uncapped generations are equal up to a round exactly when no round before it exceeds the cap |
| `GpuSearch.CappedFlagIsSolution` | crates/equihash-gpu/src/kernel.cu:370-384 | Whatever the kernel flags is a solution |
| `GpuSearch.UncappedFlagsAll` | crates/equihash-gpu/src/kernel.cu:370-384 | When no round reaches the cap, a solvable nonce is flagged |
| `GpuSearch.FlaggedIffSolvable` | crates/equihash-gpu/src/kernel.cu:305-385 | Under that condition the flag is raised exactly for solvable nonces |
| `GpuSearch.GenerateLeaves` | crates/equihash-gpu/src/kernel.cu:330-348 | The kernel's leaves are the CPU's leaves |
| `GpuSearch.CheckCandidate` | crates/equihash-gpu/src/cuda_impl.rs:99-116 | The verifier never rejects a candidate the kernel flagged |
| `GpuSearch.RunBatch` | crates/equihash-gpu/src/cuda_impl.rs:61-118 | Oversized batches and launch failures are reported as errors; otherwise the results are the flagged nonces, in order, with solutions of their puzzles |
| `Target.HashUnderTarget` | crates/equihash-core/src/target.rs:8-18 | The early-exit byte loop decides the 256-bit comparison |
| `Target.ScaleTargetLimbs` | crates/equihash-core/src/target.rs:26-90 | Equals min(2^256-1, floor(old*num/den)) for every target, ratio and positive divisor; no intermediate overflows and the guard before the division never fires |
| `Target.MultiplyLimbs` | crates/equihash-core/src/target.rs:41-57 | The five accumulator limbs have the value of the product |
| `Target.PropagateCarries` | crates/equihash-core/src/target.rs:59-64 | Carrying keeps the value and leaves every limb below 2^64 |
| `Target.DivideLimbs` | crates/equihash-core/src/target.rs:71-78 | Long division by limbs is division; no quotient limb is cut short |
| `Target.ScaleTargetValue` | crates/equihash-core/src/target.rs:26-90 | The scaled target's number is the saturated quotient |
| `Target.ScaleNearlyUndone` | crates/equihash-core/src/target.rs:123-129 | Scaling back by the inverse ratio never exceeds the original, falls short by at most ceil((d-1)/n), and is exact for d = 1 |
| `Target.ScaledMonotone` | crates/equihash-core/src/target.rs:26-90 | Scaling is monotone in the target and in the numerator |
| `Schedule.ShiftRightDivides` | programs/equium/src/schedule.rs:20 | Shifting right e times is dividing by 2^e |
| `Schedule.EpochRewardEnds` | programs/equium/src/schedule.rs:15-21 | The reward is positive through the 25th epoch and zero afterwards, so the cut-off at 64 halvings changes nothing |
| `Schedule.RewardAdvances` | programs/equium/src/schedule.rs:15-27 | One block on, the reward is halved at a boundary and unchanged elsewhere |
| `Schedule.RewardEnds` | programs/equium/src/schedule.rs:12-21 | There is a reward exactly below height 9,450,000 |
| `Schedule.HalvingSumExact` | programs/equium/src/schedule.rs:15-21 | e halvings of n add up to 2n less what is left and less one for every bit shifted out |
| `Schedule.RewardsAreBounded` | programs/equium/src/state.rs:17-29 | No height ever owes more than 378000*(2*25000000-12) = 18.9 million tokens less 4.536; height 9,450,000 owes exactly that |
| `Retarget.NextTargetValue` | programs/equium/src/schedule.rs:38-67 | The four branches are min(2^256-1, floor(old*clamp(actual,1800,7200)/3600)) for every elapsed time, saturating products included |
| `Retarget.NextTargetMonotone` | programs/equium/src/schedule.rs:38-67 | A longer window or an easier old target never gives a harder new one |
| `Retarget.LongerWindowAcceptsMore` | programs/equium/src/schedule.rs:47-49 | A hash accepted after a short window is accepted after any longer one |
| `Retarget.NextTargetBounds` | programs/equium/src/schedule.rs:34-37 | One retarget is within a factor of two either way |
| `Retarget.IntendedWindowKeepsTarget` | programs/equium/src/schedule.rs:65-66 | A window of exactly 3600 seconds changes nothing |
| `Retarget.NextTargetZero` | programs/equium/src/schedule.rs:38-67 | "The target stays positive" is false; it becomes zero exactly from zero, or from one after a window below 3600 seconds |
| `Retarget.ZeroTargetAcceptsNothing` | crates/equihash-core/src/target.rs:8-18 | A target refuses every hash exactly when it is zero |
| `Retarget.DriftGrows` | programs/equium/src/schedule.rs:34-37 | j retargets followed by one more stay within j+1 halvings and doublings |
| `ProgramState.BuildInputIsBlock` | crates/equihash-core/src/challenge.rs:20-31 | The input block is the ASCII tag, the challenge, the key and the eight bytes of the height by weight |
| `ProgramState.ReadRecentSlotHash` | programs/equium/src/pow.rs:19-39 | Succeeds exactly when there are 48 bytes and the first eight are not all zero, and then gives bytes 16 to 48 |
| `ProgramState.ReadsFirstEntry` | programs/equium/src/pow.rs:14-18 | On the documented layout of count, slot and hash it gives the first hash, and refuses a count of zero |
| `ProgramState.BuildInputInjective` | crates/equihash-core/src/challenge.rs:13-31 | The input block determines challenge, miner and height, so a copied submission is a different puzzle |
| `ProgramState.TokenLedger.PayOut` | programs/equium/src/instructions/mine.rs:55-73 | The transfer out of the vault succeeds exactly when the vault covers it, and moves just that amount |
| `ProgramState.TokenLedger.PayIn` | programs/equium/src/instructions/fund_vault.rs:21-37 | The transfer into the vault succeeds exactly when the source covers it, and moves just that amount |
| `Rounds.AdvanceRound` | programs/equium/src/round.rs:32-104 | The in-place transition is the function `Advanced`, including the fields already changed when it fails late; when it succeeds the new challenge is SHA-256 of the old one, the winner's key (zero if none) and bytes 16 to 48 of the sysvar |
| `Rounds.ElapsedSeconds` | programs/equium/src/round.rs:74-77 | Clock skew gives zero, and saturation the largest signed value |
| `Instructions.Initialize` | programs/equium/src/instructions/initialize.rs:15-85 | Every field of the configuration after `initialize`: parameters, target and admin as given, both time anchors from the clock |
| `Instructions.FundVault` | programs/equium/src/instructions/fund_vault.rs:15-61 | The one-shot opening: its refusals, and otherwise the deposit, the open flag, and round and retarget clocks anchored at its own time |
| `Instructions.VerifySubmission` | programs/equium/src/pow.rs:42-57 | A submission is refused with InvalidEquihash exactly when the verifier rejects it for this input block, else with AboveTarget unless its SHA-256 is below the target |
| `Instructions.PayReward` | programs/equium/src/instructions/mine.rs:46-75 | The reward, overflow, supply and balance checks in order, then payment and accounting |
| `Instructions.Mine` | programs/equium/src/instructions/mine.rs:20-98 | The handler is the function `MinedBlock` on its copies; when it succeeds the solution was valid for the input block and its hash below the target |
| `Instructions.AdvanceEmptyRound` | programs/equium/src/instructions/advance_empty_round.rs:12-47 | The handler is the function `SkippedRound`, error by error |
| `Instructions.SetTarget` | programs/equium/src/instructions/set_target.rs:13-28 | Only the target changes, only for the admin, and not after renouncing |
| `Instructions.RenounceAdmin` | programs/equium/src/instructions/renounce_admin.rs:8-14 | Only the admin key and the flag change, once |
| `Transactions.Processed` | programs/equium/src/instructions/mine.rs:77-81 | A transaction whose handler fails leaves the stored state as it was |
| `Transactions.Accounts.Process` | programs/equium/src/lib.rs:31-62 | Running a handler on copies and keeping them on success is the function `Processed` |
| `ScheduleKept.AdvancesToNextRound` | programs/equium/src/round.rs:32-104 | The transition goes through exactly when the slot hash is readable and the next height and marks fit 64 bits, and then gives one closed-form round |
| `ScheduleKept.AdvanceKeepsSchedule` | programs/equium/src/round.rs:73-101 | Shifting the reward and moving the marks at boundaries keeps all three in closed form |
| `ScheduleKept.FailureLeavesAChangedCopy` | programs/equium/src/round.rs:53-95 | A transition that fails late has already changed its copy; only the transaction boundary undoes that |
| `Runs.StepKeeps` | programs/equium/src/instructions/mine.rs:20-98 | Every transaction, accepted or not, keeps the accounting invariant |
| `Runs.RunKeeps` | programs/equium/src/lib.rs:31-62 | So does every sequence of transactions |
| `Guarantees.SupplyAccounted` | programs/equium/src/instructions/mine.rs:46-75 | In every reachable state what was mined and what was skipped add up to the scheduled rewards, and the funded vault holds 18.9 million tokens plus donations less what was mined, never below 4.536 |
| `Guarantees.ScheduleInClosedForm` | programs/equium/src/round.rs:73-101 | In every reachable state the reward and both marks are the closed forms of the height |
| `Guarantees.MineOutcome` | programs/equium/src/instructions/mine.rs:28-81 | In every reachable state, which of the five errors a submission gets, in order, or that it is accepted |
| `Guarantees.MineAcceptedIff` | programs/equium/src/instructions/mine.rs:28-81 | In every reachable state a block is accepted exactly when mining is open, the upstream verifier accepts the solution for the spelled-out input block, SHA-256 of solution and input is below the target, the height is below 9,450,000 and the slot hash is readable |
| `Guarantees.MineNeverExhaustsSupply` | programs/equium/src/instructions/mine.rs:49-53 | In no reachable state does `mine` fail for the supply cap, an overflow or an empty vault |
| `Guarantees.MinePaysSchedule` | programs/equium/src/instructions/mine.rs:44-46 | An accepted block pays its miner the scheduled reward of the height before the advance, and nobody else |
| `Guarantees.TokensConserved` | programs/equium/src/instructions/mine.rs:55-73 | Every call moves tokens between the vault and at most one owner, creating none |
| `Guarantees.SkipOutcome` | programs/equium/src/instructions/advance_empty_round.rs:12-33 | In every reachable state, which error an attempt to skip a round gets, in order, or that it is accepted |
| `Guarantees.SkipAcceptedIff` | programs/equium/src/instructions/advance_empty_round.rs:16-33 | In every reachable state a round can be skipped exactly when mining is open, 150 slots have passed, the slot hash is readable and the height fits |
| `Guarantees.SkipsTakeTime` | programs/equium/src/instructions/advance_empty_round.rs:18-26 | With slots that never run backwards, the round opens at least 150 slots per skipped round after funding |
| `Drift.RenouncedTargetMovesAtBoundaries` | programs/equium/src/round.rs:73-82 | Once the admin key is renounced the target moves only on reaching a multiple of 60 |
| `Drift.FundedOnce` | programs/equium/src/instructions/fund_vault.rs:19-46 | Funding happens at most once, and exactly when mining is open |
| `Drift.RenouncedForever` | programs/equium/src/instructions/renounce_admin.rs:8-14 | Renouncing is never undone and no later `set_target` is accepted |
| `Drift.RenouncedUnfunded` | programs/equium/src/instructions/renounce_admin.rs:8-14 | Renouncing before funding closes mining for good, since nobody signs for the default key |
| `Drift.RewardsEnd` | programs/equium/src/instructions/mine.rs:46-47 | From height 9,450,000 on no run contains another accepted block or payment |
| `Drift.TargetDrift` | programs/equium/src/round.rs:73-82 | Between two states with no accepted `set_target` there are floor(h2/60)-floor(h1/60) retargets, each within a factor of two: floor(T1/2^j) <= T2 <= min(2^256-1, T1*2^j) |
| `Drift.ZeroTargetStays` | programs/equium/src/round.rs:78 | A zero target stays zero under retargeting and no block is mined under it |
| `Drift.AcceptedCall` | programs/equium/src/lib.rs:31-62 | What an accepted call can do to height, target and the one-way flags, and that each admin call needs the admin |
| `Chronicle.RunRetold` | programs/equium/src/round.rs:50-82 | Over every run of the open program, height, challenge, last winner, counters and timing anchors are what the closed rounds make them; failed calls and all other calls leave no trace in them |
| `Chronicle.TargetRetold` | programs/equium/src/round.rs:73-82 | Over every run of the open program without an accepted `set_target`, the target is what the closed rounds and their times make it: at each multiple of 60 scaled by the clamped time since the last one |
| `Launch.InitializeOutcome` | programs/equium/src/instructions/initialize.rs:15-85 | When `initialize` is accepted, and every field it then stores, the genesis challenge as SHA-256 of spelled-out bytes |
| `Launch.FundOutcome` | programs/equium/src/instructions/fund_vault.rs:15-46 | Which error `fund_vault` gets, in order; otherwise 18.9 million tokens move and exactly the open flag and three clock anchors change |
| `Launch.SetTargetOutcome` | programs/equium/src/instructions/set_target.rs:13-19 | Which error `set_target` gets, or that only the target changes |
| `Launch.RenounceOutcome` | programs/equium/src/instructions/renounce_admin.rs:8-14 | Which error `renounce_admin` gets, or that only flag and key change, the key to zero |
| `Launch.RunKeepsPuzzle` | programs/equium/src/state.rs:67-69 | No run ever changes the Equihash parameters or the genesis clock |
| `Launch.AdminOfRun` | programs/equium/src/lib.rs:25-29 | In every run the admin is the one expected key or, once renounced, nobody |
| `Launch.WholeRun` | programs/equium/src/lib.rs:31-62 | Every run that ends with mining open has one accepted `initialize` and later one accepted `fund_vault`, and parameters, challenge, height, counters, last winner and all clock anchors follow from these two and the rounds closed since |
| `Chronicle.RetoldOneMore` | programs/equium/src/round.rs:50-82 | One more closed round extends each of these tellings by itself |
| `EndToEnd.FoundSolutionIsPaid` | programs/equium/src/instructions/mine.rs:28-81 | What the solver finds for the current round, if below the target, is accepted from its miner as long as rewards remain |
| `EndToEnd.SolvesIsAccepted` | crates/equihash-core/src/solver.rs:196-199 | Packed solutions are what the upstream verifier accepts |
| `RaceResults.ReturnedWinnerIsGenuine` | clients/cli-miner/src/main.rs:595-603 | Over all interleavings, a returned winner passed both `try_nonce` and the target test |
| `RaceResults.ReturnedCount` | clients/cli-miner/src/main.rs:591-608 | The count returned is the number of nonces tried plus, for each winner, its remainder over 64 once more, modulo 2^64 |
| `RaceResults.NothingFoundMeansExhausted` | clients/cli-miner/src/main.rs:634-643 | No winner means a timeout, or that every worker used up its budget in vain |
| `RaceResults.StopIsHeeded` | clients/cli-miner/src/main.rs:586-609 | From the moment the flag is up, over all interleavings, each worker tries at most the one nonce it was about to draw, and none at the head of its loop |
| `RaceResults.StopIsPrompt` | clients/cli-miner/src/main.rs:586-640 | From then on at most 7*threads+3 steps are left, whatever the budget |
| `RaceResults.WinnerIsNotLost` | clients/cli-miner/src/main.rs:599-604 | The flag goes up only behind a winner in the channel: raised while the race waits, the race has a winner to return |
| `RaceResults.RunsAreFinite` | clients/cli-miner/src/main.rs:586-609 | No interleaving has more than threads*(8*max+6)+threads+3 steps |
| `RaceResults.ReturnsIff` | clients/cli-miner/src/main.rs:635-640 | When nothing can move, the function has returned exactly if winners exceed receives by at most one |
| `RaceResults.StuckIff` | clients/cli-miner/src/main.rs:570-640 | Unconditional termination is false; the race can block for ever exactly if there are two threads or more, a budget, and some winning nonce |
| `RaceResults.StepSound` | clients/cli-miner/src/main.rs:581-643 | Every step of every thread keeps the invariant behind these results, and with the stop flag up no worker tries more than the nonce it was about to draw |
| `RaceResults.StepLowersRank` | clients/cli-miner/src/main.rs:586-609 | Every step lowers a measure of the work left |
| `RaceResults.WrappedIsModulo` | clients/cli-miner/src/main.rs:592 | The wrapping counter is arithmetic modulo 2^64 |

## Left out

- Solver.TryNonceGeneric: covers collision widths of whole bytes only, with at most 512-bit hashes and fewer than 31 collision bits; at other widths the generic round compares bits but trims bytes, so completeness is not promised.
- Solver.TryNonce96_5: requires fewer than 2^32 rows in every round, since row ids and histogram cells are 32 bits wide; beyond that the source wraps.
- Solver.Solve: covers the parameters its two searches cover; for other accepted parameters nothing is claimed.
- GpuSearch.FlaggedIffSolvable: the backward direction needs every round to stay within the cap; capped searches may miss solutions, and only their soundness is claimed.
- CountingSort.SortIds: the cells are `array`s written in place; the pairing loops then read the placed ids as a value.
- The insides of BLAKE2b and SHA-256, and the code of the upstream `equihash` verifier, which is not part of this model.
- The device side of CUDA: thread layout, allocation, launch, flat-buffer copies across the boundary, and the translation of error codes. Launch failures are one error value.
- Account validation by the framework: addresses derived from seeds, mint and vault identity, bumps, rent, and account creation for the miner. The admin checks are modelled as the first check of each admin call.
- The order of the two refusals of `initialize` (wrong signer, account already there), which the framework decides; here the signer is checked first.
- Token transfers are plain balance moves between the vault and one account per owner, without transfer fees. Anyone may also send tokens to the vault, which the program does not see.
- Events and log messages; the metadata string of `initialize`, which its handler ignores.
- Parameters with k = 2^32 - 1, for which `k + 1` overflows in the source.
- The RPC client, transaction building, retries, the dashboard printing, hashrate formatting and the progress thread of the race, which only reads the counter and stops with the flag.
- The GPU race loop of the miner, which is sequential and adds only batching to `GpuSearch.RunBatch`.
- Wall-clock time: a timeout is a step that may happen whenever the channel is empty, and slots and timestamps are inputs.
- Memory-order effects weaker than one shared memory: the flag is only ever raised, and the counter is only read after the joins.
