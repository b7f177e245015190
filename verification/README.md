# Verified model of three private information retrieval schemes

A model in Dafny 4.11 of the three schemes in this repository: incremental
offline/online PIR (`inc-pir`), PIR from a distributed point function
(`baselines/dpf-pir`) and PIR from a puncturable pseudorandom function
(`baselines/ck-pir`). AES and the key derivation are arbitrary functions that
are passed in, and every coin, draw, seed and fresh key is an argument, so that
each theorem holds for every choice of them. Check everything with
`dafny verify dfyconfig.toml`.

## How it is built

- `Bits` models machine words as natural numbers with the shifts, masks and
  bitwise operators of the code; `Blocks` models data blocks under XOR and the
  parity of an index set; `OrderedSet` models iteration over `std::set`; `Counting`
  counts the positions at which something holds.
- **Incremental scheme.** `Feistel`, `Orbits` and `CycleWalk` prove the
  small-domain permutation: the re-split unbalanced Feistel network is a
  bijection, and walking it into `[0, range)` terminates and stays a bijection.
  `PrpFamily` is all that the protocol uses of it. `PirSets` is the expansion of
  a set and `PirReach` the loop that a query expands it with; `PirSearch`,
  `SearchFault` and `SearchExactness` are the client's search, `PirBatch` and
  `PirOverdraw` the slot bookkeeping of a batch, `PirDiff`, `PirWalks` and
  `PirReply` the server's difference reply. `PirState` and `PirRuns` are the
  protocol as a state machine and its run invariant, `PirCoin` what the coins of
  the removal decide. `PirServer`, `PirClient` and `PirSession` are the classes
  with their loops, which refine the state machine, up to `PirSession.Retrieve`.
- **Trees.** `LevelTree` is a binary tree whose nodes are computed from their
  parents and numbered level by level; both tree-based schemes use it.
- **Distributed point function.** `DpfBlocks` (registers and their bytes),
  `DpfTree` (keys and nodes), `Dpf` (the two-party invariant), `DpfSteps` and
  `DpfKeys` (evaluation and key generation bit by bit), `DpfGen`, `DpfEval` (point and full evaluation), `DpfMask` and `DpfEval8` (the eight-lane
  evaluator refines the recursive one), `HashStore` (the answers), `DpfPir` (end
  to end) and `QuerySerial` (packing of queries).
- **Puncturable function.** `PuncSteps` (evaluation and puncturing label by label
  and byte by byte), `PuncPrf` (evaluation, breadth-first evaluation,
  puncturing, punctured evaluation) and `CkPir` (client and server classes, end
  to end).

Every operation is tied to a function that the protocol theorems use, and in
addition to what its input decides bit by bit, block by block or position by
position, in predicates that do not mention that function: `Feistel.Traced` and
`CycleWalk.Walked`, `DpfSteps.Descends`, `DpfKeys.Written`, `HashStore.OddlySet`,
`QuerySerial.BigEndian` and `QuerySerial.Restored`, `PuncSteps.Evaluates` and
`PuncSteps.Punctures`, `CkPir.OddlyCarried`, `PirSets.WalksTo`, `PirState.Batched`
and `PirClient.RemovesRank`.

## What turned out not to hold in general

- The search uses the key derived for slot 0 when the shift is 0, the expansion
  uses the set key: `SearchFault.ZeroShiftFault` is a concrete set, a nonzero
  shift is the exact condition over all sets (`SearchFault.SearchExactIff`), and
  `SearchExactness.ExactOnIff` is the exact condition for one set and one index.
- The draws that kick elements out are compared with counts that are not updated
  between draws: `PirBatch.SecondBatchMayWrap` is a concrete batch after which a
  count is 2^32 - 1, and `PirBatch.BatchKeepsIff` is the exact condition. A query
  then skips the slot (`PirOverdraw.SkippedIffOverdrawn`) and places the slots
  behind it at wrong offsets (`PirOverdraw.MembersMoveDown`,
  `PirOverdraw.WrongOffsets`), and the sum of the counts no longer fits the word
  that the next batch converts it to (`PirOverdraw.SumFitsIff`).
- The coin may keep the queried index; then recovery returns another block and
  the hint drifts. `PirRuns.MemberAnswer`, `PirRuns.MemberDrift` and
  `PirRuns.RunInvariant` state what happens. Over all databases,
  `PirCoin.AlwaysRightIff` and `PirCoin.NeverDriftsIff` are the exact conditions,
  with a failing database for every coin that violates them.
- The packing of queries loses trailing 0xFF bytes: `QuerySerial.LostByte` and
  the exact condition `QuerySerial.RoundTripIff`; keys of the point function
  always depend on it (`DpfPir.TailBytes`), `DpfPir.SendKeys` states it for
  generated queries, and `DpfPir.LoseQuery` generates queries that are lost.

## Model

| member | source | states |
|---|---|---|
| Bits.BitAtXor | inc-pir/src/adprp.cpp:73-73 | bit k of an exclusive or |
| Bits.BitAtAnd | inc-pir/src/adprp.cpp:65-66 | bit k of a conjunction |
| Bits.BitAtOr | inc-pir/src/adprp.cpp:77-77 | bit k of a disjunction |
| Bits.BitAtShl | inc-pir/src/adprp.cpp:77-77 | a left shift moves bit m - k to bit m and clears the lowest k bits |
| Bits.ShrIsQuotient | inc-pir/src/adprp.cpp:65-66 | a right shift divides by 2^k and the mask below leaves the remainder |
| Feistel.RoundFuncBound | inc-pir/src/adprp.cpp:39-42 | the masked round function has at most `output_length` bits, whatever AES returns |
| Feistel.RoundInverse | inc-pir/src/adprp.cpp:71-83 | one round, halves of l and r bits swapped and re-split by position, stays below 2^(l+r) and is undone by the inverse round |
| Feistel.RoundInvInverse | inc-pir/src/adprp.cpp:100-112 | the converse for one inverse round |
| Feistel.RoundTurns | inc-pir/src/adprp.cpp:71-83 | one round bit by bit: the lower half moves up, and the upper half, of n/2 bits, moves down exclusive-ored with what AES answers to the lower half XOR the tweak in 16 bits |
| Feistel.RoundsTraced | inc-pir/src/adprp.cpp:71-83 | the rounds use the tweaks 1, 2, ..., k in this order |
| Feistel.RoundsInverse | inc-pir/src/adprp.cpp:58-113 | k rounds stay below 2^n and k inverse rounds with the tweaks in reverse order restore the block, for every key, every n (odd n too) and every k |
| Feistel.RoundsInvInverse | inc-pir/src/adprp.cpp:88-113 | the converse: the network is a bijection of the n-bit blocks |
| Feistel.FeistelPrp | inc-pir/src/adprp.cpp:58-85 | the loop on shifted, masked 32-bit halves computes that bijection for n in 1..32; block by block, every round moves and mixes the bits as stated, under its tweak |
| Feistel.FeistelInvPrp | inc-pir/src/adprp.cpp:88-113 | the inverse loop, whose wider half is the left one, returns the block that the rounds, bit by bit, take to its input |
| Orbits.VisitedDistinct | inc-pir/src/adprp.cpp:125-127 | while a walk is out of range it never visits a point twice |
| Orbits.OutsideBound | inc-pir/src/adprp.cpp:125-127 | a walk stays out of range for at most 2^n - range steps |
| Orbits.ReturnReverses | inc-pir/src/adprp.cpp:132-144 | the first return of the inverse permutation retraces the first return of the permutation |
| Orbits.Returns | inc-pir/src/adprp.cpp:116-129 | every orbit that starts in range comes back into range |
| CycleWalk.BlockLengthSmallest | inc-pir/src/adprp.cpp:122-123 | the block length is the smallest n with 2^n > range |
| CycleWalk.WalkInverse | inc-pir/src/adprp.cpp:116-144 | cycle walking and inverse cycle walking are mutually inverse bijections of [0, range) for every key and every range |
| CycleWalk.WalkLoop | inc-pir/src/adprp.cpp:123-128 | the loop terminates and ends at the first point of the orbit that is in range |
| CycleWalk.InvWalkLoop | inc-pir/src/adprp.cpp:138-143 | the same for the inverse walk |
| CycleWalk.WalkWalked | inc-pir/src/adprp.cpp:116-129 | block by block: seven rounds of the network on the smallest n with 2^n > range, and no block before the last one is in range |
| CycleWalk.WalkInvWalked | inc-pir/src/adprp.cpp:132-144 | the inverse walk finds the point from which such a walk leads to its input |
| CycleWalk.CycleWalk | inc-pir/src/adprp.cpp:116-129 | it fails exactly when num >= range and otherwise returns the bijection's value, at the end of a walk of seven-round blocks |
| CycleWalk.InvCycleWalk | inc-pir/src/adprp.cpp:132-144 | it fails exactly when num >= range and otherwise returns the inverse bijection's value, the start of a walk that ends at num |
| PrpFamily.FamilyOf | inc-pir/src/adprp.cpp:116-144 | whatever AES computes, the source's two walks are a family of permutations with their inverses; all later theorems use only that |
| PirSets.RotateInverse | inc-pir/src/client.cpp:103-103 | the shift arithmetic of the search undoes the shift arithmetic of the expansion |
| PirSets.LocalInverse | inc-pir/src/client.cpp:142-147 | the members of one slot, shifted or not, are a bijection of the slot's range |
| PirSets.ExpandMember | inc-pir/src/client.cpp:128-149 | an index lies in the expansion exactly when its slot's inverse walk is below the slot's count |
| PirSets.ExpansionByWalks | inc-pir/src/client.cpp:128-149 | the expansion holds exactly the indices that the first count walks of each slot lead to: slot 0 under the set key and moved by the shift, slot i under the key derived for i, behind the earlier ranges |
| PirSets.SumsSplit | inc-pir/src/client.cpp:131-149 | ranges and counts add up over any split of the slots |
| PirSets.SlotsDisjoint | inc-pir/src/client.cpp:128-149 | different slots contribute disjoint indices |
| PirSets.ExpansionSize | inc-pir/src/client.cpp:128-149 | the expansion of a well-formed set has exactly setsize distinct indices, all below dbrange |
| PirReach.ReachedIsExpansion | inc-pir/src/client.cpp:130-149 | the loop of a query, with its guard on counts and the offset that a skipped slot does not advance, computes the expansion of every well-formed set |
| OrderedSet.AscendingSize | inc-pir/src/client.cpp:154-156 | iterating over the ordered set visits every index once |
| OrderedSet.AscendingRank | inc-pir/src/client.cpp:24-27 | the k-th element that an iterator visits has exactly k smaller ones |
| PirSearch.SearchExact | inc-pir/src/client.cpp:94-116 | for a nonzero shift or an index outside slot 0, the search over inverse walks accepts a set exactly when its expansion contains the index |
| PirSearch.SearchWithoutShift | inc-pir/src/client.cpp:101-108 | in slot 0 with shift 0 the search decides by the key derived for slot 0, while the expansion decides by the set key |
| SearchFault.ZeroShiftFault | inc-pir/src/client.cpp:101-108 | a concrete set with shift 0 that contains index 0 and is rejected for it, and is accepted for index 1 which it does not contain |
| SearchFault.SearchExactIff | inc-pir/src/client.cpp:101-108 | the search is exact for all primitives, keys and slots exactly when the shift is not zero |
| SearchExactness.ExactOnIff | inc-pir/src/client.cpp:94-116 | for one set and one index, over all valid families: the search agrees with the expansion exactly when it uses the key of the set, or slot 0 is empty, or slot 0 is full |
| PirBatch.KickedStep | inc-pir/src/client.cpp:240-252 | one draw, compared with the cumulated counts of the batch's start, decrements exactly one slot in 32-bit arithmetic |
| PirBatch.HitsAreDraws | inc-pir/src/client.cpp:240-252 | a slot is hit by exactly the draws that fall between the sum of the counts before it and behind it |
| PirBatch.EmptySlotNotHit | inc-pir/src/client.cpp:239-252 | a slot that was empty when the batch began is never drawn |
| PirBatch.HitsSum | inc-pir/src/client.cpp:239-252 | every draw falls into exactly one slot, so ell draws remove exactly ell counts |
| PirBatch.BatchKeepsIff | inc-pir/src/client.cpp:225-258 | ranges sum to dbrange, counts sum to setsize and no count exceeds its range after the batch exactly when no slot is drawn more often than its count |
| PirBatch.FirstBatchAdmissible | inc-pir/src/client.cpp:239-252 | the first batch after preparation or refresh always meets that condition |
| PirBatch.SecondBatchMayWrap | inc-pir/src/client.cpp:239-252 | a concrete second batch that draws a slot twice and leaves the count 2^32 - 1 |
| PirOverdraw.SkippedIffOverdrawn | inc-pir/src/client.cpp:132-132 | after a batch the guard of the query skips exactly the slots that were drawn more often than their count |
| PirOverdraw.MembersMoveDown | inc-pir/src/client.cpp:130-149 | a query places every member of a slot below its database index by exactly the ranges skipped before the slot |
| PirOverdraw.WrongOffsets | inc-pir/src/client.cpp:130-149 | a concrete second batch after which a query asks for an index of the skipped slot and misses one that the new slot holds |
| PirOverdraw.CountsAfterBatch | inc-pir/src/client.cpp:226-252 | after a batch the counts sum to setsize plus 2^32 for every overdrawn slot |
| PirOverdraw.SumFitsIff | inc-pir/src/client.cpp:235-241 | the sum of counts that the next batch converts to 32 bits fits them exactly when the draws were admissible |
| PirDiff.DifferenceIsSymmetric | inc-pir/src/server.cpp:86-124 | what the server walks over is the symmetric difference of the old and the new expansion |
| PirDiff.DifferenceUpdatesParity | inc-pir/src/server.cpp:81-127 | the old parity XOR the server's reply is the parity of the new expansion |
| PirReply.DiffParityIsDifference | inc-pir/src/server.cpp:81-127 | what the server adds up for a set that followed from the old one is the parity of the difference, and no walk fails |
| PirState.OmittedMember | inc-pir/src/client.cpp:14-30 | a query for a member leaves out exactly one index: the wanted one or, if the coin keeps it, another member |
| PirState.VictimRank | inc-pir/src/client.cpp:24-27 | the removed element has exactly draw mod size smaller ones |
| PirState.ReplyParity | inc-pir/src/server.cpp:45-51 | the reply is the parity of the set XOR the parity of what the removal changed |
| PirState.QuerySetIsSet | inc-pir/src/client.cpp:130-149 | the set that a valid client expands for a query is its set of setsize indices |
| PirState.FreshSetContains | inc-pir/src/client.cpp:263-283 | the refreshed set is well formed under the new key, and the refreshed index is its element number r mod setsize |
| PirState.FreshElement | inc-pir/src/client.cpp:275-279 | the element at that place, also for an index outside the database: the index modulo dbrange |
| PirState.PositionPicked | inc-pir/src/client.cpp:208-220 | a position is sampled exactly when the coin let in some addition that drew it |
| PirState.PositionsBound | inc-pir/src/client.cpp:198-222 | sampling into distinct positions bounds ell by setsize and by the number of additions |
| PirState.NewSetWellFormedIff | inc-pir/src/client.cpp:225-258 | a set stays well formed in a batch exactly when its draws are admissible |
| PirState.NewSetBatched | inc-pir/src/client.cpp:225-258 | a batch keeps key, shift and ranges, lowers each count in 32 bits by the number of draws that fall into the slot, and appends the slot (nbr_add, number of sampled positions) |
| PirState.AddQueryValidIff | inc-pir/src/client.cpp:185-260 | the whole client stays valid exactly when all draws are admissible |
| PirState.AddQueryUsable | inc-pir/src/client.cpp:185-260 | whatever the draws were, the client can query and refresh after the batch |
| PirState.AddReplyIsDifference | inc-pir/src/server.cpp:81-127 | with admissible draws the reply for a set is the parity of the indices that enter or leave it |
| PirRuns.QueryAnswer | inc-pir/src/client.cpp:174-177 | the recovered block is the error term of the chosen set XOR the parity of what the query omitted |
| PirRuns.RefreshErr | inc-pir/src/client.cpp:180-182 | after refresh and recovery the error term is the queried block XOR the parity of what the refresh omitted |
| PirRuns.RoundErr | inc-pir/src/client.cpp:84-182 | a query with refresh changes the error term of the chosen set by what both removals changed, and no other error term |
| PirRuns.AddErr | inc-pir/src/server.cpp:81-127 | a batch of additions leaves every error term as it was |
| PirRuns.StepErr | inc-pir/main.cpp:92-187 | every event changes the error term of every set by exactly its drift |
| PirRuns.MemberDrift | inc-pir/src/client.cpp:14-30 | if the chosen set holds the index, the drift of a round is db[dropped in query] XOR db[dropped in refresh] |
| PirRuns.RunInvariant | inc-pir/main.cpp:57-187 | after every run, each stored parity is the parity of the database over the set's expansion, XOR the initial error, XOR the drifts of the run |
| PirRuns.CleanRunDrift | inc-pir/main.cpp:92-187 | runs in which the search is exact and both coins drop the index add up to drift zero |
| PirRuns.MemberAnswer | inc-pir/src/client.cpp:84-177 | with error zero a query for a member returns the block that it left out, and the wanted block when the coin dropped the wanted index |
| PirCoin.AlwaysRightIff | inc-pir/src/client.cpp:14-30 | for a client and an index in its chosen set: recovery returns the wanted block from every database with an exact hint exactly when the coin drops the index |
| PirCoin.NeverDriftsIff | inc-pir/src/client.cpp:14-30 | a round that found its index keeps the hint exact over every database exactly when query and refresh drop the same index |
| PirCoin.DropsByCoins | inc-pir/src/client.cpp:14-30 | two coins that drop the index drop the same index; one that drops and one that keeps never do |
| PirRuns.CleanRunAnswers | inc-pir/main.cpp:57-187 | after preparation and any run of clean rounds, queries and additions, recovery returns exactly the wanted block of the database at that time |
| PirRuns.RefreshedIsFound | inc-pir/src/client.cpp:263-300 | after a query with refresh, the search finds a set for the same index again, unless the new shift is zero |
| PirRuns.RunKeepsBlocks | inc-pir/src/server.cpp:54-64 | a run only appends to the database |
| PirRuns.QuerySize | inc-pir/src/client.cpp:285-298 | both kinds of query send exactly setsize - 1 indices whenever the set contains the index |
| PirServer.XorAllSplit | inc-pir/src/server.cpp:45-51 | every listed index contributes its block once, whatever the order |
| PirServer.XorAllAscending | inc-pir/src/server.cpp:45-51 | XOR over the transmitted list is the parity of the set it lists |
| PirServer.OfflineParityIsExpansion | inc-pir/src/server.cpp:24-42 | the XOR over loop indices is the parity of the set the client would expand |
| PirServer.PIRServer.GenerateOfflineReply | inc-pir/src/server.cpp:24-42 | one such parity per set, for every database below 2^32 blocks; it fails exactly when sets are larger than the database |
| PirServer.PIRServer.GenerateOnlineReply | inc-pir/src/server.cpp:45-51 | the XOR of the blocks at the received indices |
| PirServer.PIRServer.AddElements | inc-pir/src/server.cpp:54-64 | the blocks are appended and the range grows, or a wrong count is refused and nothing changes |
| PirServer.PIRServer.DiffReply | inc-pir/src/server.cpp:86-124 | for any old and new slots that lie in the database, what the walks over the kicked-out members and the new slot add up to; it fails exactly when a walk leaves its range |
| PirServer.PIRServer.BatchedAdditionReply | inc-pir/src/server.cpp:81-127 | the same for all sets, the reply of each set on its own; it fails exactly when one of them cannot be walked |
| PirClient.IsInTuple | inc-pir/src/client.cpp:162-171 | the first tuple that starts with the value, or -1 when none does |
| PirClient.ProbabilisticRemove | inc-pir/src/client.cpp:14-30 | the queried index is removed, or, if the coin keeps it, the element with draw mod size smaller ones among the others |
| PirClient.PIRClient.constructor | inc-pir/src/client.cpp:33-60 | for every set its own key, its own shift modulo the range and one slot over the whole range, and zero hints, for all sizes; in a valid state for set sizes from 2 to the range |
| PirClient.PIRClient.GenerateOfflineQuery | inc-pir/src/client.cpp:63-74 | the query lists the set descriptions |
| PirClient.PIRClient.UpdateParity | inc-pir/src/client.cpp:77-81 | every hint takes up its reply, nothing else changes, and validity is kept, also with wrapped counts |
| PirClient.PIRClient.FindSet | inc-pir/src/client.cpp:92-116 | the number of the first set that the search accepts, -1 exactly when it accepts none, also with wrapped counts |
| PirClient.PIRClient.SearchSet | inc-pir/src/client.cpp:94-116 | the nested loops decide acceptance, for any counts |
| PirClient.PIRClient.Expand | inc-pir/src/client.cpp:128-149 | the indices that the loop inserts, also with wrapped counts, for which the guard skips the slot |
| PirClient.PIRClient.GenerateOnlineQuery | inc-pir/src/client.cpp:84-158 | an index out of range is refused; otherwise the first accepted set, or set 0, without the removed index is sent in ascending order and only the set number changes, also with wrapped counts |
| PirClient.PIRClient.QueryRecov | inc-pir/src/client.cpp:174-177 | if hint and reply are the parities of two index sets over one database, the recovered block is the parity of the indices in which they differ; nothing else changes |
| PirClient.PIRClient.GenerateRefreshQuery | inc-pir/src/client.cpp:263-300 | the queried set is replaced by a fresh well-formed one under the new key, whose element number r mod setsize is the index, and its indices but the removed one are sent; an index outside the database is not refused |
| PirClient.PIRClient.RefreshRecov | inc-pir/src/client.cpp:180-182 | if the current block and the reply are the parities of two index sets over one database, the hint of the queried set becomes the parity of the indices in which they differ; nothing else changes |
| PirClient.PIRClient.SampleBatch | inc-pir/src/client.cpp:195-222 | the tuples of every set name each sampled position once |
| PirClient.SlotDrawn | inc-pir/src/client.cpp:241-251 | the chain of comparisons finds the one slot that a draw falls into |
| PirClient.KickOut | inc-pir/src/client.cpp:230-252 | all draws of one set, with the 32-bit decrements of the source |
| PirClient.PIRClient.BatchedAdditionQuery | inc-pir/src/client.cpp:185-260 | for every set the new slots: counts lowered by the draws that fall into them, and a last slot with the additions and the number of sampled positions; the state stays valid exactly when all draws are admissible, and usable whatever they are |
| PirSession.Prepare | inc-pir/main.cpp:57-89 | client and server agree with the initial state of the machine; for set sizes from 2 on, every hint is the parity of its set's expansion |
| PirSession.RunQuery | inc-pir/main.cpp:92-111 | client and server objects carry out a query step of the state machine |
| PirSession.RunRound | inc-pir/main.cpp:92-130 | the same for a query followed by refresh |
| PirSession.AskDifferences | inc-pir/main.cpp:133-160 | the server grows and answers the client's addition query; no check or exception fires, whatever the draws are |
| PirSession.RunAdd | inc-pir/main.cpp:133-166 | client and server objects carry out a batch of additions for all draws; they stay valid exactly when the draws are admissible |
| PirSession.RunEvents | inc-pir/main.cpp:57-187 | the objects refine the state machine over whole runs |
| PirSession.Retrieve | inc-pir/main.cpp:57-187 | end to end: preparation, any clean run and a clean query return db[idx] of the database as it is then |
| LevelTree.PathStep | baselines/dpf-pir/dpf.cpp:153-186 | the number of a node on the path to x spells the leading bits of x |
| LevelTree.LeafBelow | baselines/dpf-pir/dpf.cpp:202-239 | the leaves that a recursive traversal reaches below a node are, in order, the nodes of the last level below it |
| LevelTree.WholeLevel | baselines/dpf-pir/dpf.cpp:241-252 | from the root, the traversal lists the last level from left to right |
| DpfBlocks.BlockRoundTrip | baselines/dpf-pir/dpf.cpp:142-147 | a register written to memory byte by byte reads back as the same register |
| DpfBlocks.BitOfBytes | baselines/dpf-pir/dpf.cpp:193-198 | testing a bit in memory tests that bit of the register |
| DpfBlocks.ClearedBit | baselines/dpf-pir/dpf.cpp:30-32 | clearing removes bit 127 and keeps every other bit |
| DpfBlocks.TopBit | baselines/dpf-pir/dpf.cpp:33-35 | the control bit is bit 127 |
| DpfBlocks.OneHotBit | baselines/dpf-pir/dpf.cpp:142-143 | the register made by setting one byte has exactly the bit alpha mod 128 |
| DpfSteps.ChildSteps | baselines/dpf-pir/dpf.cpp:159-178 | a step bit by bit: the output of the generator on its side without bit 127, and its bit 127, corrected by the sixteen bytes and the byte of that side that the key holds for the level when the control byte is set |
| DpfSteps.PathDescends | baselines/dpf-pir/dpf.cpp:152-186 | the path to x starts at the first seventeen bytes of the key and takes such a step for every bit of x above the last seven, the top one first |
| DpfSteps.ValueOutputs | baselines/dpf-pir/dpf.cpp:188-199 | the value at x is a bit of the converted seed at the end of that path, corrected by the last sixteen bytes |
| Dpf.KeepSide | baselines/dpf-pir/dpf.cpp:102-139 | on the side the path takes, exactly one of the two control bits stays set |
| Dpf.LoseSide | baselines/dpf-pir/dpf.cpp:102-139 | on the other side both parties get the same seed and the same control bit |
| Dpf.TwoParties | baselines/dpf-pir/dpf.cpp:61-200 | the two-party invariant on every level: on the path the control bits differ and both keys reach the nodes of key generation, off the path both keys reach one node |
| Dpf.PathLeaves | baselines/dpf-pir/dpf.cpp:142-147 | the last correction word makes the two 128-bit leaves at the end of the path differ in exactly the bit of alpha |
| Dpf.PointFunction | baselines/dpf-pir/dpf.cpp:61-200 | for all alpha, x < 2^logn the values of the two keys at x differ exactly when x == alpha |
| DpfKeys.PairWritten | baselines/dpf-pir/dpf.cpp:61-150 | all bytes of a key pair: both roots are the seeds without bit 127, bit 127 of the first seed and its complement follow, and every correction word and the last one are made, bit by bit, from the nodes that the two keys lead to on the path to alpha |
| DpfGen.KeyParts | baselines/dpf-pir/dpf.cpp:76-80 | where root, correction words and last word lie in the byte-packed key |
| DpfGen.GenLevel | baselines/dpf-pir/dpf.cpp:88-139 | one level of key generation: the correction word and the next nodes of both parties |
| DpfGen.GenWords | baselines/dpf-pir/dpf.cpp:83-141 | the loop packs the correction words of the path to alpha |
| DpfGen.Gen | baselines/dpf-pir/dpf.cpp:61-150 | the two byte strings are a key pair for alpha, whatever the two seeds are, and all their bytes are as stated for a key pair |
| DpfEval.Expand | baselines/dpf-pir/dpf.cpp:218-234 | both children of a node, corrected when the control byte is set |
| DpfEval.Eval | baselines/dpf-pir/dpf.cpp:152-200 | point evaluation returns the value that the key describes at x, the output at the end of the path of bitwise steps |
| DpfEval.TreeBytesFlat | baselines/dpf-pir/dpf.cpp:202-239 | the recursion writes the leaves one after the other, from left to right |
| DpfEval.FullValue | baselines/dpf-pir/dpf.cpp:241-252 | bit x of full evaluation is the value at x |
| DpfEval.EvalFullRecursive | baselines/dpf-pir/dpf.cpp:202-239 | the recursion appends the bytes below its node and changes nothing before them |
| DpfEval.EvalFull | baselines/dpf-pir/dpf.cpp:241-252 | full evaluation returns 16 bytes per leaf, and bit x is the output at the end of the path to x, as point evaluation returns it |
| DpfMask.AndMaskOf | baselines/dpf-pir/dpf.cpp:262-263 | masking with sixteen copies of the byte -t keeps everything for t = 1 and nothing for t = 0 |
| DpfMask.MaskBit | baselines/dpf-pir/dpf.cpp:262-263 | for every control byte t, bit k of the mask is bit k mod 8 of the byte -t |
| DpfMask.MaskedChildBits | baselines/dpf-pir/dpf.cpp:269-285 | for every control byte the masked step bit by bit |
| DpfMask.MaskedLeafBits | baselines/dpf-pir/dpf.cpp:258-263 | for every control byte the masked output of a leaf |
| DpfMask.MaskedIsChild | baselines/dpf-pir/dpf.cpp:279-285 | for control bits the masked step is the conditional step, and yields a control bit |
| DpfMask.SameBytes | baselines/dpf-pir/dpf.cpp:255-288 | below a node with a control bit, masking writes the same bytes as the conditional recursion |
| DpfEval8.HeldAppend | baselines/dpf-pir/dpf.cpp:264-265 | storing through one pointer extends that segment and leaves the other seven alone |
| DpfEval8.Segments.Append | baselines/dpf-pir/dpf.cpp:264-265 | memcpy through pointer i appends to segment i only, and the pointer advances behind the copy |
| DpfEval8.Expand8 | baselines/dpf-pir/dpf.cpp:269-285 | all eight lanes step down with masks |
| DpfEval8.EvalFullRecursive8 | baselines/dpf-pir/dpf.cpp:255-288 | every lane appends the bytes below its node to its own segment |
| DpfEval8.EightSubtrees | baselines/dpf-pir/dpf.cpp:302-422 | the eight third-level nodes, in the order of the arrays, are the subtrees of the whole tree from left to right |
| DpfEval8.AllFilled | baselines/dpf-pir/dpf.cpp:293-297 | full segments lie side by side and make up the whole buffer |
| DpfEval8.LanesSame | baselines/dpf-pir/dpf.cpp:255-426 | for control bytes that are bits from the third level on, the lanes write what full evaluation appends |
| DpfEval8.EvalFull8 | baselines/dpf-pir/dpf.cpp:290-426 | the buffer holds the eight lanes side by side; for such keys it equals recursive full evaluation byte for byte |
| HashStore.AndWordMask | baselines/dpf-pir/hashdatastore.cpp:319-326 | masking an item with four copies of the word -bit keeps all of it or nothing |
| HashStore.FoldUpdate | baselines/dpf-pir/hashdatastore.cpp:329-336 | it does not matter which of the eight accumulators takes an item |
| HashStore.SelectedBit | baselines/dpf-pir/hashdatastore.cpp:264-303 | bit k of a selection is set exactly when an odd number of the selected items has it |
| HashStore.HashDataStore.AnswerPir1 | baselines/dpf-pir/hashdatastore.cpp:264-303 | every bit of the answer is the parity of that bit over exactly the items whose bit is set in the indexing, although unselected items overwrite a scratch slot |
| HashStore.HashDataStore.AnswerPir2 | baselines/dpf-pir/hashdatastore.cpp:305-337 | the same by masking |
| DpfPir.GeneratedControls | baselines/dpf-pir/dpf.cpp:102-139 | the control bytes of generated keys are bits |
| DpfPir.SelectionsDiffer | baselines/dpf-pir/hashdatastore.cpp:305-337 | two selections that differ in one bit differ by exactly that item |
| DpfPir.AnswersRecover | baselines/dpf-pir/serial.hpp:153-188 | the XOR of the two answers is the item at alpha, for every database of 2^logn items |
| DpfPir.GenerateReply | baselines/dpf-pir/serial.hpp:79-99 | a server answers with the selection of its expanded key |
| DpfPir.Retrieve | baselines/dpf-pir/serial.hpp:153-188 | end to end: generation, eight-lane evaluation and two answers return data[alpha], for every alpha < 2^logn and logn in 10..63 |
| DpfPir.RetrieveSmall | baselines/dpf-pir/main.cpp:25-44 | the same with the recursive evaluator, for logn in 3..63 |
| DpfPir.QueryOnTheWire | baselines/dpf-pir/serial.hpp:190-342 | both keys of a query end in the same bytes, so the left key alone decides whether the query survives transport |
| DpfPir.SendKeys | baselines/dpf-pir/serial.hpp:190-342 | a generated query arrives unchanged exactly when none of the last size % 4 bytes of the left key is 0xFF |
| DpfPir.LostKeys | baselines/dpf-pir/serial.hpp:252-281 | for every database size and every alpha there are a generator and two seeds whose keys both end in filler |
| DpfPir.LoseQuery | baselines/dpf-pir/serial.hpp:190-342 | key generation yields such a query, and it does not arrive unchanged |
| QuerySerial.WordIsBigEndian | baselines/dpf-pir/serial.hpp:197-212 | word i is the sum of bytes 4i, ..., 4i+3 times 2^24, 2^16, 2^8 and 1, with 0xFF behind the end of the key |
| QuerySerial.UnpackedIsRestored | baselines/dpf-pir/serial.hpp:247-290 | every word but the last yields its four quotients by 2^24, 2^16, 2^8 and 1 at its place; the last one its bytes before the first 0xFF, or all of them twice |
| QuerySerial.FourBytesOf | baselines/dpf-pir/serial.hpp:284-287 | the four bytes of a packed word come back in order |
| QuerySerial.UnpackedPrefix | baselines/dpf-pir/serial.hpp:247-287 | all words but the last restore their bytes |
| QuerySerial.RoundTripIff | baselines/dpf-pir/serial.hpp:190-342 | packing and unpacking restore a key of any length exactly when none of its last size % 4 bytes is 0xFF |
| QuerySerial.LostByte | baselines/dpf-pir/serial.hpp:252-281 | the one-byte key 0xFF is not restored |
| QuerySerial.Pack | baselines/dpf-pir/serial.hpp:197-212 | size/4 + 1 words, each one that sum |
| QuerySerial.Unpack | baselines/dpf-pir/serial.hpp:247-290 | the bytes of all words at their places, the last word cut at its first 0xFF byte or taken twice |
| QuerySerial.SendQuery | baselines/dpf-pir/serial.hpp:190-342 | both keys of a query are restored exactly when neither ends in filler |
| PuncPrf.LeadingIsFirstEight | baselines/ck-pir/src/puncprf.cpp:145-150 | the word is the sum of the first eight bytes times 256^7, ..., 256, 1 |
| PuncPrf.LeadingBit | baselines/ck-pir/src/puncprf.cpp:145-150 | bit b of it is bit b mod 8 of byte 7 - b/8 |
| PuncPrf.Extract | baselines/ck-pir/src/puncprf.cpp:144-160 | the output is the first window of lgn bits that is in range, for any range, and it is in range |
| PuncPrf.FirstWindowFits | baselines/ck-pir/src/puncprf.cpp:152-159 | for a range of at least 2^lgn the first window succeeds: the output is the lowest lgn bits |
| PuncPrf.SlideIsWindow | baselines/ck-pir/src/puncprf.cpp:154-156 | masking with the shifted mask and shifting back reads off the window |
| PuncPrf.Descend | baselines/ck-pir/src/puncprf.cpp:129-142 | from any node the walk follows the remaining bits of x |
| PuncPrf.BelowOnPath | baselines/ck-pir/src/puncprf.cpp:129-142 | from the node of x on any level the walk ends at leaf number x |
| PuncPrf.BelowLabels | baselines/ck-pir/src/puncprf.cpp:129-142 | from any node the labels take the right half of the generator for a set bit and the left one for a clear bit |
| PuncPrf.Eval | baselines/ck-pir/src/puncprf.cpp:119-161 | it fails exactly for x >= 2^lgn; otherwise the labels from the key down follow the bits of x, the top one first, and the result is the first window in range of the first eight bytes of the last label; for a range of at least 2^lgn its bit b is bit b mod 8 of byte 7 - b/8 |
| PuncPrf.NextLevel | baselines/ck-pir/src/puncprf.cpp:59-69 | expanding a frontier node by node lists the labels of the next level from its left end |
| PuncPrf.Frontier | baselines/ck-pir/src/puncprf.cpp:38-70 | the frontier below the straight left path is the left end of the last level, 2^(lgn - lgn/2) labels wide |
| PuncPrf.BreadthEval | baselines/ck-pir/src/puncprf.cpp:28-90 | entry i is what single evaluation returns at i, in labels and bytes, also for odd lgn where the frontier is wider than the output, and always from point 0 on, whatever low is |
| PuncPrf.PuncNumbers | baselines/ck-pir/src/puncprf.cpp:248-264 | subtracting and setting bits reads off the bits of the punctured point from the top, also when the given point lies beyond the last leaf |
| PuncPrf.LastLeaf | baselines/ck-pir/src/puncprf.cpp:248-264 | a point beyond the last leaf takes the right turn on every level |
| PuncPrf.PuncLabels | baselines/ck-pir/src/puncprf.cpp:247-277 | each level keeps the label of the child off the path |
| PuncPrf.Punc | baselines/ck-pir/src/puncprf.cpp:234-280 | for every point: the bit vector is the point, cut to the last leaf, and there are exactly lgn keys, the i-th the child of the i-th label on the path that the path does not take |
| PuncPrf.LeavingParts | baselines/ck-pir/src/puncprf.cpp:175-189 | the level is that of the first bit, from the top, in which x and the punctured point differ |
| PuncPrf.LeavingLevel | baselines/ck-pir/src/puncprf.cpp:173-189 | the loop stops at the level where the path to x turns off to a sibling of the punctured path |
| PuncPrf.PuncLeafIsLeaf | baselines/ck-pir/src/puncprf.cpp:171-210 | for keys from puncturing, the kept key of the leaving level leads to leaf x, at every other point |
| PuncPrf.PuncLeafLow | baselines/ck-pir/src/puncprf.cpp:171-210 | a point beyond the last leaf leads where its lowest lgn bits lead |
| PuncPrf.EvalPunc | baselines/ck-pir/src/puncprf.cpp:164-230 | -1 exactly at the punctured point; otherwise, for any keys, point and range, the output, in labels and bytes, of what the key kept for the first differing bit leads to by the remaining bits of x |
| PuncPrf.PuncThenEval | baselines/ck-pir/src/puncprf.cpp:164-280 | puncturing and evaluating: -1 at the punctured point and the value of the unpunctured function at every other |
| CkPir.DepthFits | baselines/ck-pir/src/client.cpp:17-17 | for a database of n blocks the tree depth is at most 30 and 2^depth <= n, so the first output window is in range |
| CkPir.PuncturedParity | baselines/ck-pir/src/server.cpp:49-62 | a punctured parity XOR the whole parity is the block at the skipped position, even if other positions hold the same index |
| CkPir.SetParityCarried | baselines/ck-pir/src/server.cpp:38-43 | bit b of a parity is set exactly when the blocks at an odd number of positions have it, where position i is at index (value at i + shift) mod n |
| CkPir.QueryOfSet | baselines/ck-pir/src/server.cpp:49-63 | for the keys of a punctured set, the parity of a query is the parity of the set without the punctured position |
| CkPir.PIRServer.GenerateOfflineReplyFast | baselines/ck-pir/src/server.cpp:22-46 | one parity over the 2^(lgn/2) positions per set, bit by bit, repeated members counted as often as they occur |
| CkPir.PIRServer.GenerateOnlineReply | baselines/ck-pir/src/server.cpp:49-63 | for any keys, the parity of the blocks that they lead to at all positions but the hole |
| CkPir.PIRClient.SetParms | baselines/ck-pir/src/client.cpp:15-21 | the depth is the largest whose leaves fit the database, so that every output is found in the first window and below 2^lgn; the sets are kept |
| CkPir.PIRClient.GenerateOfflineQuery | baselines/ck-pir/src/client.cpp:80-91 | the query lists key and shift of every set |
| CkPir.PIRClient.UpdateLocalHints | baselines/ck-pir/src/client.cpp:93-97 | every hint takes up its reply by XOR |
| CkPir.PIRClient.FindInSet | baselines/ck-pir/src/client.cpp:136-143 | the first of the 2^(lgn/2) positions whose value plus the shift, modulo dbrange, is the index, or -1 when none is |
| CkPir.PIRClient.GenerateOnlineQuery | baselines/ck-pir/src/client.cpp:128-163 | it fails exactly when no position of any set holds the index; otherwise it punctures the first set that holds it at its first such position |
| CkPir.PIRClient.RecoverBlock | baselines/ck-pir/src/client.cpp:165-169 | if the hint is the parity of the set and the reply the parity without one position, the block is the one at that position |
| CkPir.Prepare | baselines/ck-pir/main.cpp:50-80 | after the offline phase every hint is the parity of all positions of its set |
| CkPir.Fetch | baselines/ck-pir/main.cpp:82-106 | for any keys and shifts, a query fails exactly when no set holds the index and otherwise returns db[index], and all hints stay valid for the next query |

## Left out

- AES, `kdf`, the key schedule and random generators: arbitrary functions and
  arguments here. The batched AES calls of the eight-lane evaluator are taken to
  work block by block, which holds because they are made with eight blocks.
- Probabilities: Bernoulli parameters, failure rates and privacy. `find_valid_key`
  works on a copy of the key, so it has no effect on the stored sets; the
  exception it throws after 128 attempts is not modelled.
- Database sizes of 2^31 or more, where 32-bit sums of the incremental scheme
  can wrap and `1 << lgn` leaves the range of int: `MAX_RANGE` bounds the ranges
  of queries and batches. Set sizes of 0 and 1 are modelled in preparation only:
  with setsize 0 the code divides by zero in refresh and sampling, with setsize 1
  a coin that keeps the index leaves nothing to remove. Counts of slots do wrap in
  the model.
- `log2` on floating point numbers is the exact integer logarithm; the sums of
  counts kept as `double` are exact integers.
- PirClient.PIRClient.BatchedAdditionQuery: requires a valid client. After an
  overdrawn batch the next one converts a sum of 2^32 or more to a 32-bit word,
  which the language leaves undefined (`PirOverdraw.SumFitsIff`).
- PirClient.PIRClient.SampleBatch: does not say which block a tuple names, because the
  code never reads it; the positions and their number decide the batch.
- PirClient.PIRClient.GenerateOnlineQuery: a coin that keeps the index requires
  another index in the set, since the code takes a remainder by the number of the
  others; a valid client always has one.
- `generate_online_query` falls back to set 0 when its search fails. The step and
  its drift are modelled; that the answer is then useless is not a claim here.
- `cur_qry_setno` before the first query is uninitialised in the code; recovery
  and refresh are only called after a query.
- The explicit `ell == last_range` exception of `batched_addition_reply` and the
  input check of the walk that follows it are one failure in the model.
- `delete_element`, `edit_element`, null database pointers and client numbers:
  no property beyond plumbing.
- The assertions `alpha < (1<<logn)` and `x < (1<<logn)` shift an int; the model
  states the intended bound 2^logn for logn up to 63.
- PuncPrf.Extract: requires a window in range among the shifts j <= 31 - lgn; for
  larger j the code shifts an int out of its range.
- PuncPrf.BreadthEval: the size check inside its loop never fires, because the
  frontier doubles on every level, and has no branch in the model. The interval
  must not be longer than the frontier, which the code would read past.
- PuncPrf.EvalPunc: requires lgn keys, and a kept key for the point, since the code
  reads an uninitialised label for a point that agrees with the punctured one in its
  lowest lgn bits without being equal to it.
- CkPir.PIRServer.GenerateOnlineReply: requires lgn keys and a hole below 2^lgn, for
  the same reason; every query of a client has them.
- `generate_refresh_query` of the puncturable scheme punctures the old position,
  not the new one, so that no refresh claim is made for that scheme.
- HashStore.HashDataStore.AnswerPir1: the eight lines of its loop body are one
  inner loop over the lanes, as in AnswerPir2.
- `answer_pir3`, `answer_pir4`, `answer_pir5`: the first shifts bytes instead of
  bits, the others enumerate cases.
- Repeating an answer 62 times to pad items to 2 kB, protobuf, sockets, threads,
  timing, command lines and simulation drivers.
