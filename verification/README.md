# Verified model of the DCore chain

This project models the parts of a DCore node where correctness is hardest to see from any one
function, and proves what they promise:

- **State and forks.** The undo log behind every session, the fork tree, and the way a block is
  pushed on top of them: extend, switch, fail half way and roll back.
- **Time.** Slots and the miner schedule, the last irreversible block, the fee budget miners are
  paid from.
- **Money.** Balances, co-author splits, purchases and publishing escrows, vesting, fees and fee
  pools, and the equation between the real supply and the supply counters.
- **Cryptographic algebra.** Secret sharing of content keys, the verifiable delivery of a share, and
  proofs of custody.
- **The account member index.**

Whatever the node changes in place is a class whose methods are proved against a function of the
old state; the properties are then proved about those functions, over whole runs. Exceptions are
results (`None`, `false`, a rejected `Outcome`). Amounts and times are mathematical integers unless
a width is named below. Hashes, random draws and the application rules of a block are parameters, so
the results hold for all of them.

## How the modules fit together

| module | what it holds |
|---|---|
| `UndoLog`, `UndoMachine`, `UndoDatabase` | one undo record; the stack of records over runs of commands; the object with its loops |
| `Blocks`, `ForkDatabase`, `Replay` | block ids and ancestors; the fork tree; the state as a replay of blocks |
| `Switching`, `SwitchOutcomes`, `PushedTree`, `Anchoring`, `RootFork`, `ChainDatabase` | pushing a block as a function of head, undo stack and fork tree; which outcome it has; what it leaves in the fork tree; the undo bound and irreversibility; a switch left half way; the mutable node that computes that function |
| `ModularArithmetic`, `Fermat`, `Interpolation`, `ShamirSecret`, `DeliveryProof`, `DeliverySoundness`, `CustodyProof`, `CustodyReach` | residues and inverses; Fermat's theorem; Lagrange interpolation; the three protocols and what an accepted delivery proof shows; the rows custody proofs can be given for |
| `MinerSchedule`, `Irreversibility`, `MinerBudget` | slots and shuffle; irreversibility; fee budget |
| `Balances`, `Payout`, `CustodyReward`, `Vesting` | one balance; one split; one content's escrow; one vesting balance |
| `Ledger`, `LedgerEffects`, `Purchases`, `KeyDelivery`, `Supply`, `Housekeeping`, `LedgerDatabase` | all holders of money and all events that move it; what each needs and moves; purchases over runs; delivery by a quorum; conservation over runs; the expiry pass; the mutable database |
| `MemberIndex` | the secondary index of authorities |
| `Division`, `Permutation`, `Options` | shared helpers |

Money results read in this order: `Ledger.Step` is every operation with its fee, every block payment
and every maintenance step; `Purchases` shows what each step does to purchases; `Supply` shows that
no step moves `Surplus`, what is held of an asset less what the counters say, except that asset
creation can mint some of the core asset.

## Where the code does not do what one would expect

Each item names the lemma that gives the exact condition, and a concrete case where there is one.

- After an inner session commits, the outer session's undo reverts the inner entry; it still restores its own
  opening exactly when both sessions started at the same store (`UndoMachine.InnerCommitUndoIff`,
  `UndoMachine.SessionsStayOwnedIff`).
- Nesting more sessions than the bound of the stack prunes entries that sessions still own
  (`UndoMachine.PrunedSessionUndoIff`; three sessions with a bound of one: `UndoMachine.PruningMisdirectsUndo`).
- A failed switch to another fork does not always put the old head back. The roll-back moves the fork tree's
  own head down once for every block it pops, and stops when that head has no parent left to move to
  (`SwitchOutcomes.RollBackIff`). A push one above the head restores it exactly when more than the pushed
  block fails or the split item is still in the tree (`SwitchOutcomes.FailedPushIff`); a fork from before the first
  block never does (`SwitchOutcomes.SplitAtRootIsInterrupted`; three pushes: `RootFork.RootForkStopsHalfWay`).
  The object state is a replay of the head in every case. Because `pop_block` also moves the fork tree's head,
  the chain properties are stated over the object state and the chain head.
- An honest delivery proof of a message that is a multiple of the modulus does not verify
  (`DeliveryProof.HonestProofVerifies`); key shares never are.
- `get_m` computes file positions in 32 bits, so rows past 4 GiB are proved from the wrong place: honest proofs for
  given rows are accepted for every file of a length exactly when 32-bit positions reach these rows
  (`CustodyReach.AlwaysAcceptedIff`). All rows of a file are reached exactly when they end, padding included, within
  4 GiB (`CustodyReach.EveryQueryInReachIff`); a file of exactly 4 GiB in 20 sectors is already too long
  (`CustodyReach.Exactly4GiBIsRefused`).
- One block too many can be paid from the fee budget of an interval, without skipped maintenance slots, when neither
  the maintenance block nor the next maintenance time is on the slot grid (`MinerBudget.EnoughSharesIff`,
  `MinerBudget.AlignedNeverCarries`). Legal parameters that stay the same keep maintenance times on the grid and never
  overspend (`MinerBudget.LegalParametersNeverOverspend`); a change from one legal set to another can
  (`MinerBudget.ChangedIntervalOverspends`).
- Content submission adds splits in 32 bits and bounds no single one, so a split beyond 100% is
  accepted when the sum wraps, and then payouts throw (`Payout.AcceptedSplitsPayExactlyWithin32Bits`,
  `Payout.WrappedSplitsAreAccepted`).
- The creation of an asset books the rounded-up half of its fee twice: an odd core fee mints one unit, a
  fee in another asset mints the whole half (`Supply.StepSurplus`,
  `Supply.OddCreationFeeBreaksTheEquation`).
- `get_real_supply` adds vesting balances and purchase escrows of other assets as if they were core
  (`Supply.BudgetAssertionHoldsIff`, `Supply.ForeignVestingBreaksTheEquation`).
- Claiming pooled fees is checked before the operation's own fee leaves the same pool, which can
  leave the pool negative (`Supply.ClaimOverdrawsPoolIff`, `Supply.WholePoolClaimedTwice`).
- Housekeeping starts looking one block interval after the previous maintenance, so what expires in
  between is never found (`Housekeeping.FoundExactlyIff`, `Housekeeping.OffGridIsMissed`).
- A vested deposit is not available before `start_claim` (`Vesting.VestedDepositIsAvailable`).
- Undoing the removal of an account does not tell the member index
  (`MemberIndex.UndoneRemovalStaysExactIff`). Accounts are only ever removed at genesis, where undo is off
  (libraries/chain/db_init.cpp:248), so no operation makes this happen.

## Model

| member | source | states |
|---|---|---|
| `UndoLog.RevertRestores` | libraries/db/undo_database.cpp:94-125 | reverting the record of a step gives back the objects and next-id counters before it |
| `UndoLog.RecordSetsAreDisjoint` | libraries/db/undo_database.cpp:47-93 | new, modified and removed ids of a record never overlap |
| `UndoLog.EmptyRecordsNothing` | libraries/db/undo_database.cpp:33-46 | a fresh stack entry is the record of the empty step |
| `UndoLog.CreateIsRecorded` | libraries/db/undo_database.cpp:47-59 | after `on_create` the entry records the step that includes the creation |
| `UndoLog.ModifyIsRecorded` | libraries/db/undo_database.cpp:60-72 | after `on_modify` the entry records the step that includes the modification |
| `UndoLog.RemoveIsRecorded` | libraries/db/undo_database.cpp:73-93 | after `on_remove` the entry records the step that includes the removal |
| `UndoLog.ImpossibleMergesNeverOccur` | libraries/db/undo_database.cpp:136-160 | the table's N/A cells are unreachable, since ids are never handed out twice and removed objects not touched |
| `UndoLog.MergeRecordsBoth` | libraries/db/undo_database.cpp:127-240 | the merged record is the record of the two steps together |
| `UndoLog.MergeIsComposition` | libraries/db/undo_database.cpp:127-240 | reverting the merged record equals reverting the newer then the older one |
| `UndoMachine.StepConsistent` | libraries/db/undo_database.cpp:33-283 | every command keeps each stack entry the record of the step from its opening to the next opening |
| `UndoMachine.PopRestoresTopOpening` | libraries/db/undo_database.cpp:94-125 | `undo` and `pop_commit` give back the store held when the top entry was opened |
| `UndoMachine.UndoRestoresTopOpening` | libraries/db/undo_database.cpp:94-125 | the same after every run of edits, starts, merges, commits, undos and pops |
| `UndoMachine.StepKeepsSessions` | libraries/db/undo_database.cpp:33-46 | each open session owns its own stack entry if only outermost sessions commit and nesting stays within the bound |
| `UndoMachine.RunKeepsSessions` | libraries/db/undo_database.cpp:33-46 | that ownership over every disciplined run |
| `UndoMachine.OwnedUndo` | libraries/db/include/graphene/db/undo_database.hpp:59-68 | a session that owns the top entry gets its own opening back |
| `UndoMachine.SessionUndoRestoresItsOpening` | libraries/db/include/graphene/db/undo_database.hpp:52-82 | in every run that commits outermost sessions only and nests within the bound, undoing a session restores the store at which that session started |
| `UndoMachine.SessionsStayOwnedIff` | libraries/db/undo_database.cpp:33-46 | a step leaves every open session its own entry exactly when it keeps those two rules, or is an inner commit among sessions started at one store |
| `UndoMachine.InnerCommitUndoIff` | libraries/db/undo_database.cpp:241-246 | after an inner commit the outer session restores its own opening exactly when both sessions started at the same store |
| `UndoMachine.UndosFollowHistory` | libraries/db/undo_database.cpp:94-125 | repeated undos go back through the openings of the entries and then stay at the oldest |
| `UndoMachine.PrunedSessionUndoIff` | libraries/db/undo_database.cpp:40-41 | a session whose entry was pruned restores its own opening exactly when that is the opening of the oldest entry left |
| `UndoMachine.PruningMisdirectsUndo` | libraries/db/undo_database.cpp:40-41 | three nested sessions with a bound of one: undoing all three leaves what the outermost created |
| `UndoMachine.InnerCommitMisdirectsUndo` | libraries/db/undo_database.cpp:241-246 | the failing shape for every store: what the outer session created before an inner commit survives its undo |
| `UndoDatabase.UndoDatabase.StartSession` | libraries/db/undo_database.cpp:33-46 | the pruning loop and the new entry: the machine's start step, history kept in line |
| `UndoDatabase.UndoDatabase.PruneFront` | libraries/db/undo_database.cpp:40-41 | dropping from the front leaves the newest entries the bound allows |
| `UndoDatabase.UndoDatabase.Create` | libraries/db/undo_database.cpp:47-59 | creation with its record; refused exactly for an unknown index |
| `UndoDatabase.UndoDatabase.Modify` | libraries/db/undo_database.cpp:60-72 | modification with its record; refused exactly for a missing object |
| `UndoDatabase.UndoDatabase.Remove` | libraries/db/undo_database.cpp:73-93 | removal with its record; refused exactly for a missing object |
| `UndoDatabase.UndoDatabase.Restore` | libraries/db/undo_database.cpp:101-119 | the four restoring loops, in any map order, give back the store before the recorded step |
| `UndoDatabase.UndoDatabase.Undo` | libraries/db/undo_database.cpp:94-125 | the store becomes the one at the opening of the top entry; legal exactly with a session open |
| `UndoDatabase.UndoDatabase.DestroySession` | libraries/db/include/graphene/db/undo_database.hpp:59-68 | a session left without commit or merge undoes itself |
| `UndoDatabase.UndoDatabase.Commit` | libraries/db/undo_database.cpp:241-246 | objects, entries and history stay; one session fewer |
| `UndoDatabase.UndoDatabase.PopCommit` | libraries/db/undo_database.cpp:247-283 | the store becomes the one at the opening of the top entry; legal exactly with an entry and no session |
| `UndoDatabase.UndoDatabase.PopEntry` | libraries/db/undo_database.cpp:247-283 | with no session open: the state before the top entry, or nothing when there is none |
| `UndoDatabase.UndoDatabase.SetMaxSize` | libraries/db/include/graphene/db/undo_database.hpp:135-135 | only the bound changes |
| `UndoDatabase.UndoDatabase.Merge` | libraries/db/undo_database.cpp:127-240 | the top two entries become one that records both steps; history loses the newer opening |
| `UndoDatabase.UndoDatabase.MergeRecords` | libraries/db/undo_database.cpp:176-237 | the loops over the newer record compute the composed record |
| `UndoDatabase.UndoDatabase.MergeUpdates` | libraries/db/undo_database.cpp:176-193 | the loop over modified objects: older values win and objects new in the older entry need none |
| `UndoDatabase.UndoDatabase.MergeRemovals` | libraries/db/undo_database.cpp:216-237 | the loop over removed objects: new ones vanish, modified ones become removed with the old value |
| `Blocks.SplitHeightIsHighest` | libraries/chain/fork_database.cpp:199-241 | the split is the greatest height at which two branches have the same `previous` |
| `ForkDatabase.LockFindsParent` | libraries/chain/fork_database.cpp:39-45 | a parent is locked exactly while the very item pointed to is held by the index, the head or a pinned branch |
| `ForkDatabase.AcceptsIff` | libraries/chain/fork_database.cpp:74-92 | a block is accepted exactly when it is less than `max_size` below the head and follows the null id or an indexed block |
| `ForkDatabase.PushedIs` | libraries/chain/fork_database.cpp:74-106 | which blocks and items the index holds after a push, and that the head moves to a higher block only |
| `ForkDatabase.PushedIsLinked` | libraries/chain/fork_database.cpp:82-90 | the parent of the new item is the item its predecessor is indexed under |
| `ForkDatabase.ResizedIs` | libraries/chain/fork_database.cpp:129-158 | a resize keeps exactly what lies at most the new bound below the head |
| `ForkDatabase.PushKeepsInvariants` | libraries/chain/fork_database.cpp:74-106 | a push keeps the index keyed by block and everything within `max_size` of the head |
| `ForkDatabase.ResizeKeepsInvariants` | libraries/chain/fork_database.cpp:129-158 | a resize keeps the index keyed, in range, the head in place and first-highest |
| `ForkDatabase.PushKeepsFirstHighest` | libraries/chain/fork_database.cpp:74-106 | the head stays the highest block and the first seen among those |
| `ForkDatabase.StepKeepsHealthy` | libraries/chain/fork_database.cpp:58-158 | pushes, accepted or refused, and resizes keep all of these |
| `ForkDatabase.PushesKeepTheForkTree` | libraries/chain/fork_database.cpp:58-158 | the same over every run of pushes and resizes |
| `ForkDatabase.ForkDatabase.PushBlock` | libraries/chain/fork_database.cpp:58-106 | throws exactly for a block too old or unlinked; otherwise the tree is the pushed one and the head is answered |
| `ForkDatabase.ForkDatabase.SetMaxSize` | libraries/chain/fork_database.cpp:129-158 | erases exactly what falls below the new bound |
| `ForkDatabase.ForkDatabase.PopBlock` | libraries/chain/fork_database.cpp:39-45 | the head moves to its parent, or throws with the head unchanged when the parent is gone |
| `ForkDatabase.ForkDatabase.FetchBranchFrom` | libraries/chain/fork_database.cpp:199-241 | answers the two complete parent-linked paths down to the split height; throws exactly when a block is not indexed or a parent on the way was erased; terminates |
| `ForkDatabase.ForkDatabase.Descend` | libraries/chain/fork_database.cpp:214-225 | the loop that lowers the higher branch keeps a linked path and fails exactly on an erased parent |
| `ForkDatabase.ForkDatabase.DescendBoth` | libraries/chain/fork_database.cpp:226-240 | the loop that lowers both branches ends at the split with both paths |
| `Replay.ReplayHead` | libraries/chain/db_block.cpp:501-559 | the replay of a block leaves that block as the head |
| `Replay.AncestorsReplay` | libraries/chain/db_block.cpp:501-559 | if a block replays so do all its ancestors |
| `Replay.AppliedBlockReplays` | libraries/chain/db_block.cpp:481-559 | applying a block on a replayed state gives the replay of that block, whose predecessor was the head |
| `Replay.PruneKeepsReplay` | libraries/db/undo_database.cpp:40-41 | pruning old entries keeps every remaining entry a replayed state |
| `Replay.PushKeepsReplay` | libraries/chain/db_block.cpp:207-212 | a committed block entry leads back to the replay of its predecessor |
| `Replay.PopKeepsReplay` | libraries/chain/db_block.cpp:446-459 | popping an entry gives the replay of the block below |
| `Replay.ReachAfterBlock` | libraries/chain/db_update.cpp:98-98 | within the bound, a new block extends how far back the undo entries reach |
| `Switching.AppliesIffReplays` | libraries/chain/db_block.cpp:501-559 | a block applies exactly when it follows the head and replays |
| `Switching.TriedBranchEnds` | libraries/chain/db_block.cpp:164-177 | trying a branch ends at its top, or below the lowest block that does not replay |
| `Switching.PopAllIff` | libraries/chain/db_block.cpp:160-162 | popping reaches its target exactly when the undo stack holds it and the fork head can follow that often; it lacks an undo entry exactly when only the fork head could have gone on |
| `Switching.PopAllStops` | libraries/chain/db_block.cpp:446-459 | where popping stops half way: at the first block whose fork item has lost its parent, or with the undo stack used up and the fork head one further down |
| `Switching.LinkedIsPath` | libraries/chain/fork_database.cpp:199-241 | a parent-linked path is the one that following parents gives |
| `SwitchOutcomes.SwitchedIff` | libraries/chain/db_block.cpp:155-202 | a switch goes through exactly when both branches are found, the old one can be popped and the new head replays; not found means refused with nothing changed; not popped means interrupted |
| `SwitchOutcomes.HistoryReachesSplit` | libraries/chain/db_block.cpp:160-162 | with the fork head indexed and the undo stack down to the split, the old branch is always popped |
| `SwitchOutcomes.TriedBranchKeepsReach` | libraries/chain/db_update.cpp:98-98 | a branch that does not move irreversibility past the split leaves the way back open |
| `SwitchOutcomes.RollBackIff` | libraries/chain/db_block.cpp:178-199 | a roll-back puts the old head back exactly when the undo stack holds the split and the fork head can be moved down as often: always along the old branch, beyond it only while parents are held |
| `SwitchOutcomes.FailedSwitchIff` | libraries/chain/db_block.cpp:178-199 | given the history, a failed switch restores the old head exactly when the applied part is shorter than the old branch or the fork items below the split are held; otherwise it stops for want of a fork item |
| `SwitchOutcomes.FailedSwitchOneHigherIff` | libraries/chain/db_block.cpp:178-199 | for a new head one above the old: exactly when more than the top block fails or the split item is still indexed |
| `SwitchOutcomes.SplitAtRootIsInterrupted` | libraries/chain/fork_database.cpp:39-45 | a fork from before the first block of which only the top fails is never rolled back |
| `SwitchOutcomes.PushOutcomeIff` | libraries/chain/db_block.cpp:140-240 | exactly when a push extends, ignores or switches, and which head each outcome leaves |
| `SwitchOutcomes.FailedPushIff` | libraries/chain/db_block.cpp:140-240 | given the undo history, a failed push of a block one above the head leaves the head as before exactly when more than that block fails or the split item is still in the fork tree |
| `PushedTree.PushLeaves` | libraries/chain/db_block.cpp:140-219 | after an accepted push the fork tree holds what it held and the pushed block, items unchanged, less exactly the blocks refused and those below some height not above the fork head |
| `PushedTree.SwitchCuts` | libraries/chain/db_block.cpp:155-199 | a switch that was begun takes out of the tree exactly the blocks from the lowest failing one up, and trims |
| `PushedTree.RefusedBlockIsGone` | libraries/chain/db_block.cpp:207-218 | a block tried straight on the head that does not follow it or does not replay is refused and no longer in the tree |
| `PushedTree.ChildOfRefusedIsRefused` | libraries/chain/db_block.cpp:148-219 | pushing a child of such a block is refused and changes nothing |
| `PushedTree.ExtendUndo` | libraries/chain/db_block.cpp:207-239 | the undo stack, its bound and the fork head after a block tried straight on the head, applied or thrown |
| `RootFork.RootForkStopsHalfWay` | libraries/chain/db_block.cpp:178-199 | three pushes after which the node is left at a block it had never had as head |
| `Anchoring.ExtendKeepsAnchor` | libraries/chain/db_update.cpp:89-99 | the undo stack keeps reaching back to its anchor, at first the genesis state and then the highest irreversible block, over blocks that apply and blocks that throw |
| `Anchoring.SwitchIsNeverShort` | libraries/chain/db_update.cpp:98-99 | a switch whose split is not below the anchor, to a branch that replays or keeps the split open, never lacks an undo entry |
| `Anchoring.IrreversibleGrows` | libraries/chain/db_update.cpp:141-183 | along every branch the irreversible number never falls and never exceeds the block number |
| `Anchoring.SwitchKeepsAnchor` | libraries/chain/db_block.cpp:151-199 | a switch that goes through keeps the anchor or moves it up to the new irreversible number; one rolled back or interrupted leaves it at the split or that number |
| `Anchoring.PushKeepsAnchor` | libraries/chain/db_block.cpp:140-239 | a push without a switch, or whose switch splits at or above the anchor to a branch that replays or keeps the split open, keeps the anchor and never lacks an undo entry |
| `Anchoring.AllowedRunIsNeverShort` | libraries/chain/db_block.cpp:140-239 | the same for each push of every run of such pushes from an anchored state |
| `Anchoring.PushesAreNeverShort` | libraries/db/include/graphene/db/undo_database.hpp:149-149 | the same from the fresh node on, whose anchor is the genesis state |
| `ChainDatabase.ChainDatabase.ApplyBlock` | libraries/chain/db_block.cpp:207-218 | succeeds exactly when the block follows the head and replays; the new head, undo stack, bound and fork tree are those of a tried block |
| `ChainDatabase.ChainDatabase.PopBlock` | libraries/chain/db_block.cpp:446-459 | fork head first, then undo entry; stuck exactly when one is missing, with the reason |
| `ChainDatabase.ChainDatabase.PopTo` | libraries/chain/db_block.cpp:160-162 | the popping loop computes the popped state or the point where it is stuck |
| `ChainDatabase.ChainDatabase.ApplyBranch` | libraries/chain/db_block.cpp:164-177 | goes through exactly when the top replays; else it stops at the lowest block that throws |
| `ChainDatabase.ChainDatabase.RollBack` | libraries/chain/db_block.cpp:178-199 | drops the failed blocks, pops and reapplies: outcome and state are those `SwitchOutcomes.RollBackIff` characterises |
| `ChainDatabase.ChainDatabase.SwitchFork` | libraries/chain/db_block.cpp:155-202 | outcome and state are those that `SwitchOutcomes.SwitchedIff` and `SwitchOutcomes.FailedSwitchIff` characterise |
| `ChainDatabase.ChainDatabase.PushOnto` | libraries/chain/db_block.cpp:140-240 | the branches of `_push_block`: outcome, undo stack and fork tree are those that `SwitchOutcomes.PushOutcomeIff`, `SwitchOutcomes.FailedPushIff` and `PushedTree.PushLeaves` characterise |
| `ChainDatabase.ChainDatabase.PushBlock` | libraries/chain/db_block.cpp:125-138 | the object state is always the replay of exactly the path to the head; head and objects stay when the block is ignored or refused; a block refused on the head leaves the tree, which otherwise loses only what a failed switch drops and what is trimmed |
| `ModularArithmetic.InvertWorks` | libraries/encrypt/encryptionutils.cpp:416-416 | the extended Euclidean inverse is an inverse modulo a prime |
| `Interpolation.PartitionOfUnity` | libraries/encrypt/encryptionutils.cpp:398-419 | the Lagrange weights at zero for distinct places add up to one modulo a prime |
| `Interpolation.LagrangeReproduces` | libraries/encrypt/encryptionutils.cpp:398-419 | interpolating at least as many points as coefficients gives the polynomial's value at zero |
| `ShamirSecret.SharesRecoverTheSecret` | libraries/encrypt/encryptionutils.cpp:398-419 | the sum of numerator, inverse denominator and value over any quorum of distinct shares is the secret |
| `ShamirSecret.ShamirSecret.CalculateSplit` | libraries/encrypt/encryptionutils.cpp:375-396 | share `k` is the value at place `k` of the polynomial with the secret as constant term |
| `ShamirSecret.ShamirSecret.ShareAt` | libraries/encrypt/encryptionutils.cpp:389-395 | the inner loop evaluates the polynomial modulo the order |
| `ShamirSecret.ShamirSecret.CalculateSecret` | libraries/encrypt/encryptionutils.cpp:398-419 | the two loops compute the Lagrange sum over the points held |
| `ShamirSecret.SplitAndRestore` | libraries/encrypt/encryptionutils.cpp:375-419 | splitting and restoring from any distinct shares, a quorum at least, returns exactly the secret |
| `DeliveryProof.DecryptsToResidue` | libraries/encrypt/encryptionutils.cpp:137-213 | decrypting an encryption gives the message modulo the group's prime |
| `DeliveryProof.DecryptionRoundTrip` | libraries/encrypt/encryptionutils.cpp:137-213 | it gives the message itself exactly when the message is below the prime |
| `DeliveryProof.HonestProofVerifies` | libraries/encrypt/encryptionutils.cpp:266-373 | an honest proof passes all three checks for every randomness exactly when the message is not zero modulo the prime or the challenge is zero |
| `DeliveryProof.ZeroMessageFails` | libraries/encrypt/encryptionutils.cpp:294-303 | for a zero message and a non-zero challenge the third check fails |
| `DeliveryProof.DeliveredMessageIsRead` | libraries/encrypt/encryptionutils.cpp:308-373 | the consumer decrypts what was delivered to the message |
| `DeliveryProof.ShareFitsGroup` | libraries/encrypt/encryptionutils.cpp:147-154 | a point of two 32-byte halves decodes back, and is below the modulus exactly when its halves compare so |
| `DeliveryProof.DeliveredShareIsRead` | libraries/encrypt/encryptionutils.cpp:137-373 | every non-zero share the group can carry, delivered with an honest proof, verifies and is read unchanged |
| `DeliveryProof.EncryptedHolds` | libraries/encrypt/encryptionutils.cpp:137-176 | an encryption holds its message for the owner of the key, for every randomness |
| `DeliveryProof.AuthorToConsumer` | libraries/encrypt/encryptionutils.cpp:137-373 | author encrypts, seeder decrypts and delivers with proof, the proof verifies and the consumer reads the share, for all randomness |
| `DeliverySoundness.VerifiesIff` | libraries/encrypt/encryptionutils.cpp:266-304 | a delivery proof is accepted exactly when three equations of powers hold, the third without inverses |
| `DeliverySoundness.TwoAnswersOpenKeys` | libraries/encrypt/encryptionutils.cpp:286-292 | two accepted answers on the same commitments: `g^s key1^x' == g^s' key1^x`, and the same for `r` and `second.D1` |
| `DeliverySoundness.PowerOfDifference` | libraries/encrypt/encryptionutils.cpp:286-292 | hence `g^(s - s') == key1^(x - x')`, and likewise for `r` |
| `DeliverySoundness.TwoAnswersCarry` | libraries/encrypt/encryptionutils.cpp:294-304 | and the relation between the two ciphertexts that the third check ties to both answers |
| `DeliverySoundness.AnswerIsUnique` | libraries/encrypt/encryptionutils.cpp:286-292 | with commitments and challenge fixed, accepted answers agree as powers of the generator |
| `DeliverySoundness.MessagesAgree` | libraries/encrypt/encryptionutils.cpp:266-304 | two accepted answers show that the powers of both messages to the difference of the challenges agree |
| `DeliverySoundness.SameMessageIsDelivered` | libraries/encrypt/encryptionutils.cpp:266-304 | if that difference is prime to `p - 1`, the consumer decrypts exactly what the seeder does |
| `Fermat.FermatsTheorem` | libraries/encrypt/encryptionutils.cpp:284-284 | raising a non-zero residue to `p - 1` gives one, by which exponents are inverted |
| `CustodyProof.GetM` | libraries/encrypt/custodyutils.cpp:111-131 | the padded sector at the position that 32-bit arithmetic gives |
| `CustodyProof.NumberOfJoined` | libraries/encrypt/custodyutils.cpp:111-131 | the bytes of a sector are read most significant first |
| `CustodyProof.GetData` | libraries/encrypt/custodyutils.cpp:96-109 | the chunk at any position, zeros past the end |
| `CustodyProof.GetSigma` | libraries/encrypt/custodyutils.cpp:133-177 | one signature is the hash of the row index times the row's powers, to the private key |
| `CustodyProof.RowCount` | libraries/encrypt/custodyutils.cpp:21-26 | the rows cover the file and the last one is needed |
| `CustodyProof.GetSigmas` | libraries/encrypt/custodyutils.cpp:179-245 | chunked workers sign every row of the file once, row by row as the file reads |
| `CustodyProof.SignChunk` | libraries/encrypt/custodyutils.cpp:213-234 | the four workers cover the chunk, the last taking the remainder |
| `CustodyProof.SignRows` | libraries/encrypt/custodyutils.cpp:222-232 | a worker's rows are signed in place and earlier ones kept |
| `CustodyProof.ReadRow` | libraries/encrypt/custodyutils.cpp:225-231 | the sectors at a worker's offset into the chunk are those of its row of the file |
| `CustodyProof.ComputeMu` | libraries/encrypt/custodyutils.cpp:248-272 | each mu is the query-weighted sum of its sector over the queried rows |
| `CustodyProof.MuAt` | libraries/encrypt/custodyutils.cpp:250-271 | the inner loop computes that sum for one sector |
| `CustodyProof.ComputeSigma` | libraries/encrypt/custodyutils.cpp:387-403 | sigma is the product of the queried signatures to their coefficients |
| `CustodyProof.Verify` | libraries/encrypt/custodyutils.cpp:306-379 | the answer is zero exactly when the two pairings agree |
| `CustodyProof.ExchangeSums` | libraries/encrypt/custodyutils.cpp:248-272 | the product over sectors of powers of mu equals the product over queries of rows |
| `CustodyProof.SigmaFactors` | libraries/encrypt/custodyutils.cpp:387-403 | sigma factors into hashes and rows, to the private key |
| `CustodyProof.PairingEquation` | libraries/encrypt/custodyutils.cpp:306-379 | an honest proof satisfies the pairing equation exactly when the drift between signed and proved rows vanishes |
| `CustodyProof.AcceptedIffSignedRows` | libraries/encrypt/custodyutils.cpp:306-379 | with the aggregate of the author's signatures the verifier accepts exactly those `mu`, honest or not, that combine to what the signed rows combine to |
| `CustodyProof.NoDriftInReach` | libraries/encrypt/custodyutils.cpp:111-131 | rows within 32-bit positions have no drift |
| `CustodyProof.SmallFileInReach` | libraries/encrypt/custodyutils.cpp:111-131 | no query of a file whose rows, padding included, end within 4 GiB leaves that reach |
| `CustodyProof.QueryIndices` | libraries/encrypt/custodyutils.cpp:274-303 | at most sixteen indices, all of them rows of the file |
| `CustodyProof.SignProveVerify` | libraries/encrypt/custodyutils.cpp:133-403 | signing, proving and verifying any file with any key, query and coefficients is accepted within reach, and in general exactly when the drift vanishes |
| `CustodyReach.AlwaysAcceptedIff` | libraries/encrypt/custodyutils.cpp:111-131 | honest proofs for the queried rows are accepted for every file of a length, all public elements and coefficients exactly when 32-bit positions reach these rows |
| `CustodyReach.OutOfReachIsRefused` | libraries/encrypt/custodyutils.cpp:111-131 | for every queried row out of reach, a file, elements and coefficients with which the honest proof is refused |
| `CustodyReach.SectorOutOfReach` | libraries/encrypt/custodyutils.cpp:111-131 | a file with one byte set for which signer and prover read the first sector out of reach differently |
| `CustodyReach.EveryQueryInReachIff` | libraries/encrypt/custodyutils.cpp:111-131 | every query of a file is in reach exactly when its rows, padding included, end within 4 GiB |
| `CustodyReach.Exactly4GiBIsRefused` | libraries/encrypt/custodyutils.cpp:111-131 | a file of exactly 2^32 bytes in 20 sectors whose padded last row is refused |
| `MinerSchedule.SlotFunctionsAreAdjoint` | libraries/chain/db_miner_schedule.cpp:42-78 | a time is in slot `n` exactly when it lies from the start of slot `n` to that of the next, in genesis, maintenance and normal states |
| `MinerSchedule.FirstSlotStarts` | libraries/chain/db_miner_schedule.cpp:42-70 | slot 1 starts one interval after genesis, later at the next multiple of the interval after the head, and after maintenance the skipped slots later |
| `MinerSchedule.BlockAdvancesSlot` | libraries/chain/db_miner_schedule.cpp:42-78 | a block in a slot moves the absolute slot on by one, after maintenance by the skipped slots too |
| `MinerSchedule.Shuffled` | libraries/chain/db_miner_schedule.cpp:86-119 | every prefix of the shuffle is a permutation of the active miners, whatever is drawn |
| `MinerSchedule.ShuffleIsLottery` | libraries/chain/db_miner_schedule.cpp:101-117 | the shuffle is the lottery in which each place goes to the drawn one of the miners left |
| `MinerSchedule.EveryScheduleIsPossible` | libraries/chain/db_miner_schedule.cpp:101-117 | every order of the active miners comes from some draws |
| `MinerSchedule.UpdateSchedule` | libraries/chain/db_miner_schedule.cpp:86-119 | the swapping loop draws that lottery, at multiples of the number of miners only |
| `MinerSchedule.WindowIsFair` | libraries/chain/db_miner_schedule.cpp:34-40 | any window of as many slots as miners is a rearrangement of the schedule |
| `MinerSchedule.EachMinerOncePerWindow` | libraries/chain/db_miner_schedule.cpp:34-119 | each active miner is scheduled exactly once in every window |
| `Irreversibility.NthElement` | libraries/chain/db_update.cpp:166-171 | the selection puts the element at the offset in its sorted place and permutes the rest |
| `Irreversibility.QuantileIsLargestConfirmed` | libraries/chain/db_update.cpp:164-173 | that element is the largest number confirmed by all but `offset` miners |
| `Irreversibility.QuorumIsSeventyPercent` | libraries/chain/include/graphene/chain/config.hpp:107-107 | all miners less the offset are seven in ten |
| `Irreversibility.RefusedMovesNothing` | libraries/chain/db_update.cpp:89-97 | a block that throws, or is 10000 or more ahead of the irreversible one, moves neither |
| `Irreversibility.SkippedCheckTrustsHead` | libraries/chain/db_update.cpp:146-153 | without the undo-history check every block is irreversible at once |
| `Irreversibility.BlockKeepsSound` | libraries/chain/db_update.cpp:141-183 | a block never moves irreversibility back or past the head, keeps the undo entries down to it and no more than the bound it sets |
| `Irreversibility.AdvanceIsConfirmed` | libraries/chain/db_update.cpp:155-183 | an advance goes to a number that seven in ten active miners confirmed, and after every accepted block no larger number is confirmed by as many |
| `Irreversibility.IrreversibleAlwaysReachable` | libraries/chain/db_update.cpp:89-183 | over every run of pushes irreversibility is monotone, at most the head, and reachable by undo |
| `Irreversibility.UpdateLastIrreversible` | libraries/chain/db_update.cpp:141-183 | the number written never decreases; seven in ten active miners confirmed it when it advances, and never a larger one |
| `MinerBudget.NextMaintenanceIsNext` | libraries/chain/db_maint.cpp:262-293 | the next maintenance is in the future and at most one interval away |
| `MinerBudget.NextMaintenanceIsOnGrid` | libraries/chain/db_maint.cpp:262-293 | the first maintenance time is a multiple of the interval, and later ones are whole intervals apart |
| `MinerBudget.SharesAreEqual` | libraries/chain/db_update.cpp:108-118 | the interval is divided into just as many blocks as cover it, and the budget into equal shares with less than one unit a block left over |
| `MinerBudget.BlockPays` | libraries/chain/db_block.cpp:501-559 | a block collects its fees and pays one share; a maintenance block turns all that is collected and unspent into the next budget |
| `MinerBudget.AcceptedIff` | libraries/chain/db_miner_schedule.cpp:72-78 | a block is accepted exactly after the head and not before its first slot |
| `MinerBudget.PaidAtMost` | libraries/chain/db_update.cpp:102-132 | no legal sequence of blocks between two maintenances is longer than the slots between them |
| `MinerBudget.PaidAttained` | libraries/chain/db_update.cpp:102-132 | and one is exactly that long |
| `MinerBudget.MostPaidVersusBlocks` | libraries/chain/db_update.cpp:108-109 | that most differs from `blocks_in_interval` by the skipped slots and one carry |
| `MinerBudget.EnoughSharesIff` | libraries/chain/db_update.cpp:102-132 | `blocks_in_interval` suffices for every legal sequence exactly when a slot is skipped or no carry occurs |
| `MinerBudget.AlignedNeverCarries` | libraries/chain/db_miner_schedule.cpp:42-70 | there is no carry when either of the two maintenances is on the slot grid |
| `MinerBudget.OneMoreShare` | libraries/chain/db_update.cpp:116-132 | another block's share is always left |
| `MinerBudget.StepKeepsSolvent` | libraries/chain/db_block.cpp:501-559 | every accepted block keeps the unspent budget equal to the shares left, and non-negative |
| `MinerBudget.FeesNeverOverspent` | libraries/chain/db_update.cpp:102-132 | over any number of intervals whose shares suffice for their slots, the unspent fee budget never goes negative |
| `MinerBudget.FeesNeverOverspentFromGenesis` | libraries/chain/db_init.cpp:303-311 | the same for every such run from genesis |
| `MinerBudget.CarefulIf` | libraries/chain/db_maint.cpp:262-293 | the shares suffice when a slot is skipped, or the maintenance block or the next maintenance time is on the slot grid |
| `MinerBudget.NextStaysOnGrid` | libraries/chain/db_maint.cpp:262-293 | with legal parameters the maintenance time after one on the slot grid is on the slot grid |
| `MinerBudget.LegalParametersNeverOverspend` | libraries/chain/protocol/fee_schedule.cpp:218-221 | legal parameters that never change never overspend the fee budget, whatever the block times and without skipped slots |
| `MinerBudget.ChangedIntervalOverspends` | libraries/chain/db_maint.cpp:254-293 | a run of five blocks from genesis with two legal parameter sets, intervals 5 and 10 and then 3 and 6, that ends with a negative unspent budget |
| `MinerBudget.DynamicProperties.UpdateSigningMiner` | libraries/chain/db_update.cpp:102-132 | takes the block's share from the unspent budget and nothing else |
| `MinerBudget.DynamicProperties.PerformMaintenance` | libraries/chain/db_maint.cpp:129-139 | pool and remainder become the next budget, with the next maintenance time and the pending parameters |
| `MinerBudget.DynamicProperties.ApplyBlock` | libraries/chain/db_block.cpp:501-559 | every accepted block carries out one step; a solvent budget stays solvent when a maintenance leaves its interval covered |
| `Balances.AdjustedChanges` | libraries/chain/db_balance.cpp:55-81 | an adjustment succeeds exactly when covered, moves that one balance only, and keeps balances non-negative |
| `Balances.PaymentMoves` | libraries/chain/transfer_evaluator.cpp:56-60 | a covered payment goes through, moves the amount between the two accounts and keeps the total |
| `Payout.EveryPaymentCoversItsShares` | libraries/chain/decent_evaluator.cpp:29-48 | the shares fit into every payment exactly when the points add up to at most 10000 |
| `Payout.AcceptedSplitsPayExactlyWithin32Bits` | libraries/chain/decent_evaluator.cpp:144-173 | accepted splits pay every amount exactly when their sum stays below 2^32 |
| `Payout.WrappedSplitsAreAccepted` | libraries/chain/protocol/decent.cpp:23-34 | a concrete accepted split whose shares exceed the payment |
| `Payout.ListedAuthorsRemainderIsRounding` | libraries/chain/decent_evaluator.cpp:168-172 | a listed author's remainder is less than one unit per co-author |
| `Payout.SharesBounds` | libraries/chain/decent_evaluator.cpp:36-41 | all shares together lie within one unit per co-author below their exact fraction |
| `Payout.CreditsAddUpToPayment` | libraries/chain/decent_evaluator.cpp:29-48 | shares and remainder of all payees add up to the payment |
| `Payout.PaidOutCredits` | libraries/chain/decent_evaluator.cpp:29-48 | a payout settles exactly when the payment covers the shares, credits every account its due and no other |
| `Payout.SplitPayoutToCoauthors` | libraries/app/balance.cpp:9-33 | the history's split map lists exactly the credits of the payout, and fails exactly when it does |
| `Payout.AccountBalances.AdjustBalance` | libraries/chain/db_balance.cpp:55-81 | finds or creates the balance object and changes it alone; unchanged when it throws |
| `Payout.AccountBalances.ContentPayout` | libraries/chain/decent_evaluator.cpp:29-48 | the loop pays every share and the remainder to the author |
| `CustodyReward.SplittingAWaitNeverPays` | libraries/chain/decent_evaluator.cpp:877-894 | two proofs within a day earn at most what one at the end does, through all floors |
| `CustodyReward.FullDayIsFullReward` | libraries/chain/decent_evaluator.cpp:877-894 | from a full day on the reward is price times size |
| `CustodyReward.RatioIsPartOfDay` | libraries/chain/decent_evaluator.cpp:877-884 | a wait of up to a day counts in ten-thousandths of a day, rounded down |
| `CustodyReward.RewardRatioIs` | libraries/chain/decent_evaluator.cpp:884-890 | a quarter of the part missing to a day is lost, up to rounding |
| `CustodyReward.HalfDayReward` | libraries/chain/decent_evaluator.cpp:877-894 | half a day earns exactly seven sixteenths of a day's price, rounded down |
| `CustodyReward.ProofIsPaid` | libraries/chain/decent_evaluator.cpp:881-904 | which price a proof is paid by, when it is refused, and how far the escrow caps it |
| `CustodyReward.ProofStartsWait` | libraries/chain/decent_evaluator.cpp:845-912 | a first proof earns nothing; every proof not refused starts a new wait and takes its payment from the escrow |
| `CustodyReward.EarlyProofsNeverPay` | libraries/chain/decent_evaluator.cpp:877-903 | over every run within a day of his last proof a seeder earns at most the single reward, whatever other seeders do |
| `CustodyReward.EscrowIsNeverOverdrawn` | libraries/chain/decent_evaluator.cpp:895-903 | after block 404727 the escrow stays non-negative and pays exactly what it loses |
| `CustodyReward.UncappedProofOverdrawsIff` | libraries/chain/decent_evaluator.cpp:892-903 | up to that block a proof overdraws the escrow exactly when its reward exceeds it |
| `CustodyReward.Content.ProofOfCustody` | libraries/chain/decent_evaluator.cpp:845-912 | records the proof, pays the capped reward out of the escrow, pays nothing first time, throws exactly without an agreed price |
| `Vesting.AllowedIsCovered` | libraries/chain/vesting_balance_object.cpp:90-119 | what is allowed is covered by coin-seconds and by the balance |
| `Vesting.AllowedIff` | libraries/chain/vesting_balance_object.cpp:90-119 | an amount may be withdrawn exactly when claiming has started, the balance holds it and the coin-seconds earned pay for its whole vesting period |
| `Vesting.HeldIsAvailable` | libraries/chain/vesting_balance_object.cpp:90-119 | what has been held for the vesting period may all be withdrawn |
| `Vesting.AccrualIsPathIndependent` | libraries/chain/vesting_balance_object.cpp:90-109 | an update in between changes nothing later |
| `Vesting.WithdrawalCountsOnce` | libraries/chain/vesting_balance_object.cpp:132-142 | a withdrawal lowers what is allowed by exactly itself and keeps the cap |
| `Vesting.DepositMustVest` | libraries/chain/vesting_balance_object.cpp:121-124 | a plain deposit leaves what is allowed unchanged and keeps the cap |
| `Vesting.VestedDepositIsAvailable` | libraries/chain/vesting_balance_object.cpp:126-130 | a vested deposit raises what is allowed by exactly itself exactly when claiming has started or it is zero |
| `Vesting.StepKeepsCap` | libraries/chain/vesting_balance_object.cpp:90-158 | every operation keeps earned coin-seconds at most balance times vesting seconds |
| `Vesting.WithdrawalsArePaidFor` | libraries/chain/vesting_balance_object.cpp:90-158 | over every run the cap holds, no money appears or vanishes, and withdrawals are paid for in coin-seconds |
| `Vesting.VestedGrows` | libraries/chain/vesting_balance_object.cpp:37-68 | linear vesting is monotone and at most the initial balance |
| `Vesting.VestedIff` | libraries/chain/vesting_balance_object.cpp:37-68 | an amount has vested exactly when the cliff has passed and it is at most the elapsed part of the duration |
| `Vesting.LinearAllowedIff` | libraries/chain/vesting_balance_object.cpp:37-68 | and may be withdrawn exactly when it has vested on top of what was withdrawn before |
| `Vesting.LinearWithdrawalsAreBacked` | libraries/chain/vesting_balance_object.cpp:37-88 | under withdrawals what is allowed is between zero and the balance and withdrawals stay within what vested |
| `Vesting.LinearRunIsBacked` | libraries/chain/vesting_balance_object.cpp:37-88 | over every run of withdrawals all that was withdrawn had vested |
| `Vesting.LinearAllowance` | libraries/chain/vesting_balance_object.cpp:37-68 | a linear policy never allows more than the balance, and what is allowed falls by what is taken |
| `Vesting.VestingBalance.GetAllowedWithdraw` | libraries/chain/vesting_balance_object.cpp:234-238 | the allowed amount, between zero and the balance for a capped one |
| `Vesting.VestingBalance.Deposit` | libraries/chain/vesting_balance_object.cpp:207-212 | adds to the balance and keeps what is allowed |
| `Vesting.VestingBalance.DepositVested` | libraries/chain/vesting_balance_object.cpp:214-219 | adds balance with its coin-seconds; throws exactly for a linear balance |
| `Vesting.VestingBalance.Withdraw` | libraries/chain/vesting_balance_object.cpp:198-232 | for both policies refused exactly above what is allowed; otherwise balance and allowance fall by the amount |
| `Purchases.RefundedPays` | libraries/chain/db_decent.cpp:45-60 | a refund is always possible, closes the purchase and returns exactly the escrow to the consumer |
| `Purchases.DeliveryPays` | libraries/chain/decent_evaluator.cpp:593-670 | a key delivery by a seeder of the content fails only when a payout due is not covered; the seeders that answered grow by exactly this one; it moves nothing for a closed purchase, the price to the authors when they are a quorum, the escrow back when too late short of one |
| `Purchases.DeliveryGoesThrough` | libraries/chain/decent_evaluator.cpp:616-670 | with splits of at most 100% a delivery by a seeder of the content never fails |
| `Purchases.TransferToContentPays` | libraries/chain/transfer_evaluator.cpp:120-158 | a transfer to a content succeeds exactly when covered and credits the same split as a purchase |
| `Purchases.BoughtPays` | libraries/chain/decent_evaluator.cpp:450-561 | succeeds exactly when the consumer holds the price and an immediate payout is covered; a subscriber pays nothing, anyone else loses exactly the price; the purchase recorded holds it for 86400 seconds, or the authors are credited at once |
| `Purchases.ExpiredContentPays` | libraries/chain/db_decent.cpp:62-80 | the escrow goes back to the author, or a negative one is charged to account 20, which succeeds exactly when that account can pay |
| `Purchases.ExpiryPays` | libraries/chain/db_decent.cpp:235-243 | a pass over a due purchase refunds it if open and moves nothing if closed |
| `Purchases.StepEvolves` | libraries/chain/decent_evaluator.cpp:502-670 | every event keeps open purchases holding their price, closed ones empty and final, and contents' quorum and seeders |
| `Purchases.RunEvolves` | libraries/chain/decent_evaluator.cpp:502-670 | the same over every run |
| `Purchases.SettlesExactlyOnce` | libraries/chain/decent_evaluator.cpp:616-670 | in every run a purchase is settled at most once, exactly once if it ends closed, and never after |
| `Purchases.OnlyDeliveryOrExpirySettles` | libraries/chain/decent_evaluator.cpp:616-670 | only a delivery of its own keys or a housekeeping pass over it settles a purchase |
| `KeyDelivery.DeliveryOperationPays` | libraries/chain/decent_evaluator.cpp:593-670 | a delivery with its fee: what it moves, and with splits of at most 100% exactly when it goes through |
| `KeyDelivery.AnswersAreDeliverers` | libraries/chain/decent_evaluator.cpp:624-630 | over every run the seeders that answered a purchase are those before it and exactly those that delivered in it |
| `KeyDelivery.DeliveredIffQuorum` | libraries/chain/decent_evaluator.cpp:616-670 | until it expires an open purchase is delivered exactly when those are a quorum of distinct seeders |
| `KeyDelivery.QuorumDelivers` | libraries/chain/decent_evaluator.cpp:616-670 | a purchase whose keys a quorum delivered before it expired is delivered and stays so in every continuation |
| `KeyDelivery.DeliveredIsPaid` | libraries/chain/decent_evaluator.cpp:643-668 | and at one event of the run its price was credited to the authors |
| `LedgerEffects.TransferPays` | libraries/chain/transfer_evaluator.cpp:36-131 | a transfer goes through exactly when the sender holds the amount, and moves it to the receiver |
| `LedgerEffects.SubmitPays` | libraries/chain/decent_evaluator.cpp:133-379 | a content is submitted exactly with a good split, a quorum and a fee its author holds, which becomes its escrow |
| `LedgerEffects.ResubmitChangesSplit` | libraries/chain/decent_evaluator.cpp:277-330 | a resubmission replaces the split by another good one |
| `LedgerEffects.CustodyPays` | libraries/chain/decent_evaluator.cpp:892-905 | a proof pays the seeder out of the escrow, when capped no more than is there |
| `LedgerEffects.CreateVestingPays` | libraries/chain/vesting_balance_evaluator.cpp:33-100 | exactly a covered positive amount leaves its creator and vests |
| `LedgerEffects.WithdrawVestingPays` | libraries/chain/vesting_balance_evaluator.cpp:102-136 | an amount the vesting balance holds leaves it for its owner |
| `LedgerEffects.FundPoolsPays` | libraries/chain/asset_evaluator.cpp:230-263 | both pools of an asset other than core gain exactly what the payer loses; both must be covered |
| `LedgerEffects.ClaimFeesPays` | libraries/chain/asset_evaluator.cpp:280-300 | the issuer gains exactly what both pools lose |
| `LedgerEffects.ReservePays` | libraries/chain/asset_evaluator.cpp:201-227 | exactly a covered amount within the supply leaves its holder and the supply |
| `LedgerEffects.IssuePays` | libraries/chain/asset_evaluator.cpp:109-133 | what is issued reaches its receiver and the supply |
| `LedgerEffects.ChargedBooks` | libraries/chain/evaluator.cpp:75-98 | how a fee in core and a fee in another asset change the pools |
| `LedgerEffects.OperationPays` | libraries/chain/include/graphene/chain/evaluator.hpp:148-179 | an operation goes through exactly when it is admissible, its action applies with the fee booked and the payer then holds the fee, which he loses |
| `LedgerEffects.MinerPayVests` | libraries/chain/db_balance.cpp:83-151 | a miner's pay vests in his balance or a new one, the reward counted as mined and the rest taken from the unspent fees |
| `LedgerEffects.BudgetTakesFees` | libraries/chain/db_maint.cpp:97-139 | the next budget is the pool and what was unspent; the supply grows by what was mined and paid out of fees, less what was collected |
| `Housekeeping.SweptCloses` | libraries/chain/db_decent.cpp:235-243 | a pass closes exactly what it visits and touches nothing else but balances |
| `Housekeeping.SweepingAgainIsIdle` | libraries/chain/db_decent.cpp:235-243 | a pass over closed purchases changes nothing at all |
| `Housekeeping.FoundExactlyIff` | libraries/chain/db_decent.cpp:227-243 | something due between two passes is found by the later one alone, exactly if it expires a block interval after the earlier |
| `Housekeeping.AlignedIsFound` | libraries/chain/db_decent.cpp:227-243 | what expires on the slot grid of the previous pass is always found |
| `Housekeeping.OffGridIsMissed` | libraries/chain/db_decent.cpp:227-243 | a concrete expiration that no pass finds |
| `Supply.AdjustSurplus` | libraries/chain/db_balance.cpp:55-81 | an adjustment moves the surplus of its own asset by its amount and no other |
| `Supply.ActionSurplus` | libraries/chain/decent_evaluator.cpp:502-910 | no operation moves the surplus of any asset, but the creation of an asset that of core |
| `Supply.ChargedSurplus` | libraries/chain/evaluator.cpp:75-98 | booking a fee adds the booked amount to core for a core fee; a converted one adds what was paid to that asset and nothing to core |
| `Supply.OperationSurplus` | libraries/chain/include/graphene/chain/evaluator.hpp:149-190 | a whole operation with its fee moves no asset's surplus, but core's by what asset creation mints |
| `Supply.CreateAssetSurplus` | libraries/chain/asset_evaluator.cpp:78-84 | the new asset's pool is filled with the halved fee |
| `Supply.BudgetSurplus` | libraries/chain/db_maint.cpp:97-139 | the budget step rewrites the supply and keeps the surplus |
| `Supply.MinerPaySurplus` | libraries/chain/db_update.cpp:126-132 | paying a miner into vesting keeps the surplus |
| `Supply.ExpiredContentSurplus` | libraries/chain/db_decent.cpp:62-80 | returning a publishing escrow, negative ones included, keeps the surplus |
| `Supply.StepSurplus` | libraries/chain/db_maint.cpp:114-127 | every event moves the core surplus by exactly what it mints and no other asset's at all |
| `Supply.RunSurplus` | libraries/chain/db_maint.cpp:114-127 | over every run the core surplus grows by exactly what was minted and every other stays |
| `Supply.OtherAssetsAreConserved` | libraries/chain/asset_evaluator.cpp:112-299 | over every run what is held and pooled of an asset other than core moves in step with its supply |
| `Supply.CoreSurplus` | libraries/chain/db_maint.cpp:114-127 | the core surplus is the real supply, other assets apart, less the supply the next budget will write |
| `Supply.ForeignIsNeverNegative` | libraries/chain/db_decent.cpp:374-413 | the real supply exceeds the core held by other assets' amounts, none exactly when only core is vested or escrowed |
| `Supply.BudgetAssertionHoldsIff` | libraries/chain/db_maint.cpp:120-127 | after every balanced run the asserted equality holds exactly when only core is vested or escrowed and nothing was minted |
| `Supply.CoreIsConserved` | libraries/chain/db_maint.cpp:114-139 | in every core-only run with even asset-creation fees the supply equation holds throughout |
| `Supply.CreationNeedsTheFee` | libraries/chain/asset_evaluator.cpp:56-84 | creating an asset succeeds exactly when the payer can pay the fee |
| `Supply.OddCreationFeeBreaksTheEquation` | libraries/chain/asset_evaluator.cpp:56-83 | every odd core fee makes the next budget's equality fail |
| `Supply.ForeignVestingBreaksTheEquation` | libraries/chain/db_decent.cpp:385-390 | vesting any amount of another asset makes it fail |
| `Supply.ClaimOverdrawsPoolIff` | libraries/chain/asset_evaluator.cpp:266-299 | a claim that passes the checks and is paid for in the same asset succeeds exactly when the payer covers the fee, and overdraws the core pool exactly when claim and fee together exceed it |
| `Supply.WholePoolClaimedTwice` | libraries/chain/asset_evaluator.cpp:266-299 | for every pool size, an issuer who claims the whole pool and pays a fee worth as much leaves it negative |
| `LedgerDatabase.LedgerDatabase.ChargeFee` | libraries/chain/evaluator.cpp:75-98 | the pools after conversion and payment of a fee |
| `LedgerDatabase.LedgerDatabase.PayMiner` | libraries/chain/db_balance.cpp:83-151 | the pay goes into the miner's vesting balance or a new one, counters in line; the surplus stays |
| `LedgerDatabase.LedgerDatabase.RequestToBuy` | libraries/chain/decent_evaluator.cpp:502-561 | throws exactly as `Purchases.BoughtPays` says; records the purchase at its price, or at nothing for a subscriber, and moves exactly that |
| `LedgerDatabase.LedgerDatabase.BuyingExpire` | libraries/chain/db_decent.cpp:45-60 | refunds the escrow and marks the purchase expired |
| `LedgerDatabase.LedgerDatabase.DeliverKeys` | libraries/chain/decent_evaluator.cpp:616-670 | adds the seeder to those that answered, then pays out, refunds or waits, moving exactly what `Purchases.DeliveryPays` says and keeping all purchases sound |
| `LedgerDatabase.LedgerDatabase.ContentExpire` | libraries/chain/db_decent.cpp:62-80 | returns the publishing escrow to the author, or charges a negative one to account 20; no other balance moves |
| `LedgerDatabase.LedgerDatabase.ExpireBuyings` | libraries/chain/db_decent.cpp:235-243 | the loop cannot fail and closes exactly the purchases due from one block interval after the last budget time up to now |
| `LedgerDatabase.LedgerDatabase.GetRealSupply` | libraries/chain/db_decent.cpp:374-413 | the five walks add up the real supply |
| `LedgerDatabase.LedgerDatabase.ProcessBudget` | libraries/chain/db_maint.cpp:97-139 | rewrites supply, pool and budget; with balanced core-only books the supply written is the real one |
| `MemberIndex.MapsAreReverseImages` | libraries/chain/account_object.cpp:52-155 | over every run both maps list exactly the live accounts naming a key or account, but for members a re-insertion left untold |
| `MemberIndex.ExactIffNothingUntold` | libraries/chain/account_object.cpp:52-155 | the maps are exact exactly when nothing is left untold |
| `MemberIndex.ExactWithoutReinsertions` | libraries/chain/account_object.cpp:52-155 | over every run of creations, removals and modifications an account is listed under exactly its owner and active accounts, its owner and active keys and its memo key unless that is null |
| `MemberIndex.UndoneRemovalStaysExactIff` | libraries/db/include/graphene/db/index.hpp:239-265 | undoing a removal keeps exact maps exact exactly when the account names nobody |
| `MemberIndex.CreateKeepsReverseImage` | libraries/chain/account_object.cpp:74-86 | the insert handler adds the account under every member |
| `MemberIndex.RemoveKeepsReverseImage` | libraries/chain/account_object.cpp:88-100 | the remove handler takes the account out everywhere |
| `MemberIndex.ModifyKeepsReverseImage` | libraries/chain/account_object.cpp:102-155 | the two differences bring the maps in line with the new members |
| `MemberIndex.AccountMemberIndex.ObjectInserted` | libraries/chain/account_object.cpp:74-86 | both maps gain the account under its members |
| `MemberIndex.AccountMemberIndex.ObjectRemoved` | libraries/chain/account_object.cpp:88-100 | both maps lose the account under its members |
| `MemberIndex.AccountMemberIndex.AboutToModify` | libraries/chain/account_object.cpp:102-110 | the before-images are the members of the object as it is |
| `MemberIndex.AccountMemberIndex.ObjectModified` | libraries/chain/account_object.cpp:112-155 | the loops over the differences give the changed maps |
| `MemberIndex.AccountIndex.Modify` | libraries/db/include/graphene/db/index.hpp:256-265 | a modification with its two notifications is one step of the run |

## Left out

- LedgerEffects.SubmitPays: existence of accounts and assets, prices by region, expiration, size, seeders' free space and price, and hard-fork dates.
- LedgerEffects.OperationPays: the fee that the fee schedule requires, and authorities.
- LedgerEffects.IssuePays: that only the issuer issues, within the maximum supply, and no monitored asset.
- LedgerEffects.ReservePays: that monitored assets cannot be reserved.
- LedgerEffects.FundPoolsPays: that monitored assets have no pools to fund.
- LedgerEffects.ClaimFeesPays: that only the issuer of an asset that is not monitored claims.
- LedgerEffects.WithdrawVestingPays: that only the owner withdraws, and what his policy allows, which `Vesting` models.
- DeliverySoundness.SameMessageIsDelivered: that a prover can be made to answer two challenges on the same commitments; the hash is any function, and two hashes stand for two challenges.
- LedgerDatabase.LedgerDatabase.RequestToBuy: paying in another asset than the content's price (`convert`, `can_convert`), availability by region, expiry and blocking, and statistics; the results hold for more purchases than the node accepts.
- LedgerDatabase.LedgerDatabase.ExpireBuyings: the order of the time index is a parameter, and operation history is not kept.
- LedgerDatabase.LedgerDatabase.ContentExpire: seeding statistics.
- Payout.AccountBalances.ContentPayout: the 64-bit products are a precondition (`Fits`), because signed overflow is undefined in the source.
- CustodyReward.Content.ProofOfCustody: 64-bit overflow of price times ratio times size, seeding statistics, and the check of the proof itself, which `CustodyProof` models.
- ShamirSecret.ShamirSecret.CalculateSecret: shares held twice, which the source skips by comparing whole points.
- MinerBudget.DynamicProperties.PerformMaintenance: vote tallying, block rewards by height and the mined budget past the last split.
- Irreversibility.BlockKeepsSound: nested sessions, and the wrap-around of unsigned differences, which soundness rules out; switches are in `Anchoring`.
- In the ledger a vesting withdrawal is any amount within the balance; how much a policy allows is in `Vesting`, and a custody reward is any amount, computed in `CustodyReward`.
- Nested proposal sessions inside a block, listeners' edits, the block log, pending transactions and checkpoints.
- The disabled mode of the undo database and sessions that force it on.
- Uniqueness constraints of the object indexes; collisions of block ids, which are taken to commit to their predecessor and content.
- The cache of unlinked fork blocks, which the source does not use when pushing.
- The bits of the pseudo-random generators, hash functions, curve arithmetic and AES: parameters or residues.
- 32-bit wrap-around of times.
- Rating, subscriptions' bookkeeping beyond their payment, seeder statistics, regions, proposals, non-fungible tokens, messages, withdraw permissions and price feeds: single-branch evaluators.
- The approval index of proposals, networking, RPC, wallet, plugins and configuration.
