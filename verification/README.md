# Quantix node: verified models

Quantix is a Go blockchain node. This project models the parts of it whose correctness is decided by its own code and
proves what they keep, for every input and every run:

* **Consensus** — the stake-weighted PBFT engine. `Engine` is one node as a value with one function per handler (each
  handler of the source holds the node's lock, so a call is one step); `ConsensusNode` is the same node as a mutable
  object whose methods are proved equal to those functions; `Protocol` runs many nodes over one validator set with a
  record of every vote ever sent; `Progress`, `Views`, `Counting`, `Leaders` and `Fork` hold the theorems on heights
  and views, on how votes and timeouts add up, on the two leader rules, and a reachable fork. `Staking` and `Selection`
  are the validator registry and the stake-weighted draw, `Registrations` what each registry operation does.
* **Ledger** — `Accounts` is the plain account table, `StateDb` the write-back cache over a key-value store, and
  `Refinement` the proof that the second cannot be told from the first. `Execution` is the block executor on the plain
  table and `Executor` its imperative form over the cache. `Payments`, `Conservation`, `Nonces` and `GenesisVault` hold
  the theorems on money, replay and the genesis distribution, `Records` and `Merkle` those on stored records and Merkle roots, and
  `Chains` what the roots of whole chains of blocks tell.
* **Routing** — `Keys` has 256-bit identifiers as bytes with their bit-level meaning, `Routing` the order between
  buckets, `Nearest` ranks in sorted lists, `Lookup` the bucket-guided search against brute force, and `RoutingTables`
  the mutable table.
* **Wire format and packing** — `SignedMessage` is the printer and parser of signed consensus messages, `Packing` the
  choice of a block's transactions against the size check of other nodes.

`Basics`, `Sums` and `Ordering` are shared: optional values and words, sums over finite maps, sorting.

Integers are unbounded except where the source's width matters: views, nonces, stakes given as whole coins, transaction
and block sizes are computed in 64 bits and lengths on the wire in 32. Hashes are free constructors. Signature checks,
signing, clock guards, block validation and write failures are inputs of a step.

## Where the code falls short of what is expected of it

Each of these is a lemma with a concrete or parametric input, next to the condition under which the code does comply.

* Agreement at one height does not hold with a third of the stake faulty: a second proposal for the same height is
  accepted like the first (`Fork.AgreementFails`); `Protocol.AcceptanceGuard` says exactly when. What holds is
  accountability (`Protocol.AccountableSafety`), and every fork shows a correct validator that accepted both blocks
  (`Protocol.ForkNeedsDoubleAcceptance`). The converse of the latter is not claimed: accepting two proposals does not by
  itself decide either of them.
* The view can fall: at the last 64-bit view the increment wraps (`Progress.ViewFallsBack`); a step moves (height, view)
  backward exactly then (`Progress.StepProgress`).
* With suspected leaders the electing node and its followers name different leaders, exactly when the scheduled leader
  is suspected and somebody else is not (`Leaders.SuspicionSplitsRules`); fifty view timers lead there
  (`Leaders.SuspicionIsReached`).
* A slash above 10000 basis points can leave a negative stake (`Staking.OverslashingGoesNegative`,
  `Staking.SlashedNegativeExactly`).
* A validator that has left and registers again regains stake and weight but is never active again
  (`Registrations.NoComeback`, `Registrations.ComebackExactly`).
* A (sender, nonce) pair can run twice (`Nonces.ReplayHappens`), exactly after 2^64 transactions of one sender
  (`Nonces.NoReplay`).
* A second genesis run mints again exactly when the first allocation address received nothing and the total is positive
  (`GenesisVault.SecondRunExact`); so does a run after one whose payout could not be written (`GenesisVault.RetryExact`).
* Merkle roots collide on lists that repeat their last leaf (`Merkle.DuplicatesCollide`). A list shares its root with
  another exactly when a layer of it is odd or ends in two equal elements (`Merkle.CollidesExactly`), which for
  duplicate-free lists means a length that is no power of two (`Merkle.DistinctCollides`). The lists behind state roots are
  duplicate-free on both sides and do not collide (`Merkle.RootInjective`, `StateDb.TableRootExact`).
* The bucket-guided search can miss the nearest node (`Lookup.GuidedCanMiss`) on tables that observations lead to
  (`RoutingTables.MissIsReached`), exactly when a bucket beyond the deep walk
  has fewer than k nodes ahead of it (`Lookup.GuidedIsBruteForce`).
* A signed message does not survive the wire when its Merkle root has a zero top byte but is not zero, because short
  roots are padded on the right; nor when its data is empty (`SignedMessage.RoundTrip`). A copy that lacks the end of the
  data is accepted with zeros in its place (`SignedMessage.TruncatedExactly`, `SignedMessage.TruncatedValue`).
* Below a block size limit of 1000 bytes the room for transactions wraps to almost 2^64 and a node can pack blocks that
  others refuse (`Packing.PackingCanFail`).
* A comment on bucket updates promises that a node seen again moves to the front. The ordered map keeps the place of a
  known key, so eviction is by age of insertion (`RoutingTables.RefreshDoesNotProtect`). The model follows the code.

## Model

| member | source | states |
|---|---|---|
| Protocol.RunInv | src/consensus/consensus.go:766-1386 | Over every run of many nodes: tables hold only votes that were sent, locked and prepared blocks are recorded as accepted, correct commit votes are backed by a prepare quorum, decisions by a commit quorum |
| Protocol.QuorumOverlap | src/consensus/consensus.go:1556-1603 | Two stake quorums share strictly more than a third of the total stake |
| Protocol.DecisionsOverlap | src/consensus/consensus.go:1294-1386 | In every run, behind any two decisions stand validators holding strictly more than a third of the stake that sent commit votes for both blocks |
| Protocol.AccountableSafety | src/consensus/consensus.go:1294-1386 | In every run, two decisions on different blocks at one height mean that validators holding strictly more than a third of the stake sent commit votes for two different blocks of that height, whatever the faulty stake |
| Protocol.CommitVoteNeedsTable | src/consensus/consensus.go:996-1090 | The only step of a node that sends a commit vote is the one in which its own table reaches a prepare quorum for that hash |
| Protocol.CommitVotePreceded | src/consensus/consensus.go:996-1090 | At the step that first sends a correct node's commit vote, that node holds in its own table prepare votes of a quorum of distinct voters for that hash, all sent before, and has locked the block |
| Protocol.CommitVoteOrigin | src/consensus/consensus.go:1484-1524 | Every commit vote of a correct node in a reachable state goes back to exactly such a step of the run |
| Protocol.DecisionsAreCertified | src/consensus/consensus.go:1484-1524 | With at most a third of the stake faulty, every decided block has a prepare certificate of over two thirds |
| Protocol.CorrectMember | src/consensus/consensus.go:1606-1638 | A voter set heavier than the faulty stake contains a correct validator |
| Protocol.ForkNeedsDoubleAcceptance | src/consensus/consensus.go:766-953 | A fork with at most a third faulty exhibits one correct validator that accepted and commit-voted both blocks |
| Protocol.AcceptanceGuard | src/consensus/consensus.go:766-953 | A node takes up a proposal for a block it is not working on if and only if the block is valid, signed, not of an older view, for the next height and from the expected leader; earlier acceptances and the lock play no part |
| Protocol.ProposalOutcome | src/consensus/consensus.go:766-953 | What a taken proposal sets, clears and answers, and what a refused one leaves |
| Counting.QuorumExact | src/consensus/consensus.go:1556-1638 | A quorum is strictly more than two thirds of a total that is not zero |
| Counting.VoteDecides | src/consensus/consensus.go:1294-1386 | A commit vote decides if and only if it is signed, new, brings the recorded voters over two thirds, names the block worked on at the next height, and the chain takes it; the decision carries all recorded voters and the next round starts at view one |
| Counting.VoteJoins | src/consensus/consensus.go:1318-1319 | Any other signed commit vote joins the table of its hash, next to those before it, and leaves other tables alone |
| Counting.PrepareLocks | src/consensus/consensus.go:996-1090 | A prepare vote locks the block if and only if it is signed, new, completes two thirds and names the proposal under consideration; the node then sends its commit vote unless it has sent one or cannot sign |
| Counting.PrepareJoins | src/consensus/consensus.go:996-1090 | Every signed prepare vote joins the table of its hash |
| Counting.NoDecisionBefore | src/consensus/consensus.go:1348-1386 | Over any sequence of signed commit votes for one block nothing is decided before the voters heard exceed two thirds |
| Counting.FirstQuorumDecides | src/consensus/consensus.go:1348-1386 | The first vote that brings them over it decides the block with exactly the voters heard |
| Counting.FirstQuorumCommits | src/consensus/consensus.go:1484-1524 | Over any sequence of signed prepare votes the node locks and sends its commit vote at the first that brings the voters heard over two thirds |
| Views.TimeoutAdvances | src/consensus/consensus.go:1412-1446 | A timeout message moves the view if and only if it is signed, for a later view, no block is recent, and the distinct validators heard for that view are at least a third of the visible ones |
| Views.TimeoutRecorded | src/consensus/consensus.go:1412-1438 | It is recorded under its view; tables of passed views go when the view advances |
| Views.FirstThirdAdvances | src/consensus/consensus.go:1412-1446 | Over any sequence of such messages the view is entered with the first that completes a third |
| Views.TimerExact | src/consensus/consensus.go:1821-1911 | When the view timer starts a view change, what it resets, counts, suspects and announces, and what it leaves otherwise |
| Views.ChainFollowed | src/consensus/consensus.go:648-657 | A node past genesis adopts the height of its chain; the chain takes the next block and no other |
| Fork.AgreementFails | src/consensus/consensus.go:766-953 | A reachable run in which a faulty leader with a quarter of the stake makes two correct nodes decide different blocks at one height |
| Progress.ProposalProgress | src/consensus/consensus.go:766-953 | A proposal changes neither chain nor height and never lowers the view |
| Progress.VoteProgress | src/consensus/consensus.go:1294-1386 | A commit vote changes nothing of chain, height and view, or appends exactly the decided block at the next height |
| Progress.NewViewExact | src/consensus/consensus.go:1866-1886 | The next view is larger unless the counter is exhausted, and then it is the highest view seen |
| Progress.StepProgress | src/consensus/consensus.go:1718-1804 | Every step of every kind: the height stays at or behind the tip, the chain grows by at most one block of the next height, a decision appends the decided block, and a changed (height, view) is larger if and only if the view did not wrap |
| Progress.RunStaysBehind | src/consensus/consensus.go:648-657 | Over every run the height never exceeds the chain tip and the chain only grows, by consecutive heights |
| Progress.RunMovesForward | src/consensus/consensus.go:1413-1446 | Over every run without a wrapping step, (height, view) never moves backward |
| Progress.ViewFallsBack | src/consensus/consensus.go:1866-1886 | A proposal for the last 64-bit view and one timer step take the view back to zero |
| Leaders.TrustedLeader | src/consensus/consensus.go:290-375 | The election names an unsuspected validator whenever there is one, keeps the scheduled leader if it is unsuspected, and drops the suspect list exactly when everybody is suspected |
| Leaders.NearestTrusted | src/consensus/consensus.go:343-352 | The elected leader is the first unsuspected validator counting round from the scheduled one |
| Leaders.ElectionOutcome | src/consensus/consensus.go:290-375 | An elected node leads, and suspects and count of view changes are dropped only when everybody is suspected |
| Leaders.ElectionListIs | src/consensus/consensus.go:290-375 | Leaders are drawn from the latest epoch up to the clock's that has active validators, else from the visible peers |
| Leaders.FollowerListIs | src/consensus/consensus.go:883-924 | The 32 heights of an epoch are judged by its active validators, else by the visible peers |
| Leaders.LeaderRulesAgree | src/consensus/consensus.go:883-924 | With one tip, an epoch-independent active set and no suspects, a follower takes a proposal for the next height if and only if it comes from the node that the election names |
| Leaders.SuspicionSplitsRules | src/consensus/consensus.go:290-375 | With suspects the elected and the scheduled leader are the same if and only if the scheduled one is unsuspected or everybody is suspected |
| Leaders.SuspicionIsReached | src/consensus/consensus.go:1821-1911 | After an election and fifty view timers at genesis a node names a leader from whom a follower without suspicions takes no proposal |
| Leaders.EveryoneLeadsOnce | src/consensus/consensus.go:290-375 | Over any n consecutive heights each of n validators leads at exactly one height |
| ConsensusNode.Consensus.HasStakeQuorum | src/consensus/consensus.go:1556-1638 | The summing loop holds exactly if the voters' stake reaches two thirds of the total plus one |
| ConsensusNode.Consensus.ResetConsensusState | src/consensus/consensus.go:1940-1951 | Clears phase, lock, prepared block and both vote tables and nothing else |
| ConsensusNode.Consensus.UpdateLeaderStatus | src/consensus/consensus.go:290-375 | The new state is the election step of the engine model on the list that the registry gives for the clock's epoch |
| ConsensusNode.Consensus.ElectFrom | src/consensus/consensus.go:290-375 | On a given list the new state is the election step of the engine model |
| ConsensusNode.Consensus.Handle | src/consensus/consensus.go:648-1911 | Every event is handled by the step of the engine model with the registry's lists, which is a step that the system model allows |
| ConsensusNode.Consensus.ElectionValidators | src/consensus/consensus.go:290-375 | The epoch walk finds the latest epoch up to the clock's with active validators, else the visible peers |
| ConsensusNode.Consensus.FollowerValidators | src/consensus/consensus.go:883-924 | The validators active at the proposed height's epoch, else the visible peers |
| ConsensusNode.Consensus.FindAlternate | src/consensus/consensus.go:290-375 | The rotation loop finds the first unsuspected validator after the scheduled one, or none |
| ConsensusNode.Consensus.SendPrepareVote | src/consensus/consensus.go:1451-1480 | At most one prepare vote per hash since the last reset |
| ConsensusNode.Consensus.VoteForBlock | src/consensus/consensus.go:1484-1524 | A commit vote only for the locked or prepared block and at most once per hash since the last reset |
| ConsensusNode.Consensus.ProcessProposal | src/consensus/consensus.go:766-953 | The new state and the message sent are those of the engine model, on the two lists that the registry gives for the clock's epoch and the proposed height |
| ConsensusNode.Consensus.ProcessPrepareVote | src/consensus/consensus.go:996-1090 | The new state and the message sent are those of the engine model |
| ConsensusNode.Consensus.ProcessVote | src/consensus/consensus.go:1294-1386 | The new state and the decision are those of the engine model |
| ConsensusNode.Consensus.CommitBlock | src/consensus/consensus.go:1718-1815 | The new state and the decision are those of the engine model |
| ConsensusNode.Consensus.ProcessTimeout | src/consensus/consensus.go:1390-1448 | The new state is that of the engine model, on the registry's election list |
| ConsensusNode.Consensus.StartViewChange | src/consensus/consensus.go:1821-1911 | The new state and the timeout message are those of the engine model, on the registry's election list and with the 64-bit view increment |
| Staking.LedgerHolds | src/consensus/staking.go:43-148 | After any sequence of add, register, delete, unregister, slash and finalise, the total is the sum of recorded stakes and every validator active at an epoch of at least one holds the minimum |
| Registrations.ActiveExactly | src/consensus/staking.go:264-287 | Active means recorded, not slashed, activated and not past the exit; the list is ascending |
| Registrations.DeleteDeletes | src/consensus/staking.go:123-129 | At the end of any run, a deletion leaves no record and no place in any active list, takes the stake from the total and touches nobody else |
| Registrations.DeletedWeighsNothing | src/consensus/staking.go:123-129 | A deleted validator adds nothing to any set of voters |
| Registrations.UnregisterRetires | src/consensus/staking.go:132-148 | After leaving, a validator is active at no epoch from 1 on, weighs nothing, and its stake has left the total |
| Registrations.AddRecords | src/consensus/staking.go:43-72 | An accepted addition sets exactly the given stake, keeps the rest of a known record and makes a new validator active at every epoch; a refused one changes nothing |
| Registrations.RegisterRecords | src/consensus/staking.go:75-120 | An accepted registration sets exactly the given stake, address and key and lifts a slashing; a refused one changes nothing |
| Registrations.ComebackExactly | src/consensus/staking.go:97-106 | After an accepted registration a validator is active from epoch 1 on if and only if it was unknown or has not left |
| Registrations.NoComeback | src/consensus/staking.go:97-106 | A run of add, leave and register that ends with stake but without activity |
| Registrations.SlashDeducts | src/consensus/staking.go:334-363 | A slash takes the basis points, rounded down, from stake and total, and bars below the minimum |
| Staking.StakesStayNonNegative | src/consensus/staking.go:334-363 | With slashes of at most 10000 basis points no stake and no total is ever negative |
| Staking.SlashedNegativeExactly | src/consensus/staking.go:334-363 | A slash leaves a negative stake if and only if stake times the excess over 10000 basis points reaches 10000 |
| Staking.OverslashingGoesNegative | src/consensus/staking.go:334-363 | Slashing one coin by 20000 basis points leaves minus one coin |
| Staking.FinalisationCost | src/consensus/staking.go:365-381 | Finalisation takes one percent, rounded down, from exactly the active non-submitters, and the total drops by the sum of it |
| Staking.SlashAllFinalises | src/consensus/staking.go:365-381 | Slashing the missing validators one after the other is the same as penalising them all at once |
| Staking.ValidatorSet.AddValidator | src/consensus/staking.go:43-72 | The registry becomes the old one with the stake replaced and the total adjusted, stake read as a signed 64-bit number |
| Staking.ValidatorSet.RegisterValidator | src/consensus/staking.go:75-120 | Refuses an empty identifier or node address and a stake below the minimum; otherwise creates the record, or updates and un-slashes an existing one, and adjusts the total |
| Staking.ValidatorSet.DeleteValidator | src/consensus/staking.go:123-129 | Removes the record and its stake from the total |
| Staking.ValidatorSet.UnregisterValidator | src/consensus/staking.go:132-148 | Zeroes the stake, sets the exit epoch and reduces the total |
| Staking.ValidatorSet.SlashValidator | src/consensus/staking.go:334-363 | Deducts the basis points and ejects below the minimum |
| Staking.ValidatorSet.GetActiveValidators | src/consensus/staking.go:264-287 | Exactly the active identifiers, in ascending order |
| Staking.Randao.FinaliseEpoch | src/consensus/random.go:633-666 | Returns exactly the active validators without a submission, in order |
| Staking.FinaliseEpochAndSlash | src/consensus/staking.go:365-381 | The registry becomes the finalised one |
| Selection.SelectProposer | src/consensus/selection.go:54-96 | Returns the active validator whose stretch of the cumulative stake line covers seed modulo total stake |
| Selection.WinnerInterval | src/consensus/selection.go:54-96 | An entry wins a target if and only if the target lies in its stretch; the last one also wins everything beyond |
| Selection.ExactShares | src/consensus/selection.go:54-96 | Over all targets below the total, each active validator but the last wins exactly its stake, the last its stake plus all inactive stake |
| Selection.ElectedShares | src/consensus/selection.go:54-96 | Over all seeds below the total, each active validator is elected as often as its stake says, the last also for the inactive stake |
| Selection.ElectedWithoutStake | src/consensus/selection.go:54-96 | Nobody is elected without active validators, and the first when there is no stake |
| Selection.FallbackUnreachable | src/consensus/selection.go:54-96 | With everybody active, every target is covered before the loop ends |
| Records.EncodeRoundTrip | src/core/state_db.go:92-126 | Every account record, also one with a negative balance, decodes to itself |
| Records.RecordForm | src/core/state_db.go:264-303 | The stored form of a record, spelled out |
| Records.OneBrace | src/core/state_db.go:264-303 | A record contains exactly one opening brace, at its start |
| Records.LeafDecodesUniquely | src/core/state_db.go:308-329 | A key followed by a record determines both, whatever the key contains |
| Merkle.MerkleRootFromLeaves | src/core/genesis.go:286-309 | The layer loop with last-node duplication computes the folded root |
| Merkle.LeafAtItsPath | src/core/genesis.go:286-309 | Every leaf stands in the tree where the binary digits of its position lead |
| Merkle.RootInjective | src/core/genesis.go:286-309 | Duplicate-free leaf lists with one root are equal, also across lengths |
| Merkle.DuplicatesCollide | src/core/genesis.go:286-309 | Repeating the last leaf of an odd list gives the same root |
| Merkle.CollidesExactly | src/core/genesis.go:286-309 | Another list has the root of a given one if and only if some layer of it above one element is of odd length, or is longer than two and ends in two equal elements |
| Merkle.DistinctCollides | src/core/genesis.go:286-309 | For a duplicate-free list this is so if and only if its length is no power of two |
| StateDb.FlushIsDurable | src/core/state_db.go:264-303 | Writing a batch makes the durable table the old one overlaid by the dirty entries, and the supply the new one |
| StateDb.ReadExactly | src/core/state_db.go:92-112 | An address reads the record under its key, or a new account if there is none to be read |
| StateDb.OtherKeysInvisible | src/core/state_db.go:213-226 | A key outside the account and supply names does not change the table |
| StateDb.RootDeterminesAccounts | src/core/state_db.go:308-329 | Equal state roots mean equal account tables, for any numbers of accounts |
| StateDb.AccountsDetermineRoot | src/core/state_db.go:308-329 | Equal account tables have equal state roots, whatever else the stores hold |
| StateDb.TableRootExact | src/core/state_db.go:308-329 | The state root of a table equals that of another if and only if the tables are equal |
| StateDb.CommitKeepsCanonical | src/core/state_db.go:264-303 | A flush stores only records in canonical form |
| StateDb.StateDB.Load | src/core/state_db.go:92-112 | Reads the dirty entry, else the stored one, else zero, and changes nothing visible |
| StateDb.StateDB.SetBalance | src/core/state_db.go:159-163 | The visible table becomes the plain update |
| StateDb.StateDB.AddBalance | src/core/state_db.go:166-175 | The visible table becomes the plain update; non-positive amounts do nothing |
| StateDb.StateDB.SubBalance | src/core/state_db.go:178-191 | The visible table becomes the plain update, refused when the balance is short |
| StateDb.StateDB.IncrementNonce | src/core/state_db.go:194-198 | The 64-bit nonce advances by one, modulo 2^64 |
| StateDb.StateDB.SetNonce | src/core/state_db.go:202-206 | The visible table becomes the plain update |
| StateDb.StateDB.Commit | src/core/state_db.go:264-303 | A failed write changes nothing; a successful one stores exactly the visible table, empties the cache and returns the state root, which is a function of that table |
| StateDb.StateDB.BuildBatch | src/core/state_db.go:264-303 | The loop over dirty entries writes exactly their records and the supply |
| StateDb.StateDB.ComputeStateRoot | src/core/state_db.go:308-329 | The root of the sorted key-plus-record leaves, or the empty-state hash |
| Refinement.Perform | src/core/state_db.go:133-206 | One operation on the cache answers, state root included, and acts like one on the plain table |
| Refinement.Replay | src/core/state_db.go:70-303 | Every sequence of reads, writes, commits and reopenings answers like the plain table, state roots included, and leaves it in the store |
| Executor.UniqueAttestors | src/core/executor.go:223-288 | The deduplication loop yields each attestor once, in order, without the proposer and empty names |
| Executor.DistributeGasFee | src/core/executor.go:223-288 | The visible table becomes the fee split of the plain executor |
| Executor.MintBlockReward | src/core/executor.go:292-409 | The visible table becomes the minting of the plain executor |
| Executor.ApplyTransaction | src/core/executor.go:95-219 | The visible table and the outcome are those of the plain executor |
| Executor.ApplyTransactions | src/core/executor.go:95-219 | The loop applies transactions until the first refusal |
| Executor.ExecuteBlock | src/core/executor.go:413-430 | A refused transaction or failed write leaves stored accounts and supply unchanged; otherwise the store holds exactly the executed ledger and the result is the state root of its table; stored records stay canonical |
| Executor.ExecuteGenesisBlock | src/core/executor.go:437-503 | The store holds exactly the ledger of the plain genesis run, also when the distribution stops midway or either of the two writes fails |
| Chains.Grow | src/core/executor.go:413-430 | Blocks executed on a new store return, one by one, the roots of the plain ledgers they lead to |
| Chains.RootsTell | src/core/executor.go:413-430 | Two nodes executing blocks from empty stores return the same root if and only if their account tables are equal |
| Chains.AttestorOrderKeepsRoot | src/core/executor.go:223-288 | The order and repetition in which a block's attestors are listed does not change the returned root |
| Conservation.ApplyTxDrift | src/core/executor.go:95-219 | One transaction changes balances minus supply by its drift: amount plus gas if let through unfunded, minus the fee if the block has no proposer |
| Conservation.MintBalanced | src/core/executor.go:292-409 | Minting, with its split and dust, leaves balances minus supply unchanged |
| Conservation.LedgerEquation | src/core/executor.go:95-409 | Over every run in every mode, balances minus supply change by exactly the sum of drifts |
| Conservation.StrictConservation | src/core/executor.go:166-219 | Outside devnet and dev-mode balances minus supply never grow, and with proposers on all blocks they are constant |
| Conservation.SupplyCap | src/core/executor.go:319-365 | No run of blocks above genesis takes the supply over 5 billion coins, nor the sum of balances outside devnet and dev-mode |
| Conservation.AttestorOrderIrrelevant | src/core/executor.go:223-288 | Fee and reward distribution give the same ledger for any order and repetition of the same attestors |
| Conservation.EqualPay | src/core/executor.go:349-397 | Every attestor gets the same share, the proposer exactly the dust, and nobody else anything |
| Conservation.ExecutionBySet | src/core/executor.go:413-430 | Blocks that differ only in order and repetition of attestors execute alike |
| Payments.FeeSplit | src/core/executor.go:223-288 | Of every fee 70 percent are burned, the proposer gets 10 percent and the dust, each sharing attestor an equal part of the rest, and nobody else anything |
| Payments.RewardSplit | src/core/executor.go:292-397 | Above height 1 the base reward, or what fits under the cap, is minted, 40 percent to the proposer and 60 percent shared; block 1 mints nothing and block 0 the allocations |
| Payments.RefusedExactly | src/core/executor.go:95-205 | The exact conditions under which a transaction is refused, skipped, funded or let through unfunded |
| Payments.RefusedMovesNothing | src/core/executor.go:95-205 | A refused or skipped transaction changes no balance and no supply |
| Payments.TransactionPays | src/core/executor.go:185-214 | The balance of every address after an executed transaction: sender charged, receiver credited, fee parts paid, the rest untouched |
| Payments.TransactionNumbers | src/core/executor.go:166-214 | In every mode the sender's nonce ends one past the transaction's, and no other changes |
| Payments.BlockIsSteps | src/core/executor.go:413-430 | A block executes if and only if its transactions, each on the ledger the one before left, are all accepted, and the result is the reward applied to the last ledger |
| Accounts.WritesExactly | src/core/state_db.go:159-206 | What every write to the table leaves to be read at every address |
| Nonces.TxNonces | src/core/executor.go:166-214 | In strict mode an executed transaction carries the sender's nonce and advances that nonce only; any other leaves the ledger alone |
| Nonces.RunContiguous | src/core/executor.go:166-214 | In strict mode each sender's executed nonces are consecutive from its starting nonce, over every run |
| Nonces.NoReplay | src/core/executor.go:166-214 | In strict mode a (sender, nonce) pair is executed twice if and only if the sender executes more than 2^64 transactions |
| Nonces.ReplayHappens | src/core/state_db.go:194-198 | A run of 2^64 + 1 strict blocks that executes one (sender, nonce) pair twice |
| GenesisVault.RunPays | src/core/executor.go:437-503 | A run the guard does not stop leaves the vault at zero, pays every address its allocations and raises the supply by their total |
| GenesisVault.GenesisDistribution | src/core/genesis.go:226-250 | On an empty store with a positive first allocation: vault zero, each address its allocations, supply the total, and a second run changes nothing |
| GenesisVault.OwnAllocation | src/core/executor.go:437-503 | With distinct addresses each address holds its own allocation |
| GenesisVault.SecondRunExact | src/core/executor.go:437-503 | A second run mints nothing if and only if the first address received something or the total is zero |
| GenesisVault.InterruptedRun | src/core/executor.go:437-503 | A run whose payout is not written leaves the total in the vault and nothing elsewhere |
| GenesisVault.RetryExact | src/core/executor.go:437-503 | After a first run with possibly failing writes, a second one leaves the supply at the total if and only if the total is zero, the first run wrote nothing, or it wrote everything and the first address received something |
| GenesisVault.SecondRunMints | src/core/executor.go:292-317 | Allocations with an empty first entry are minted twice |
| Keys.IsEmpty | src/network/key.go:45-55 | True exactly for the zero key |
| Keys.Less | src/network/key.go:89-103 | True exactly if the second key has the first differing bit set |
| Keys.LeadingZeroBits | src/network/key.go:107-131 | All bits before the count are zero and the bit at the count is one, or the count is 256 |
| Keys.Distance | src/network/key.go:152-157 | The receiver becomes the byte-wise XOR |
| Keys.CommonPrefixLength | src/network/key.go:138-145 | The index of the first bit in which the keys differ, or 256 |
| Keys.CloserByBit | src/network/key.go:89-157 | Of two keys the nearer one agrees with the target where they first differ |
| Keys.LongerPrefixCloser | src/network/key.go:89-157 | A longer common prefix with the target means strictly nearer |
| Routing.PrefixByBucket | src/dht/routing.go:173-185 | A node's prefix with the target by bucket: its own bucket longer, deeper ones equal, shallower ones their own index |
| Routing.BucketOrder | src/dht/routing.go:251-323 | Which of two buckets lies nearer is decided by single bits of the own identifier and the target |
| Nearest.TopAgrees | src/dht/routing.go:296-303 | A part of a sorted list has the same first k if and only if it holds all of them |
| Nearest.RankIsIndex | src/dht/routing.go:313-323 | In the sorted list each node stands at the number of nodes nearer than it |
| Nearest.SortOrderIrrelevant | src/dht/routing.go:313-323 | The order in which candidates were collected does not change the sorted list |
| Lookup.DeepRank | src/dht/routing.go:251-304 | The rank of a node in a deeper bucket, read off bucket sizes and bits |
| Lookup.GuidedIsBruteForce | src/dht/routing.go:251-304 | The search equals brute force over the table and the own node if and only if every non-empty bucket left out by the deep walk has k nodes ahead of it |
| Lookup.GuidedExactWhen | src/dht/routing.go:251-304 | It is exact when the target's own bucket is full or the deeper buckets together hold fewer than k |
| Lookup.OmittedIsDeeper | src/dht/routing.go:251-304 | Unconditionally, an omitted node nearer than a returned one lies in a bucket deeper than the target's prefix |
| Lookup.WrongSide | src/dht/routing.go:286-291 | A family of tables on which a full bucket on the wrong side hides the nearest node |
| Lookup.GuidedCanMiss | src/dht/routing.go:286-291 | For each bucket size from 1 to 31 a well-formed table and a target on which the search is wrong |
| RoutingTables.MissIsReached | src/dht/routing.go:173-185 | Such a table is what a node holds after observing k + 1 others |
| RoutingTables.ObservedKeeps | src/dht/routing.go:82-125 | An observation keeps the bucket within k, without repeated identifiers, and in its prefix class |
| RoutingTables.ObservedMembers | src/dht/routing.go:82-125 | Afterwards the bucket holds the new record and the old ones of other nodes, less the front of a full bucket that did not know the node |
| RoutingTables.ObservedOrder | src/dht/routing.go:82-125 | A known node keeps its place, a new one goes to the back, and the front makes room |
| RoutingTables.RefreshDoesNotProtect | src/dht/routing.go:82-125 | The front of a full bucket is evicted by the next new node even if it was the last one seen |
| RoutingTables.CollectedKeeps | src/dht/routing.go:228-247 | Garbage collection removes exactly the nodes unseen for more than 480 seconds and keeps the bucket well formed |
| RoutingTables.KBucket.Observe | src/dht/routing.go:82-125 | Panics exactly on an overfull bucket or a bucket of size zero, and otherwise becomes the observed one |
| RoutingTables.KBucket.CopyToList | src/dht/routing.go:129-136 | Appends the bucket's nodes in order |
| RoutingTables.KBucket.Collect | src/dht/routing.go:232-246 | Deleting the collected identifiers one by one leaves exactly the live records, in order |
| RoutingTables.RoutingTable.constructor | src/dht/routing.go:152-169 | 256 empty buckets of any capacity k, well formed |
| RoutingTables.RoutingTable.Observe | src/dht/routing.go:173-185 | Keeps the table well formed, ignores the own node, changes only the bucket of the node's prefix length, and panics exactly for k zero and a node other than the own one |
| RoutingTables.RoutingTable.GC | src/dht/routing.go:228-247 | Keeps the table well formed and collects every bucket |
| RoutingTables.RoutingTable.KNearest | src/dht/routing.go:251-304 | Refuses exactly the zero target, returns nothing for the own identifier, and otherwise the guided search result |
| SignedMessage.Serialize | src/consensus/serialize.go:35-75 | Writes the encoding, with lengths cut to 32 bits and the root left-aligned in 32 bytes |
| SignedMessage.Deserialize | src/consensus/serialize.go:78-147 | Reads by the decoder: short reads fill with zeros, a read at the end of input fails |
| SignedMessage.FieldRoundTrip | src/consensus/serialize.go:78-147 | A field below 2^32 bytes is read back with the rest, unless nothing follows its header |
| SignedMessage.ReadBack | src/consensus/serialize.go:35-147 | What every message with short fields is read back as: refused without data, else itself with the root's bytes moved to the top |
| SignedMessage.RoundTrip | src/consensus/serialize.go:35-147 | The message is read back unchanged if and only if all fields are below 2^32 bytes, data is not empty, and the root is zero, absent or at least 2^248 |
| SignedMessage.HeaderForm | src/consensus/serialize.go:39-40 | Lengths are four bytes, highest first |
| SignedMessage.WireForm | src/consensus/serialize.go:35-75 | The order of the fields, spelled out |
| SignedMessage.TruncatedExactly | src/consensus/serialize.go:78-147 | A truncated copy of a message with short fields is accepted if and only if at least one byte of the data has arrived |
| SignedMessage.TruncatedValue | src/consensus/serialize.go:136-146 | It is then read with the missing bytes of the data replaced by zeros |
| Packing.CalculateBlockSize | src/core/blockchain.go:305-321 | 80 plus the sum of the transaction sizes, modulo 2^64 |
| Packing.ValidateBlockSize | src/core/blockchain.go:329-362 | Accepts exactly within both limits and names the first oversized transaction |
| Packing.SelectTransactionsForBlock | src/core/blockchain.go:1533-1631 | Refuses exactly a zero room; otherwise the greedy choice, sorted, with its size |
| Packing.PackedWithinLimits | src/core/blockchain.go:1556-1628 | The result is a rearrangement of a subsequence of the pending list, with senders and the nonces of each sender ascending, at most five transactions and at most the block gas limit |
| Packing.EqualsKeepOrder | src/core/blockchain.go:1622-1628 | Transactions of one sender with one nonce keep their order |
| Packing.LeftOutExactly | src/core/blockchain.go:1557-1607 | A pending transaction is left out if and only if five were chosen, 95 percent of the room are filled, it is too large, or with those chosen it exceeds the room or the gas limit |
| Packing.TakenWhole | src/core/blockchain.go:1557-1607 | A list of at most five that fits all limits and stays under 95 percent is taken whole |
| Packing.OrdinaryRoom | src/core/blockchain.go:1541-1603 | At ordinary block sizes the room is the limit less 1000 and the stop is at 95 percent of it |
| Packing.TransfersTakeGas | src/core/blockchain.go:1689-1709 | Plain transfers take 30000 units of gas and 100 for each byte of signature |
| Packing.PackedPasses | src/core/blockchain.go:329-362 | With a block size limit above 1000 every packed list passes the size check of other nodes, even when 64-bit sums wrap |
| Packing.PackingCanFail | src/core/blockchain.go:1541-1547 | Packing can produce a refused block if and only if the size limit is below 1000 and the header with as many largest transactions as the count and gas limits admit exceeds it |

## Left out

- Consensus signature records, weighted totals for display, quorum logging, block metadata, timers, backoff and retransmission: bookkeeping without influence on the proved properties; time is a set of free guards.
- The DEVNET_SOLO self-commit path: it commits without votes, so no certificate theorem applies to it. Blocks that arrive by peer synchronisation are the `OnImport` step and are not decisions.
- Heights are unbounded naturals; the source's 64-bit block heights are not modelled to wrap.
- The system model has one validator set that does not change during a run, and a vote naming a correct node is one that node sent: signatures are not modelled.
- Liveness of the engine under lost or delayed messages; what a node does with the votes it receives is exact.
- LoadFromDB, SaveToDB, SelectCommittee and its shuffle, the fixed fallback stake for unknown validators, the VDF and the class group.
- Read failures of the key-value store; write failures are modelled.
- Allocation balances are non-negative; a negative genesis allocation is not modelled.
- Signature verification in the executor is an outcome carried by the transaction, with the recorded public key.
- The memory pool's transaction size is a number carried by the transaction; the size estimate used without a memory pool is not modelled.
- The sort by distance is a stable sort in the model; table lists have no ties, so every correct sort gives the same list.
- RoutingTables.RoutingTable.constructor: has the 256 buckets that the node uses; other bit widths, on which the source indexes out of range or stores the own node, are not modelled.
- InterestedNodes, GetStaleRemote and getRandomInterestedNodeID: refresh heuristics that need random identifiers.
- Absent and empty byte fields of a signed message are not told apart; the source writes both alike.
- HTTP, P2P transport, command line, GUI, checkpoints, the handshake and encryption.
