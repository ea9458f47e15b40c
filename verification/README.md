# Ergo node: a verified model of its core

This project models the parts of an Ergo full node whose correctness is hardest to see from one
function at a time, and proves what they promise: over every input, every run and every reachable
state. Boxes, hashes, scripts, proofs of work and the database engine are abstract; the rules, data
structures, loops, byte formats and error paths around them are those of the node.

| part | modules |
|---|---|
| weighted transaction pool | `Sums`, `Ordering`, `FamilyGraph`, `MempoolTables`, `FeeOrder`, `Pool` |
| UTXO set, undo log, batched blocks, rollback | `Storage`, `BigEndian`, `Layout`, `UndoLog`, `UndoCut`, `UtxoSpec`, `UtxoHistory`, `BatchRollback`, `UtxoState` |
| headers, cumulative work, best chain | `HeaderChain`, `HeaderBatch`, `HeaderForks`, `HeaderRuns`, `History`, `HeaderSelection` |
| pruning floor, voted parameters | `Pruning`, `Parameters`, `ParameterVotes` |
| block rules and the ledger | `Ledger`, `BlockRules`, `BlockLedger`, `BlockAcceptance`, `BlockValidator`, `BlockSupply`, `Deliveries`, `DeliveryRepeats`, `BlockIntake` |
| blocks arriving out of order | `ReorderBuffer`, `DeliveryPath`, `BlockRouter` |
| mining targets and difficulty | `NBits`, `Difficulty` |
| wire formats and framing | `Vlq`, `VlqMeaning`, `PeerSpec`, `PeerCodec`, `Handshake`, `HandshakeCut`, `Messages`, `MessageCodec`, `MessageCut`, `WireExamples`, `Framing`, `FrameFormat`, `MessageStream` |
| download scheduling | `Download`, `DownloadHistory`, `Downloader` |

Where the node updates objects in place, so does the model: `Pool.Mempool`, `UtxoState.Utxo`,
`UtxoState.StateManager`, `Storage.WriteBatch`, `History.HistoryStore`, `Pruning.BodyStore`,
`Parameters.ParameterKeeper`, `BlockRouter.Node`, `BlockIntake.Router`, `MessageStream.StreamCodec`
and `Downloader.BlockDownloader` are classes with the node's fields and loops. Each method's contract
equates the new state with a function of the old one, and the theorems are about those functions and
about runs of them. What such a function computes is in turn stated by laws of its own.
`dafny verify dfyconfig.toml` checks everything.

## What the code does that its design does not say

Each of these is stated and proved here, with the exact condition where there is one.

- A transaction admitted after one of its children breaks the weight equation
  (`MempoolTables.LateParentBreaksWeights`), and so does an ancestor chain longer than 501. With positive
  fees and fresh output ids nothing else does (`MempoolTables.AdmissionKeepsHealthIff`).
- Block application deletes spent boxes before it inserts created ones, so a box created and spent by
  the same block stays in the set (`UtxoSpec.NetEffectIff`). `apply_change` refuses such a block, the
  batched path accepts it, and the rollback does not take the box out again
  (`UtxoHistory.SelfSpendSurvives`). When a rollback restores the set: `UtxoHistory.UndoRestoresIff` for one
  block, `BatchRollback.BatchRestoredIff` for every height inside and below a batch.
- The batched path looks boxes up in the unchanged database, so two blocks of one batch may spend the
  same box (`UtxoSpec.BatchAcceptsDoubleSpend`). The exact condition under which a batch is its blocks in
  turn can be read off the changes (`UtxoSpec.BatchMatchesSequenceIff`,
  `UtxoSpec.FreshBatchMatchesSequenceIff`).
- Validation of a delivery has the same gap (`Deliveries.DoubleSpendAddsErg`), but only between two writes
  and for boxes stored before them (`DeliveryRepeats.OnlyStoredBoxesRepeat`): when no block spends a box it creates, no box is ever spent twice exactly when none is between two writes
  (`Deliveries.SpendOnceIff`). The accepted blocks of a whole run act as one ledger exactly under those two
  conditions (`Deliveries.AcceptedBlocksAreOneLedgerIff`).
- A rollback that fails on the way leaves the blocks above undone and the height as it was, so that set and
  height disagree (`UtxoHistory.FailedRollback`).
- A header batch that starts at height 1 considers only its final header and can pass over a heavier
  first one (`HeaderRuns.BatchFromGenesisIff`).
- A header batch that forks, or holds a header twice, is accepted and records wrong work
  (`HeaderForks.SmallestFork`, `HeaderForks.RepeatedHeader`); when it records the right work is
  `HeaderForks.BatchRecordsSameWorkIff`, for trees `HeaderForks.ForkRecordsWrongWorkIff`.
- A header of another branch that becomes best and stands higher than the old best header is reported as
  an extension of the best chain (`HeaderSelection.TallerForkReported`, `HeaderSelection.ReportIff`).
- Pruning follows the height index, so bodies of headers that another branch has replaced there are never
  deleted (`Pruning.PruningSparesTheFloor`).
- Headers whose times fall with height count as slow: the target doubles (`Difficulty.RetargetMoves`).
- The running cost of a block saturates at 2^64 - 1, so a cost limit of that value, which a vote of -1
  gives (`ParameterVotes.LastVoteDecides`), is no limit (`BlockAcceptance.AcceptedIff`).
- `blocks_to_keep = 0` wraps to keeping everything (`Pruning.KeepingNoneKeepsAll`).
- A restart after pruning can forget a vote (`Parameters.PrunedRestartForgets`);
  `Parameters.PrunedRestartAgreesIff` says exactly when it does not.
- When a block in hand fails, the validated blocks of the incomplete batch before it are neither applied
  nor buffered again (`ReorderBuffer.DeliveryReaches`).
- Targets below 2^16 come back from the compact form larger than they went in
  (`NBits.SmallEncoded`, `NBits.RoundingErrorIff`).
- Sums of amounts wrap at 64 bits in a release build, so legal box values can pass and add 2^64 to the
  ERG in the set (`Deliveries.OverflowAddsErg`). The checks on ERG and tokens are sound exactly when the
  outputs fit (`BlockRules.ErgCheckSoundIff`, `BlockRules.TokenCheckSoundIff`), and so are whole runs
  (`BlockSupply.ErgNeverAddedIff`, `BlockSupply.ValidIffOutputsFit`).
- A handshake cut at the end of a whole field behind the names parses as a shorter one, and no other cut
  does (`HandshakeCut.CutParsesIff`). An inventory cut behind its count parses as a shorter one
  (`MessageCut.InventoryCut`); modifiers do not (`MessageCut.ModifierCutRefused`).

## Hypotheses

- Ids are digests: box ids are unique over a run (`Ledger.FreshRun`, `UtxoSpec.CreatesFresh`,
  `UtxoHistory.Restorable`, `MempoolTables.FreshOutputs`), headers of a linked batch have distinct ids and
  a stored header with a known id is that header (`HeaderBatch.GoodBatch`, `HeaderForks.OneHeaderPerId`).
- A box codec parses what it serializes (`UndoLog.BoxCodec.Lawful`).
- New download tasks are queued as created, and callers dispatch what a query just returned
  (`Download.Proper`).
- The blocks of a run of deliveries are those that validation accepts and a write takes; each is validated
  against the database as of the last write and the boxes created since (`Deliveries.Intake`), not against
  the net effect of the blocks before it. What is supposed of them (`Deliveries.BatchesSpendOnce`,
  `Deliveries.NoSelfSpends`) can be read off their transactions.
- Where conservation is claimed, the supplies of the starting set fit 64 bits and its tokens are named
  after boxes no longer in it (`BlockSupply.Bounded`), and no transaction puts out more of an asset than
  64 bits hold (`BlockSupply.OutputsFit`).
- Batches in a run of the UTXO set spend in turn (`UtxoHistory.SpendsInTurn`), the exact condition found
  above.

## Model

| member | source | states |
|---|---|---|
| `Ordering.CompareIsTotalOrder` | crates/ergo-mempool/src/ordering.rs:103-115 | the order on (weight descending, id ascending) is total, antisymmetric and transitive, so the ordered set has one iteration order |
| `Ordering.FirstDifferenceDecides` | crates/ergo-mempool/src/ordering.rs:103-115 | of two ids of equal weight the one with the smaller byte at the first difference comes first, or the one that ends there |
| `Ordering.FeePerFactorValue` | crates/ergo-mempool/src/ordering.rs:36-45 | the initial weight is the fee per byte times 1024, rounded down: weight * size <= 1024 * fee < (weight + 1) * size; 0 for no bytes |
| `Ordering.Insert` | crates/ergo-mempool/src/ordering.rs:103-115 | inserting into the ordered set keeps it sorted and adds exactly the new key |
| `Ordering.Remove` | crates/ergo-mempool/src/ordering.rs:103-115 | removing from the ordered set keeps it sorted and takes out exactly the given key |
| `FamilyGraph.DepthCutIsHarmlessIff` | crates/ergo-mempool/src/pool.rs:253-335 | a propagation that stops at the depth cut leaves no ancestor in debt if and only if no ancestor chain is longer than the cut |
| `FamilyGraph.WeightPositive` | crates/ergo-mempool/src/pool.rs:253-335 | in an acyclic pool with positive fees the weight equation forces every weight to be positive |
| `FamilyGraph.ParentOutweighsChild` | crates/ergo-mempool/src/pool.rs:253-335 | with positive fees the weight equation makes every parent strictly heavier than each of its children |
| `FamilyGraph.WeightsUnique` | crates/ergo-mempool/src/pool.rs:253-335 | the equation weight = own fee per factor + weights of the children has one solution on an acyclic pool, so weights do not depend on history |
| `FamilyGraph.JoinedBalancedIff` | crates/ergo-mempool/src/pool.rs:177-250 | after an admission the weight equation holds again exactly when the newcomer has no child and no ancestor chain passes the cut |
| `MempoolTables.HealthyWeightsUnique` | crates/ergo-mempool/src/pool.rs:177-408 | two healthy registries over the same transactions carry the same weights |
| `MempoolTables.AdmissionKeepsHealthIff` | crates/ergo-mempool/src/pool.rs:177-335 | after an admission to a healthy pool with positive fees the weights still add up, and the pool is still healthy, if and only if nothing pooled spends the new outputs and the ancestor chains fit the depth cut |
| `MempoolTables.LateParentBreaksWeights` | crates/ergo-mempool/src/pool.rs:177-335 | a concrete pool and the registry that admitting the parent of its only transaction leaves: healthy before, the weight equation fails afterwards |
| `MempoolTables.RemovalKeepsHealth` | crates/ergo-mempool/src/pool.rs:370-408 | removing any transaction, leaf or not, restores the weight equation for all that remain |
| `MempoolTables.EvictionLosesNoParent` | crates/ergo-mempool/src/pool.rs:337-366 | the lightest transaction of a healthy pool with positive fees has no child, so its eviction takes no parent away |
| `MempoolTables.ParentsComeFirst` | crates/ergo-mempool/src/ordering.rs:103-115 | every in-pool parent stands strictly before each of its children in the order |
| `MempoolTables.SelectionIsExecutionOrder` | crates/ergo-mempool/src/pool.rs:507-514 | for every limit the selection is closed under in-pool parents and lists each parent before its children; so is every prefix |
| `MempoolTables.UnlimitedSelectionIsThePool` | crates/ergo-mempool/src/pool.rs:507-514 | with room for all, the selection is exactly the pool |
| `MempoolTables.SpendGraphMeaning` | crates/ergo-mempool/src/pool.rs:131-140 | with unique output ids the pool's parent relation is exactly: spends an output of a different pooled transaction |
| `FeeOrder.AdmittedIff` | crates/ergo-mempool/src/pool.rs:177-212 | a transaction passes the tests if and only if it is not pooled, takes at most a tenth of the pool size, pays the minimum for every byte, and shares no input with a pooled one |
| `FeeOrder.RejectionJustified` | crates/ergo-mempool/src/pool.rs:177-212 | what each rejection says of the transaction is so, and the tests before it have passed |
| `FeeOrder.ChildlessWeight` | crates/ergo-mempool/src/ordering.rs:36-45 | in a healthy pool the weight of a transaction without children is its fee per byte times 1024, rounded down |
| `FeeOrder.HigherFeeComesFirst` | crates/ergo-mempool/src/ordering.rs:103-115 | of two transactions without children the one that pays more per byte, beyond the rounding, stands before the other |
| `FeeOrder.SelectionPrefersFees` | crates/ergo-mempool/src/pool.rs:507-514 | no selection takes one of them and leaves out another that pays more |
| `FeeOrder.VictimPaysLeast` | crates/ergo-mempool/src/pool.rs:354-366 | with positive fees the transaction that eviction takes has no child and pays no more per byte, beyond the rounding, than any other without children |
| `Pool.Mempool.constructor` | crates/ergo-mempool/src/pool.rs:150-163 | a new pool is empty, with all tables consistent |
| `Pool.Mempool.UpdateFamilyRecursive` | crates/ergo-mempool/src/pool.rs:258-335 | one propagation changes each ancestor's gap by exactly the delta for each upward path, less what the depth cut leaves |
| `Pool.Mempool.Admit` | crates/ergo-mempool/src/pool.rs:195-245 | the insertions and the propagation: the new tables exactly, and the gaps they leave, the newcomer entering with its fee per byte as `Ordering.FeePerFactorValue` says |
| `Pool.Mempool.Add` | crates/ergo-mempool/src/pool.rs:177-250 | rejects exactly when a test fails and then changes nothing; otherwise both limits hold afterwards, eviction stopped as soon as it could, nothing is evicted below the limits, and weights and parents survive as stated |
| `Pool.Mempool.Check` | crates/ergo-mempool/src/pool.rs:180-235 | the rejection tests in order: duplicate id, size, fee rate, an input that a pooled transaction spends |
| `Pool.Mempool.EvictLowestWeight` | crates/ergo-mempool/src/pool.rs:354-366 | removes exactly the last of the order; on an empty pool it changes nothing and still reports success |
| `Pool.Mempool.MaybeEvict` | crates/ergo-mempool/src/pool.rs:337-351 | terminates with both limits met, removes nothing more than needed, and never a parent of a remaining transaction |
| `Pool.Mempool.Remove` | crates/ergo-mempool/src/pool.rs:370-408 | removes one transaction from all tables and takes its weight back from its ancestors; a missing id changes nothing |
| `Pool.Mempool.GetByWeight` | crates/ergo-mempool/src/pool.rs:507-514 | returns the first entries of the order, up to the limit |
| `Pool.Mempool.RemoveConfirmed` | crates/ergo-mempool/src/pool.rs:562-592 | removes exactly the confirmed transactions and those that spend a confirmed input, counts them, and keeps the weight equation |
| `Storage.ExecuteConcat` | crates/ergo-storage/src/batch.rs:79-81 | executing merged batches is executing them one after the other |
| `Storage.LastWriteWins` | crates/ergo-storage/src/batch.rs:46-61 | after a batch each key holds what the last operation on it says, and untouched keys keep their value |
| `Storage.WriteBatch.Put` | crates/ergo-storage/src/batch.rs:46-52 | appends one put |
| `Storage.WriteBatch.Delete` | crates/ergo-storage/src/batch.rs:55-61 | appends one delete |
| `Storage.WriteBatch.Merge` | crates/ergo-storage/src/batch.rs:79-81 | appends the other batch; its effect comes after this one's |
| `Storage.WriteBatch.Clear` | crates/ergo-storage/src/batch.rs:74-76 | empties the batch |
| `UndoLog.EntryRoundTripIff` | crates/ergo-state/src/utxo.rs:63-98 | a stored box entry reads back if and only if its transaction id is 32 bytes |
| `UndoLog.UndoRoundTrip` | crates/ergo-state/src/utxo.rs:199-285 | undo bytes parse back to the record they were written from |
| `UndoCut.CutUndoRefused` | crates/ergo-state/src/utxo.rs:224-285 | undo bytes that are cut short anywhere are refused, never read as a smaller record |
| `UndoCut.EntryReadIff` | crates/ergo-state/src/utxo.rs:79-98 | which bytes read as which entry: height, transaction id and output index at their places, most significant byte first |
| `UndoCut.KeysSortAsHeights` | crates/ergo-state/src/utxo.rs:850-858 | the keys of undo records sort as their heights do |
| `UndoLog.SerializeUndo` | crates/ergo-state/src/utxo.rs:199-221 | the writing loop produces exactly the specified bytes |
| `UndoLog.DeserializeUndo` | crates/ergo-state/src/utxo.rs:224-285 | the parsing loops return the specified record or error on every input |
| `UtxoSpec.ExecuteChange` | crates/ergo-state/src/utxo.rs:748-863 | the whole effect of one block's operations on boxes, undo log and metadata |
| `UtxoSpec.AllFoundIff` | crates/ergo-state/src/utxo.rs:635-672 | the boxes a block spends are found if and only if each is known to the batch, or stored and readable; the error is that of the first one that is not |
| `UtxoSpec.NetEffectIff` | crates/ergo-state/src/utxo.rs:812-850 | deleting first and inserting afterwards is the ledger's net effect if and only if no box is created and spent by the same block |
| `UtxoSpec.BatchRefinesSequential` | crates/ergo-state/src/manager.rs:484-563 | when each block applies in turn and none spends what it creates, the batched write leaves the very same store, undo records included |
| `UtxoSpec.BatchMatchesSequenceIff` | crates/ergo-state/src/manager.rs:484-563 | when no block spends what it creates, the blocks apply in turn if and only if the batch is accepted and no block spends a box that an earlier one spent and none has created since; the stores are then the same |
| `UtxoSpec.FreshBatchMatchesSequenceIff` | crates/ergo-state/src/manager.rs:484-563 | with fresh box ids, for any blocks: in turn if and only if the batch is accepted, no block spends a box that is gone, and none spends what it creates |
| `UtxoSpec.BatchAcceptsDoubleSpend` | crates/ergo-state/src/manager.rs:484-563 | a family of batches that are accepted although block by block is refused: several blocks spend the same stored box |
| `UtxoHistory.UndoRestoresIff` | crates/ergo-state/src/utxo.rs:946-1031 | undoing a change, applied on its own or in a batch, gives the old set back if and only if no created box replaced an unspent one and no box that was not there is both created and spent |
| `UtxoHistory.BatchedThenRolledBack` | crates/ergo-state/src/utxo.rs:748-1031 | a block written as a batch is accepted exactly when all it spends is in the set or created by it; the set it leaves, and the set its rollback leaves |
| `UtxoHistory.BatchedBlockRestoredIff` | crates/ergo-state/src/utxo.rs:748-1031 | through the stored undo bytes: the rollback of a batched block restores the stored boxes if and only if the two conditions on the change hold |
| `UtxoHistory.SelfSpendSurvives` | crates/ergo-state/src/utxo.rs:762-850 | a block that spends a new box it creates: refused on its own, accepted as a batch, the box is then stored and survives the rollback |
| `UtxoHistory.OneBoxSelfSpend` | crates/ergo-state/src/utxo.rs:762-850 | the smallest such block, with the exact error on its own |
| `UtxoHistory.ApplyExtends` | crates/ergo-state/src/utxo.rs:618-721 | a block applies exactly when all it spends exists, and then the store represents the longer branch |
| `UtxoHistory.RollbackShortens` | crates/ergo-state/src/utxo.rs:946-1031 | rolling the last block back through its stored undo bytes leaves exactly the store of the branch without it |
| `UtxoHistory.BatchKeepsRepresentation` | crates/ergo-state/src/manager.rs:425-572 | a batch whose blocks spend in turn extends the represented branch by all of them, exactly when each applies; otherwise nothing changes |
| `UtxoHistory.RollbackTruncates` | crates/ergo-state/src/utxo.rs:910-944 | rolling back to any lower height leaves exactly what the branch up to that height left |
| `UtxoHistory.RollbackNeedsRecords` | crates/ergo-state/src/utxo.rs:910-1031 | a rollback succeeds only if the log holds a record for every height it undoes, and then takes out exactly those |
| `UtxoHistory.FailedRollback` | crates/ergo-state/src/utxo.rs:910-944 | a rollback that fails has undone exactly the blocks above the one it fails at, and the height stays as it was |
| `UtxoHistory.NoneUnreadableIff` | crates/ergo-state/src/utxo.rs:965-1000 | the look at the created boxes stops a rollback if and only if one that is still stored cannot be read |
| `UtxoHistory.UndoTableKeys` | crates/ergo-state/src/utxo.rs:850-858 | the undo log has exactly one record for each height of the branch |
| `BatchRollback.BatchUnwinds` | crates/ergo-state/src/manager.rs:484-563 | whatever an accepted batch of any number of blocks spends, the rollback below it succeeds, restores the undo log, and leaves exactly the set that taking its blocks back one by one gives |
| `BatchRollback.RollbackIntoBatch` | crates/ergo-state/src/utxo.rs:910-1031 | the same for the rollback to every height inside the batch |
| `BatchRollback.BatchRestoredIff` | crates/ergo-state/src/utxo.rs:910-1031 | the rollback to every height inside and below a batch restores the set that stood there if and only if each block replaced no unspent box and found what it spent as it stood before it |
| `BatchRollback.FreshBatchRestoredIff` | crates/ergo-state/src/utxo.rs:910-1031 | with fresh box ids: if and only if no block spends a box that is gone, or one that it creates |
| `UtxoHistory.RunRepresentsActiveBranch` | crates/ergo-state/src/utxo.rs:618-1031 | after every run of single blocks, batches and rollbacks the set is the replay of the active branch, the undo log its records, and the persisted height agrees with the one in memory |
| `UtxoHistory.OnlyTheActiveBranchMatters` | crates/ergo-state/src/utxo.rs:618-1031 | rolling back and taking another branch ends where taking only that branch ends |
| `UtxoState.Utxo.constructor` | crates/ergo-state/src/utxo.rs:414-421 | a new state is the state of the empty run |
| `UtxoState.Utxo.ApplyChange` | crates/ergo-state/src/utxo.rs:618-721 | one block in one write; a missing box changes nothing |
| `UtxoState.Utxo.AddChangeToBatchWithContext` | crates/ergo-state/src/utxo.rs:748-863 | queues exactly one block's operations, consuming boxes of the same block, of the batch, or of storage |
| `UtxoState.Utxo.RollbackOneBlock` | crates/ergo-state/src/utxo.rs:946-1031 | the looping rollback of one block does what its specification says, errors included |
| `UtxoState.Utxo.Rollback` | crates/ergo-state/src/utxo.rs:910-944 | only downwards; a failure on the way is returned and leaves the height as it was |
| `UtxoState.StateManager.ApplyBlock` | crates/ergo-state/src/manager.rs:328-412 | a single block must have the next height; it then succeeds if and only if all boxes it spends are found, and otherwise returns the error of the search and changes nothing |
| `UtxoState.StateManager.ApplyBlocksBatched` | crates/ergo-state/src/manager.rs:425-572 | refuses blocks that do not continue the set; otherwise writes exactly the batch of all of them, or nothing: one batch event of a run |
| `HeaderChain.AppendKeepsInvariant` | crates/ergo-state/src/history.rs:814-929 | appending one header keeps: parents stored, work recorded as parent's plus own, index complete, best attained and unbeaten |
| `HeaderChain.WorkIsPathTotal` | crates/ergo-state/src/history.rs:834-846 | a header's recorded work is the sum of difficulties along every ancestor path that ends in it |
| `HeaderChain.PathTo` | crates/ergo-state/src/history.rs:830-846 | when heights step by one, every stored header has such a path |
| `HeaderSelection.AcceptedInTurnIff` | crates/ergo-state/src/history.rs:814-833 | headers are accepted in turn if and only if each is known, starts a path, or has its parent stored or earlier in the list; all of them are then stored and nothing else, and an error names the missing parent |
| `HeaderSelection.HarderBranchWins` | crates/ergo-state/src/history.rs:834-861 | the heaviest branch is best, not the longest: n headers with targets of at most t keep any branch of fewer than 2n headers with targets of at least 2t from being best |
| `HeaderSelection.ReportIff` | crates/ergo-state/src/history.rs:900-925 | the report of a new best header is right if and only if it does not stand higher than the old one on another branch: then an extension is reported although nothing was extended; a reported reorganisation always is one |
| `HeaderSelection.TallerForkReported` | crates/ergo-state/src/history.rs:900-925 | three headers for which it is wrong |
| `HeaderBatch.RunsInStep` | crates/ergo-state/src/history.rs:939-1065 | the loop over a linked batch and appending one by one agree step by step on headers, index, work and errors |
| `HeaderBatch.FinalWinsIff` | crates/ergo-state/src/history.rs:1067-1097 | taking only the final header as candidate picks the same best as comparing all, if and only if no earlier one that beats the old best reaches its work |
| `HeaderBatch.BatchIsOneByOne` | crates/ergo-state/src/history.rs:939-1107 | from height 2 up a linked batch, any of its headers stored already, leaves exactly the state of appending one at a time, and fails exactly when that fails |
| `HeaderForks.BatchRecordsSameWorkIff` | crates/ergo-state/src/history.rs:976-1035 | any batch, linked or not, with repetitions or not, is accepted exactly when its headers are one at a time, stores the same headers, and records the same work if and only if each new header's last occurrence saw its parent's recorded work |
| `HeaderForks.RepeatedHeader` | crates/ergo-state/src/history.rs:982-986 | a header and its child twice in one batch: the child's own difficulty is recorded twice |
| `HeaderForks.DistinctBatchRecordsSameWorkIff` | crates/ergo-state/src/history.rs:976-1035 | without repetitions the height index is the same too, and the work if and only if the running work is the parent's own whenever a parent is in the batch |
| `HeaderForks.ForkRecordsWrongWorkIff` | crates/ergo-state/src/history.rs:1007-1019 | for a batch of new headers that form a tree: the recorded work is right if and only if each header is the child of the one before it |
| `HeaderForks.SmallestFork` | crates/ergo-state/src/history.rs:1007-1019 | a header and two children of it in one batch: the second child is recorded with the work of the first one on top |
| `HeaderRuns.BatchFromGenesisIff` | crates/ergo-state/src/history.rs:939-1107 | from height 1 the two agree if and only if the first header does not outweigh all that follows it |
| `HeaderRuns.GenesisBatchLosesWork` | crates/ergo-state/src/history.rs:1006-1012 | two headers on an empty store: the batch selects the second, one by one the harder first |
| `HeaderRuns.RunKeepsInvariant` | crates/ergo-state/src/history.rs:814-1107 | over every run of single and linked batched appends, from height 1 too where the first header does not outweigh the rest, the store keeps all clauses, the best header attaining the maximum |
| `HeaderRuns.BestOnlyImproves` | crates/ergo-state/src/history.rs:859-925 | over every run the best header changes only for strictly more work |
| `HeaderRuns.BestIsHeaviestPath` | crates/ergo-state/src/history.rs:814-1107 | no stored ancestor path has more work than the best header |
| `HeaderRuns.BestPathTotal` | crates/ergo-state/src/history.rs:814-1107 | the best header's own ancestor path has exactly the best work |
| `History.HistoryStore.AppendHeader` | crates/ergo-state/src/history.rs:814-929 | does what the specification says; memory and persisted best stay equal; a new header's recorded work is its parent's plus a difficulty d with d * target <= 2^256 - 1 < (d + 1) * target; the report says how best moved |
| `History.HistoryStore.QueueHeaders` | crates/ergo-state/src/history.rs:960-1065 | the loop with its running work queues exactly the specified writes, or stops with the specified error |
| `History.HistoryStore.AppendHeadersBatched` | crates/ergo-state/src/history.rs:939-1107 | one write for the batch and one candidate for best; an error changes nothing; the report says how best moved |
| `Pruning.FloorIsGoverned` | crates/ergo-state/src/history.rs:672-700 | over every run the floor depends only on the highest block seen: the oldest height to keep, moved back to its epoch boundary |
| `Pruning.FloorBounds` | crates/ergo-state/src/history.rs:660-700 | the floor never exceeds the oldest height to keep, is at most 1024 or a multiple of it, and past the first epoch is the boundary in force for that height |
| `Pruning.FloorNeverFalls` | crates/ergo-state/src/history.rs:672-700 | the floor never comes down, even for a lower best block |
| `Pruning.KeepingNoneKeepsAll` | crates/ergo-state/src/history.rs:677-684 | keeping zero blocks wraps around and, as for a negative number, prunes nothing |
| `Pruning.BodyStore.PruneBlocksBelow` | crates/ergo-state/src/history.rs:732-758 | deletes all three sections of exactly the bodies indexed below the given height |
| `Pruning.BodyStore.UpdateBestFullBlockPruning` | crates/ergo-state/src/history.rs:672-728 | the new floor in memory and storage, and exactly the bodies that go |
| `Pruning.PruningSparesTheFloor` | crates/ergo-state/src/history.rs:732-758 | with a complete index exactly the stored bodies go whose headers stand below the floor and are the ones the index points to |
| `Parameters.GroupingDoesNotMatter` | crates/ergo-state/src/manager.rs:686-698 | updating after batches, however the heights were grouped, gives one pass over all heights |
| `Parameters.PrunedRestartAgreesIff` | crates/ergo-state/src/history.rs:18-21 | a restart from the bodies the pruning floor keeps finds the same parameters if and only if every field is voted on at or above the floor or still has its default below it |
| `Parameters.PrunedRestartForgets` | crates/ergo-state/src/history.rs:18-21 | a vote of the first epoch that the second does not repeat: with one block kept, the restart is back at the default |
| `Parameters.PrunedRestartAgrees` | crates/ergo-state/src/history.rs:18-21 | in particular when the boundary block at the floor names all eight |
| `Parameters.CompleteVoteForgets` | crates/ergo-consensus/src/chain_params.rs:89-130 | a vote that names all eight parameters depends on nothing before it |
| `ParameterVotes.LastVoteDecides` | crates/ergo-consensus/src/chain_params.rs:15-130 | after every history each parameter, by its number from 1 to 8, has the value of the last boundary block that votes on it, as a 64-bit pattern, or its initial value |
| `Parameters.ParameterKeeper.InitFromStorage` | crates/ergo-state/src/manager.rs:98-157 | visiting only epoch boundaries gives the parameters of visiting every height |
| `Parameters.ParameterKeeper.UpdateFromBlock` | crates/ergo-state/src/manager.rs:625-675 | only a boundary block with readable, non-empty parameters changes anything |
| `Parameters.ParameterKeeper.UpdateForHeightRange` | crates/ergo-state/src/manager.rs:686-698 | applies the votes of the range in order |
| `BlockRules.NoDuplicateIff` | crates/ergo-consensus/src/block_validation.rs:351-360 | the duplicate test passes exactly when all inputs differ |
| `BlockRules.CollectFinds` | crates/ergo-consensus/src/block_validation.rs:488-527 | inputs are found exactly when each was created earlier in the block or stands in the set, and the boxes are those |
| `BlockRules.ErgCheckSoundIff` | crates/ergo-consensus/src/tx_validation.rs:591-614 | the wrapping ERG comparison is sound, for inputs that fit 64 bits, if and only if the outputs fit as well |
| `BlockRules.TokenCheckSoundIff` | crates/ergo-consensus/src/tx_validation.rs:563-586 | so is the token comparison, for every token the transaction may not mint |
| `BlockValidator.TallyTokens` | crates/ergo-consensus/src/tx_validation.rs:536-561 | the tally holds each token's total, wrapped to 64 bits |
| `BlockValidator.ValidateTokenConservation` | crates/ergo-consensus/src/tx_validation.rs:527-586 | accepts exactly when no token but the mintable one grows |
| `BlockValidator.ValidateErgConservation` | crates/ergo-consensus/src/tx_validation.rs:591-614 | the fee, or the two sums when outputs exceed inputs |
| `BlockValidator.FullBlockValidator.ValidateTransaction` | crates/ergo-consensus/src/block_validation.rs:344-452 | the checks of one transaction in their order, with the first error; it passes if and only if it is sound on the boxes known so far, spends nothing twice, and keeps the cost limits |
| `BlockValidator.FullBlockValidator.ValidateTransactions` | crates/ergo-consensus/src/block_validation.rs:302-486 | the loop over a block's transactions; it succeeds if and only if the block is acceptable as below, and records exactly its inputs, outputs and cost |
| `BlockAcceptance.AcceptedIff` | crates/ergo-consensus/src/block_validation.rs:344-452 | a block is accepted if and only if each transaction spends known boxes that nothing in the block has spent before, its data inputs are known and none of its inputs, its 64-bit sums do not grow but for a minted token, no output is below 360, and, unless skipped, its scripts are valid at a cost within the limit, as is the cost of all; the recorded cost is that sum, saturated |
| `BlockAcceptance.ChangeListed` | crates/ergo-consensus/src/block_validation.rs:454-486 | the change of an accepted block lists every input with the box it was found as and every output with its transaction and index, in order and nothing else |
| `BlockAcceptance.RefusalJustified` | crates/ergo-consensus/src/block_validation.rs:344-452 | when a block is refused, the transactions before the refused one are acceptable and what the error says of that one is so |
| `Ledger.SupplyMoves` | crates/ergo-consensus/src/tx_validation.rs:527-614 | each transaction moves the supply of ERG and of every token by exactly its outputs minus its inputs |
| `Ledger.SpentIsGone` | crates/ergo-consensus/src/block_validation.rs:457-474 | after any run that spends boxes of the set, the set holds exactly what was ever created and not spent |
| `Ledger.SpendOnce` | crates/ergo-consensus/src/block_validation.rs:351-373 | over every such run no box is spent twice, whatever the amounts |
| `Ledger.ErgFallsBySurplus` | crates/ergo-consensus/src/tx_validation.rs:591-614 | the ERG in the set falls by exactly the sum of the surpluses, which is not negative over valid runs |
| `Ledger.MintOnce` | crates/ergo-consensus/src/tx_validation.rs:563-586 | each token is minted by at most one transaction ever |
| `Ledger.SupplyNeverGrowsAfterMint` | crates/ergo-consensus/src/tx_validation.rs:563-586 | once minted, a token's supply never grows again |
| `BlockLedger.CheckedOnLedger` | crates/ergo-consensus/src/block_validation.rs:344-452 | a transaction that passes the block's checks is spendable and checked on the ledger the block has reached, also when the lookup still shows boxes that are gone, if it spends none of them |
| `BlockLedger.BlockRefinesLedger` | crates/ergo-consensus/src/block_validation.rs:302-486 | a validated block is a run of checked ledger transactions whose end is its net effect, whatever the amounts, if it spends and recreates nothing that is gone |
| `BlockLedger.RecordedIds` | crates/ergo-consensus/src/block_validation.rs:457-483 | the spent and created ids of a validated block are those of its transactions |
| `BlockSupply.CheckSoundIff` | crates/ergo-consensus/src/tx_validation.rs:527-614 | for any asset the transaction does not mint, with inputs that fit 64 bits: outputs within inputs if and only if the outputs fit 64 bits |
| `BlockSupply.ErgNeverAddedIff` | crates/ergo-consensus/src/tx_validation.rs:591-614 | from a set whose ERG fits 64 bits, checked transactions never raise it above that at any point if and only if the ERG outputs of each fit 64 bits |
| `BlockSupply.ValidIffOutputsFit` | crates/ergo-consensus/src/tx_validation.rs:527-614 | from a set whose supplies fit 64 bits and whose tokens are older than its boxes: checked transactions conserve every asset, and mint what fits, if and only if no transaction puts out more of an asset than 64 bits hold |
| `Deliveries.TakeBlock` | crates/ergo-node/src/node.rs:993-1058 | a block validated against the database and the boxes created since the last write runs on the ledger if it spends no box spent before, and the next lookup again agrees on everything unspent |
| `Deliveries.SpendOnceIff` | crates/ergo-node/src/node.rs:859-1125 | spend-once: over any run of deliveries in which no block spends what it creates, no box is ever spent twice if and only if none is spent twice between two writes |
| `DeliveryRepeats.OnlyStoredBoxesRepeat` | crates/ergo-node/src/node.rs:956-1068 | whatever is accepted between two writes, a box that is spent twice there is one the database held at the last write; a box created since is spent once only |
| `Deliveries.AcceptedBlocksAreOneLedgerIff` | crates/ergo-node/src/node.rs:859-1125 | over any run of deliveries, in batches of any size: all transactions form one ledger run and the writes leave the set where it ends, if and only if no box is spent twice between two writes and no block spends a box it creates |
| `Deliveries.BatchIsOneLedgerIff` | crates/ergo-node/src/node.rs:859-1058 | within one batch the blocks run on the ledger if and only if no box is spent twice |
| `Deliveries.SelfSpentStays` | crates/ergo-state/src/manager.rs:498-517 | a box that a block creates and spends is in the stored set at the end of every run in which no other block spends it |
| `Deliveries.AcceptedErgIff` | crates/ergo-node/src/node.rs:859-1125 | under those two conditions the ERG in the set never exceeds what it was if and only if all outputs' ERG fits 64 bits |
| `Deliveries.AcceptedBlocksConserve` | crates/ergo-node/src/node.rs:859-1125 | under the same two conditions, and with amounts that fit: spend-once, exact ERG accounting and mint-once over the whole run of deliveries |
| `Deliveries.OverflowAddsErg` | crates/ergo-consensus/src/tx_validation.rs:593-614 | three legal values whose sum wraps to 360 pass against one box of 360: the set then holds 2^64 more |
| `Deliveries.DoubleSpendAddsErg` | crates/ergo-node/src/node.rs:956-1003 | two blocks of one batch that spend the same box are both accepted: the set then holds twice the ERG |
| `BlockIntake.Router.ValidateNext` | crates/ergo-node/src/node.rs:956-1068 | looks boxes up as the router does, validates, tracks created and spent boxes with its two loops, and queues the block |
| `BlockIntake.Router.WriteBatch` | crates/ergo-node/src/node.rs:1071-1125 | writes exactly the queued blocks, deletions before insertions, and clears the tracking |
| `ReorderBuffer.TakenRun` | crates/ergo-node/src/node.rs:836-842 | collecting takes out exactly the contiguous heights from the one asked for |
| `ReorderBuffer.RunIsSafe` | crates/ergo-node/src/node.rs:797-1135 | in every reachable state, failures included, buffered heights are at least two above the set, the written batches lead from the start to the set, each beginning where the one before it ended, and the buffer keeps its bound |
| `ReorderBuffer.RunWritesEveryHeight` | crates/ergo-node/src/node.rs:797-1135 | over every run the written blocks, batch after batch, are exactly one for each height above the start up to the set, in order |
| `ReorderBuffer.BufferBounded` | crates/ergo-node/src/node.rs:807-829 | draining and re-buffering never let the buffer outgrow its limit |
| `ReorderBuffer.DeliveryReaches` | crates/ergo-node/src/node.rs:844-1135 | how far one delivery gets, whatever fails: to the end of the run in hand if and only if on the path it takes no block is refused and no write fails; otherwise whole batches of 64 before the first failure are kept, the rest of the validated ones are lost, known later blocks are buffered again |
| `DeliveryPath.DeliveryOutcome` | crates/ergo-node/src/node.rs:844-1135 | how far a delivery gets, said only of what header lookup, validation and writing answer: which block fails first in its turn decides |
| `DeliveryPath.CompletesIff` | crates/ergo-node/src/node.rs:844-1135 | a delivery completes if and only if every header is known, every block valid after those of its batch, and every write of 64 and the last one succeed |
| `DeliveryPath.WrittenWereApproved` | crates/ergo-node/src/node.rs:993-1125 | over every run, whatever fails, each batch written had known headers only, and blocks valid one after the other on the set it was written to |
| `ReorderBuffer.SmoothRunConverges` | crates/ergo-node/src/node.rs:797-1135 | as long as nothing fails on the path taken the set stands at the end of the longest contiguous run of arrived heights, the rest being buffered |
| `ReorderBuffer.ArrivalOrderDoesNotMatter` | crates/ergo-node/src/node.rs:797-1135 | then the order of arrival, and any repetition, make no difference |
| `BlockRouter.Node.TakeBuffered` | crates/ergo-node/src/node.rs:833-842 | the draining loop |
| `BlockRouter.Node.ApplyBlock` | crates/ergo-node/src/node.rs:775-1135 | the whole arm, loops included, does what the specification says |
| `NBits.RoundingErrorIff` | crates/ergo-consensus/src/autolykos.rs:248-294 | the compact form keeps a target from below to within one part in 2^15 if and only if it lies from 2^16 up to 2^2039 |
| `NBits.RoundingMonotone` | crates/ergo-consensus/src/autolykos.rs:248-294 | a larger target never gets a smaller compact value |
| `NBits.RoundingIdempotent` | crates/ergo-consensus/src/autolykos.rs:248-294 | rounding twice is rounding once |
| `NBits.RoundTripIff` | crates/ergo-consensus/src/autolykos.rs:248-294 | a compact word survives decoding and encoding if and only if it is canonical |
| `NBits.DecodedIsExact` | crates/ergo-consensus/src/autolykos.rs:248-294 | what a compact word stands for loses nothing when encoded again |
| `NBits.SmallEncoded` | crates/ergo-consensus/src/autolykos.rs:276-281 | one- and two-byte targets are encoded as if 256 or 65536 times larger |
| `NBits.HugeRounded` | crates/ergo-consensus/src/autolykos.rs:282-293 | from 2^2039 the size byte wraps and the value collapses |
| `NBits.DifficultyPositiveIff` | crates/ergo-consensus/src/autolykos.rs:296-304 | difficulty is positive if and only if the target does not exceed 2^256 - 1; its value is in the next row |
| `NBits.DifficultyValue` | crates/ergo-consensus/src/autolykos.rs:296-304 | the difficulty d of a target t > 0 is the quotient: d * t <= 2^256 - 1 < (d + 1) * t; of target 0 it is 2^256 - 1 |
| `NBits.LowerTargetIsHarder` | crates/ergo-consensus/src/autolykos.rs:296-304 | a lower target never has less difficulty, and at most half the target at least twice the difficulty |
| `NBits.KnownDifficulty` | crates/ergo-consensus/src/autolykos.rs:296-304 | 0x1d00ffff stands for 65535 * 256^26 and has difficulty 4295032833 |
| `NBits.ComputeNBits` | crates/ergo-consensus/src/autolykos.rs:264-294 | the word-building code computes the arithmetic form |
| `Difficulty.NumeratorIsPairSum` | crates/ergo-consensus/src/difficulty.rs:109-133 | the numerator of the slope is the sum over all pairs of products of differences |
| `Difficulty.DenominatorIsPairSum` | crates/ergo-consensus/src/difficulty.rs:109-126 | the denominator is the sum over all pairs of squared height differences |
| `Difficulty.DegenerateIff` | crates/ergo-consensus/src/difficulty.rs:125-131 | the guard against degenerate data fires if and only if all heights coincide |
| `Difficulty.SlopePositive` | crates/ergo-consensus/src/difficulty.rs:109-133 | the slope is positive when time strictly increases with height |
| `Difficulty.ExactOnLines` | crates/ergo-consensus/src/difficulty.rs:109-133 | on points of a line the regression finds its slope |
| `Difficulty.RetargetBounds` | crates/ergo-consensus/src/difficulty.rs:135-160 | the new target lies between half the old one and twice it |
| `Difficulty.RetargetValue` | crates/ergo-consensus/src/difficulty.rs:148-160 | how far the target moves for a clamp c: for c > 1 by the whole thousandths k of c, r * k <= 1000 * t < (r + 1) * k; otherwise by those of 1 / c |
| `Difficulty.RetargetMoves` | crates/ergo-consensus/src/difficulty.rs:135-160 | for every slope: blocks at least twice as fast as the interval halve the target, blocks at least twice as slow, or with falling times, double it, and in between it is t * slope / interval but for one unit and a thousandth part |
| `Difficulty.RetargetFollowsTheSlope` | crates/ergo-consensus/src/difficulty.rs:98-163 | the new target never moves the wrong way |
| `Difficulty.EncodedRetargetFollowsTheSlope` | crates/ergo-consensus/src/difficulty.rs:98-163 | nor does it after compact encoding and decoding |
| `Difficulty.EpochRetarget` | crates/ergo-consensus/src/difficulty.rs:59-95 | at every boundary of 1024 blocks after the first epoch the required word encodes that target, for two minutes a block |
| `Difficulty.KnownRetargets` | crates/ergo-consensus/src/difficulty.rs:59-163 | two headers one minute apart give 0x1c7fff80, four minutes apart 0x1d01fffe, from 0x1d00ffff |
| `Difficulty.ConstantWithinEpoch` | crates/ergo-consensus/src/difficulty.rs:59-95 | difficulty changes only at epoch boundaries after the first epoch |
| `Difficulty.LinearRegression` | crates/ergo-consensus/src/difficulty.rs:98-163 | the summing loop: an error, or the encoding of a target that has moved by the slope of the headers as `Difficulty.RetargetMoves` says |
| `Vlq.VlqRoundTrip` | crates/ergo-network/src/handshake.rs:482-528 | every 64-bit value written anywhere reads back, and the reader stops behind it |
| `Vlq.VlqShortest` | crates/ergo-network/src/message.rs:51-62 | no byte string that reads as a value is shorter than the encoder's |
| `VlqMeaning.EncodesSevens` | crates/ergo-network/src/handshake.rs:482-494 | the bytes written are the base-128 digits, lowest first, with the top bit on all but the last |
| `VlqMeaning.VlqReadsIff` | crates/ergo-network/src/handshake.rs:504-528 | bytes read as a value if and only if one of the first ten has no top bit; the value is that of their base-128 digits, modulo 2^64; ten bytes that all go on overflow, fewer are cut |
| `VlqMeaning.ZigZagOrders` | crates/ergo-network/src/handshake.rs:497-501 | the signed form counts values by magnitude, the negative one first |
| `Vlq.SignedRoundTrip` | crates/ergo-network/src/handshake.rs:497-536 | every signed 64-bit value reads back |
| `Vlq.ZigZagBijective` | crates/ergo-network/src/handshake.rs:497-536 | the signed form is a bijection between signed and unsigned values |
| `Vlq.EncodeVlq` | crates/ergo-network/src/handshake.rs:482-494 | the writing loop |
| `Vlq.DecodeVlq` | crates/ergo-network/src/handshake.rs:504-528 | the reading loop, with truncation and overflow |
| `Vlq.VlqByteLen` | crates/ergo-network/src/message.rs:51-62 | counts exactly the bytes of the encoding |
| `PeerSpec.FeatureReadsBackIff` | crates/ergo-network/src/handshake.rs:884-990 | a feature's payload parses back to it if and only if it is well-formed |
| `PeerSpec.FeaturesReadBack` | crates/ergo-network/src/handshake.rs:861-990 | a list of features reads back if and only if each is well-formed |
| `PeerSpec.ParsesBackIff` | crates/ergo-network/src/handshake.rs:670-1003 | a description is self-delimiting: at any place in a message it parses to itself and its exact end, if and only if it is well-formed |
| `PeerCodec.SerializePeer` | crates/ergo-network/src/handshake.rs:670-765 | the serializer with its loop |
| `PeerCodec.ParsePeer` | crates/ergo-network/src/handshake.rs:768-1003 | the parser with its loop |
| `Handshake.HandshakeReadsBackIff` | crates/ergo-network/src/handshake.rs:107-455 | a handshake reads back if and only if its description is well-formed and the bytes at hand stay within the limit |
| `HandshakeCut.CutParsesIff` | crates/ergo-network/src/handshake.rs:208-457 | a handshake cut anywhere parses if and only if the cut is at the end of the names, of the address, of the count or of a feature, and within the size limit; it then reads as the handshake without what is missing |
| `Handshake.CutAfterNamesParses` | crates/ergo-network/src/handshake.rs:255-330 | what stops after the names parses for every name of up to 255 bytes, as a description without address and features |
| `WireExamples.KnownHandshake` | crates/ergo-network/src/handshake.rs:1072-1118 | a handshake that a node of the main network sent: the serializer writes these bytes and the parser reads them |
| `WireExamples.OtherFeatures` | crates/ergo-network/src/handshake.rs:670-765 | the bytes of the feature kinds that it does not contain |
| `WireExamples.ShortPayloads` | crates/ergo-network/src/handshake.rs:895-940 | a mode feature without its block count reads as keeping one block, a session whose number is cut as number 0 |
| `Handshake.WriteHandshake` | crates/ergo-network/src/handshake.rs:107-204 | the serializer |
| `Handshake.ReadHandshake` | crates/ergo-network/src/handshake.rs:208-457 | the parser |
| `Messages.MessageRoundTripIff` | crates/ergo-network/src/message.rs:472-660 | peer lists, inventories, requests and modifiers decode to themselves if and only if ids are 32 bytes and peers well-formed |
| `WireExamples.MessageKinds` | crates/ergo-network/src/message.rs:66-97 | each kind of message begins with its number |
| `WireExamples.KindsKnown` | crates/ergo-network/src/message.rs:99-117 | the numbers of all other kinds; every further number is refused as unknown |
| `WireExamples.NoTypeByte` | crates/ergo-network/src/message.rs:608-661 | a message of one byte stops the decoder if and only if its kind is an inventory, a request or a modifier: it has no type byte to read |
| `MessageCut.InventoryCut` | crates/ergo-network/src/message.rs:572-660 | an inventory cut behind its count decodes as one of the ids that are whole, without an error; cut before that it is refused |
| `MessageCut.ModifierCutRefused` | crates/ergo-network/src/message.rs:572-660 | every proper beginning of a modifier message is refused |
| `MessageCodec.EncodeMessage` | crates/ergo-network/src/message.rs:472-569 | the writing loops |
| `MessageCodec.DecodeMessage` | crates/ergo-network/src/message.rs:572-660 | the reading loops, errors included |
| `Framing.StepConsumes` | crates/ergo-network/src/codec.rs:81-147 | an incomplete frame is never partly consumed, and each decoded frame makes progress |
| `Framing.StepStable` | crates/ergo-network/src/codec.rs:81-147 | what has been decided does not change when more bytes arrive |
| `FrameFormat.EncoderFrames` | crates/ergo-network/src/codec.rs:153-197 | what the encoder writes: magic, kind, big-endian length, and for a payload its checksum and the payload |
| `FrameFormat.FrameOutcome` | crates/ergo-network/src/codec.rs:81-147 | a whole frame is taken off the buffer; its body is decoded if and only if the checksum is right |
| `FrameFormat.OnlyFramesDecode` | crates/ergo-network/src/codec.rs:81-147 | a message comes out only for a frame of at most ten mebibytes with the right magic and checksum, and exactly that frame is taken off |
| `FrameFormat.HeaderDecides` | crates/ergo-network/src/codec.rs:81-118 | exactly when the header is refused for its magic or its length, and when the decoder waits |
| `Framing.ChunksDoNotMatter` | crates/ergo-network/src/codec.rs:81-147 | however a byte stream is cut into chunks the reader decodes the same messages, or stops at the same error |
| `Framing.FramesComeBack` | crates/ergo-network/src/codec.rs:81-197 | frames sent one after the other come back in order and complete, a further beginning staying in the buffer |
| `MessageStream.MessagesComeBack` | crates/ergo-network/src/codec.rs:81-197 | well-formed messages arrive as sent, however the stream is cut |
| `MessageStream.StreamCodec.DecodeFrame` | crates/ergo-network/src/codec.rs:81-147 | the decoder on its buffer: the answer and exactly what is left |
| `MessageStream.StreamCodec.EncodeInto` | crates/ergo-network/src/codec.rs:153-197 | appends exactly one frame, or nothing when too large |
| `Download.RunIsSound` | crates/ergo-sync/src/download.rs:112-264 | after every proper run in flight are precisely the pending tasks with a peer, at most the limit; nothing is pending and completed; pending tasks have retries left; the cache keeps its bound |
| `Download.DispatchAllKeepsSound` | crates/ergo-sync/src/download.rs:159-224 | dispatching what a query just returned keeps the limit on parallel requests |
| `Download.RetriesCountFailures` | crates/ergo-sync/src/download.rs:234-264 | a task's retry count is the number of its failures since it was queued |
| `Download.GivenUpAtTheLimit` | crates/ergo-sync/src/download.rs:234-264 | a failing task is given up exactly at its last allowed failure |
| `Download.FailureSpendsOne` | crates/ergo-sync/src/download.rs:234-264 | each failure of a pending task uses up exactly one of the failures left to all of them |
| `Download.FailuresAreBounded` | crates/ergo-sync/src/download.rs:112-264 | over every run the failures never exceed the limit for each queued task |
| `DownloadHistory.QueuedIff` | crates/ergo-sync/src/download.rs:122-156 | queueing adds a named task if and only if its id is not in flight, pending, or, unless forced, completed; the first of each id; nothing else changes |
| `DownloadHistory.CarriesLastDispatch` | crates/ergo-sync/src/download.rs:217-264 | over every proper run a pending task carries the peer and the time of its last dispatch, or neither |
| `DownloadHistory.TimedOutIff` | crates/ergo-sync/src/download.rs:267-297 | what the timeout check finds is, over every proper run, exactly what is in flight with its last dispatch more than the timeout back |
| `DownloadHistory.KnowsItsFailers` | crates/ergo-sync/src/download.rs:205-264 | a pending task knows exactly the peers that failed it since it was queued or last forgiven |
| `DownloadHistory.CompletedIsRemembered` | crates/ergo-sync/src/download.rs:122-156 | a completed id stays known through fewer than 50000 further completions, unless forgotten or queued by force |
| `DownloadHistory.ForgottenIsWanted` | crates/ergo-sync/src/download.rs:326-328 | a forgotten id can be queued again unless it is in flight or pending; nothing else changes |
| `Downloader.BlockDownloader.QueueInner` | crates/ergo-sync/src/download.rs:122-156 | the queueing loop |
| `Downloader.BlockDownloader.GetReadyTasks` | crates/ergo-sync/src/download.rs:159-186 | returns ready tasks only, none the peer failed, no more than asked or than the parallel limit leaves, and no fewer than there are |
| `Downloader.BlockDownloader.GetStuckTasks` | crates/ergo-sync/src/download.rs:190-203 | exactly the waiting tasks that every given peer failed |
| `Downloader.BlockDownloader.ClearFailed` | crates/ergo-sync/src/download.rs:205-214 | empties the list of peers that failed the task, and nothing else |
| `Downloader.BlockDownloader.Forget` | crates/ergo-sync/src/download.rs:326-328 | takes the id out of the cache |
| `Downloader.BlockDownloader.DispatchTo` | crates/ergo-sync/src/download.rs:217-223 | marks the task with peer and time, and the request as in flight: over every run these are those of the last dispatch (`DownloadHistory.CarriesLastDispatch`) |
| `Downloader.BlockDownloader.CompleteDownload` | crates/ergo-sync/src/download.rs:226-231 | moves the id to the bounded cache |
| `Downloader.BlockDownloader.FailDownload` | crates/ergo-sync/src/download.rs:234-264 | counts the failure, and gives up at the limit |
| `Downloader.BlockDownloader.CheckTimeouts` | crates/ergo-sync/src/download.rs:267-297 | exactly the requests in flight whose last dispatch in the run lies more than the timeout back |
| `Downloader.BlockDownloader.RequestFrom` | crates/ergo-sync/src/protocol.rs:2355-2380 | asking for ready tasks and dispatching exactly those is one proper step |

## Left out

- Signed 64-bit overflow of pool weights and of `fee * 1024`: weights are unbounded integers here.
- The wall-clock cut of weight propagation; only the depth cut is modelled.
- `remove_expired`, `clear`, the fee and token queries of the pool: they add no new invariant.
- The ErgoTree and token indexes and sync mode: they read committed storage, not the pending batch.
- State roots, AVL+ proofs, snapshots and the recovery scan at start-up.
- The history part of `apply_blocks_batched` (block bodies, work and best metadata written in the same
  batch); the batched header append is modelled in full.
- `find_fork_height` and the heights a reorganisation reports; `get_header_locator`.
- The two separate writes of a single header append: a crash between them is not modelled.
- Checkpoint mode of block validation: it records no spent boxes, so the ledger laws do not apply.
- Header rules of `validate_block` (height, time, parent, version) and script execution itself, which is
  a parameter of `BlockRules.Rules`.
- Which token an `InvalidTokenAmount` error names: the hash map's iteration order decides.
- Rounding of floating-point numbers in the regression; sums are exact and the slope is a real number.
- Widths of heights in the reorder buffer, and of positions in the parsers: unbounded integers.
- Replacement of invalid UTF-8 in names and URLs: strings stand for their bytes.
- Allocation for a claimed count that is too large, and the other message kinds (sync info, handshake
  as JSON, snapshots).
- Events, mempool clean-up and parameter updates that the router triggers after a batch.
- Batches whose write fails: `Deliveries` follows the blocks that are validated and written; what a failure
  does to the buffer is in `ReorderBuffer`.
- Parameters.ParameterKeeper.InitFromStorage: asks for a height below 2^32 - 1024, beyond which the
  loop's counter would overflow.
- Difficulty.LinearRegression: real arithmetic instead of floating point, and 1024-block epochs only.
- Concurrency: each public method is one atomic step.
