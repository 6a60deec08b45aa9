# Verified models of guus-core's block store, checkpoints, quorum mesh and translation header

Four parts of the repository are modelled here in Dafny 4.11, each with the properties it exists
for. `dafny verify dfyconfig.toml` checks everything.

**The block store.** `Ledger` holds the values and the ten database tables, `Backend` says what
each operation of the LMDB backend and of the base class does to the tables, error paths included,
and `Store` is the store as an object whose fields are the tables, with the loops of the source,
proved to do exactly that. `Canonical` defines every table as a function of the chain.

Two conditions run through this part. A block is *supported* if none of its inputs is of an
unsupported type. It is *reversible* if moreover each of its outputs is filed by the add side and
looked for by the remove side under the same amount. `Adding` proves that `add_block` accepts a
supported block exactly when it is admissible and then leaves the tables of the longer chain, and
`Popping` that popping a reversible block leaves those of the shorter one. `Runs` lifts this to every
sequence of additions and pops, failing ones included, whose added blocks are supported: the tables
are those of the surviving chain at every point of the run exactly when every popped block is
reversible. `Indexes`, `TableContents` and `RctCounter` say what the tables mean after such runs,
`TableContents` row by row on the fields of blocks and transactions. `Undo` and
`UndoBlock` determine exactly when removing undoes adding, `Failing` exactly when a failing addition
leaves the tables as they were, and `Refusals` which error a failing operation gives and what it leaves
behind when nothing is rolled back. `Counterexamples` holds concrete inputs at which properties one
might expect fail, the run theorem without its conditions among them.

**Database transactions and guards.** `Store` also keeps the transaction state; `Guards` models
`db_txn_guard` as an object, atomic block addition, and the discipline of nested read and write
guards over every well-nested program outside batch mode; `Session` runs whole lists of operations
on a store object.

**Checkpoints.** `Checkpoints` models the range query with its clamping, the immutable checkpoint
and the culling of old checkpoints, and proves that finality never falls unless a recording is of one
of two kinds.

**The quorum mesh.** `MeshGraph` and `MeshCounting` are the graph theory, `MeshChoice` the greedy
choice and greedy runs, `Mesh` the script's loops on a matrix changed in place.

**The translation header.** `Emitter` prints the header. `CReader` reads it by the rules of C
(sections 5.1.1.2 and 6.4.4.4 of ISO C11), with its own texts: it declares every variable under its
full name, takes the order of the row members from the struct, resolves the references of a row by
name, and wants a lookup function over that table and a closed include guard. `RoundTrip` proves that reading gives back the files.

## What the proofs show about the code

Each point names the lemma with the exact condition and, where a property fails, the lemma with a
concrete input at which it does.

- `pop_block` does not undo the output blacklist. For a reversible block it restores every other
  table; with the blacklist it is the identity exactly when the block blacklists nothing new
  (`Runs.AddPopIdentityIff`, `Runs.BlacklistOutlivesItsBlock`).
- The add side files a v2+ transaction's outputs under amount 0 if any input is a coinbase input,
  the remove side only if the coinbase input is the only input. `add_block` does not reject blocks
  with a transaction on which the tests differ, or with an unsupported input, and an accepted block
  is undone by popping exactly when it has neither (`UndoBlock.BlockUndoneIffReversible`,
  `Counterexamples.MixedCoinbaseNotUndone`, `Counterexamples.ScriptMinerNotUndone`). Over runs of
  supported blocks the tables follow the chain exactly when every popped block is reversible
  (`Runs.RunCorrectIff`, `Counterexamples.MixedCoinbaseRun`). A pop that succeeds can delete the row of
  an earlier transaction's output (`Counterexamples.PopDeletesOtherRow`), but no more than the output
  tables go wrong (`Refusals.PopBlockRefused`).
- `add_transaction` on an unsupported input also forgets spent keys that are named after that input
  and were spent before (`Undo.AddUnsupported`, `Counterexamples.SpentKeyForgotten`).
- The running RingCT count in the block records restarts at blocks of major version below 4, so it is
  the length of the amount-0 list exactly when nothing was stored there before the last restart
  (`RctCounter.RecordedCountIsZeroRows`, `Counterexamples.CountRestarts`).
- The base `add_block` returns the height before the addition, against its comment in
  `src/blockchain_db/blockchain_db.h:828`; the LMDB override returns the height after it.
- In batch mode aborting a block's write transaction restores nothing (`Guards.AddBlockGuarded`), and
  a guard that nothing aborts commits what a failing addition wrote (`Guards.AddBlockCommitting`).
  Either way the tables are as before exactly if no transaction was stored and the spent keys came out
  the same (`Failing.FailureUnchangedIff`, `Counterexamples.BatchFailureKeepsWrite`,
  `Counterexamples.CommittingFailureKeepsWrite`), which does not mean that nothing was written
  (`Counterexamples.FailsUnchangedAfterWriting`).
- Below the lowest checkpoint, clamping makes the range query hand out a checkpoint above the height
  asked about, against the comment at `src/blockchain_db/blockchain_db.cpp:441`
  (`Checkpoints.NotAboveIff`, `Checkpoints.FutureCheckpoint`).
- Recording a checkpoint can lower finality in exactly two situations
  (`Checkpoints.RecordingKeepsFinalityIff`, `Checkpoints.ReplacingLowers`,
  `Checkpoints.RecordingBelowLowers`).
- A checkpoint that comes with a block is recorded only in batch mode. Outside it the write
  transaction of `src/checkpoints/checkpoints.cpp:185` is still open when `update_checkpoint` starts
  a batch, which throws, and the exception is caught (`Checkpoints.CheckpointKeeper.OnBlockAdded`).
- The mesh search can only stop if the target is at most n - 1, for the script's own targets from
  five nodes on (`MeshChoice.ScriptTargetReachableIff`).
- The header of an empty file is not a readable program (`RoundTrip.HeaderRead`,
  `RoundTrip.EmptyUnreadable`).

## Modelling decisions

- Hashes, keys and commitments are opaque values. A transaction and a block carry their hash, as the
  memoised hash fields of the originals do; listed transactions are stored under the hash the block
  lists for them. No property needs hashes to be injective, because the tables reject duplicates.
- An output carries its own entries of `output_unlock_times` and `outPk`. That these arrays have one
  entry per output is assumed of transactions that use them.
- Integer-keyed LMDB tables are finite maps; appending a row fails unless its key is past the last
  one, as with `MDB_APPEND`. `remove_block` deletes the block row under the cursor, which
  `get_top_block` has left on the top row. A missing row of amount indices reads as an empty list.
- An operation that throws returns the error as a status and keeps the writes made before it.
- The two early returns of the range query after clamping cannot be taken and are not in the model.
- The single-row operations of `Store` (recording and deleting one key image, transaction, output,
  index list or block record) are specified by the function of the same name in `Backend` and have no
  row below; what they amount to is stated by the lemmas of `Adding` and `Popping`.
- The reader recognises the emitted lookup function by its text; what the function does is
  `CReader.FindEmbeddedFile`.

## Model

| member | source | states |
|---|---|---|
| Adding.ScanSupported | src/blockchain_db/blockchain_db.cpp:158-181 | with supported inputs only, the input loop succeeds exactly when every key image is new, also among the inputs, and otherwise reports a spent key image; on success it records exactly those key images and recognises a coinbase input |
| Adding.AddOutputsTo | src/blockchain_db/blockchain_db.cpp:185-216 | on a chain's output tables the output loop succeeds exactly when each output has a key target and, if stored under amount 0, a commitment; it appends the outputs to the chain's output list and returns their positions within their amounts |
| Adding.AddTransactionCorrect | src/blockchain_db/blockchain_db.cpp:127-222 | adding a transaction with supported inputs to the tables of a transaction list succeeds exactly when it is admissible (new hash, new key images, storable outputs) and yields the tables of the longer list; the error tells spent key images, a known hash and unstorable outputs apart, in that order |
| Adding.AddBlockRecordCorrect | src/blockchain_db/lmdb/db_lmdb.cpp:811-886 | a block record is accepted exactly when its hash is new and its parent is the top block, and the block tables become those of the longer chain, running RingCT count included; the error tells a known hash, a parent below the top and an unknown parent apart |
| Adding.AddBlockCorrect | src/blockchain_db/blockchain_db.cpp:224-281 | adding a supported block to the tables of a valid chain succeeds exactly when the block is admissible, and yields the tables of the chain with the block on top |
| Popping.RemoveOutputsFrom | src/blockchain_db/lmdb/db_lmdb.cpp:1178-1240 | if both sides use the same amounts, removing a transaction's outputs last first, by their stored indices, takes the output tables back to those of the outputs before |
| Popping.RemoveTransactionCorrect | src/blockchain_db/blockchain_db.cpp:305-319 | removing the newest transaction, if it is reversible, yields the tables of the list without it |
| Popping.PopTransactionsCorrect | src/blockchain_db/blockchain_db.cpp:294-301 | popping a block's listed transactions, if they are reversible, yields the tables without them and collects them in exact reverse order |
| Popping.PopBlockCorrect | src/blockchain_db/blockchain_db.cpp:288-303 | popping a reversible block succeeds, returns the top block and its transactions reversed, and yields the tables of the chain below |
| Popping.PoppedOrder | src/blockchain_db/blockchain_db.cpp:294-301 | the i-th returned transaction is the i-th listed one counted from the end |
| Runs.StepCorrect | src/blockchain_db/lmdb/db_lmdb.cpp:4095-4113 | adding a supported block, admissible or not, or popping a reversible one, or popping from the empty chain, committed or rolled back, takes the tables of a valid chain to those of the chain the operation leaves |
| Runs.RunCorrect | src/blockchain_db/blockchain_db.cpp:127-319 | after any run from empty in which every added block is supported and every popped one reversible, failing operations included, every table is the function of the surviving chain that `Canonical` defines, and the blacklist is everything any accepted block blacklisted |
| Runs.PopCorrectIff | src/blockchain_db/blockchain_db.cpp:288-303 | a pop takes the tables of a chain with a supported top block to those of the chain below exactly when that block is reversible |
| Runs.RunCorrectIff | src/blockchain_db/blockchain_db.cpp:127-319 | for runs of supported blocks, the tables are those of the surviving chain at every point of the run exactly when every popped block is reversible |
| Runs.HistoryIndependence | src/blockchain_db/blockchain_db.cpp:127-319 | two runs as in `RunCorrect` that leave the same chain leave the same tables, blacklist aside |
| Runs.RunEqualsRebuild | src/blockchain_db/blockchain_db.cpp:127-319 | the tables after a run as in `RunCorrect` equal those of adding the surviving chain from scratch, blacklist aside |
| Runs.AddPopAdd | src/blockchain_db/blockchain_db.cpp:224-303 | in every state such a run reaches, for every admissible reversible block: add then pop restores all tables but the blacklist and returns block and reversed transactions, and re-adding those reversed back gives the tables as after the first addition |
| Runs.AddPopIdentityIff | src/blockchain_db/blockchain_db.h:1827-1828 | there, for every such block, add then pop is the identity on all tables exactly when everything the block blacklists was blacklisted before |
| Runs.BlacklistOutlivesItsBlock | src/blockchain_db/blockchain_db.cpp:218-219 | a concrete block shows that the blacklist is not a function of the chain |
| Indexes.IndexAgreement | src/blockchain_db/blockchain_db.cpp:183-221 | after a run as in `RunCorrect`, a chain transaction's hash leads to its amount indices, and the i-th of them, looked up under the amount the output is stored under, gives back (hash, i) and the output's own unlock time for v3+, the transaction's otherwise |
| Indexes.RecIndexAgreement | src/blockchain_db/blockchain_db.cpp:371-375 | the same for the tables of any transaction list |
| Indexes.AmountRowsAreChainOutputs | src/blockchain_db/lmdb/db_lmdb.cpp:1089-1153 | after a run as in `RunCorrect`, row k of an amount exists exactly when the chain stores more than k outputs under it, and describes the k-th of them in chain order |
| Indexes.LookupsAreChainOutputs | src/blockchain_db/lmdb/db_lmdb.cpp:3229-3258 | after a run as in `RunCorrect`, looking up an amount and an index finds an unlock time and a source exactly when the chain stores more outputs than that under the amount, and then those of the output in question |
| TableContents.OutputRow | src/blockchain_db/blockchain_db.cpp:185-216 | after a run as in `RunCorrect`, the row of any output of the chain on the transaction's fields: under amount 0 exactly for v2+ transactions with a coinbase input or outputs of amount 0, with target, height and unlock time, and with a commitment only under amount 0, to the amount for a coinbase and otherwise the output's mask |
| TableContents.TransactionIds | src/blockchain_db/blockchain_db.cpp:245-266 | after a run as in `RunCorrect`, transactions are numbered through the chain, in each block the miner's first and then the listed ones in order, and stored whole with their unlock time and height |
| TableContents.BlockRows | src/blockchain_db/lmdb/db_lmdb.cpp:811-886 | after a run as in `RunCorrect`, exactly the blocks of the chain are stored under their heights, with their records, and their hashes lead back |
| TableContents.BlacklistIs | src/blockchain_db/blockchain_db.cpp:146-155 | after a run as in `RunCorrect`, an amount index is blacklisted exactly when some accepted block had a v2+ transaction naming a contributor with an output that got that index |
| Indexes.NoDoubleSpend | src/blockchain_db/blockchain_db.cpp:158-181 | after a run as in `RunCorrect`, no key image is spent by two inputs of the chain, and one is in the table exactly when exactly one input spends it |
| RctCounter.MinerCountExact | src/blockchain_db/blockchain_db.cpp:251-252 | when the counter's share of the miner transaction is the number of its amount-0 rows, exactly |
| RctCounter.ListedCountExact | src/blockchain_db/blockchain_db.cpp:260-264 | when the counter's share of a listed transaction is the number of its amount-0 rows, exactly |
| RctCounter.CounterIsGrowth | src/blockchain_db/blockchain_db.cpp:249-272 | if the miner transaction and no other creates coins, `num_rct_outs` of an accepted block is the growth of the amount-0 list |
| RctCounter.RecordedCountIsZeroRows | src/blockchain_db/lmdb/db_lmdb.cpp:849-865 | after a run as in `RunCorrect` of blocks in which the miner transaction and no other creates coins, the record at any height holds the length the amount-0 list had there exactly when no block below the last restart of the sum stored an amount-0 row |
| RctCounter.NumRctOutputsAre | src/blockchain_db/blockchain_db.cpp:249-264 | `num_rct_outs` of any block is the number of its counted outputs: all of a v2+ miner transaction, and those of amount 0 of the others |
| RctCounter.RecordedCountIs | src/blockchain_db/lmdb/db_lmdb.cpp:849-865 | after a run as in `RunCorrect`, whatever the blocks look like, the record at any height holds the number of outputs counted in the blocks from the last restart of the sum on |
| Undo.AddUnsupported | src/blockchain_db/blockchain_db.cpp:158-181 | in any state, meeting an unsupported input after fresh key images only forgets the spent keys named after it; nothing changes exactly when none of those was spent |
| Undo.AmountTestsDiffer | src/blockchain_db/lmdb/db_lmdb.cpp:1193-1198 | the add side's and the remove side's amounts agree exactly when the transaction is no v2+ transaction with a coinbase input beside others, or has only zero amounts |
| Undo.UndoneIffReversible | src/blockchain_db/blockchain_db.cpp:305-319 | an accepted transaction is undone by removing it, blacklist aside, exactly when its inputs are supported and both sides use the same amounts |
| UndoBlock.BlockUndoneIffReversible | src/blockchain_db/blockchain_db.cpp:288-303 | an accepted block is undone by popping it, blacklist aside, exactly when that holds of each of its transactions |
| Refusals.AddTransactionRefused | src/blockchain_db/blockchain_db.cpp:127-222 | which error a transaction that is refused on the tables of a list gives, and exactly what it leaves in the tables: key images up to a spent one, all key images at a known hash, or all but the index list and the outputs from the first unstorable one on |
| Refusals.AddBlockRefused | src/blockchain_db/blockchain_db.cpp:224-281 | the same for a supported block on the tables of a valid chain: nothing for a size mismatch, the transactions before the first that is refused and what that one leaves, or all transactions without the record |
| Refusals.PopBlockRefused | src/blockchain_db/blockchain_db.cpp:288-303 | popping any block from the top of a chain, reversible or not: a missing output is the only way to fail; if it succeeds all tables but the output tables are those of the chain below; if it fails, which transactions were removed, that of the one it stopped in only key images, data and some outputs are gone, and which were handed out |
| Refusals.PopUnstored | src/blockchain_db/blockchain_db.cpp:294-301 | in any state, popping a block whose last transaction was never stored removes the record and fails there |
| Counterexamples.MixedCoinbaseNotUndone | src/blockchain_db/lmdb/db_lmdb.cpp:1193-1198 | a genesis block with a coinbase input beside a key input is accepted and popping does not undo it |
| Counterexamples.MixedCoinbaseRun | src/blockchain_db/blockchain_db.cpp:127-319 | adding and popping that block leaves tables that are not those of the empty chain |
| Counterexamples.PopDeletesOtherRow | src/blockchain_db/lmdb/db_lmdb.cpp:1178-1240 | in a reachable state, adding and popping a block both succeed and an earlier transaction's output row is gone |
| Counterexamples.ScriptMinerNotUndone | src/blockchain_db/blockchain_db.cpp:168-180 | a genesis block with an unsupported input is accepted and popping does not undo it |
| Counterexamples.SpentKeyForgotten | src/blockchain_db/blockchain_db.cpp:168-180 | in a reachable state, adding a transaction with an unsupported input returns normally and deletes a spent key |
| Counterexamples.CountRestarts | src/blockchain_db/lmdb/db_lmdb.cpp:849-865 | two blocks after which the recorded count is not the length of the amount-0 list |
| Counterexamples.FailsAfterWriting | src/blockchain_db/blockchain_db.cpp:158-167 | a block whose addition to the empty database fails after a write |
| Counterexamples.FailsUnchangedAfterWriting | src/blockchain_db/blockchain_db.cpp:158-181 | a block whose addition fails after two writes and leaves the tables as they were |
| Counterexamples.BatchFailureKeepsWrite | src/blockchain_db/lmdb/db_lmdb.cpp:3815-3829 | in batch mode that write is there after the abort |
| Counterexamples.CommittingFailureKeepsWrite | src/blockchain_db/blockchain_db.h:1878-1882 | outside batch mode it is there when nothing aborts |
| Store.BlockchainStore.RemoveSpentKeys | src/blockchain_db/blockchain_db.cpp:309-315 | the loop deletes the key images of the inputs |
| Store.BlockchainStore.RemoveTxOutputs | src/blockchain_db/lmdb/db_lmdb.cpp:1178-1199 | the downward loop removes the outputs as the specification does, with the remove side's coinbase test |
| Store.BlockchainStore.RemoveTransactionData | src/blockchain_db/lmdb/db_lmdb.cpp:1013-1087 | outputs, index list, data and hash entry go, in that order, with the error paths |
| Store.BlockchainStore.ScanInputs | src/blockchain_db/blockchain_db.cpp:158-181 | the input loop does what the specification says and reports a coinbase input correctly |
| Store.BlockchainStore.AddOutputs | src/blockchain_db/blockchain_db.cpp:185-216 | the output loop does what the specification says |
| Store.BlockchainStore.AddTransaction | src/blockchain_db/blockchain_db.cpp:127-222 | the whole operation does what the specification says, on every path |
| Store.BlockchainStore.AddListedTransactions | src/blockchain_db/blockchain_db.cpp:254-266 | the transaction loop and its counter do what the specification says |
| Store.CountZeroAmounts | src/blockchain_db/blockchain_db.cpp:260-264 | the counting loop counts the zero amounts |
| Store.BlockchainStore.AddBlock | src/blockchain_db/blockchain_db.cpp:224-281 | the whole operation does what the specification says, leaves the transaction state alone and returns the height before the addition |
| Store.BlockchainStore.AddBlockLmdb | src/blockchain_db/lmdb/db_lmdb.cpp:3838-3866 | the override returns the height after the addition |
| Store.BlockchainStore.RemoveTransaction | src/blockchain_db/blockchain_db.cpp:305-319 | the whole operation does what the specification says |
| Store.BlockchainStore.PopBlock | src/blockchain_db/blockchain_db.cpp:288-303 | the whole operation does what the specification says, returned block and transactions included |
| Store.BlockchainStore.PopBlockAtomic | src/blockchain_db/lmdb/db_lmdb.cpp:4095-4113 | outside batch mode a failing pop changes no table, the write transaction is closed on every path, and a read transaction that was open is closed by it; block and transactions are handed out also when it fails |
| Store.BlockchainStore.BlockRtxnStart | src/blockchain_db/lmdb/db_lmdb.cpp:3709-3744 | a read transaction is opened, and true returned, exactly when neither a write nor a read transaction is open |
| Store.BlockchainStore.BlockRtxnStop | src/blockchain_db/lmdb/db_lmdb.cpp:3746-3751 | the read transaction is closed |
| Store.BlockchainStore.BlockWtxnStart | src/blockchain_db/lmdb/db_lmdb.cpp:3760-3791 | a write transaction remembers the tables and closes an open read transaction; a second one throws, except in batch mode |
| Store.BlockchainStore.BlockWtxnStop | src/blockchain_db/lmdb/db_lmdb.cpp:3793-3813 | the writes stay; without a write transaction it throws |
| Store.BlockchainStore.BlockWtxnAbort | src/blockchain_db/lmdb/db_lmdb.cpp:3815-3829 | the remembered tables come back, except in batch mode |
| Guards.TxnGuard.Stop | src/blockchain_db/blockchain_db.h:1883-1890 | ends the transaction of its kind, whoever opened it, and deactivates the guard |
| Guards.TxnGuard.Abort | src/blockchain_db/blockchain_db.h:1891-1898 | for a write guard the tables from before the guard come back, except in batch mode, and a read transaction stays; the guard stays active exactly if aborting throws |
| Guards.TxnGuard.Destroy | src/blockchain_db/blockchain_db.h:1878-1882 | ends the transaction exactly if the guard is still active |
| Guards.Guard | src/blockchain_db/blockchain_db.h:1865-1877 | a read guard is active exactly when it opened the transaction; a write guard is active or its construction throws |
| Guards.AddBlockGuarded | src/blockchain_db/blockchain_db.h:1862-1904 | if adding fails at any point outside batch mode all tables are as before and the write transaction is closed; no read transaction is open afterwards unless a write transaction or a batch was open around it; a size mismatch changes nothing even in batch mode |
| Guards.AddBlockCommitting | src/blockchain_db/blockchain_db.h:1878-1882 | without an abort the destructor commits what a failing addition wrote before the failure; the transactions end as with an abort |
| Failing.TrailIs | src/blockchain_db/blockchain_db.cpp:254-266 | what adding a list of transactions does when none is stored: which spent keys it leaves, and whether it passes or with which error it fails; otherwise a new hash is entered |
| Failing.FailureUnchangedIff | src/blockchain_db/blockchain_db.cpp:224-281 | in any state and for any block, a failing addition leaves the tables unchanged exactly when the sizes differ, or no transaction is stored, the spent keys come out the same and the record, if it comes to that, is refused |
| Failing.SupportedMinerNoTrace | src/blockchain_db/blockchain_db.cpp:127-222 | for a miner transaction with supported inputs that condition is that its first key image is spent, or that it has none and its hash is known |
| Guards.ScopesDo | src/blockchain_db/blockchain_db.h:1865-1898 | what read and write scopes do anywhere, throwing or not: a write transaction around them stays open, a read transaction stays open or is closed by a guard that did not open it, and where none is open none is left open; nothing goes wrong exactly when the scopes inside a transaction are quiet and those outside disciplined |
| Guards.NestedGuards | src/blockchain_db/blockchain_db.h:1865-1898 | any program of nested read and write guards with any number of explicit stops ends with no transaction open and every one closed once; none is closed by another guard than its opener, no stop is stray and nothing throws, exactly when the program is disciplined |
| Guards.NestedReads | src/blockchain_db/blockchain_db.h:1865-1898 | for read guards stopped at most once nothing throws, and either of the two counters alone tells whether the program is disciplined |
| Guards.Perform | src/blockchain_db/blockchain_db.h:1865-1898 | carrying a scope out with guard objects on a store, exceptions included, does what the scope semantics says and keeps what an open write transaction would go back to |
| Session.Execute | src/blockchain_db/blockchain_db.h:1862-1904 | a list of guarded additions and atomic pops on a store object leaves exactly the tables of its run, those of the surviving chain if the run is as in `RunCorrect`, and, unless the list is empty, no transaction open |
| Checkpoints.CheckpointDb.GetCheckpointsRange | src/blockchain_db/lmdb/db_lmdb.cpp:4008-4093 | the two-phase search returns checkpoints of the table between the two heights, each moved to the nearest height of the table's range, in strict order from the first to the second and no more than asked for; any checkpoint between them that is missing lies beyond all returned ones, as many as asked for being returned |
| Checkpoints.RangeIs | src/blockchain_db/lmdb/db_lmdb.cpp:4008-4093 | the same of the function that the finality lemmas are about |
| Checkpoints.CheckpointDb.FirstOfRange | src/blockchain_db/lmdb/db_lmdb.cpp:4035-4056 | the height-by-height search finds the first checkpoint in the direction of the end, inclusive |
| Checkpoints.CheckpointDb.WalkDown | src/blockchain_db/lmdb/db_lmdb.cpp:4072-4089 | the backward cursor loop collects the next lower checkpoints in the range |
| Checkpoints.CheckpointDb.WalkUp | src/blockchain_db/lmdb/db_lmdb.cpp:4072-4089 | the forward cursor loop collects the next higher checkpoints in the range |
| Checkpoints.CheckpointDb.UpdateBlockCheckpoint | src/blockchain_db/lmdb/db_lmdb.cpp:3913-3931 | the checkpoint is stored under its height, replacing one there |
| Checkpoints.CheckpointDb.RemoveBlockCheckpoint | src/blockchain_db/lmdb/db_lmdb.cpp:3933-3955 | the checkpoint at the height is deleted if there is one |
| Checkpoints.CheckpointDb.GetImmutableCheckpoint | src/blockchain_db/blockchain_db.cpp:428-461 | the result is the immutable checkpoint that the finality lemmas are about; there is none exactly when there are no checkpoints or the newest has signatures and is the lowest |
| Checkpoints.ImmutableIs | src/blockchain_db/blockchain_db.cpp:428-461 | it is the newest checkpoint seen from the height if that is hard-coded, that is, has no signatures, otherwise the one before it, if any |
| Checkpoints.MonotoneInHeight | src/blockchain_db/blockchain_db.cpp:428-461 | it persists and never falls as the height asked about rises |
| Checkpoints.RecordingKeepsFinalityIff | src/blockchain_db/lmdb/db_lmdb.cpp:3913-3931 | it persists and does not fall when a checkpoint is recorded at any height, exactly unless a frame_pix checkpoint replaces a hard-coded newest one or the new one goes below all others and the height asked about is below those too |
| Checkpoints.AtMostOneNewer | src/blockchain_db/blockchain_db.cpp:441-455 | at most one checkpoint, one with signatures, lies between it and the height asked about |
| Checkpoints.NotAboveIff | src/blockchain_db/lmdb/db_lmdb.cpp:4016-4017 | it lies at or below the height asked about exactly when some checkpoint does |
| Checkpoints.NoneIff | src/blockchain_db/blockchain_db.cpp:437-455 | there is none exactly when there are no checkpoints or the newest has signatures and none is before it |
| Checkpoints.CheckpointKeeper.Cull | src/checkpoints/checkpoints.cpp:186-199 | the loop deletes the heights of `Culled` and stops at `CullStop` |
| Checkpoints.CulledIs | src/checkpoints/checkpoints.cpp:186-193 | those are every fourth height from the last cull on, below the end, that is no multiple of sixty, and only those |
| Checkpoints.CullStopIs | src/checkpoints/checkpoints.cpp:186 | culling stops at the first such step at or past the end |
| Checkpoints.CullStartIs | src/checkpoints/checkpoints.cpp:177-184 | it starts at the last cull or at the first multiple of four at most sixty below the end, whichever is later |
| Checkpoints.TableAfterIs | src/checkpoints/checkpoints.cpp:165-205 | what a block does to the checkpoint at any height, with the numbers 60, 12 and 4 written out: nothing below height 60 or version 12, recording in batch mode, culling except multiples of sixty |
| Checkpoints.CulledUpToIs | src/checkpoints/checkpoints.cpp:165-199 | where culling goes on after a block, with the numbers written out: where it was below height 60 or version 12; otherwise, from the last cull or the first multiple of four at or above 60 below the immutable checkpoint, the first of every fourth height that is not below that checkpoint |
| Checkpoints.CheckpointKeeper.UpdateCheckpoint | src/checkpoints/checkpoints.cpp:144-163 | the checkpoint is recorded exactly when a batch is active or can be started; otherwise the exception is caught and nothing changes |
| Checkpoints.CheckpointKeeper.OnBlockAdded | src/checkpoints/checkpoints.cpp:165-205 | culling on a new block, and recording in batch mode only; checkpoints at multiples of sixty stay; where culling goes on is as in `CulledUpToIs`; blocks below height 60 or version 12 change nothing; if the write transaction cannot be started only the place where culling goes on changes |
| Checkpoints.RemovingOldKeepsFinality | src/checkpoints/checkpoints.cpp:169-199 | deleting checkpoints below the immutable one changes nothing for any later height |
| Checkpoints.CullingKeepsException | src/checkpoints/checkpoints.cpp:184-199 | culling does not change whether a recording lowers finality |
| Checkpoints.EventKeepsFinalityIff | src/checkpoints/checkpoints.cpp:144-205 | after a block with its culling and recording, or after a recording by itself, finality seen from the new height is at or above what it was, exactly unless the recording is one of the two exceptions while there is finality |
| Checkpoints.FinalityNeverFalls | src/checkpoints/checkpoints.cpp:144-205 | over any history of blocks and recordings from any state, if the chain height never falls and no recording is one of the two exceptions, finality never disappears and never falls |
| Checkpoints.FutureCheckpoint | src/blockchain_db/lmdb/db_lmdb.cpp:4016-4017 | a table and a height below its only checkpoint, which is immutable there |
| Checkpoints.ReplacingLowers | src/blockchain_db/lmdb/db_lmdb.cpp:3913-3931 | a table in which replacing a hard-coded checkpoint by a frame_pix one takes finality away |
| Checkpoints.RecordingBelowLowers | src/blockchain_db/lmdb/db_lmdb.cpp:3913-3931 | a table in which recording below all checkpoints takes finality down |
| MeshGraph.PathsAre | utils/generate-quorum-matrix.py:38-52 | the short paths of a pair are the direct connection plus the common neighbours |
| MeshGraph.PathsSymmetric | utils/generate-quorum-matrix.py:38-52 | the count does not depend on the order of the pair |
| MeshGraph.EdgeGain | utils/generate-quorum-matrix.py:135-144 | a new connection raises by one exactly its own pair and the pairs of either end with the neighbours of the other |
| MeshGraph.PathsAreFaultTolerance | utils/generate-quorum-matrix.py:7-11 | a pair has t short paths exactly when it survives any fewer than t failures of other nodes and of its direct connection |
| MeshGraph.FaultTolerance | utils/generate-quorum-matrix.py:7-11 | with t short paths for every pair, deleting fewer than t nodes leaves every two others joined directly or over one remaining node, and every node has t neighbours |
| MeshCounting.DoubleCounting | utils/generate-quorum-matrix.py:38-52 | in any graph the short paths of all pairs are the connected pairs plus d(d - 1)/2 summed over the degrees |
| MeshChoice.LoadBound | utils/generate-quorum-matrix.py:127-136 | every candidate's load, the new connection counted at both ends, is at most 2n - 2, below the starting value |
| MeshChoice.BestIs | utils/generate-quorum-matrix.py:127-141 | against every pair not yet connected, the choice has the least load, then leaves the fewest pairs, then comes first in row-major order |
| MeshChoice.BestUnique | utils/generate-quorum-matrix.py:127-141 | the choice is unique |
| MeshChoice.CandidateExists | utils/generate-quorum-matrix.py:126-134 | while the minimum is short of a target of at most n - 1, some pair is not connected |
| MeshChoice.GreedyRunBound | utils/generate-quorum-matrix.py:126-158 | in every state of a greedy run there is no self-loop and no connection both ways, each round has connected one more pair, and there are at most n(n - 1)/2 rounds |
| MeshChoice.GreedyDeterministic | utils/generate-quorum-matrix.py:126-158 | greedy runs with the same n and target agree |
| MeshChoice.GreedyChoice | utils/generate-quorum-matrix.py:126-144 | every connection of a greedy run is that choice for the minimum at the time |
| MeshChoice.GreedyNeeded | utils/generate-quorum-matrix.py:126 | before every connection of a greedy run some pair is still short of the target |
| MeshChoice.GreedyMinMonotone | utils/generate-quorum-matrix.py:158 | along a greedy run the minimum never falls |
| MeshChoice.GreedyDoubleCounting | utils/generate-quorum-matrix.py:144 | the double counting identity in every state of a greedy run, with the rounds as connected pairs |
| MeshChoice.TargetReachableIff | utils/generate-quorum-matrix.py:126 | the loop's exit condition can be met by some matrix exactly when the target is at most n - 1 |
| MeshChoice.ScriptTargetReachableIff | utils/generate-quorum-matrix.py:28-29 | for the script's own targets, 4 up to ten nodes and 2 above, exactly from five nodes on |
| Mesh.QuorumMesh.NeighbourList | utils/generate-quorum-matrix.py:42-48 | the two loops list the neighbours in increasing order |
| Mesh.QuorumMesh.CountLinked | utils/generate-quorum-matrix.py:49-51 | the last loop counts those that are the other end or connected to it |
| Mesh.QuorumMesh.CountPathsWithinTwo | utils/generate-quorum-matrix.py:38-52 | the result is the number of short paths |
| Mesh.QuorumMesh.MinWithinTwo | utils/generate-quorum-matrix.py:92-99 | the result is the least number of short paths of any pair, or none without pairs |
| Mesh.QuorumMesh.CountNotWithinTwo | utils/generate-quorum-matrix.py:102-108 | the result is the number of pairs with at most so many short paths |
| Mesh.QuorumMesh.Outgoing | utils/generate-quorum-matrix.py:130 | the row sum is the number of outgoing connections |
| Mesh.QuorumMesh.Incoming | utils/generate-quorum-matrix.py:132 | the column sum is the number of incoming connections |
| Mesh.QuorumMesh.Try | utils/generate-quorum-matrix.py:135-141 | the trial counts the pairs left and puts the matrix back |
| Mesh.QuorumMesh.Choose | utils/generate-quorum-matrix.py:127-141 | the search leaves the matrix as it was and finds the choice that `BestIs` describes, or (0, 0) if every pair is connected |
| Mesh.QuorumMesh.Build | utils/generate-quorum-matrix.py:118-158 | the loop terminates, its connections form a greedy run, and every pair ends with at least the target number of short paths |
| Mesh.Generate | utils/generate-quorum-matrix.py:118-158 | for every n from 5 on the connections are the greedy run for target 4 up to ten nodes and 2 above, which stops as soon as every pair has that many short paths; deleting any fewer nodes than that leaves the others within two hops, and every node has at least that many connections |
| Emitter.PrintArguments | translations/generate_translations_header.c:55-64 | the byte loop prints the specified literals and the length |
| Emitter.BodyIsLines | translations/generate_translations_header.c:55-63 | the literals are lines of sixteen bytes |
| Emitter.EscapeIs | translations/generate_translations_header.c:62 | a byte is printed as two lower-case hexadecimal digits |
| Emitter.DeclarationText | translations/generate_translations_header.c:53-64 | the printed text for a file, variable names included, with the literals line by line |
| Emitter.RowText | translations/generate_translations_header.c:75 | the printed text of a table row |
| Emitter.HeaderText | translations/generate_translations_header.c:45-81 | the header piece by piece, with the files numbered from 1 in the order given |
| RoundTrip.DecimalDigits | translations/generate_translations_header.c:53-64 | numbers are printed in decimal digits without leading zeros |
| Emitter.PrintDeclaration | translations/generate_translations_header.c:53-64 | the declarations of one file |
| Emitter.PrintHeader | translations/generate_translations_header.c:45-81 | the program prints the specified header, lookup function and end of the include guard included |
| CReader.FindEmbeddedFile | translations/generate_translations_header.c:25-35 | the emitted lookup returns the contents of the first entry with the name, and nothing exactly when there is none |
| RoundTrip.EscapeRead | translations/generate_translations_header.c:62 | an escape followed by no hexadecimal digit reads back as its byte under the longest-match rule |
| RoundTrip.LiteralsRead | translations/generate_translations_header.c:55-63 | the literals of every non-empty file read back as its bytes |
| RoundTrip.ArgumentsRead | translations/generate_translations_header.c:54-64 | the constructor arguments of every non-empty file denote exactly its bytes, and the printed length is their number |
| RoundTrip.EmptyUnreadable | translations/generate_translations_header.c:55-64 | those of an empty file cannot be read |
| RoundTrip.HeaderRead | translations/generate_translations_header.c:37-86 | a reader of C declarations, identifiers and struct members that shares no text with the printer finds in the whole header exactly the given files in order if none is empty, and cannot read it otherwise; it asks for a lookup function over the table just declared, the end of the include guard, and nothing after it |
| RoundTrip.LookupFindsFile | translations/generate_translations_header.c:25-35 | looking a name up in the emitted header gives the contents of the first file given under it, and nothing for other names |

## Left out

- Block and transaction serialisation, hashing, ring signatures, tx_extra decoding: foreign code, opaque values here.
- Pruned and prunable transaction data, prunable hashes, the transaction pool, alternative blocks and proofs: further tables that would only add easy members.
- `m_hardfork->add` at the end of `add_block`: popping does not undo it and it touches none of the modelled tables.
- `batch_start`, `batch_stop` and `batch_abort`, threads other than the writer, map resizing, file handling: batch mode is a flag of the store.
- Guards in batch mode, beyond the contracts of the guard operations: the nesting theorem is about transactions outside it.
- `blockchain_detached`, `is_alternative_block_allowed` and hard-coded checkpoint loading: finality histories cover added blocks, culling and recording.
- Wrap-around of 64-bit heights, indices and counters, and of the 32-bit byte counter of the header generator: numbers are unbounded.
- RoundTrip.HeaderRead: file names are assumed to hold no quote, backslash or newline, which the generator prints unescaped.
- Tracing, table printing and the C++ text output of the mesh script; logging, timing counters and command-line options.
- `BaseTestDB`, `get_config`, `burn_needed` and the constants in `src/cryptonote_config.h`: stubs, short switches and tables.
