/**
 The values the blockchain store keeps: transactions, blocks and the rows of its tables.

 Hashes, keys and commitments come from foreign code and are opaque here. A transaction and
 a block carry their own hash, as the memoised hash fields of the originals do.
 */
module Ledger {
  import opened Wrappers

  datatype Hash = Hash(bits: nat)

  datatype KeyImage = KeyImage(bits: nat)

  /** An amount commitment: the identity-mask commitment to a coinbase amount, or a mask
      taken from the ring signature. */
  datatype Commitment = ZeroCommit(amount: nat) | Mask(bits: nat)

  datatype TxInput = Gen(height: nat) | ToKey(keyImage: KeyImage) | ToScript

  datatype Target = KeyTarget(key: nat) | ScriptTarget

  /** An output together with its entries of the transaction's per-output arrays: its own unlock
      time, which transactions before v3 do not use, and its commitment mask, which transactions
      before v2 and coinbase transactions do not use. That these arrays have one entry per output
      is assumed. */
  datatype TxOutput = TxOutput(amount: nat, target: Target, unlockTime: nat, mask: Commitment)

  const V2_RINGCT := 2
  const V3_PER_OUTPUT_UNLOCK_TIMES := 3

  datatype Transaction = Transaction(
    hash: Hash,
    version: nat,
    unlockTime: nat,
    vin: seq<TxInput>,
    vout: seq<TxOutput>,
    namesContributor: bool)  // tx_extra holds both a secret tx key and a contributor address

  /** Does some input create coins? */
  predicate HasGen(vin: seq<TxInput>) {
    exists i :: 0 <= i < |vin| && vin[i].Gen?
  }

  datatype Block = Block(
    hash: Hash,
    prevId: Hash,
    majorVersion: nat,
    minerTx: Transaction,
    txHashes: seq<Hash>)

  datatype BlockMeta = BlockMeta(
    weight: nat, longTermWeight: nat, cumulativeDifficulty: nat, coins: nat)

  /** The arguments of one call of `add_block`. */
  datatype Entry = Entry(block: Block, meta: BlockMeta, txs: seq<Transaction>)

  // Table rows

  datatype BlockInfo = BlockInfo(hash: Hash, meta: BlockMeta, cumRct: nat)

  datatype TxIndex = TxIndex(txId: nat, unlockTime: nat, blockId: nat)

  datatype OutTx = OutTx(txHash: Hash, localIndex: nat)

  /** A row of `output_amounts`. Only amount-0 rows hold a commitment. */
  datatype OutKey = OutKey(
    outputId: nat, target: Target, unlockTime: nat, height: nat, commitment: Option<Commitment>)

  /** The database. Integer-keyed tables are finite maps; `outputAmounts` is keyed by amount and
      amount index. */
  datatype Tables = Tables(
    blocks: map<nat, Block>,
    blockInfo: map<nat, BlockInfo>,
    blockHeights: map<Hash, nat>,
    txIndices: map<Hash, TxIndex>,
    txs: map<nat, Transaction>,
    txOutputs: map<nat, seq<nat>>,
    outputTxs: map<nat, OutTx>,
    outputAmounts: map<(nat, nat), OutKey>,
    spentKeys: set<KeyImage>,
    blacklist: set<nat>)

  const EMPTY_TABLES := Tables(map[], map[], map[], map[], map[], map[], map[], map[], {}, {})

  datatype Error =
    | RuntimeError
    | DbError
    | BlockDne
    | BlockParentDne
    | BlockExists
    | TxDne
    | TxExists
    | OutputDne
    | KeyImageExists
    | TxnStart
    | IndexOutOfRange  // a vector subscript past the end, which the source leaves undefined

  datatype Status = Ok | Threw(error: Error)

  // What an output is stored as

  /** The add side's test: any coinbase input makes a v2+ transaction's outputs amount-0 rows. */
  function StoredAmount(tx: Transaction, i: nat): nat
    requires i < |tx.vout|
  {
    if HasGen(tx.vin) && tx.version >= V2_RINGCT then 0 else tx.vout[i].amount
  }

  /** The remove side's test: the coinbase input has to be the only input. */
  predicate IsPseudoRct(tx: Transaction) {
    tx.version >= V2_RINGCT && |tx.vin| == 1 && tx.vin[0].Gen?
  }

  function RemovedAmount(tx: Transaction, i: nat): nat
    requires i < |tx.vout|
  {
    if IsPseudoRct(tx) then 0 else tx.vout[i].amount
  }

  function OutputUnlockTime(tx: Transaction, i: nat): nat
    requires i < |tx.vout|
  {
    if tx.version >= V3_PER_OUTPUT_UNLOCK_TIMES then tx.vout[i].unlockTime else tx.unlockTime
  }

  function OutputCommitment(tx: Transaction, i: nat): Option<Commitment>
    requires i < |tx.vout|
  {
    if tx.version < V2_RINGCT then None
    else if HasGen(tx.vin) then Some(ZeroCommit(tx.vout[i].amount))
    else Some(tx.vout[i].mask)
  }

  function KeyImages(vin: seq<TxInput>): set<KeyImage> {
    set i | 0 <= i < |vin| && vin[i].ToKey? :: vin[i].keyImage
  }

  predicate Supported(vin: seq<TxInput>) {
    forall i :: 0 <= i < |vin| ==> !vin[i].ToScript?
  }

  predicate HasBlacklistedOutputs(tx: Transaction) {
    tx.version >= V2_RINGCT && tx.namesContributor
  }
}
