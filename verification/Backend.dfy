/**
 What each operation of the store does to the tables, as functions on values: first the LMDB
 backend's primitives, then the operations that the base class builds from them. An operation
 that throws keeps the writes it made before the throw.
 */
module Backend {
  import opened Wrappers
  import opened Ledger

  datatype Outcome = Outcome(tables: Tables, status: Status)

  // Primitive table operations

  lemma {:induction false} Greatest(s: set<nat>) returns (max: nat)
    requires s != {}
    ensures max in s && forall j :: j in s ==> j <= max
  {
    max :| max in s;
    var others := s - {max};
    assert s == others + {max};
    if others != {} {
      var k := Greatest(others);
      max := if k < max then max else k;
    }
  }

  lemma MaxExists(s: set<nat>)
    requires s != {}
    ensures exists k :: k in s && forall j :: j in s ==> j <= k
  {
    var _ := Greatest(s);
  }

  /** One past the last key of an integer-keyed table. */
  function NextId<V>(rows: map<nat, V>): (id: nat)
    ensures forall k :: k in rows ==> k < id
    ensures id == 0 || id - 1 in rows
  {
    if |rows| == 0 then 0
    else
      MaxExists(rows.Keys);
      var k :| k in rows.Keys && forall j :: j in rows.Keys ==> j <= k;
      k + 1
  }

  /** LMDB accepts an appended row only if its key is past the last one. */
  predicate Appendable<V>(rows: map<nat, V>, key: nat) {
    NextId(rows) <= key
  }

  function AmountIndices(rows: map<(nat, nat), OutKey>, amount: nat): set<nat> {
    set key | key in rows.Keys && key.0 == amount :: key.1
  }

  // Spent keys

  function AddSpentKey(t: Tables, k: KeyImage): Outcome {
    if k in t.spentKeys then Outcome(t, Threw(KeyImageExists))
    else Outcome(t.(spentKeys := t.spentKeys + {k}), Ok)
  }

  function RemoveSpentKey(t: Tables, k: KeyImage): Tables {
    t.(spentKeys := t.spentKeys - {k})
  }

  function RemoveSpentKeys(t: Tables, vin: seq<TxInput>): Tables
    decreases |vin|
  {
    if vin == [] then t
    else RemoveSpentKeys(if vin[0].ToKey? then RemoveSpentKey(t, vin[0].keyImage) else t, vin[1..])
  }

  // Transactions and outputs

  datatype IdOutcome = IdOutcome(tables: Tables, id: nat, status: Status)

  function AddTransactionData(t: Tables, tx: Transaction, hash: Hash): IdOutcome {
    var id := |t.txs|;
    if hash in t.txIndices then IdOutcome(t, id, Threw(TxExists))
    else
      var t1 := t.(txIndices := t.txIndices[hash := TxIndex(id, tx.unlockTime, |t.blocks|)]);
      if !Appendable(t.txs, id) then IdOutcome(t1, id, Threw(DbError))
      else IdOutcome(t1.(txs := t.txs[id := tx]), id, Ok)
  }

  function AddOutput(t: Tables, hash: Hash, output: TxOutput, localIndex: nat, unlockTime: nat,
                     commitment: Option<Commitment>): IdOutcome
  {
    var id := NextId(t.outputTxs);
    var indices := AmountIndices(t.outputAmounts, output.amount);
    if !output.target.KeyTarget? || (output.amount == 0 && commitment.None?) then
      IdOutcome(t, |indices|, Threw(DbError))
    else
      var t1 := t.(outputTxs := t.outputTxs[id := OutTx(hash, localIndex)]);
      if exists j :: j in indices && j >= |indices| then IdOutcome(t1, |indices|, Threw(DbError))
      else
        var row := OutKey(id, output.target, unlockTime, |t.blocks|,
                          if output.amount == 0 then commitment else None);
        IdOutcome(t1.(outputAmounts := t.outputAmounts[(output.amount, |indices|) := row]),
                  |indices|, Ok)
  }

  function AddTxAmountOutputIndices(t: Tables, txId: nat, indices: seq<nat>): Outcome {
    if !Appendable(t.txOutputs, txId) then Outcome(t, Threw(DbError))
    else Outcome(t.(txOutputs := t.txOutputs[txId := indices]), Ok)
  }

  function IndexSet(indices: seq<nat>): set<nat> {
    set i | i in indices
  }

  function AddOutputBlacklist(t: Tables, indices: seq<nat>): Tables {
    t.(blacklist := t.blacklist + IndexSet(indices))
  }

  function RemoveOutput(t: Tables, amount: nat, index: nat): Outcome {
    if (amount, index) !in t.outputAmounts then Outcome(t, Threw(OutputDne))
    else
      var id := t.outputAmounts[(amount, index)].outputId;
      if id !in t.outputTxs then Outcome(t, Threw(DbError))
      else Outcome(t.(outputTxs := t.outputTxs - {id},
                      outputAmounts := t.outputAmounts - {(amount, index)}), Ok)
  }

  /** Outputs `[0, i)` of a transaction, removed last first. */
  function RemoveOutputs(t: Tables, tx: Transaction, indices: seq<nat>, i: nat): Outcome
    requires i <= |tx.vout|
    decreases i
  {
    if i == 0 then Outcome(t, Ok)
    else if |indices| < i then Outcome(t, Threw(IndexOutOfRange))
    else
      var r := RemoveOutput(t, RemovedAmount(tx, i - 1), indices[i - 1]);
      if r.status.Threw? then r else RemoveOutputs(r.tables, tx, indices, i - 1)
  }

  function RemoveTxOutputs(t: Tables, txId: nat, tx: Transaction): Outcome {
    var indices := if txId in t.txOutputs then t.txOutputs[txId] else [];
    if indices == [] && tx.vout != [] then Outcome(t, Threw(DbError))
    else RemoveOutputs(t, tx, indices, |tx.vout|)
  }

  function RemoveTransactionData(t: Tables, hash: Hash, tx: Transaction): Outcome {
    if hash !in t.txIndices then Outcome(t, Threw(TxDne))
    else
      var id := t.txIndices[hash].txId;
      if id !in t.txs then Outcome(t, Threw(DbError))
      else
        var r := RemoveTxOutputs(t.(txs := t.txs - {id}), id, tx);
        if r.status.Threw? then r
        else Outcome(r.tables.(txOutputs := r.tables.txOutputs - {id},
                               txIndices := r.tables.txIndices - {hash}), Ok)
  }

  // Block records

  function AddBlockRecord(t: Tables, block: Block, meta: BlockMeta, numRct: nat): Outcome {
    var h := |t.blocks|;
    if block.hash in t.blockHeights then Outcome(t, Threw(BlockExists))
    else if h > 0 && block.prevId !in t.blockHeights then Outcome(t, Threw(DbError))
    else if h > 0 && t.blockHeights[block.prevId] != h - 1 then Outcome(t, Threw(BlockParentDne))
    else if !Appendable(t.blocks, h) then Outcome(t, Threw(DbError))
    else
      var t1 := t.(blocks := t.blocks[h := block]);
      var cumulates := block.majorVersion >= 4 && h > 0;
      if cumulates && h - 1 !in t.blockInfo then Outcome(t1, Threw(BlockDne))
      else if !Appendable(t.blockInfo, h) then Outcome(t1, Threw(DbError))
      else
        var cumRct := numRct + if cumulates then t.blockInfo[h - 1].cumRct else 0;
        Outcome(t1.(blockInfo := t.blockInfo[h := BlockInfo(block.hash, meta, cumRct)],
                    blockHeights := t.blockHeights[block.hash := h]), Ok)
  }

  function RemoveBlock(t: Tables): Outcome {
    if |t.blocks| == 0 then Outcome(t, Threw(BlockDne))
    else
      var h := |t.blocks| - 1;
      if h !in t.blockInfo then Outcome(t, Threw(BlockDne))
      else if t.blockInfo[h].hash !in t.blockHeights then Outcome(t, Threw(DbError))
      else Outcome(t.(blocks := t.blocks - {h},
                      blockInfo := t.blockInfo - {h},
                      blockHeights := t.blockHeights - {t.blockInfo[h].hash}), Ok)
  }

  // The base class: adding

  datatype ScanOutcome = ScanOutcome(
    tables: Tables, minerTx: bool, supported: bool, status: Status)

  /** The input loop of `add_transaction` on the inputs not yet seen, `rest`. At an unsupported
      input it deletes the key images of all inputs of the transaction. */
  function ScanInputs(t: Tables, vin: seq<TxInput>, rest: seq<TxInput>, minerTx: bool): ScanOutcome
    decreases |rest|
  {
    if rest == [] then ScanOutcome(t, minerTx, true, Ok)
    else match rest[0]
      case ToKey(k) =>
        var r := AddSpentKey(t, k);
        if r.status.Threw? then ScanOutcome(r.tables, minerTx, true, r.status)
        else ScanInputs(r.tables, vin, rest[1..], minerTx)
      case Gen(_) => ScanInputs(t, vin, rest[1..], true)
      case ToScript => ScanOutcome(RemoveSpentKeys(t, vin), minerTx, false, Ok)
  }

  datatype OutputsOutcome = OutputsOutcome(tables: Tables, indices: seq<nat>, status: Status)

  /** Output `i` as handed to the backend. */
  function AddTxOutput(t: Tables, hash: Hash, tx: Transaction, i: nat): IdOutcome
    requires i < |tx.vout|
  {
    AddOutput(t, hash, tx.vout[i].(amount := StoredAmount(tx, i)), i,
              OutputUnlockTime(tx, i), OutputCommitment(tx, i))
  }

  /** The output loop of `add_transaction` from output `i` on. */
  function AddOutputs(t: Tables, hash: Hash, tx: Transaction, i: nat, indices: seq<nat>): OutputsOutcome
    requires i <= |tx.vout|
    decreases |tx.vout| - i
  {
    if i == |tx.vout| then OutputsOutcome(t, indices, Ok)
    else
      var r := AddTxOutput(t, hash, tx, i);
      if r.status.Threw? then OutputsOutcome(r.tables, indices, r.status)
      else AddOutputs(r.tables, hash, tx, i + 1, indices + [r.id])
  }

  /** What `add_transaction` does once the inputs are accepted. */
  function StoreTransaction(t: Tables, tx: Transaction, hash: Hash): Outcome {
    var d := AddTransactionData(t, tx, hash);
    if d.status.Threw? then Outcome(d.tables, d.status)
    else
      var o := AddOutputs(d.tables, hash, tx, 0, []);
      if o.status.Threw? then Outcome(o.tables, o.status)
      else
        var listed := if HasBlacklistedOutputs(tx) then AddOutputBlacklist(o.tables, o.indices)
                      else o.tables;
        AddTxAmountOutputIndices(listed, d.id, o.indices)
  }

  function AddTransaction(t: Tables, tx: Transaction, hash: Hash): Outcome {
    var s := ScanInputs(t, tx.vin, tx.vin, false);
    if s.status.Threw? || !s.supported then Outcome(s.tables, s.status)
    else StoreTransaction(s.tables, tx, hash)
  }

  function AddTransactions(t: Tables, txs: seq<Transaction>, hashes: seq<Hash>): Outcome
    requires |hashes| == |txs|
    decreases |txs|
  {
    if txs == [] then Outcome(t, Ok)
    else
      var r := AddTransaction(t, txs[0], hashes[0]);
      if r.status.Threw? then r else AddTransactions(r.tables, txs[1..], hashes[1..])
  }

  /** How many of a listed transaction's outputs `add_block` counts as RingCT outputs. */
  function ZeroAmountOutputs(vout: seq<TxOutput>): nat {
    if vout == [] then 0
    else ZeroAmountOutputs(vout[..|vout| - 1]) + if vout[|vout| - 1].amount == 0 then 1 else 0
  }

  function ListedRctOutputs(txs: seq<Transaction>): nat {
    if txs == [] then 0
    else ListedRctOutputs(txs[..|txs| - 1]) + ZeroAmountOutputs(txs[|txs| - 1].vout)
  }

  /** The `num_rct_outs` counter of `add_block`. */
  function NumRctOutputs(e: Entry): nat {
    (if e.block.minerTx.version >= V2_RINGCT then |e.block.minerTx.vout| else 0)
    + ListedRctOutputs(e.txs)
  }

  function AddBlock(t: Tables, e: Entry): Outcome {
    if |e.block.txHashes| != |e.txs| then Outcome(t, Threw(RuntimeError))
    else
      var m := AddTransaction(t, e.block.minerTx, e.block.minerTx.hash);
      if m.status.Threw? then m
      else
        var r := AddTransactions(m.tables, e.txs, e.block.txHashes);
        if r.status.Threw? then r
        else AddBlockRecord(r.tables, e.block, e.meta, NumRctOutputs(e))
  }

  // The base class: removing

  function FindTx(t: Tables, hash: Hash): Option<Transaction> {
    if hash in t.txIndices && t.txIndices[hash].txId in t.txs
    then Some(t.txs[t.txIndices[hash].txId]) else None
  }

  function RemoveTransaction(t: Tables, hash: Hash): Outcome {
    match FindTx(t, hash)
    case None => Outcome(t, Threw(TxDne))
    case Some(tx) => RemoveTransactionData(RemoveSpentKeys(t, tx.vin), hash, tx)
  }

  datatype TxsOutcome = TxsOutcome(tables: Tables, txs: seq<Transaction>, status: Status)

  datatype PopOutcome = PopOutcome(
    tables: Tables, block: Option<Block>, txs: seq<Transaction>, status: Status)

  /** Transactions with the given hashes, removed last first and collected onto `popped`. */
  function PopTransactions(t: Tables, hashes: seq<Hash>, popped: seq<Transaction>): TxsOutcome
    decreases |hashes|
  {
    if hashes == [] then TxsOutcome(t, popped, Ok)
    else
      var h := hashes[|hashes| - 1];
      match FindTx(t, h)
      case None => TxsOutcome(t, popped, Threw(DbError))
      case Some(tx) =>
        var r := RemoveTransaction(t, h);
        if r.status.Threw? then TxsOutcome(r.tables, popped + [tx], r.status)
        else PopTransactions(r.tables, hashes[..|hashes| - 1], popped + [tx])
  }

  function TopBlock(t: Tables): Option<Block> {
    if |t.blocks| > 0 && |t.blocks| - 1 in t.blocks then Some(t.blocks[|t.blocks| - 1]) else None
  }

  function PopBlock(t: Tables): PopOutcome {
    match TopBlock(t)
    case None => PopOutcome(t, None, [], Threw(BlockDne))
    case Some(top) =>
      var r := RemoveBlock(t);
      if r.status.Threw? then PopOutcome(r.tables, Some(top), [], r.status)
      else
        var p := PopTransactions(r.tables, top.txHashes, []);
        if p.status.Threw? then PopOutcome(p.tables, Some(top), p.txs, p.status)
        else
          var m := RemoveTransaction(p.tables, top.minerTx.hash);
          PopOutcome(m.tables, Some(top), p.txs, m.status)
  }
}
