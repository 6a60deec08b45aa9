/**
 The store as an object: the tables are fields that the operations update in place, with loops
 where the source has loops. Every operation is proved to do to the tables, including on its
 error paths, what the function of the same name in `Backend` says.
 */
module Store {
  import opened Wrappers
  import opened Ledger
  import B = Backend

  class BlockchainStore {
    var blocks: map<nat, Block>
    var blockInfo: map<nat, BlockInfo>
    var blockHeights: map<Hash, nat>
    var txIndices: map<Hash, TxIndex>
    var txs: map<nat, Transaction>
    var txOutputs: map<nat, seq<nat>>
    var outputTxs: map<nat, OutTx>
    var outputAmounts: map<(nat, nat), OutKey>
    var spentKeys: set<KeyImage>
    var blacklist: set<nat>

    /** The tables to go back to if the open write transaction is aborted. */
    var snapshot: Option<Tables>
    var batchActive: bool
    var readOpen: bool

    constructor ()
      ensures Contents() == EMPTY_TABLES
      ensures snapshot.None? && !batchActive && !readOpen
    {
      blocks, blockInfo, blockHeights := map[], map[], map[];
      txIndices, txs, txOutputs := map[], map[], map[];
      outputTxs, outputAmounts := map[], map[];
      spentKeys, blacklist := {}, {};
      snapshot, batchActive, readOpen := None, false, false;
    }

    function Contents(): Tables
      reads `blocks, `blockInfo, `blockHeights, `txIndices, `txs, `txOutputs, `outputTxs,
            `outputAmounts, `spentKeys, `blacklist
    {
      Tables(blocks, blockInfo, blockHeights, txIndices, txs, txOutputs, outputTxs, outputAmounts,
             spentKeys, blacklist)
    }

    // Spent keys

    method AddSpentKey(k: KeyImage) returns (s: Status)
      modifies `spentKeys
      ensures B.Outcome(Contents(), s) == B.AddSpentKey(old(Contents()), k)
    {
      if k in spentKeys {
        return Threw(KeyImageExists);
      }
      spentKeys := spentKeys + {k};
      s := Ok;
    }

    method RemoveSpentKeys(vin: seq<TxInput>)
      modifies `spentKeys
      ensures Contents() == B.RemoveSpentKeys(old(Contents()), vin)
    {
      var i := 0;
      while i < |vin|
        invariant 0 <= i <= |vin|
        invariant B.RemoveSpentKeys(old(Contents()), vin) == B.RemoveSpentKeys(Contents(), vin[i..])
      {
        if vin[i].ToKey? {
          spentKeys := spentKeys - {vin[i].keyImage};
        }
        assert vin[i..][1..] == vin[i + 1..];
        i := i + 1;
      }
    }

    // Transactions and outputs

    method AddTransactionData(tx: Transaction, hash: Hash) returns (id: nat, s: Status)
      modifies `txIndices, `txs
      ensures B.IdOutcome(Contents(), id, s) == B.AddTransactionData(old(Contents()), tx, hash)
    {
      id := |txs|;
      if hash in txIndices {
        return id, Threw(TxExists);
      }
      txIndices := txIndices[hash := TxIndex(id, tx.unlockTime, |blocks|)];
      if !B.Appendable(txs, id) {
        return id, Threw(DbError);
      }
      txs := txs[id := tx];
      s := Ok;
    }

    method AddOutput(hash: Hash, output: TxOutput, localIndex: nat, unlockTime: nat,
                     commitment: Option<Commitment>) returns (index: nat, s: Status)
      modifies `outputTxs, `outputAmounts
      ensures B.IdOutcome(Contents(), index, s)
           == B.AddOutput(old(Contents()), hash, output, localIndex, unlockTime, commitment)
    {
      var indices := B.AmountIndices(outputAmounts, output.amount);
      index := |indices|;
      if !output.target.KeyTarget? || (output.amount == 0 && commitment.None?) {
        return index, Threw(DbError);
      }
      var id := B.NextId(outputTxs);
      outputTxs := outputTxs[id := OutTx(hash, localIndex)];
      if exists j :: j in indices && j >= index {
        return index, Threw(DbError);
      }
      var row := OutKey(id, output.target, unlockTime, |blocks|,
                        if output.amount == 0 then commitment else None);
      outputAmounts := outputAmounts[(output.amount, index) := row];
      s := Ok;
    }

    method AddTxAmountOutputIndices(txId: nat, indices: seq<nat>) returns (s: Status)
      modifies `txOutputs
      ensures B.Outcome(Contents(), s) == B.AddTxAmountOutputIndices(old(Contents()), txId, indices)
    {
      if !B.Appendable(txOutputs, txId) {
        return Threw(DbError);
      }
      txOutputs := txOutputs[txId := indices];
      s := Ok;
    }

    method RemoveOutput(amount: nat, index: nat) returns (s: Status)
      modifies `outputTxs, `outputAmounts
      ensures B.Outcome(Contents(), s) == B.RemoveOutput(old(Contents()), amount, index)
    {
      if (amount, index) !in outputAmounts {
        return Threw(OutputDne);
      }
      var id := outputAmounts[(amount, index)].outputId;
      if id !in outputTxs {
        return Threw(DbError);
      }
      outputTxs := outputTxs - {id};
      outputAmounts := outputAmounts - {(amount, index)};
      s := Ok;
    }

    method RemoveTxOutputs(txId: nat, tx: Transaction) returns (s: Status)
      modifies `outputTxs, `outputAmounts
      ensures B.Outcome(Contents(), s) == B.RemoveTxOutputs(old(Contents()), txId, tx)
    {
      var indices := if txId in txOutputs then txOutputs[txId] else [];
      if indices == [] && tx.vout != [] {
        return Threw(DbError);
      }
      var isPseudoRct := tx.version >= V2_RINGCT && |tx.vin| == 1 && tx.vin[0].Gen?;
      var i := |tx.vout|;
      while i > 0
        invariant 0 <= i <= |tx.vout|
        invariant B.RemoveOutputs(old(Contents()), tx, indices, |tx.vout|)
               == B.RemoveOutputs(Contents(), tx, indices, i)
      {
        i := i - 1;
        if |indices| <= i {
          return Threw(IndexOutOfRange);
        }
        var amount := if isPseudoRct then 0 else tx.vout[i].amount;
        s := RemoveOutput(amount, indices[i]);
        if s.Threw? {
          return;
        }
      }
      s := Ok;
    }

    method RemoveTransactionData(hash: Hash, tx: Transaction) returns (s: Status)
      modifies `txs, `outputTxs, `outputAmounts, `txOutputs, `txIndices
      ensures B.Outcome(Contents(), s) == B.RemoveTransactionData(old(Contents()), hash, tx)
    {
      hide B.RemoveTxOutputs;
      if hash !in txIndices {
        return Threw(TxDne);
      }
      var id := txIndices[hash].txId;
      if id !in txs {
        return Threw(DbError);
      }
      txs := txs - {id};
      s := RemoveTxOutputs(id, tx);
      if s.Threw? {
        return;
      }
      txOutputs := txOutputs - {id};
      txIndices := txIndices - {hash};
    }

    // Block records

    method AddBlockRecord(block: Block, meta: BlockMeta, numRct: nat) returns (s: Status)
      modifies `blocks, `blockInfo, `blockHeights
      ensures B.Outcome(Contents(), s) == B.AddBlockRecord(old(Contents()), block, meta, numRct)
    {
      var h := |blocks|;
      if block.hash in blockHeights {
        return Threw(BlockExists);
      }
      if h > 0 {
        if block.prevId !in blockHeights {
          return Threw(DbError);
        }
        if blockHeights[block.prevId] != h - 1 {
          return Threw(BlockParentDne);
        }
      }
      if !B.Appendable(blocks, h) {
        return Threw(DbError);
      }
      blocks := blocks[h := block];
      var cumRct := numRct;
      if block.majorVersion >= 4 && h > 0 {
        if h - 1 !in blockInfo {
          return Threw(BlockDne);
        }
        cumRct := cumRct + blockInfo[h - 1].cumRct;
      }
      if !B.Appendable(blockInfo, h) {
        return Threw(DbError);
      }
      blockInfo := blockInfo[h := BlockInfo(block.hash, meta, cumRct)];
      blockHeights := blockHeights[block.hash := h];
      s := Ok;
    }

    method RemoveBlock() returns (s: Status)
      modifies `blocks, `blockInfo, `blockHeights
      ensures B.Outcome(Contents(), s) == B.RemoveBlock(old(Contents()))
    {
      if |blocks| == 0 {
        return Threw(BlockDne);
      }
      var h := |blocks| - 1;
      if h !in blockInfo {
        return Threw(BlockDne);
      }
      var hash := blockInfo[h].hash;
      if hash !in blockHeights {
        return Threw(DbError);
      }
      blockHeights := blockHeights - {hash};
      blocks := blocks - {h};
      blockInfo := blockInfo - {h};
      s := Ok;
    }

    // Adding transactions and blocks

    /** The input loop of `add_transaction`; `done` says that the loop ran to its end. */
    method ScanInputs(tx: Transaction) returns (minerTx: bool, done: bool, s: Status)
      modifies `spentKeys
      ensures var r := B.ScanInputs(old(Contents()), tx.vin, tx.vin, false);
        Contents() == r.tables && s == r.status && done == (r.supported && s.Ok?)
      ensures done ==> minerTx == HasGen(tx.vin)
    {
      minerTx, done, s := false, false, Ok;
      var i := 0;
      while i < |tx.vin|
        invariant 0 <= i <= |tx.vin| && s.Ok? && !done
        invariant B.ScanInputs(old(Contents()), tx.vin, tx.vin, false)
               == B.ScanInputs(Contents(), tx.vin, tx.vin[i..], minerTx)
        invariant minerTx == exists j :: 0 <= j < i && tx.vin[j].Gen?
      {
        assert tx.vin[i..][0] == tx.vin[i] && tx.vin[i..][1..] == tx.vin[i + 1..];
        match tx.vin[i] {
          case ToKey(k) =>
            s := AddSpentKey(k);
            if s.Threw? {
              return;
            }
          case Gen(_) => minerTx := true;
          case ToScript =>
            RemoveSpentKeys(tx.vin);
            return;
        }
        i := i + 1;
      }
      done := true;
    }

    /** The output loop of `add_transaction`. */
    method AddOutputs(hash: Hash, tx: Transaction, minerTx: bool)
      returns (indices: seq<nat>, s: Status)
      requires minerTx == HasGen(tx.vin)
      modifies `outputTxs, `outputAmounts
      ensures B.OutputsOutcome(Contents(), indices, s)
           == B.AddOutputs(old(Contents()), hash, tx, 0, [])
    {
      hide B.AddOutput;
      indices, s := [], Ok;
      var i := 0;
      while i < |tx.vout|
        invariant 0 <= i <= |tx.vout| && s.Ok?
        invariant B.AddOutputs(old(Contents()), hash, tx, 0, [])
               == B.AddOutputs(Contents(), hash, tx, i, indices)
      {
        var output := tx.vout[i];
        var unlockTime := if tx.version >= V3_PER_OUTPUT_UNLOCK_TIMES then output.unlockTime
                          else tx.unlockTime;
        var index;
        if minerTx && tx.version >= V2_RINGCT {
          index, s := AddOutput(hash, output.(amount := 0), i, unlockTime,
                                Some(ZeroCommit(output.amount)));
        } else {
          index, s := AddOutput(hash, output, i, unlockTime,
                                if tx.version >= V2_RINGCT then Some(output.mask) else None);
        }
        if s.Threw? {
          return;
        }
        indices := indices + [index];
        i := i + 1;
      }
    }

    method AddTransaction(tx: Transaction, hash: Hash) returns (s: Status)
      modifies `spentKeys, `txIndices, `txs, `outputTxs, `outputAmounts, `blacklist, `txOutputs
      ensures B.Outcome(Contents(), s) == B.AddTransaction(old(Contents()), tx, hash)
    {
      hide B.ScanInputs, B.AddOutputs, B.AddTransactionData, B.AddTxAmountOutputIndices;
      var hasBlacklistedOutputs := false;
      if tx.version >= V2_RINGCT && tx.namesContributor {
        hasBlacklistedOutputs := true;
      }
      var minerTx, done;
      minerTx, done, s := ScanInputs(tx);
      if !done {
        return;
      }
      var txId;
      txId, s := AddTransactionData(tx, hash);
      if s.Threw? {
        return;
      }
      var indices;
      indices, s := AddOutputs(hash, tx, minerTx);
      if s.Threw? {
        return;
      }
      if hasBlacklistedOutputs {
        blacklist := blacklist + set i | i in indices;
      }
      s := AddTxAmountOutputIndices(txId, indices);
    }

    /** The transaction loop of `add_block`, with its counter of RingCT outputs. */
    method AddListedTransactions(txs: seq<Transaction>, hashes: seq<Hash>)
      returns (numRct: nat, s: Status)
      requires |txs| == |hashes|
      modifies `spentKeys, `txIndices, this`txs, `outputTxs, `outputAmounts, `blacklist, `txOutputs
      ensures B.Outcome(Contents(), s) == B.AddTransactions(old(Contents()), txs, hashes)
      ensures s.Ok? ==> numRct == B.ListedRctOutputs(txs)
    {
      hide B.AddTransaction;
      numRct, s := 0, Ok;
      var i := 0;
      while i < |txs|
        invariant 0 <= i <= |txs| && s.Ok?
        invariant B.AddTransactions(old(Contents()), txs, hashes)
               == B.AddTransactions(Contents(), txs[i..], hashes[i..])
        invariant numRct == B.ListedRctOutputs(txs[..i])
      {
        s := AddTransaction(txs[i], hashes[i]);
        if s.Threw? {
          return;
        }
        assert txs[i..][1..] == txs[i + 1..] && hashes[i..][1..] == hashes[i + 1..];
        var zeros := CountZeroAmounts(txs[i].vout);
        numRct := numRct + zeros;
        assert txs[..i + 1][..i] == txs[..i];
        i := i + 1;
      }
      assert txs[..i] == txs;
    }

    /** Adds a block; the result is the height before the addition. */
    method AddBlock(e: Entry) returns (prevHeight: nat, s: Status)
      modifies this
      ensures B.Outcome(Contents(), s) == B.AddBlock(old(Contents()), e)
      ensures prevHeight == |old(blocks)|
      ensures unchanged(`snapshot, `batchActive, `readOpen)
    {
      hide B.AddTransaction, B.AddTransactions, B.AddBlockRecord;
      prevHeight := |blocks|;
      if |e.block.txHashes| != |e.txs| {
        return prevHeight, Threw(RuntimeError);
      }
      var numRct := 0;
      s := AddTransaction(e.block.minerTx, e.block.minerTx.hash);
      if s.Threw? {
        return;
      }
      if e.block.minerTx.version >= V2_RINGCT {
        numRct := numRct + |e.block.minerTx.vout|;
      }
      var listed;
      listed, s := AddListedTransactions(e.txs, e.block.txHashes);
      if s.Threw? {
        return;
      }
      s := AddBlockRecord(e.block, e.meta, numRct + listed);
    }

    // Removing transactions and blocks

    method RemoveTransaction(hash: Hash) returns (s: Status)
      modifies `spentKeys, `txs, `outputTxs, `outputAmounts, `txOutputs, `txIndices
      ensures B.Outcome(Contents(), s) == B.RemoveTransaction(old(Contents()), hash)
    {
      hide B.RemoveTransactionData, B.RemoveSpentKeys;
      if hash !in txIndices || txIndices[hash].txId !in txs {
        return Threw(TxDne);
      }
      var tx := txs[txIndices[hash].txId];
      RemoveSpentKeys(tx.vin);
      s := RemoveTransactionData(hash, tx);
    }

    /** Pops the top block; `popped` are its transactions, last first. */
    method PopBlock() returns (block: Option<Block>, popped: seq<Transaction>, s: Status)
      modifies this
      ensures B.PopOutcome(Contents(), block, popped, s) == B.PopBlock(old(Contents()))
      ensures unchanged(`snapshot, `batchActive, `readOpen)
    {
      hide B.RemoveBlock, B.RemoveTransaction;
      if |blocks| == 0 || |blocks| - 1 !in blocks {
        return None, [], Threw(BlockDne);
      }
      var top := blocks[|blocks| - 1];
      block, popped := Some(top), [];
      s := RemoveBlock();
      if s.Threw? {
        return;
      }
      ghost var start := Contents();
      var i := |top.txHashes|;
      assert top.txHashes[..i] == top.txHashes;
      while i > 0
        invariant 0 <= i <= |top.txHashes| && s.Ok?
        invariant B.PopTransactions(start, top.txHashes, [])
               == B.PopTransactions(Contents(), top.txHashes[..i], popped)
        invariant unchanged(`snapshot, `batchActive, `readOpen)
      {
        i := i - 1;
        var h := top.txHashes[i];
        assert top.txHashes[..i + 1][..i] == top.txHashes[..i];
        if h !in txIndices || txIndices[h].txId !in txs {
          return block, popped, Threw(DbError);
        }
        popped := popped + [txs[txIndices[h].txId]];
        s := RemoveTransaction(h);
        if s.Threw? {
          return;
        }
      }
      s := RemoveTransaction(top.minerTx.hash);
    }

    // Database transactions, as one thread sees them

    predicate TxnValid()
      reads this
    {
      batchActive ==> snapshot.Some?
    }

    /** True if this call opened the read transaction. */
    method BlockRtxnStart() returns (started: bool)
      modifies `readOpen
      ensures started == (snapshot.None? && !old(readOpen))
      ensures readOpen == (old(readOpen) || started)
    {
      started := snapshot.None? && !readOpen;
      if started {
        readOpen := true;
      }
    }

    /** Stopping and aborting a read transaction are the same. */
    method BlockRtxnStop()
      modifies `readOpen
      ensures !readOpen
    {
      readOpen := false;
    }

    method BlockWtxnStart() returns (s: Status)
      requires TxnValid()
      modifies `snapshot, `readOpen
      ensures TxnValid()
      ensures if batchActive then s.Ok? && snapshot == old(snapshot) && readOpen == old(readOpen)
              else if old(snapshot).Some? then
                s == Threw(TxnStart) && snapshot == old(snapshot) && readOpen == old(readOpen)
              else s.Ok? && snapshot == Some(Contents()) && !readOpen
    {
      if !batchActive && snapshot.Some? {
        return Threw(TxnStart);
      }
      if !batchActive {
        snapshot := Some(Contents());
        readOpen := false;
      }
      s := Ok;
    }

    method BlockWtxnStop() returns (s: Status)
      requires TxnValid()
      modifies `snapshot
      ensures TxnValid()
      ensures s == if old(snapshot).Some? then Ok else Threw(TxnStart)
      ensures snapshot == if batchActive then old(snapshot) else None
    {
      if snapshot.None? {
        return Threw(TxnStart);
      }
      if !batchActive {
        snapshot := None;
      }
      s := Ok;
    }

    /** Goes back to the snapshot, except in batch mode, where it changes nothing. */
    method BlockWtxnAbort() returns (s: Status)
      requires TxnValid()
      modifies this
      ensures TxnValid() && unchanged(`batchActive, `readOpen)
      ensures s == if old(snapshot).Some? then Ok else Threw(TxnStart)
      ensures snapshot == if batchActive then old(snapshot) else None
      ensures Contents() == if old(snapshot).Some? && !batchActive then old(snapshot).value
                            else old(Contents())
    {
      if snapshot.None? {
        return Threw(TxnStart);
      }
      if !batchActive {
        Restore(snapshot.value);
        snapshot := None;
      }
      s := Ok;
    }

    method Restore(t: Tables)
      modifies this
      ensures Contents() == t && unchanged(`snapshot, `batchActive, `readOpen)
    {
      RestoreBlocks(t);
      RestoreTransactions(t);
    }

    method RestoreBlocks(t: Tables)
      modifies `blocks, `blockInfo, `blockHeights
      ensures blocks == t.blocks && blockInfo == t.blockInfo && blockHeights == t.blockHeights
    {
      blocks := t.blocks;
      blockInfo := t.blockInfo;
      blockHeights := t.blockHeights;
    }

    method RestoreTransactions(t: Tables)
      modifies `txIndices, `txs, `txOutputs, `outputTxs, `outputAmounts, `spentKeys, `blacklist
      ensures Contents() == t.(blocks := blocks, blockInfo := blockInfo, blockHeights := blockHeights)
    {
      txIndices := t.txIndices;
      txs := t.txs;
      txOutputs := t.txOutputs;
      outputTxs := t.outputTxs;
      outputAmounts := t.outputAmounts;
      spentKeys := t.spentKeys;
      blacklist := t.blacklist;
    }

    /** The LMDB override of `pop_block`: the base operation inside a write transaction that is
        aborted if it throws. */
    method PopBlockAtomic() returns (block: Option<Block>, popped: seq<Transaction>, s: Status)
      requires TxnValid()
      modifies this
      ensures TxnValid() && batchActive == old(batchActive) && snapshot == old(snapshot)
      ensures readOpen == (old(readOpen) && snapshot.Some?)
      ensures !batchActive && old(snapshot).Some? ==>
                && s == Threw(TxnStart) && Contents() == old(Contents())
                && block.None? && popped == []
      ensures batchActive || old(snapshot).None? ==>
                var r := B.PopBlock(old(Contents()));
                && s == r.status && block == r.block && popped == r.txs
                && Contents() == if s.Ok? || batchActive then r.tables else old(Contents())
    {
      hide B.PopBlock;
      block, popped := None, [];
      s := BlockWtxnStart();
      if s.Threw? {
        return;
      }
      block, popped, s := PopBlock();
      if s.Threw? {
        var _ := BlockWtxnAbort();
      } else {
        s := BlockWtxnStop();
      }
    }

    /** The LMDB override of `add_block`: unlike the base operation it returns the height after the
        addition. */
    method AddBlockLmdb(e: Entry) returns (height: nat, s: Status)
      modifies this
      ensures B.Outcome(Contents(), s) == B.AddBlock(old(Contents()), e)
      ensures height == |old(blocks)| + 1
      ensures unchanged(`snapshot, `batchActive, `readOpen)
    {
      hide B.AddBlock;
      var prevHeight;
      prevHeight, s := AddBlock(e);
      height := prevHeight + 1;
    }
  }

  /** The inner counting loop of `add_block`. */
  method CountZeroAmounts(vout: seq<TxOutput>) returns (zeros: nat)
    ensures zeros == B.ZeroAmountOutputs(vout)
  {
    zeros := 0;
    for i := 0 to |vout|
      invariant zeros == B.ZeroAmountOutputs(vout[..i])
    {
      assert vout[..i + 1][..i] == vout[..i];
      if vout[i].amount == 0 {
        zeros := zeros + 1;
      }
    }
    assert vout[..|vout|] == vout;
  }
}
