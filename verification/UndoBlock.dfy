/**
 Exactly when `pop_block` undoes an accepted `add_block`. Transactions that cannot be removed
 again leave a trace: one with an unsupported input was never stored, so that popping removes one
 transaction too many, and one whose outputs are looked for under the wrong amounts leaves an
 amount-0 row behind that nothing later removes.
 */
module UndoBlock {
  import opened Wrappers
  import opened Ledger
  import opened Backend
  import opened Canonical
  import opened Adding
  import opened Popping
  import opened Undo

  // Unsupported inputs: counting transactions

  lemma AddTxOutputFrame(t: Tables, hash: Hash, tx: Transaction, i: nat)
    requires i < |tx.vout|
    ensures var t' := AddTxOutput(t, hash, tx, i).tables;
      t' == t.(outputTxs := t'.outputTxs, outputAmounts := t'.outputAmounts)
  {
    hide AmountIndices, NextId, StoredAmount, OutputUnlockTime, OutputCommitment;
  }

  lemma {:induction false} AddOutputsFrame(
    t: Tables, hash: Hash, tx: Transaction, i: nat, indices: seq<nat>)
    requires i <= |tx.vout|
    ensures var t' := AddOutputs(t, hash, tx, i, indices).tables;
      t' == t.(outputTxs := t'.outputTxs, outputAmounts := t'.outputAmounts)
    decreases |tx.vout| - i
  {
    hide AddTxOutput;
    if i < |tx.vout| {
      AddTxOutputFrame(t, hash, tx, i);
      var r := AddTxOutput(t, hash, tx, i);
      if r.status.Ok? {
        AddOutputsFrame(r.tables, hash, tx, i + 1, indices + [r.id]);
      }
    }
  }

  predicate SameBlocks(t: Tables, t': Tables) {
    t'.blocks == t.blocks && t'.blockInfo == t.blockInfo && t'.blockHeights == t.blockHeights
  }

  lemma AddDataSize(t: Tables, tx: Transaction, hash: Hash)
    requires AddTransactionData(t, tx, hash).status.Ok?
    ensures |AddTransactionData(t, tx, hash).tables.txs| == |t.txs| + 1
  {
    assert |t.txs| !in t.txs;
  }

  lemma AddTransactionSize(t: Tables, tx: Transaction, hash: Hash)
    requires AddTransaction(t, tx, hash).status.Ok?
    ensures var t' := AddTransaction(t, tx, hash).tables;
      SameBlocks(t, t') && |t'.txs| == |t.txs| + if Supported(tx.vin) then 1 else 0
  {
    hide ScanInputs, AddOutputs, NextId, KeyImages, FreshKeys, HasGen;
    if Supported(tx.vin) {
      ScanSupported(t, tx.vin, tx.vin, false);
      var s := ScanInputs(t, tx.vin, tx.vin, false).tables;
      AddDataSize(s, tx, hash);
      AddOutputsFrame(AddTransactionData(s, tx, hash).tables, hash, tx, 0, []);
    } else {
      var u := UnsupportedHasFirst(tx.vin);
      AddUnsupported(t, tx, hash, u);
    }
  }

  predicate AllSupported(txs: seq<Transaction>) {
    forall i :: 0 <= i < |txs| ==> Supported(txs[i].vin)
  }

  lemma {:induction false} AddTransactionsSize(t: Tables, txs: seq<Transaction>, hashes: seq<Hash>)
    requires |txs| == |hashes| && AddTransactions(t, txs, hashes).status.Ok?
    ensures var t' := AddTransactions(t, txs, hashes).tables;
      && SameBlocks(t, t')
      && |t'.txs| <= |t.txs| + |txs|
      && (!AllSupported(txs) ==> |t'.txs| < |t.txs| + |txs|)
    decreases |txs|
  {
    hide AddTransaction, Supported;
    if txs == [] {
    } else {
      AddTransactionSize(t, txs[0], hashes[0]);
      AddTransactionsSize(AddTransaction(t, txs[0], hashes[0]).tables, txs[1..], hashes[1..]);
      assert AllSupported(txs) <==> Supported(txs[0].vin) && AllSupported(txs[1..]) by {
        assert forall i :: 0 < i < |txs| ==> txs[i] == txs[1..][i - 1];
        assert forall i :: 0 <= i < |txs[1..]| ==> txs[1..][i] == txs[i + 1];
      }
    }
  }

  lemma RemoveTransactionSize(t: Tables, hash: Hash)
    requires RemoveTransaction(t, hash).status.Ok?
    ensures |RemoveTransaction(t, hash).tables.txs| == |t.txs| - 1
  {
    hide RemoveTransactionData, RemoveSpentKeys, KeyImages;
    var tx := FindTx(t, hash).value;
    RemoveSpentKeysEffect(t, tx.vin);
    var t1 := RemoveSpentKeys(t, tx.vin);
    RemoveDataDropsTx(t1, hash, tx);
    var id := t.txIndices[hash].txId;
    assert (t.txs - {id}).Keys == t.txs.Keys - {id};
    assert |t.txs - {id}| == |(t.txs - {id}).Keys|;
  }

  lemma {:induction false} PopTransactionsSize(t: Tables, hashes: seq<Hash>, popped: seq<Transaction>)
    requires PopTransactions(t, hashes, popped).status.Ok?
    ensures |PopTransactions(t, hashes, popped).tables.txs| == |t.txs| - |hashes|
    decreases |hashes|
  {
    hide RemoveTransaction, FindTx;
    if hashes == [] {
    } else {
      var h := hashes[|hashes| - 1];
      RemoveTransactionSize(t, h);
      PopTransactionsSize(RemoveTransaction(t, h).tables, hashes[..|hashes| - 1],
                          popped + [FindTx(t, h).value]);
    }
  }

  lemma AddBlockRecordTop(chain: seq<Entry>, t: Tables, e: Entry)
    requires t.blocks == Tabulate(Blocks(chain))
    requires AddBlockRecord(t, e.block, e.meta, NumRctOutputs(e)).status.Ok?
    ensures var t' := AddBlockRecord(t, e.block, e.meta, NumRctOutputs(e)).tables;
      t'.txs == t.txs && TopBlock(t') == Some(e.block)
  {
    hide Blocks, Tabulate, NextId, NumRctOutputs;
    BlockListSizes(chain);
    TabulateSnoc(Blocks(chain), e.block);
    TabulateSize(Blocks(chain) + [e.block]);
  }

  /** With an unsupported input in the block, popping it leaves too few transactions. */
  lemma UnsupportedNotUndone(chain: seq<Entry>, blacklist: set<nat>, e: Entry)
    requires AddBlock(ChainTables(chain, blacklist), e).status.Ok?
    requires !(Supported(e.block.minerTx.vin) && AllSupported(e.txs))
    ensures var r := PopBlock(AddBlock(ChainTables(chain, blacklist), e).tables);
      r.status.Ok? ==> |r.tables.txs| < |ChainTables(chain, blacklist).txs|
  {
    hide AddTransaction, AddTransactions, AddBlockRecord, RemoveTransaction, PopTransactions,
      ChainRecs, Supported, AllSupported, TopBlock, NumRctOutputs;
    var t := ChainTables(chain, blacklist);
    var m := AddTransaction(t, e.block.minerTx, e.block.minerTx.hash).tables;
    var a := AddTransactions(m, e.txs, e.block.txHashes).tables;
    AddTransactionSize(t, e.block.minerTx, e.block.minerTx.hash);
    AddTransactionsSize(m, e.txs, e.block.txHashes);
    AddBlockRecordTop(chain, a, e);
    var added := AddBlock(t, e).tables;
    if PopBlock(added).status.Ok? {
      var b := RemoveBlock(added).tables;
      var p := PopTransactions(b, e.block.txHashes, []).tables;
      PopTransactionsSize(b, e.block.txHashes, []);
      RemoveTransactionSize(p, e.block.minerTx.hash);
    }
  }

  // Wrong amounts: a row nobody removes

  /** The transaction tables of `recs`, and an amount-0 row beyond all of theirs. */
  predicate Stuck(t: Tables, recs: seq<TxRec>, k: nat) {
    && t.txIndices == TxIndexRows(recs)
    && t.txs == Tabulate(Txs(recs))
    && t.txOutputs == Tabulate(IndexLists(recs))
    && (0, k) in t.outputAmounts
    && k >= Count(AllOutputs(recs), 0)
  }

  lemma {:induction false} CountPrefix(outs: seq<OutRec>, i: nat)
    requires i <= |outs|
    ensures Count(outs[..i], 0) <= Count(outs, 0)
    ensures i < |outs| && outs[i].amount == 0 ==> Count(outs[..i], 0) < Count(outs, 0)
    decreases |outs| - i
  {
    if i == |outs| {
      assert outs[..i] == outs;
    } else {
      CountPrefix(outs, i + 1);
      assert outs[..i + 1] == outs[..i] + [outs[i]];
      CountSnoc(outs[..i], outs[i], 0);
    }
  }

  lemma RemovedZeroIsStoredZero(tx: Transaction, i: nat)
    requires i < |tx.vout| && RemovedAmount(tx, i) == 0
    ensures StoredAmount(tx, i) == 0
  {
    PseudoRctHasGen(tx);
  }

  /** Removing a transaction's own outputs does not touch rows beyond them. */
  lemma RowBeyondSurvives(t: Tables, before: seq<OutRec>, r: TxRec, k: nat)
    requires (0, k) in t.outputAmounts && k >= Count(before + OutputsOf(r), 0)
    requires RemoveOutputs(t, r.tx, IndexList(before, OutputsOf(r)), |r.tx.vout|).status.Ok?
    ensures (0, k) in
      RemoveOutputs(t, r.tx, IndexList(before, OutputsOf(r)), |r.tx.vout|).tables.outputAmounts
  {
    hide RemoveOutputs, StoredAmount, RemovedAmount, OutputUnlockTime, OutputCommitment, Count;
    var mine := OutputsOf(r);
    var list := IndexList(before, mine);
    RemoveOutputsEffect(t, r.tx, list, |r.tx.vout|);
    forall i | 0 <= i < |r.tx.vout| && RemovedAmount(r.tx, i) == 0
      ensures list[i] < k
    {
      RemovedZeroIsStoredZero(r.tx, i);
      CountPrefix(before + mine, |before| + i);
      assert (before + mine)[..|before| + i] == before + mine[..i];
    }
  }

  lemma StuckStep(t: Tables, recs: seq<TxRec>, r: TxRec, k: nat)
    requires Stuck(t, recs + [r], k) && r.hash !in TxIndexRows(recs)
    requires RemoveTransaction(t, r.hash).status.Ok?
    ensures Stuck(RemoveTransaction(t, r.hash).tables, recs, k)
  {
    hide RemoveOutputs, AllOutputs, OutputsOf, IndexList, TxIndexRows, Txs, IndexLists, Tabulate,
      Count, RemoveSpentKeys, KeyImages;
    var before := AllOutputs(recs);
    NewestRows(recs, r);
    AllOutputsSnoc(recs, r);
    RemoveSpentKeysEffect(t, r.tx.vin);
    var t1 := RemoveSpentKeys(t, r.tx.vin);
    var t2 := t1.(txs := Tabulate(Txs(recs)));
    var list := IndexList(before, OutputsOf(r));
    RowBeyondSurvives(t2, before, r, k);
    RemoveOutputsEffect(t2, r.tx, list, |r.tx.vout|);
    assert Count(before, 0) <= k by {
      CountPrefix(before + OutputsOf(r), |before|);
      assert (before + OutputsOf(r))[..|before|] == before;
    }
  }

  lemma BecomesStuck(chain: seq<Entry>, recs: seq<TxRec>, blacklist: set<nat>, r: TxRec)
    returns (k: nat)
    requires TxAdmissible(recs, r) && Supported(r.tx.vin) && !Reversible(r.tx)
    requires RemoveTransaction(TablesOf(chain, recs + [r], blacklist), r.hash).status.Ok?
    ensures Stuck(RemoveTransaction(TablesOf(chain, recs + [r], blacklist), r.hash).tables, recs, k)
  {
    hide AllOutputs, OutputsOf, IndexList, TxIndexRows, Txs, IndexLists, OutTxs, AmountRows, Blocks,
      Infos, HeightRows, Tabulate, SpentBy, FreshKeys, OutputStorable, KeyImages, RemoveOutputs,
      RemoveSpentKeys, StoredAmount, RemovedAmount, Count;
    var j :| 0 <= j < |r.tx.vout| && StoredAmount(r.tx, j) != RemovedAmount(r.tx, j);
    var before := AllOutputs(recs);
    k := Count(before, 0) + j;
    var t := TablesOf(chain, recs + [r], blacklist);
    TxIndexRowsKeys(recs, r.hash);
    NewestRows(recs, r);
    AllOutputsSnoc(recs, r);
    RemoveSpentKeysEffect(t, r.tx.vin);
    var t1 := RemoveSpentKeys(t, r.tx.vin).(txs := Tabulate(Txs(recs)));
    RowSurvives(t1, before, r, j);
    RemoveOutputsEffect(t1, r.tx, IndexList(before, OutputsOf(r)), |r.tx.vout|);
  }

  lemma {:induction false} PopStuck(
    t: Tables, recs: seq<TxRec>, txs: seq<Transaction>, hashes: seq<Hash>, height: nat,
    popped: seq<Transaction>, k: nat)
    requires |txs| == |hashes| && TxsAdmissible(recs, TxRecsOf(txs, hashes, height))
    requires Stuck(t, recs + TxRecsOf(txs, hashes, height), k)
    requires PopTransactions(t, hashes, popped).status.Ok?
    ensures Stuck(PopTransactions(t, hashes, popped).tables, recs, k)
    decreases |txs|
  {
    hide Stuck, TxsAdmissible, RemoveTransaction, FindTx;
    var more := TxRecsOf(txs, hashes, height);
    if txs == [] {
      assert recs + more == recs;
    } else {
      var front := TxRecsOf(Init(txs), Init(hashes), height);
      var r := Last(more);
      assert more == front + [r];
      TxsAdmissibleSnoc(recs, front, r);
      TxIndexRowsKeys(recs + front, r.hash);
      assert recs + more == recs + front + [r];
      StuckStep(t, recs + front, r, k);
      PopStuck(RemoveTransaction(t, r.hash).tables, recs, Init(txs), Init(hashes), height,
               popped + [FindTx(t, r.hash).value], k);
    }
  }

  predicate AllReversible(txs: seq<Transaction>) {
    forall i :: 0 <= i < |txs| ==> Reversible(txs[i])
  }

  /** Popping transactions some of which are not reversible ends stuck, if it ends. */
  lemma {:induction false} PopBecomesStuck(
    chain: seq<Entry>, recs: seq<TxRec>, blacklist: set<nat>,
    txs: seq<Transaction>, hashes: seq<Hash>, height: nat, popped: seq<Transaction>) returns (k: nat)
    requires |txs| == |hashes| && TxsAdmissible(recs, TxRecsOf(txs, hashes, height))
    requires AllSupported(txs) && !AllReversible(txs)
    requires PopTransactions(TablesOf(chain, recs + TxRecsOf(txs, hashes, height), blacklist),
                             hashes, popped).status.Ok?
    ensures Stuck(PopTransactions(TablesOf(chain, recs + TxRecsOf(txs, hashes, height), blacklist),
                                  hashes, popped).tables, recs, k)
    decreases |txs|
  {
    hide Stuck, TxsAdmissible, TxAdmissible, RemoveTransaction, FindTx, TablesOf, Reversible, Supported;
    var more := TxRecsOf(txs, hashes, height);
    var front := TxRecsOf(Init(txs), Init(hashes), height);
    var r := Last(more);
    assert more == front + [r];
    TxsAdmissibleSnoc(recs, front, r);
    assert recs + more == recs + front + [r];
    var t := TablesOf(chain, recs + front + [r], blacklist);
    var popped' := popped + [FindTx(t, r.hash).value];
    if Reversible(r.tx) {
      RemoveTransactionCorrect(chain, recs + front, blacklist, r);
      k := PopBecomesStuck(chain, recs, blacklist, Init(txs), Init(hashes), height, popped');
    } else {
      k := BecomesStuck(chain, recs + front, blacklist, r);
      PopStuck(RemoveTransaction(t, r.hash).tables, recs, Init(txs), Init(hashes), height, popped', k);
    }
  }

  lemma StuckDiffers(t: Tables, chain: seq<Entry>, recs: seq<TxRec>, blacklist: set<nat>, k: nat)
    requires Stuck(t, recs, k)
    ensures t.outputAmounts != TablesOf(chain, recs, blacklist).outputAmounts
  {
    hide AllOutputs, AmountRows, Count, TxIndexRows, Txs, IndexLists, OutTxs, Tabulate, SpentBy,
      Blocks, Infos, HeightRows;
    AmountRowsDense(AllOutputs(recs), 0, k);
  }

  lemma MismatchNotUndone(chain: seq<Entry>, blacklist: set<nat>, e: Entry)
    requires BlockAdmissible(chain, e) && !BlockReversible(e)
    requires Supported(e.block.minerTx.vin) && AllSupported(e.txs)
    ensures var r := PopBlock(ChainTables(chain + [e], blacklist));
      r.status.Ok? ==> r.tables.outputAmounts != ChainTables(chain, blacklist).outputAmounts
  {
    hide TablesOf, TxAdmissible, Reversible, FindTx, RemoveTransaction, RemoveBlock, TopBlock,
      PopTransactions, TxRecsOf, Supported, Stuck, AllSupported;
    var recs := ChainRecs(chain);
    var mine := BlockRecs(e, |chain|);
    var miner := mine[0];
    var listed := TxRecsOf(e.txs, e.block.txHashes, |chain|);
    assert mine[1..] == listed;
    ChainSnoc(chain, e);
    RemoveBlockFrom(chain, recs + mine, blacklist, e);
    assert recs + mine == recs + [miner] + listed;
    var t := TablesOf(chain, recs + [miner] + listed, blacklist);
    if PopBlock(ChainTables(chain + [e], blacklist)).status.Ok? {
      if AllReversible(e.txs) {
        PopTransactionsCorrect(chain, recs + [miner], blacklist, e.txs, e.block.txHashes, |chain|, []);
        var k := BecomesStuck(chain, recs, blacklist, miner);
        StuckDiffers(RemoveTransaction(TablesOf(chain, recs + [miner], blacklist), miner.hash).tables,
                     chain, recs, blacklist, k);
      } else {
        var k := PopBecomesStuck(chain, recs + [miner], blacklist, e.txs, e.block.txHashes, |chain|, []);
        var p := PopTransactions(t, e.block.txHashes, []).tables;
        MinerIsNew(recs, miner);
        StuckStep(p, recs, miner, k);
        StuckDiffers(RemoveTransaction(p, miner.hash).tables, chain, recs, blacklist, k);
      }
    }
  }

  lemma MinerIsNew(recs: seq<TxRec>, r: TxRec)
    requires TxAdmissible(recs, r)
    ensures r.hash !in TxIndexRows(recs)
  {
    TxIndexRowsKeys(recs, r.hash);
  }

  /** Popping the block right after adding it succeeds and restores every table but the blacklist. */
  predicate PopUndoes(t: Tables, e: Entry) {
    var added := AddBlock(t, e).tables;
    var popped := PopBlock(added);
    popped.status.Ok? && popped.tables == t.(blacklist := added.blacklist)
  }

  /** A block that `add_block` accepts on the tables of a valid chain is undone by `pop_block`,
      blacklist aside, exactly when each of its transactions has only supported inputs and has its
      outputs filed and looked for under the same amounts. */
  lemma BlockUndoneIffReversible(chain: seq<Entry>, blacklist: set<nat>, e: Entry)
    requires ValidChain(chain)
    requires AddBlock(ChainTables(chain, blacklist), e).status.Ok?
    ensures PopUndoes(ChainTables(chain, blacklist), e) <==> BlockReversible(e)
  {
    hide AddBlock, PopBlock, BlockAdmissible, TablesOf, ChainRecs, ValidChain, Reversible,
      BlacklistedByBlock, Reversed;
    var t := ChainTables(chain, blacklist);
    WithBlacklist(chain, blacklist, AddBlock(t, e).tables.blacklist);
    if Supported(e.block.minerTx.vin) && AllSupported(e.txs) {
      AddBlockCorrect(chain, blacklist, e);
      var blacklist' := blacklist + BlacklistedByBlock(chain, e);
      ListedBlacklist(chain + [e], blacklist');
      if BlockReversible(e) {
        PopBlockCorrect(chain, e, blacklist');
      } else {
        MismatchNotUndone(chain, blacklist', e);
      }
    } else {
      UnsupportedNotUndone(chain, blacklist, e);
      NotReversible(e);
    }
  }

  lemma NotReversible(e: Entry)
    requires !(Supported(e.block.minerTx.vin) && AllSupported(e.txs))
    ensures !BlockReversible(e)
  {
    if !AllSupported(e.txs) {
      var i :| 0 <= i < |e.txs| && !Supported(e.txs[i].vin);
      assert !Reversible(e.txs[i]);
    }
  }

  lemma WithBlacklist(chain: seq<Entry>, blacklist: set<nat>, blacklist': set<nat>)
    ensures ChainTables(chain, blacklist).(blacklist := blacklist') == ChainTables(chain, blacklist')
  {
  }

  lemma ListedBlacklist(chain: seq<Entry>, blacklist: set<nat>)
    ensures ChainTables(chain, blacklist).blacklist == blacklist
  {
  }
}
