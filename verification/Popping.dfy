/**
 Removing, on tables that are those of a chain: for reversible transactions and blocks,
 `remove_transaction` and `pop_block` take the tables back to those of the shorter chain.
 */
module Popping {
  import opened Wrappers
  import opened Ledger
  import opened Backend
  import opened Canonical
  import opened Adding

  lemma {:induction false} RemoveSpentKeysEffect(t: Tables, vin: seq<TxInput>)
    ensures RemoveSpentKeys(t, vin) == t.(spentKeys := t.spentKeys - KeyImages(vin))
    decreases |vin|
  {
    if vin == [] {
      assert t.spentKeys - KeyImages(vin) == t.spentKeys;
    } else {
      KeyImagesCons(vin);
      var t1 := if vin[0].ToKey? then RemoveSpentKey(t, vin[0].keyImage) else t;
      RemoveSpentKeysEffect(t1, vin[1..]);
      assert t1.spentKeys - KeyImages(vin[1..]) == t.spentKeys - KeyImages(vin);
    }
  }

  lemma {:induction false} FreshKeysDisjoint(spent: set<KeyImage>, vin: seq<TxInput>)
    requires FreshKeys(spent, vin)
    ensures spent !! KeyImages(vin)
    decreases |vin|
  {
    if vin == [] {
    } else {
      KeyImagesCons(vin);
      FreshKeysDisjoint(if vin[0].ToKey? then spent + {vin[0].keyImage} else spent, vin[1..]);
    }
  }

  lemma RemoveOutputFrom(t: Tables, outs: seq<OutRec>, o: OutRec)
    ensures RemoveOutput(WithOutputs(t, outs + [o]), o.amount, Count(outs, o.amount))
         == Outcome(WithOutputs(t, outs), Ok)
  {
    OutputsSnoc(outs, o);
    TabulateSnoc(OutTxs(outs), OutTx(o.txHash, o.localIndex));
    hide AmountRows, OutTxs, Count;
    AmountRowsDense(outs, o.amount, Count(outs, o.amount));
    var key := (o.amount, Count(outs, o.amount));
    assert AmountRows(outs)[key := AmountRow(o, |outs|)] - {key} == AmountRows(outs);
  }

  lemma {:induction false} RemoveOutputsFrom(t: Tables, before: seq<OutRec>, r: TxRec, i: nat)
    requires i <= |r.tx.vout|
    requires forall j :: 0 <= j < |r.tx.vout| ==> StoredAmount(r.tx, j) == RemovedAmount(r.tx, j)
    ensures RemoveOutputs(WithOutputs(t, before + OutputsOf(r)[..i]), r.tx,
                          IndexList(before, OutputsOf(r)), i)
         == Outcome(WithOutputs(t, before), Ok)
  {
    hide RemoveOutput, Count, WithOutputs, StoredAmount, RemovedAmount, OutputUnlockTime,
      OutputCommitment;
    var mine := OutputsOf(r);
    if i == 0 {
      assert before + mine[..0] == before;
    } else {
      assert before + mine[..i] == before + mine[..i - 1] + [OutputOf(r, i - 1)];
      RemoveOutputFrom(t, before + mine[..i - 1], OutputOf(r, i - 1));
      RemoveOutputsFrom(t, before, r, i - 1);
    }
  }

  lemma RemoveTxOutputsFrom(t: Tables, id: nat, before: seq<OutRec>, r: TxRec)
    requires t == WithOutputs(t, before + OutputsOf(r))
    requires id in t.txOutputs && t.txOutputs[id] == IndexList(before, OutputsOf(r))
    requires forall j :: 0 <= j < |r.tx.vout| ==> StoredAmount(r.tx, j) == RemovedAmount(r.tx, j)
    ensures RemoveTxOutputs(t, id, r.tx) == Outcome(WithOutputs(t, before), Ok)
  {
    hide RemoveOutputs, StoredAmount, RemovedAmount, WithOutputs, Count, OutputOf;
    assert OutputsOf(r)[..|r.tx.vout|] == OutputsOf(r);
    RemoveOutputsFrom(t, before, r, |r.tx.vout|);
  }

  /** The rows of the newest transaction, and the tables without them. */
  lemma NewestRows(recs: seq<TxRec>, r: TxRec)
    requires r.hash !in TxIndexRows(recs)
    ensures r.hash in TxIndexRows(recs + [r]) && TxIndexRows(recs + [r])[r.hash].txId == |recs|
    ensures TxIndexRows(recs + [r]) - {r.hash} == TxIndexRows(recs)
    ensures |recs| in Tabulate(Txs(recs + [r])) && Tabulate(Txs(recs + [r]))[|recs|] == r.tx
    ensures Tabulate(Txs(recs + [r])) - {|recs|} == Tabulate(Txs(recs))
    ensures |recs| in Tabulate(IndexLists(recs + [r]))
    ensures Tabulate(IndexLists(recs + [r]))[|recs|] == IndexList(AllOutputs(recs), OutputsOf(r))
    ensures Tabulate(IndexLists(recs + [r])) - {|recs|} == Tabulate(IndexLists(recs))
  {
    hide AllOutputs, OutputsOf, IndexList, TxIndexRows, Txs, IndexLists, Tabulate;
    RecsSnoc(recs, r);
    TabulateSnoc(Txs(recs), r.tx);
    TabulateSnoc(IndexLists(recs), IndexList(AllOutputs(recs), OutputsOf(r)));
    var index := TxIndex(|recs|, r.tx.unlockTime, r.height);
    assert TxIndexRows(recs)[r.hash := index] - {r.hash} == TxIndexRows(recs);
  }

  /** If both sides use the same amounts, `remove_transaction_data` undoes the table part of
      `add_transaction`. */
  lemma RemoveDataFrom(t: Tables, recs: seq<TxRec>, r: TxRec)
    requires t == WithTxTables(t, recs + [r])
    requires r.hash !in TxIndexRows(recs)
    requires forall j :: 0 <= j < |r.tx.vout| ==> StoredAmount(r.tx, j) == RemovedAmount(r.tx, j)
    ensures FindTx(t, r.hash) == Some(r.tx)
    ensures RemoveTransactionData(t, r.hash, r.tx) == Outcome(WithTxTables(t, recs), Ok)
  {
    hide RemoveTxOutputs, AllOutputs, OutputsOf, IndexList, TxIndexRows, Txs, IndexLists, OutTxs,
      AmountRows, Tabulate, StoredAmount, RemovedAmount;
    NewestRows(recs, r);
    AllOutputsSnoc(recs, r);
    RemoveTxOutputsFrom(t.(txs := Tabulate(Txs(recs))), |recs|, AllOutputs(recs), r);
  }

  /** Removing the newest transaction, if it is reversible, gives the tables without it. */
  lemma RemoveTransactionCorrect(
    chain: seq<Entry>, recs: seq<TxRec>, blacklist: set<nat>, r: TxRec)
    requires TxAdmissible(recs, r) && Reversible(r.tx)
    ensures FindTx(TablesOf(chain, recs + [r], blacklist), r.hash) == Some(r.tx)
    ensures RemoveTransaction(TablesOf(chain, recs + [r], blacklist), r.hash)
         == Outcome(TablesOf(chain, recs, blacklist), Ok)
  {
    hide AllOutputs, TxIndexRows, Txs, IndexLists, OutTxs, AmountRows, Blocks, Infos, HeightRows,
      Tabulate, SpentBy, FreshKeys, OutputStorable, RemoveTransactionData, KeyImages,
      RemoveSpentKeys, StoredAmount, RemovedAmount;
    var t := TablesOf(chain, recs + [r], blacklist);
    TxIndexRowsKeys(recs, r.hash);
    SpentBySnoc(recs, r);
    RemoveSpentKeysEffect(t, r.tx.vin);
    FreshKeysDisjoint(SpentBy(recs), r.tx.vin);
    assert SpentBy(recs) + KeyImages(r.tx.vin) - KeyImages(r.tx.vin) == SpentBy(recs);
    RemoveDataFrom(t, recs, r);
    RemoveDataFrom(t.(spentKeys := SpentBy(recs)), recs, r);
  }

  function Reversed<T>(s: seq<T>): seq<T> {
    if s == [] then [] else [Last(s)] + Reversed(Init(s))
  }

  lemma {:induction false} ReversedAt<T>(s: seq<T>, i: nat)
    requires i < |s|
    ensures |Reversed(s)| == |s| && Reversed(s)[i] == s[|s| - 1 - i]
  {
    if |s| == 1 {
    } else {
      ReversedAt(Init(s), if i == 0 then 0 else i - 1);
    }
  }

  lemma {:induction false} TxsAdmissibleSnoc(recs: seq<TxRec>, more: seq<TxRec>, r: TxRec)
    requires TxsAdmissible(recs, more + [r])
    ensures TxsAdmissible(recs, more) && TxAdmissible(recs + more, r)
    decreases |more|
  {
    hide TxAdmissible;
    if more == [] {
      assert recs + more == recs;
      assert (more + [r])[0] == r;
    } else {
      assert (more + [r])[0] == more[0];
      assert (more + [r])[1..] == more[1..] + [r];
      TxsAdmissibleSnoc(recs + [more[0]], more[1..], r);
      assert recs + [more[0]] + more[1..] == recs + more;
    }
  }

  lemma {:induction false} PopTransactionsCorrect(
    chain: seq<Entry>, recs: seq<TxRec>, blacklist: set<nat>,
    txs: seq<Transaction>, hashes: seq<Hash>, height: nat, popped: seq<Transaction>)
    requires |txs| == |hashes|
    requires TxsAdmissible(recs, TxRecsOf(txs, hashes, height))
    requires forall i :: 0 <= i < |txs| ==> Reversible(txs[i])
    ensures PopTransactions(TablesOf(chain, recs + TxRecsOf(txs, hashes, height), blacklist),
                            hashes, popped)
         == TxsOutcome(TablesOf(chain, recs, blacklist), popped + Reversed(txs), Ok)
    decreases |txs|
  {
    hide TablesOf, TxAdmissible, TxsAdmissible, Reversible, FindTx, RemoveTransaction;
    var more := TxRecsOf(txs, hashes, height);
    if txs == [] {
      assert recs + more == recs;
    } else {
      var front := TxRecsOf(Init(txs), Init(hashes), height);
      var r := Last(more);
      assert more == front + [r];
      TxsAdmissibleSnoc(recs, front, r);
      RemoveTransactionCorrect(chain, recs + front, blacklist, r);
      assert recs + more == recs + front + [r];
      PopTransactionsCorrect(chain, recs, blacklist, Init(txs), Init(hashes), height,
                             popped + [Last(txs)]);
      assert popped + [Last(txs)] + Reversed(Init(txs)) == popped + Reversed(txs);
    }
  }

  lemma RemoveBlockFrom(chain: seq<Entry>, recs: seq<TxRec>, blacklist: set<nat>, e: Entry)
    requires forall k :: 0 <= k < |chain| ==> chain[k].block.hash != e.block.hash
    ensures var t := TablesOf(chain + [e], recs, blacklist);
      && TopBlock(t) == Some(e.block)
      && RemoveBlock(t) == Outcome(TablesOf(chain, recs, blacklist), Ok)
  {
    hide AllOutputs, TxIndexRows, Txs, IndexLists, OutTxs, AmountRows, Blocks, Infos, HeightRows,
      SpentBy, CumulativeRct;
    ChainSnoc(chain, e);
    HeightRowsKeys(chain, e.block.hash);
    var info := BlockInfo(e.block.hash, e.meta, CumulativeRct(chain + [e]));
    TabulateSnoc(Blocks(chain), e.block);
    TabulateSnoc(Infos(chain), info);
    TabulateSize(Blocks(chain + [e]));
    assert HeightRows(chain + [e]) - {e.block.hash} == HeightRows(chain);
  }

  /** `pop_block` on the tables of a chain with a reversible top block succeeds, returns the top
      block and its transactions in reverse order, and leaves the tables of the chain below,
      whatever the blacklist. */
  lemma PopBlockCorrect(chain: seq<Entry>, e: Entry, blacklist: set<nat>)
    requires BlockAdmissible(chain, e) && BlockReversible(e)
    ensures PopBlock(ChainTables(chain + [e], blacklist))
         == PopOutcome(ChainTables(chain, blacklist), Some(e.block), Reversed(e.txs), Ok)
  {
    hide TablesOf, TxAdmissible, Reversible, FindTx, RemoveTransaction, RemoveBlock, TopBlock,
      PopTransactions, TxRecsOf;
    var recs := ChainRecs(chain);
    var mine := BlockRecs(e, |chain|);
    var listed := TxRecsOf(e.txs, e.block.txHashes, |chain|);
    assert mine[1..] == listed;
    ChainSnoc(chain, e);
    RemoveBlockFrom(chain, recs + mine, blacklist, e);
    assert recs + mine == recs + [mine[0]] + listed;
    PopTransactionsCorrect(chain, recs + [mine[0]], blacklist, e.txs, e.block.txHashes, |chain|, []);
    assert [] + Reversed(e.txs) == Reversed(e.txs);
    RemoveTransactionCorrect(chain, recs, blacklist, mine[0]);
  }

  /** Popping hands the listed transactions back last first. */
  lemma PoppedOrder(chain: seq<Entry>, e: Entry, blacklist: set<nat>, i: nat)
    requires BlockAdmissible(chain, e) && BlockReversible(e) && i < |e.txs|
    ensures var popped := PopBlock(ChainTables(chain + [e], blacklist)).txs;
      |popped| == |e.txs| && popped[i] == e.txs[|e.txs| - 1 - i]
  {
    hide PopBlock, ChainTables, BlockAdmissible, BlockReversible, Reversed;
    PopBlockCorrect(chain, e, blacklist);
    ReversedAt(e.txs, i);
  }
}
