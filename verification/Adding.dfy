/**
 Adding, on tables that are those of a chain: with supported inputs `add_transaction` and
 `add_block` succeed exactly on admissible arguments, and then the tables are those of the longer
 chain.
 */
module Adding {
  import opened Ledger
  import opened Backend
  import opened Canonical

  /** The effect of the input loop on a transaction whose inputs are all supported. */
  lemma {:induction false} ScanSupported(
    t: Tables, vin: seq<TxInput>, rest: seq<TxInput>, minerTx: bool)
    requires Supported(rest)
    ensures var s := ScanInputs(t, vin, rest, minerTx);
      && s.supported
      && s.status == (if FreshKeys(t.spentKeys, rest) then Ok else Threw(KeyImageExists))
      && (s.status.Ok? ==>
            && s.tables == t.(spentKeys := t.spentKeys + KeyImages(rest))
            && s.minerTx == (minerTx || HasGen(rest)))
    decreases |rest|
  {
    if rest == [] {
      assert t.spentKeys + KeyImages(rest) == t.spentKeys;
    } else {
      var tail := rest[1..];
      assert forall i :: 0 <= i < |tail| ==> tail[i] == rest[i + 1];
      KeyImagesCons(rest);
      HasGenCons(rest);
      match rest[0]
      case ToKey(k) =>
        var t1 := AddSpentKey(t, k).tables;
        ScanSupported(t1, vin, tail, minerTx);
        if k !in t.spentKeys {
          assert t1.spentKeys + KeyImages(tail) == t.spentKeys + KeyImages(rest);
        }
      case Gen(_) => ScanSupported(t, vin, tail, true);
    }
  }

  lemma KeyImagesCons(vin: seq<TxInput>)
    requires vin != []
    ensures KeyImages(vin) ==
            (if vin[0].ToKey? then {vin[0].keyImage} else {}) + KeyImages(vin[1..])
  {
    var tail := vin[1..];
    assert forall i :: 0 <= i < |tail| ==> tail[i] == vin[i + 1];
    forall k | k in KeyImages(vin)
      ensures k in (if vin[0].ToKey? then {vin[0].keyImage} else {}) + KeyImages(tail)
    {
      var i :| 0 <= i < |vin| && vin[i].ToKey? && vin[i].keyImage == k;
      if i > 0 {
        assert tail[i - 1] == vin[i];
      }
    }
  }

  lemma HasGenCons(vin: seq<TxInput>)
    requires vin != []
    ensures HasGen(vin) <==> vin[0].Gen? || HasGen(vin[1..])
  {
    var tail := vin[1..];
    assert forall i :: 0 <= i < |tail| ==> tail[i] == vin[i + 1];
    if HasGen(vin) && !vin[0].Gen? {
      var i :| 0 <= i < |vin| && vin[i].Gen?;
      assert tail[i - 1] == vin[i];
    }
  }

  /** The tables `t` with the output tables of `outs`. */
  function WithOutputs(t: Tables, outs: seq<OutRec>): Tables {
    t.(outputTxs := Tabulate(OutTxs(outs)), outputAmounts := AmountRows(outs))
  }

  lemma AddTxOutputTo(t: Tables, outs: seq<OutRec>, r: TxRec, i: nat)
    requires i < |r.tx.vout| && |t.blocks| == r.height
    ensures var a := AddTxOutput(WithOutputs(t, outs), r.hash, r.tx, i);
      && a.status == (if OutputStorable(r.tx, i) then Ok else Threw(DbError))
      && (a.status.Ok? ==>
            && a.tables == WithOutputs(t, outs + [OutputOf(r, i)])
            && a.id == Count(outs, StoredAmount(r.tx, i)))
      && (a.status.Threw? ==> a.tables == WithOutputs(t, outs))
  {
    hide AmountRows, OutTxs, Tabulate, Count, NextId, StoredAmount, OutputUnlockTime, AmountIndices;
    var o := OutputOf(r, i);
    OutputsSnoc(outs, o);
    TabulateSnoc(OutTxs(outs), OutTx(o.txHash, o.localIndex));
    AmountIndicesOf(outs, o.amount);
  }

  predicate Storable(tx: Transaction) {
    forall i :: 0 <= i < |tx.vout| ==> OutputStorable(tx, i)
  }

  lemma {:induction false} AddOutputsTo(t: Tables, before: seq<OutRec>, r: TxRec, i: nat)
    requires i <= |r.tx.vout| && |t.blocks| == r.height
    requires forall j :: 0 <= j < i ==> OutputStorable(r.tx, j)
    ensures var mine := OutputsOf(r);
      var a := AddOutputs(WithOutputs(t, before + mine[..i]), r.hash, r.tx, i,
                          IndexList(before, mine)[..i]);
      && a.status == (if Storable(r.tx) then Ok else Threw(DbError))
      && (a.status.Ok? ==>
            && a.tables == WithOutputs(t, before + mine)
            && a.indices == IndexList(before, mine))
    decreases |r.tx.vout| - i
  {
    hide AddTxOutput, OutputStorable, Count, WithOutputs, StoredAmount, OutputUnlockTime,
      OutputCommitment;
    var mine := OutputsOf(r);
    var list := IndexList(before, mine);
    if i == |r.tx.vout| {
      assert mine[..i] == mine && list[..i] == list;
    } else {
      AddTxOutputTo(t, before + mine[..i], r, i);
      if OutputStorable(r.tx, i) {
        assert before + mine[..i] + [OutputOf(r, i)] == before + mine[..i + 1];
        assert list[..i] + [list[i]] == list[..i + 1];
        AddOutputsTo(t, before, r, i + 1);
      }
    }
  }

  /** The amount indices `add_transaction` blacklists. */
  function BlacklistedBy(recs: seq<TxRec>, r: TxRec): set<nat> {
    if HasBlacklistedOutputs(r.tx)
    then IndexSet(IndexList(AllOutputs(recs), OutputsOf(r))) else {}
  }

  /** With supported inputs `add_transaction` on a chain's tables succeeds exactly when the
      transaction is admissible, and then makes the tables those of the longer transaction list. */
  lemma AddTransactionCorrect(chain: seq<Entry>, recs: seq<TxRec>, blacklist: set<nat>, r: TxRec)
    requires Supported(r.tx.vin) && r.height == |chain|
    ensures var a := AddTransaction(TablesOf(chain, recs, blacklist), r.tx, r.hash);
      && (a.status.Ok? <==> TxAdmissible(recs, r))
      && a.status == (if !FreshKeys(SpentBy(recs), r.tx.vin) then Threw(KeyImageExists)
                      else if exists k :: 0 <= k < |recs| && recs[k].hash == r.hash then Threw(TxExists)
                      else if Storable(r.tx) then Ok else Threw(DbError))
      && (a.status.Ok? ==>
            a.tables == TablesOf(chain, recs + [r], blacklist + BlacklistedBy(recs, r)))
  {
    hide ScanInputs, StoreTransaction, FreshKeys, AllOutputs, BlacklistedBy, SpentBy, TxIndexRows,
      Txs, IndexLists, OutTxs, AmountRows, Blocks, Infos, HeightRows, Tabulate, KeyImages, HasGen,
      OutputStorable;
    var t := TablesOf(chain, recs, blacklist);
    ScanSupported(t, r.tx.vin, r.tx.vin, false);
    TxIndexRowsKeys(recs, r.hash);
    if FreshKeys(SpentBy(recs), r.tx.vin) {
      BlockListSizes(chain);
      TabulateSize(Blocks(chain));
      StoreTransactionCorrect(t.(spentKeys := t.spentKeys + KeyImages(r.tx.vin)), recs, r);
      SpentBySnoc(recs, r);
    }
  }

  /** The same for the part after the inputs. */
  lemma StoreTransactionCorrect(t: Tables, recs: seq<TxRec>, r: TxRec)
    requires t == WithTxTables(t, recs) && |t.blocks| == r.height
    ensures var a := StoreTransaction(t, r.tx, r.hash);
      && a.status == (if r.hash in t.txIndices then Threw(TxExists)
                      else if Storable(r.tx) then Ok else Threw(DbError))
      && (a.status.Ok? ==>
            a.tables == WithTxTables(t, recs + [r]).(blacklist := t.blacklist + BlacklistedBy(recs, r)))
  {
    hide AddOutputs, AllOutputs, OutputsOf, IndexList, NextId, OutputStorable, WithTxTables,
      HasBlacklistedOutputs, AddTransactionData, AddOutputBlacklist, AddTxAmountOutputIndices,
      BlacklistedBy;
    if r.hash in t.txIndices {
      KnownHash(t, r.tx, r.hash);
    } else {
      AddUnspentTransaction(t, recs, r);
      KeepsBlacklist(t, recs + [r]);
      var d := AddTransactionData(t, r.tx, r.hash);
      var o := AddOutputs(d.tables, r.hash, r.tx, 0, []);
      if o.status.Ok? {
        FinishTransaction(t, o, d.id, recs, r);
      }
    }
  }

  /** The blacklist and the index list, written last. */
  lemma FinishTransaction(t: Tables, o: OutputsOutcome, id: nat, recs: seq<TxRec>, r: TxRec)
    requires Appendable(o.tables.txOutputs, id) && o.tables.blacklist == t.blacklist
    requires o.indices == IndexList(AllOutputs(recs), OutputsOf(r))
    ensures var listed := if HasBlacklistedOutputs(r.tx) then AddOutputBlacklist(o.tables, o.indices)
                          else o.tables;
      AddTxAmountOutputIndices(listed, id, o.indices)
      == Outcome(o.tables.(txOutputs := o.tables.txOutputs[id := o.indices],
                           blacklist := t.blacklist + BlacklistedBy(recs, r)), Ok)
  {
    hide AllOutputs, OutputsOf, IndexList, NextId, HasBlacklistedOutputs, IndexSet;
    assert t.blacklist + {} == t.blacklist;
  }

  lemma KeepsBlacklist(t: Tables, recs: seq<TxRec>)
    ensures WithTxTables(t, recs).blacklist == t.blacklist
  {
  }

  lemma KnownHash(t: Tables, tx: Transaction, hash: Hash)
    requires hash in t.txIndices
    ensures AddTransactionData(t, tx, hash).status == Threw(TxExists)
  {
  }

  lemma AddDataTo(t: Tables, recs: seq<TxRec>, r: TxRec)
    requires t == WithTxTables(t, recs) && |t.blocks| == r.height
    requires r.hash !in t.txIndices
    ensures AddTransactionData(t, r.tx, r.hash) ==
            IdOutcome(t.(txIndices := TxIndexRows(recs + [r]), txs := Tabulate(Txs(recs + [r]))),
                      |recs|, Ok)
  {
    hide AllOutputs, TxIndexRows, Txs, IndexLists, OutTxs, AmountRows, Tabulate, NextId;
    RecsSnoc(recs, r);
    TabulateSnoc(Txs(recs), r.tx);
  }

  /** The rest of `add_transaction`, once the key images are recorded. */
  lemma AddUnspentTransaction(t: Tables, recs: seq<TxRec>, r: TxRec)
    requires t == WithTxTables(t, recs) && |t.blocks| == r.height
    requires r.hash !in t.txIndices
    ensures var d := AddTransactionData(t, r.tx, r.hash);
      var o := AddOutputs(d.tables, r.hash, r.tx, 0, []);
      && d.status.Ok? && d.id == |recs|
      && o.status == (if Storable(r.tx) then Ok else Threw(DbError))
      && (o.status.Ok? ==>
            && o.indices == IndexList(AllOutputs(recs), OutputsOf(r))
            && Appendable(o.tables.txOutputs, d.id)
            && o.tables.(txOutputs := o.tables.txOutputs[d.id := o.indices])
               == WithTxTables(t, recs + [r]))
  {
    hide AddTransactionData, AddOutputs, AllOutputs, OutputsOf, IndexList, TxIndexRows, Txs,
      IndexLists, OutTxs, AmountRows, Tabulate, NextId, OutputStorable;
    AddDataTo(t, recs, r);
    AddAllOutputs(AddTransactionData(t, r.tx, r.hash).tables, recs, r);
    RecsSnoc(recs, r);
    TabulateSnoc(IndexLists(recs), IndexList(AllOutputs(recs), OutputsOf(r)));
  }

  /** The whole output loop. */
  lemma AddAllOutputs(t: Tables, recs: seq<TxRec>, r: TxRec)
    requires t == WithOutputs(t, AllOutputs(recs)) && |t.blocks| == r.height
    ensures var o := AddOutputs(t, r.hash, r.tx, 0, []);
      && o.status == (if Storable(r.tx) then Ok else Threw(DbError))
      && (o.status.Ok? ==>
            && o.tables == WithOutputs(t, AllOutputs(recs + [r]))
            && o.indices == IndexList(AllOutputs(recs), OutputsOf(r)))
  {
    hide AddOutputs, AllOutputs, OutputsOf, IndexList, WithOutputs, OutputStorable;
    var before := AllOutputs(recs);
    assert before + OutputsOf(r)[..0] == before;
    assert IndexList(before, OutputsOf(r))[..0] == [];
    AddOutputsTo(t, before, r, 0);
    AllOutputsSnoc(recs, r);
  }

  /** The tables `t` with the transaction and output tables of `recs`. */
  function WithTxTables(t: Tables, recs: seq<TxRec>): Tables {
    WithOutputs(t.(txIndices := TxIndexRows(recs),
                   txs := Tabulate(Txs(recs)),
                   txOutputs := Tabulate(IndexLists(recs))), AllOutputs(recs))
  }

  /** The blacklist entries of transactions `more` added after `recs`. */
  function BlacklistedByAll(recs: seq<TxRec>, more: seq<TxRec>): set<nat>
    decreases |more|
  {
    if more == [] then {}
    else BlacklistedBy(recs, more[0]) + BlacklistedByAll(recs + [more[0]], more[1..])
  }

  lemma {:induction false} AddTransactionsCorrect(
    chain: seq<Entry>, recs: seq<TxRec>, blacklist: set<nat>,
    txs: seq<Transaction>, hashes: seq<Hash>)
    requires |txs| == |hashes|
    requires forall i :: 0 <= i < |txs| ==> Supported(txs[i].vin)
    ensures var more := TxRecsOf(txs, hashes, |chain|);
      var a := AddTransactions(TablesOf(chain, recs, blacklist), txs, hashes);
      && (a.status.Ok? <==> TxsAdmissible(recs, more))
      && (a.status.Ok? ==>
            a.tables == TablesOf(chain, recs + more, blacklist + BlacklistedByAll(recs, more)))
    decreases |txs|
  {
    hide TablesOf, AddTransaction, TxAdmissible, BlacklistedBy, Supported;
    var more := TxRecsOf(txs, hashes, |chain|);
    if txs == [] {
      assert recs + more == recs;
      assert blacklist + {} == blacklist;
    } else {
      var r := more[0];
      AddTransactionCorrect(chain, recs, blacklist, r);
      assert TxRecsOf(txs[1..], hashes[1..], |chain|) == more[1..];
      if TxAdmissible(recs, r) {
        var listed := blacklist + BlacklistedBy(recs, r);
        AddTransactionsCorrect(chain, recs + [r], listed, txs[1..], hashes[1..]);
        assert recs + [r] + more[1..] == recs + more;
        assert listed + BlacklistedByAll(recs + [r], more[1..])
            == blacklist + BlacklistedByAll(recs, more);
      }
    }
  }

  /** Heights of distinct block hashes. */
  lemma {:induction false} HeightRowsAt(chain: seq<Entry>, h: Hash)
    requires chain != [] && h in HeightRows(chain)
    requires DistinctHashes(chain)
    ensures HeightRows(chain)[h] < |chain| && chain[HeightRows(chain)[h]].block.hash == h
  {
    if Last(chain).block.hash != h {
      assert Init(chain) != [];
      HeightRowsAt(Init(chain), h);
    }
  }

  predicate DistinctHashes(chain: seq<Entry>) {
    forall i, j :: 0 <= i < j < |chain| ==> chain[i].block.hash != chain[j].block.hash
  }

  lemma {:induction false} ValidChainDistinct(chain: seq<Entry>)
    requires ValidChain(chain)
    ensures DistinctHashes(chain)
  {
    hide BlockAdmissible, DistinctHashes;
    if chain == [] {
      NoHashes();
    } else {
      ValidChainDistinct(Init(chain));
      NewHash(Init(chain), Last(chain));
      assert Init(chain) + [Last(chain)] == chain;
    }
  }

  lemma NoHashes()
    ensures DistinctHashes([])
  {
  }

  lemma NewHash(chain: seq<Entry>, e: Entry)
    requires DistinctHashes(chain) && BlockAdmissible(chain, e)
    ensures DistinctHashes(chain + [e])
  {
    hide TxsAdmissible, ChainRecs, BlockRecs;
  }

  lemma ParentIsTop(chain: seq<Entry>, parent: Hash)
    requires ValidChain(chain)
    ensures chain != [] ==>
              ((parent in HeightRows(chain) && HeightRows(chain)[parent] == |chain| - 1) <==>
               parent == Last(chain).block.hash)
  {
    ValidChainDistinct(chain);
    if chain != [] && parent in HeightRows(chain) {
      HeightRowsAt(chain, parent);
    }
  }

  /** The block record is accepted exactly when its hash is new and it extends the top block; otherwise
      the error tells a known hash, a parent below the top and an unknown parent apart. */
  lemma AddBlockRecordCorrect(chain: seq<Entry>, recs: seq<TxRec>, blacklist: set<nat>, e: Entry)
    requires ValidChain(chain)
    ensures var a := AddBlockRecord(TablesOf(chain, recs, blacklist), e.block, e.meta, NumRctOutputs(e));
      && (a.status.Ok? <==>
            && (forall k :: 0 <= k < |chain| ==> chain[k].block.hash != e.block.hash)
            && (chain != [] ==> Last(chain).block.hash == e.block.prevId))
      && (a.status.Threw? ==>
            a.status.error == if exists k :: 0 <= k < |chain| && chain[k].block.hash == e.block.hash
                              then BlockExists
                              else if exists k :: 0 <= k < |chain| && chain[k].block.hash == e.block.prevId
                              then BlockParentDne
                              else DbError)
      && (a.status.Ok? ==> a.tables == TablesOf(chain + [e], recs, blacklist))
  {
    hide TxIndexRows, Txs, IndexLists, OutTxs, AmountRows, AllOutputs, SpentBy,
      Blocks, Infos, HeightRows, Tabulate, NextId, NumRctOutputs, CumulativeRct, ValidChain;
    HeightRowsKeys(chain, e.block.hash);
    HeightRowsKeys(chain, e.block.prevId);
    ParentIsTop(chain, e.block.prevId);
    BlockListSizes(chain);
    TabulateSize(Blocks(chain));
    if && e.block.hash !in HeightRows(chain)
       && (chain != [] ==> Last(chain).block.hash == e.block.prevId) {
      AddNextRecord(chain, recs, blacklist, e);
    }
  }

  /** The count to carry over from the record below. */
  function CarriedRct(t: Tables, block: Block): nat {
    var h := |t.blocks|;
    if block.majorVersion >= 4 && h > 0 && h - 1 in t.blockInfo then t.blockInfo[h - 1].cumRct else 0
  }

  lemma RecordAccepted(t: Tables, block: Block, meta: BlockMeta, numRct: nat)
    requires block.hash !in t.blockHeights
    requires var h := |t.blocks|;
      && (h > 0 ==> block.prevId in t.blockHeights && t.blockHeights[block.prevId] == h - 1)
      && Appendable(t.blocks, h) && Appendable(t.blockInfo, h)
      && (h > 0 ==> h - 1 in t.blockInfo)
    ensures var h := |t.blocks|;
      var info := BlockInfo(block.hash, meta, numRct + CarriedRct(t, block));
      AddBlockRecord(t, block, meta, numRct)
      == Outcome(t.(blocks := t.blocks[h := block], blockInfo := t.blockInfo[h := info],
                    blockHeights := t.blockHeights[block.hash := h]), Ok)
  {
    hide NextId;
  }

  /** The tables of one more recorded block. */
  lemma TablesSnoc(chain: seq<Entry>, recs: seq<TxRec>, blacklist: set<nat>, e: Entry)
    ensures var t := TablesOf(chain, recs, blacklist);
      var info := BlockInfo(e.block.hash, e.meta, CumulativeRct(chain + [e]));
      && |t.blocks| == |chain| && Appendable(t.blocks, |chain|) && Appendable(t.blockInfo, |chain|)
      && TablesOf(chain + [e], recs, blacklist)
         == t.(blocks := t.blocks[|chain| := e.block], blockInfo := t.blockInfo[|chain| := info],
               blockHeights := t.blockHeights[e.block.hash := |chain|])
  {
    hide TxIndexRows, Txs, IndexLists, OutTxs, AmountRows, AllOutputs, SpentBy, Blocks, Infos,
      HeightRows, Tabulate, NextId, CumulativeRct;
    ChainSnoc(chain, e);
    TabulateSnoc(Blocks(chain), e.block);
    TabulateSnoc(Infos(chain), BlockInfo(e.block.hash, e.meta, CumulativeRct(chain + [e])));
  }

  lemma AddNextRecord(chain: seq<Entry>, recs: seq<TxRec>, blacklist: set<nat>, e: Entry)
    requires e.block.hash !in HeightRows(chain)
    requires chain != [] ==>
               e.block.prevId in HeightRows(chain) && HeightRows(chain)[e.block.prevId] == |chain| - 1
    ensures AddBlockRecord(TablesOf(chain, recs, blacklist), e.block, e.meta, NumRctOutputs(e))
         == Outcome(TablesOf(chain + [e], recs, blacklist), Ok)
  {
    hide TablesOf, AddBlockRecord, HeightRows, Infos, Tabulate, NextId, NumRctOutputs, CumulativeRct;
    var t := TablesOf(chain, recs, blacklist);
    TablesSnoc(chain, recs, blacklist, e);
    BlockTables(chain, recs, blacklist);
    CumulativeRctSnoc(chain, e);
    RecordAccepted(t, e.block, e.meta, NumRctOutputs(e));
  }

  lemma BlockTables(chain: seq<Entry>, recs: seq<TxRec>, blacklist: set<nat>)
    ensures var t := TablesOf(chain, recs, blacklist);
      t.blockHeights == HeightRows(chain) && t.blockInfo == Tabulate(Infos(chain))
  {
  }

  /** The running count, from the previous block's record. */
  lemma CumulativeRctSnoc(chain: seq<Entry>, e: Entry)
    ensures CumulativeRct(chain + [e]) ==
            NumRctOutputs(e) +
            (if e.block.majorVersion >= 4 && chain != [] then CumulativeRct(chain) else 0)
    ensures chain != [] ==>
              |chain| - 1 in Tabulate(Infos(chain)) &&
              Tabulate(Infos(chain))[|chain| - 1].cumRct == CumulativeRct(chain)
  {
    hide NumRctOutputs;
    SnocParts(chain, e);
    BlockListSizes(chain);
    if chain != [] {
      BlockListSizes(Init(chain));
    }
  }

  function BlacklistedByBlock(chain: seq<Entry>, e: Entry): set<nat> {
    BlacklistedByAll(ChainRecs(chain), BlockRecs(e, |chain|))
  }

  /** With supported inputs `add_block` on the tables of a valid chain succeeds exactly when the
      block is admissible, and then the tables are those of the chain with the block on top. */
  lemma AddBlockCorrect(chain: seq<Entry>, blacklist: set<nat>, e: Entry)
    requires ValidChain(chain)
    requires Supported(e.block.minerTx.vin)
    requires forall i :: 0 <= i < |e.txs| ==> Supported(e.txs[i].vin)
    ensures var a := AddBlock(ChainTables(chain, blacklist), e);
      && (a.status.Ok? <==> BlockAdmissible(chain, e))
      && (a.status.Ok? ==>
            a.tables == ChainTables(chain + [e], blacklist + BlacklistedByBlock(chain, e)))
  {
    hide TablesOf, AddTransaction, AddTransactions, AddBlockRecord, TxAdmissible, BlacklistedBy,
      Supported, ValidChain, TxRecsOf, NumRctOutputs;
    if |e.block.txHashes| == |e.txs| {
      var recs := ChainRecs(chain);
      var mine := BlockRecs(e, |chain|);
      var miner := mine[0];
      AddTransactionCorrect(chain, recs, blacklist, miner);
      assert mine[1..] == TxRecsOf(e.txs, e.block.txHashes, |chain|);
      if TxAdmissible(recs, miner) {
        var listed := blacklist + BlacklistedBy(recs, miner);
        AddTransactionsCorrect(chain, recs + [miner], listed, e.txs, e.block.txHashes);
        var listed' := listed + BlacklistedByAll(recs + [miner], mine[1..]);
        AddBlockRecordCorrect(chain, recs + [miner] + mine[1..], listed', e);
        assert recs + [miner] + mine[1..] == recs + mine;
        assert listed' == blacklist + BlacklistedByBlock(chain, e);
        SnocParts(chain, e);
      }
    }
  }
}
