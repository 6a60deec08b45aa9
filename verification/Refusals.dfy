/**
 How operations on the tables of a chain fail: which error a refused block gives, and what a pop
 that fails has found and removed by then.
 */
module Refusals {
  import opened Wrappers
  import opened Ledger
  import opened Backend
  import opened Canonical
  import opened Adding
  import opened Popping
  import Failing

  // Adding

  predicate KnownTx(recs: seq<TxRec>, hash: Hash) {
    exists j :: 0 <= j < |recs| && recs[j].hash == hash
  }

  /** Output `j` is the first that cannot be stored. */
  predicate FirstUnstorable(tx: Transaction, j: nat) {
    j < |tx.vout| && !OutputStorable(tx, j) && forall i :: 0 <= i < j ==> OutputStorable(tx, i)
  }

  /** What a transaction whose output `j` is the first that cannot be stored leaves: its key images,
      its hash, its data and the outputs before, but no index list. */
  function PartlyStored(t: Tables, recs: seq<TxRec>, r: TxRec, j: nat): Tables
    requires j < |r.tx.vout|
  {
    WithOutputs(t.(spentKeys := t.spentKeys + KeyImages(r.tx.vin),
                   txIndices := TxIndexRows(recs + [r]),
                   txs := Tabulate(Txs(recs + [r]))),
                AllOutputs(recs) + OutputsOf(r)[..j])
  }

  /** The transaction is refused by the tables `t` of `recs`, and `a` is the outcome. A spent key image,
      also if by an input before, stops the input loop there; otherwise a known hash is refused with
      the key images recorded; otherwise an output cannot be stored. */
  ghost predicate Refuses(t: Tables, recs: seq<TxRec>, r: TxRec, a: Outcome) {
    var vin := r.tx.vin;
    if !FreshKeys(t.spentKeys, vin) then
      a == Outcome(t.(spentKeys := Failing.UpToRepeat(t.spentKeys, vin)), Threw(KeyImageExists))
    else if KnownTx(recs, r.hash) then
      a == Outcome(t.(spentKeys := t.spentKeys + KeyImages(vin)), Threw(TxExists))
    else
      exists j: nat :: FirstUnstorable(r.tx, j) &&
        a == Outcome(PartlyStored(t, recs, r, j), Threw(DbError))
  }

  lemma {:induction false} AddOutputsStop(t: Tables, before: seq<OutRec>, r: TxRec, i: nat, j: nat)
    requires |t.blocks| == r.height && i <= j && FirstUnstorable(r.tx, j)
    ensures var mine := OutputsOf(r);
      var a := AddOutputs(WithOutputs(t, before + mine[..i]), r.hash, r.tx, i,
                          IndexList(before, mine)[..i]);
      a.tables == WithOutputs(t, before + mine[..j]) && a.status == Threw(DbError)
    decreases j - i
  {
    hide AddTxOutput, OutputStorable, Count, WithOutputs, StoredAmount, OutputUnlockTime,
      OutputCommitment;
    var mine := OutputsOf(r);
    var list := IndexList(before, mine);
    AddTxOutputTo(t, before + mine[..i], r, i);
    if i < j {
      assert before + mine[..i] + [OutputOf(r, i)] == before + mine[..i + 1];
      assert list[..i] + [list[i]] == list[..i + 1];
      AddOutputsStop(t, before, r, i + 1, j);
    }
  }

  lemma {:induction false} UnstorableHasFirst(tx: Transaction, i: nat) returns (j: nat)
    requires i <= |tx.vout| && !Storable(tx) && forall k :: 0 <= k < i ==> OutputStorable(tx, k)
    ensures FirstUnstorable(tx, j)
    decreases |tx.vout| - i
  {
    hide OutputStorable;
    if OutputStorable(tx, i) {
      j := UnstorableHasFirst(tx, i + 1);
    } else {
      j := i;
    }
  }

  lemma StoreStops(t: Tables, recs: seq<TxRec>, r: TxRec, j: nat)
    requires t == WithTxTables(t, recs) && |t.blocks| == r.height
    requires r.hash !in t.txIndices && FirstUnstorable(r.tx, j)
    ensures StoreTransaction(t, r.tx, r.hash) ==
            Outcome(WithOutputs(t.(txIndices := TxIndexRows(recs + [r]), txs := Tabulate(Txs(recs + [r]))),
                                AllOutputs(recs) + OutputsOf(r)[..j]), Threw(DbError))
  {
    hide AddTransactionData, AddOutputs, AllOutputs, OutputsOf, IndexList, TxIndexRows, Txs,
      IndexLists, OutTxs, AmountRows, Tabulate, NextId, OutputStorable, HasBlacklistedOutputs;
    AddDataTo(t, recs, r);
    var t1 := AddTransactionData(t, r.tx, r.hash).tables;
    var before := AllOutputs(recs);
    NoneYet(before, r);
    AddOutputsStop(t1, before, r, 0, j);
  }

  lemma NoneYet(before: seq<OutRec>, r: TxRec)
    ensures before + OutputsOf(r)[..0] == before && IndexList(before, OutputsOf(r))[..0] == []
  {
  }

  lemma AddTransactionRefused(chain: seq<Entry>, recs: seq<TxRec>, blacklist: set<nat>, r: TxRec)
    requires Supported(r.tx.vin) && r.height == |chain| && !TxAdmissible(recs, r)
    ensures var t := TablesOf(chain, recs, blacklist);
      Refuses(t, recs, r, AddTransaction(t, r.tx, r.hash))
  {
    hide AddTransaction, StoreTransaction, FreshKeys, AllOutputs, SpentBy, TxIndexRows, Txs,
      IndexLists, OutTxs, AmountRows, Blocks, Infos, HeightRows, Tabulate, KeyImages, HasGen,
      OutputStorable, PartlyStored, Failing.Repeats, Failing.UpToRepeat, Supported;
    var t := TablesOf(chain, recs, blacklist);
    Failing.RepeatsIff(t.spentKeys, r.tx.vin);
    TxIndexRowsKeys(recs, r.hash);
    if !FreshKeys(t.spentKeys, r.tx.vin) {
      Failing.RepeatStops(t, r.tx, r.hash);
    } else if r.hash in t.txIndices {
      Failing.SupportedStores(t, r.tx, r.hash);
    } else {
      var j := UnstorableHasFirst(r.tx, 0);
      BlockListSizes(chain);
      TabulateSize(Blocks(chain));
      StopsAt(t, recs, r, j);
    }
  }

  lemma StopsAt(t: Tables, recs: seq<TxRec>, r: TxRec, j: nat)
    requires t == WithTxTables(t, recs) && |t.blocks| == r.height
    requires Supported(r.tx.vin) && FreshKeys(t.spentKeys, r.tx.vin) && r.hash !in t.txIndices
    requires FirstUnstorable(r.tx, j)
    ensures AddTransaction(t, r.tx, r.hash) == Outcome(PartlyStored(t, recs, r, j), Threw(DbError))
  {
    hide ScanInputs, StoreTransaction, FreshKeys, AllOutputs, TxIndexRows, Txs, IndexLists, OutTxs,
      AmountRows, Tabulate, KeyImages, HasGen, OutputStorable;
    ScanSupported(t, r.tx.vin, r.tx.vin, false);
    StoreStops(t.(spentKeys := t.spentKeys + KeyImages(r.tx.vin)), recs, r, j);
  }

  /** The first `k` of the transactions `more` can be added after `recs`, the next one is refused, and
      `a` is the outcome. */
  ghost predicate RefusedAt(
    chain: seq<Entry>, recs: seq<TxRec>, blacklist: set<nat>, more: seq<TxRec>, k: nat, a: Outcome)
  {
    && k < |more| && TxsAdmissible(recs, more[..k]) && !TxAdmissible(recs + more[..k], more[k])
    && Refuses(TablesOf(chain, recs + more[..k], blacklist + BlacklistedByAll(recs, more[..k])),
               recs + more[..k], more[k], a)
  }

  lemma RefusedFirst(
    chain: seq<Entry>, recs: seq<TxRec>, blacklist: set<nat>, more: seq<TxRec>, a: Outcome)
    requires more != [] && !TxAdmissible(recs, more[0])
    requires Refuses(TablesOf(chain, recs, blacklist), recs, more[0], a)
    ensures RefusedAt(chain, recs, blacklist, more, 0, a)
  {
    hide TxAdmissible, Refuses, TablesOf;
    assert recs + more[..0] == recs && blacklist + {} == blacklist;
  }

  lemma RefusedLater(
    chain: seq<Entry>, recs: seq<TxRec>, blacklist: set<nat>, more: seq<TxRec>, k: nat, a: Outcome)
    requires more != [] && TxAdmissible(recs, more[0])
    requires RefusedAt(chain, recs + [more[0]], blacklist + BlacklistedBy(recs, more[0]), more[1..], k, a)
    ensures RefusedAt(chain, recs, blacklist, more, k + 1, a)
  {
    hide TxAdmissible, Refuses, TablesOf, BlacklistedBy;
    assert recs + [more[0]] + more[1..][..k] == recs + more[..k + 1];
    assert more[..k + 1][1..] == more[1..][..k];
    assert blacklist + BlacklistedBy(recs, more[0]) + BlacklistedByAll(recs + [more[0]], more[1..][..k])
        == blacklist + BlacklistedByAll(recs, more[..k + 1]);
  }

  lemma {:induction false} AddTransactionsRefused(
    chain: seq<Entry>, recs: seq<TxRec>, blacklist: set<nat>,
    txs: seq<Transaction>, hashes: seq<Hash>) returns (k: nat)
    requires |txs| == |hashes|
    requires forall i :: 0 <= i < |txs| ==> Supported(txs[i].vin)
    requires AddTransactions(TablesOf(chain, recs, blacklist), txs, hashes).status.Threw?
    ensures RefusedAt(chain, recs, blacklist, TxRecsOf(txs, hashes, |chain|), k,
                      AddTransactions(TablesOf(chain, recs, blacklist), txs, hashes))
    decreases |txs|
  {
    hide TablesOf, AddTransaction, TxAdmissible, BlacklistedBy, Supported, RefusedAt, Refuses,
      FreshKeys, SpentBy, OutputStorable;
    var more := TxRecsOf(txs, hashes, |chain|);
    var a := AddTransactions(TablesOf(chain, recs, blacklist), txs, hashes);
    var r := more[0];
    AddTransactionCorrect(chain, recs, blacklist, r);
    if TxAdmissible(recs, r) {
      assert TxRecsOf(txs[1..], hashes[1..], |chain|) == more[1..];
      k := AddTransactionsRefused(chain, recs + [r], blacklist + BlacklistedBy(recs, r),
                                  txs[1..], hashes[1..]);
      RefusedLater(chain, recs, blacklist, more, k, a);
      k := k + 1;
    } else {
      k := 0;
      AddTransactionRefused(chain, recs, blacklist, r);
      RefusedFirst(chain, recs, blacklist, more, a);
    }
  }

  lemma BlockRecsAre(e: Entry, height: nat)
    requires |e.block.txHashes| == |e.txs|
    ensures TxRecsOf(Failing.BlockTxs(e), Failing.BlockHashes(e), height) == BlockRecs(e, height)
  {
  }

  lemma SupportedTxs(e: Entry)
    requires BlockSupported(e)
    ensures forall i :: 0 <= i < |Failing.BlockTxs(e)| ==> Supported(Failing.BlockTxs(e)[i].vin)
  {
    hide Supported;
  }

  /** What becomes of a supported block that is refused, with nothing rolled back. If the numbers of
      hashes and transactions differ nothing has happened. Otherwise a first transaction is refused, the
      miner's coming first, and leaves what `Refuses` says; or all are stored and the record is refused,
      because of a known hash, a parent below the top or an unknown parent. */
  lemma AddBlockRefused(chain: seq<Entry>, blacklist: set<nat>, e: Entry)
    requires ValidChain(chain) && BlockSupported(e)
    requires AddBlock(ChainTables(chain, blacklist), e).status.Threw?
    ensures var t := ChainTables(chain, blacklist);
      var a := AddBlock(t, e);
      var recs, mine := ChainRecs(chain), BlockRecs(e, |chain|);
      if |e.block.txHashes| != |e.txs| then a == Outcome(t, Threw(RuntimeError))
      else if !TxsAdmissible(recs, mine) then
        exists k: nat :: RefusedAt(chain, recs, blacklist, mine, k, a)
      else
        a == Outcome(TablesOf(chain, recs + mine, blacklist + BlacklistedByAll(recs, mine)),
                     Threw(if KnownBlock(chain, e.block.hash) then BlockExists
                           else if KnownBlock(chain, e.block.prevId) then BlockParentDne
                           else DbError))
  {
    hide TablesOf, AddBlock, AddTransactions, AddBlockRecord, TxsAdmissible, BlacklistedByAll,
      BlockSupported, ValidChain, NumRctOutputs, RefusedAt, Failing.BlockTxs, Failing.BlockHashes,
      ChainRecs, BlockRecs, TxRecsOf;
    if |e.block.txHashes| != |e.txs| {
      Failing.MismatchUnchanged(ChainTables(chain, blacklist), e);
    } else {
      var recs, mine := ChainRecs(chain), BlockRecs(e, |chain|);
      var txs, hashes := Failing.BlockTxs(e), Failing.BlockHashes(e);
      BlockSizes(e);
      Failing.AddBlockParts(ChainTables(chain, blacklist), e);
      BlockRecsAre(e, |chain|);
      SupportedTxs(e);
      AddTransactionsCorrect(chain, recs, blacklist, txs, hashes);
      if TxsAdmissible(recs, mine) {
        RecordRefused(chain, recs + mine, blacklist + BlacklistedByAll(recs, mine), e);
      } else {
        var k := AddTransactionsRefused(chain, recs, blacklist, txs, hashes);
      }
    }
  }

  predicate KnownBlock(chain: seq<Entry>, hash: Hash) {
    exists k :: 0 <= k < |chain| && chain[k].block.hash == hash
  }

  lemma RecordRefused(chain: seq<Entry>, recs: seq<TxRec>, blacklist: set<nat>, e: Entry)
    requires ValidChain(chain)
    ensures var t := TablesOf(chain, recs, blacklist);
      var a := AddBlockRecord(t, e.block, e.meta, NumRctOutputs(e));
      a.status.Threw? ==>
        a == Outcome(t, Threw(if KnownBlock(chain, e.block.hash) then BlockExists
                              else if KnownBlock(chain, e.block.prevId) then BlockParentDne
                              else DbError))
  {
    hide TablesOf, AddBlockRecord, ValidChain, NumRctOutputs, HeightRows, NextId;
    var t := TablesOf(chain, recs, blacklist);
    AddBlockRecordCorrect(chain, recs, blacklist, e);
    if !Failing.RecordRefused(t, e.block) {
      AcceptedRecord(chain, recs, blacklist, e);
    } else {
      Failing.RecordRefusal(t, e);
    }
  }

  lemma AcceptedRecord(chain: seq<Entry>, recs: seq<TxRec>, blacklist: set<nat>, e: Entry)
    requires !Failing.RecordRefused(TablesOf(chain, recs, blacklist), e.block)
    ensures AddBlockRecord(TablesOf(chain, recs, blacklist), e.block, e.meta, NumRctOutputs(e)).status.Ok?
  {
    hide TxIndexRows, Txs, IndexLists, OutTxs, AmountRows, AllOutputs, SpentBy,
      Blocks, Infos, HeightRows, Tabulate, NextId, NumRctOutputs, AddBlockRecord;
    BlockListSizes(chain);
    TabulateSize(Blocks(chain));
    AddNextRecord(chain, recs, blacklist, e);
  }

  lemma BlockSizes(e: Entry)
    requires |e.block.txHashes| == |e.txs|
    ensures |Failing.BlockTxs(e)| == |Failing.BlockHashes(e)|
  {
  }

  // Popping

  /** Every amount row leads to an output of its own. */
  ghost predicate RowsLinked(t: Tables) {
    && (forall key :: key in t.outputAmounts ==> t.outputAmounts[key].outputId in t.outputTxs)
    && (forall key, key' :: key in t.outputAmounts && key' in t.outputAmounts && key != key' ==>
          t.outputAmounts[key].outputId != t.outputAmounts[key'].outputId)
  }

  /** The tables are those of `chain` and `recs`, except that nothing more is said of the output tables
      than that their rows are linked. */
  ghost predicate Sound(t: Tables, chain: seq<Entry>, recs: seq<TxRec>, blacklist: set<nat>) {
    && t == TablesOf(chain, recs, blacklist).(outputTxs := t.outputTxs, outputAmounts := t.outputAmounts)
    && RowsLinked(t)
  }

  /** The same when removing `r`, which comes after `recs`, stopped at a missing output: its key images
      and data are gone, its hash and index list are still there. */
  ghost predicate HalfRemoved(
    t: Tables, chain: seq<Entry>, recs: seq<TxRec>, r: TxRec, blacklist: set<nat>)
  {
    && t == TablesOf(chain, recs, blacklist).(
              txIndices := TxIndexRows(recs + [r]), txOutputs := Tabulate(IndexLists(recs + [r])),
              outputTxs := t.outputTxs, outputAmounts := t.outputAmounts)
    && RowsLinked(t)
  }

  predicate OkOrMissing(s: Status) {
    s.Ok? || s == Threw(OutputDne)
  }

  lemma RemoveLinked(t: Tables, amount: nat, index: nat)
    requires RowsLinked(t)
    ensures var r := RemoveOutput(t, amount, index);
      && OkOrMissing(r.status) && RowsLinked(r.tables)
      && r.tables == t.(outputTxs := r.tables.outputTxs, outputAmounts := r.tables.outputAmounts)
  {
  }

  lemma {:induction false} RemoveAllLinked(t: Tables, tx: Transaction, indices: seq<nat>, i: nat)
    requires RowsLinked(t) && i <= |tx.vout| && i <= |indices|
    ensures var r := RemoveOutputs(t, tx, indices, i);
      && OkOrMissing(r.status) && RowsLinked(r.tables)
      && r.tables == t.(outputTxs := r.tables.outputTxs, outputAmounts := r.tables.outputAmounts)
    decreases i
  {
    hide RemoveOutput, RemovedAmount, RowsLinked;
    if i == 0 {
    } else {
      RemoveLinked(t, RemovedAmount(tx, i - 1), indices[i - 1]);
      RemoveAllLinked(RemoveOutput(t, RemovedAmount(tx, i - 1), indices[i - 1]).tables, tx, indices,
                      i - 1);
    }
  }

  /** Removing the newest transaction can only fail at a missing output. */
  lemma RemoveNewest(t: Tables, chain: seq<Entry>, recs: seq<TxRec>, r: TxRec, blacklist: set<nat>)
    requires Sound(t, chain, recs + [r], blacklist) && TxAdmissible(recs, r)
    ensures FindTx(t, r.hash) == Some(r.tx)
    ensures var u := RemoveTransaction(t, r.hash);
      && OkOrMissing(u.status)
      && (u.status.Ok? ==> Sound(u.tables, chain, recs, blacklist))
      && (u.status.Threw? ==> HalfRemoved(u.tables, chain, recs, r, blacklist))
  {
    hide RemoveOutputs, AllOutputs, OutputsOf, TxIndexRows, Txs, IndexLists, Tabulate, RowsLinked,
      RemoveSpentKeys, KeyImages, Count, AmountRows, OutTxs, Blocks, Infos, HeightRows, SpentBy,
      TxAdmissible, FreshKeys;
    NewHashAfter(recs, r);
    NewestRows(recs, r);
    KeysBack(recs, r);
    RemoveSpentKeysEffect(t, r.tx.vin);
    var t1 := RemoveSpentKeys(t, r.tx.vin);
    var t2 := t1.(txs := Tabulate(Txs(recs)));
    SameLinks(t, t2);
    var indices := IndexList(AllOutputs(recs), OutputsOf(r));
    OutputsSize(r);
    RemoveAllLinked(t2, r.tx, indices, |r.tx.vout|);
    var u := RemoveOutputs(t2, r.tx, indices, |r.tx.vout|);
    SameLinks(u.tables, u.tables.(txOutputs := u.tables.txOutputs - {|recs|},
                                  txIndices := u.tables.txIndices - {r.hash}));
  }

  lemma KeysBack(recs: seq<TxRec>, r: TxRec)
    requires TxAdmissible(recs, r)
    ensures SpentBy(recs + [r]) - KeyImages(r.tx.vin) == SpentBy(recs)
  {
    hide FreshKeys, KeyImages, SpentBy, OutputStorable;
    SpentBySnoc(recs, r);
    FreshKeysDisjoint(SpentBy(recs), r.tx.vin);
  }

  lemma OutputsSize(r: TxRec)
    ensures |OutputsOf(r)| == |r.tx.vout|
  {
  }

  lemma SameLinks(t: Tables, t': Tables)
    requires RowsLinked(t) && t'.outputTxs == t.outputTxs && t'.outputAmounts == t.outputAmounts
    ensures RowsLinked(t')
  {
  }

  /** Popping `txs`, which follow `recs`: all of them are removed, or removing stops in the middle of
      number `left`. Those from there on are returned in reverse. */
  lemma {:induction false} PopNewest(
    t: Tables, chain: seq<Entry>, recs: seq<TxRec>, blacklist: set<nat>,
    txs: seq<Transaction>, hashes: seq<Hash>, height: nat, popped: seq<Transaction>)
    returns (left: nat)
    requires |txs| == |hashes|
    requires Sound(t, chain, recs + TxRecsOf(txs, hashes, height), blacklist)
    requires TxsAdmissible(recs, TxRecsOf(txs, hashes, height))
    ensures left <= |txs|
    ensures var p := PopTransactions(t, hashes, popped);
      var more := TxRecsOf(txs, hashes, height);
      && OkOrMissing(p.status) && p.txs == popped + Reversed(txs[left..])
      && (p.status.Ok? ==> left == 0 && Sound(p.tables, chain, recs, blacklist))
      && (p.status.Threw? ==>
            left < |txs| && HalfRemoved(p.tables, chain, recs + more[..left], more[left], blacklist))
    decreases |txs|
  {
    hide Sound, HalfRemoved, TxAdmissible, TxsAdmissible, FindTx, RemoveTransaction;
    var more := TxRecsOf(txs, hashes, height);
    if txs == [] {
      left := 0;
      assert recs + more == recs;
      assert popped + Reversed(txs[0..]) == popped;
    } else {
      var n := |txs| - 1;
      var front, r := TxRecsOf(Init(txs), Init(hashes), height), Last(more);
      assert more == front + [r] && recs + more == recs + front + [r];
      TxsAdmissibleSnoc(recs, front, r);
      RemoveNewest(t, chain, recs + front, r, blacklist);
      var u := RemoveTransaction(t, r.hash);
      if u.status.Threw? {
        left := n;
        assert txs[n..] == [Last(txs)] && Reversed([Last(txs)]) == [Last(txs)];
        assert more[..n] == front;
      } else {
        left := PopNewest(u.tables, chain, recs, blacklist, Init(txs), Init(hashes), height,
                          popped + [Last(txs)]);
        assert Init(txs)[left..] == Init(txs[left..]) && Last(txs[left..]) == Last(txs);
        assert popped + [Last(txs)] + Reversed(Init(txs[left..])) == popped + Reversed(txs[left..]);
        assert front[..left] == more[..left];
      }
    }
  }

  lemma NewHashAfter(recs: seq<TxRec>, r: TxRec)
    requires TxAdmissible(recs, r)
    ensures r.hash !in TxIndexRows(recs)
  {
    hide FreshKeys, OutputStorable, SpentBy;
    TxIndexRowsKeys(recs, r.hash);
  }

  lemma {:induction false} OutputsLinked(outs: seq<OutRec>)
    ensures forall key :: key in AmountRows(outs) ==> AmountRows(outs)[key].outputId < |outs|
    ensures forall key, key' :: key in AmountRows(outs) && key' in AmountRows(outs) && key != key' ==>
              AmountRows(outs)[key].outputId != AmountRows(outs)[key'].outputId
  {
    hide Count;
    if outs == [] {
    } else {
      OutputsLinked(Init(outs));
    }
  }

  lemma ChainSound(chain: seq<Entry>, recs: seq<TxRec>, blacklist: set<nat>)
    ensures Sound(TablesOf(chain, recs, blacklist), chain, recs, blacklist)
  {
    hide AmountRows, OutTxs, AllOutputs, TxIndexRows, Txs, IndexLists, SpentBy, Blocks, Infos,
      HeightRows;
    OutputsLinked(AllOutputs(recs));
    OutTxsSize(AllOutputs(recs));
  }

  /** The outcome of popping `e` from the top of `chain`. If it is a success all tables but the output
      tables are those of the chain below. If it is a failure popping has stopped at a missing output, in
      the middle of transaction `left`, 0 being the miner's. The listed transactions from there on are
      returned in reverse. */
  ghost predicate PopsDownTo(
    chain: seq<Entry>, blacklist: set<nat>, e: Entry, left: nat, p: PopOutcome)
  {
    var recs, mine := ChainRecs(chain), BlockRecs(e, |chain|);
    && left <= |e.txs| && left < |mine|
    && p.block == Some(e.block)
    && p.txs == Reversed(e.txs[if left == 0 then 0 else left - 1..])
    && (p.status.Ok? ==> left == 0 && Sound(p.tables, chain, recs, blacklist))
    && (p.status.Threw? ==>
          && p.status == Threw(OutputDne)
          && HalfRemoved(p.tables, chain, recs + mine[..left], mine[left], blacklist))
  }

  /** Popping any block from the top of a chain, reversible or not, with nothing rolled back. */
  lemma PopBlockRefused(chain: seq<Entry>, blacklist: set<nat>, e: Entry)
    requires BlockAdmissible(chain, e)
    ensures exists left: nat ::
              PopsDownTo(chain, blacklist, e, left, PopBlock(ChainTables(chain + [e], blacklist)))
  {
    hide TablesOf, TxAdmissible, TxsAdmissible, FindTx, RemoveTransaction, RemoveBlock, TopBlock,
      PopTransactions, Sound, HalfRemoved, ChainRecs, Reversed;
    var recs := ChainRecs(chain);
    var mine := BlockRecs(e, |chain|);
    var miner := mine[0];
    var listed := TxRecsOf(e.txs, e.block.txHashes, |chain|);
    ChainSnoc(chain, e);
    RemoveBlockFrom(chain, recs + mine, blacklist, e);
    assert mine == [miner] + listed && recs + mine == recs + [miner] + listed;
    var t := TablesOf(chain, recs + mine, blacklist);
    ChainSound(chain, recs + mine, blacklist);
    MinerFirst(recs, miner, listed);
    var left := PopAllNewest(t, chain, recs, blacklist, miner, e.txs, e.block.txHashes, |chain|);
    assert PopsDownTo(chain, blacklist, e, left, PopBlock(ChainTables(chain + [e], blacklist)));
  }

  /** Popping a block's transactions once its record is gone. */
  lemma PopAllNewest(
    t: Tables, chain: seq<Entry>, recs: seq<TxRec>, blacklist: set<nat>, miner: TxRec,
    txs: seq<Transaction>, hashes: seq<Hash>, height: nat) returns (left: nat)
    requires |txs| == |hashes|
    requires Sound(t, chain, recs + [miner] + TxRecsOf(txs, hashes, height), blacklist)
    requires TxAdmissible(recs, miner) && TxsAdmissible(recs + [miner], TxRecsOf(txs, hashes, height))
    ensures left <= |txs|
    ensures var p := PopTransactions(t, hashes, []);
      var m := RemoveTransaction(p.tables, miner.hash);
      var mine := [miner] + TxRecsOf(txs, hashes, height);
      && p.txs == Reversed(txs[if left == 0 then 0 else left - 1..])
      && (p.status.Threw? ==>
            && left > 0 && p.status == Threw(OutputDne)
            && HalfRemoved(p.tables, chain, recs + mine[..left], mine[left], blacklist))
      && (p.status.Ok? ==>
            && left == 0 && OkOrMissing(m.status)
            && (m.status.Ok? ==> Sound(m.tables, chain, recs, blacklist))
            && (m.status.Threw? ==> HalfRemoved(m.tables, chain, recs + mine[..0], mine[0], blacklist)))
  {
    hide TxAdmissible, TxsAdmissible, FindTx, RemoveTransaction, PopTransactions, Sound, HalfRemoved,
      Reversed;
    var listed := TxRecsOf(txs, hashes, height);
    var kept := PopNewest(t, chain, recs + [miner], blacklist, txs, hashes, height, []);
    var p := PopTransactions(t, hashes, []);
    assert [] + Reversed(txs[kept..]) == Reversed(txs[kept..]);
    if p.status.Threw? {
      left := kept + 1;
      ListedKept(recs, miner, listed, kept);
    } else {
      left := 0;
      RemoveNewest(p.tables, chain, recs, miner, blacklist);
      assert recs + ([miner] + listed)[..0] == recs;
    }
  }

  /** In any state, popping a block whose last transaction was never stored, as happens to transactions
      with an unsupported input, stops there: nothing is gone but the record. */
  lemma PopUnstored(t: Tables, top: Block)
    requires TopBlock(t) == Some(top) && RemoveBlock(t).status.Ok?
    requires (if top.txHashes == [] then top.minerTx.hash else Last(top.txHashes)) !in t.txIndices
    ensures PopBlock(t) == PopOutcome(RemoveBlock(t).tables, Some(top), [],
                                      Threw(if top.txHashes == [] then TxDne else DbError))
  {
    assert RemoveBlock(t).tables.txIndices == t.txIndices;
  }

  lemma MinerFirst(recs: seq<TxRec>, miner: TxRec, listed: seq<TxRec>)
    requires TxsAdmissible(recs, [miner] + listed)
    ensures TxAdmissible(recs, miner) && TxsAdmissible(recs + [miner], listed)
  {
    hide TxAdmissible;
    assert ([miner] + listed)[1..] == listed;
  }

  lemma ListedKept(recs: seq<TxRec>, miner: TxRec, listed: seq<TxRec>, kept: nat)
    requires kept <= |listed|
    ensures recs + [miner] + listed[..kept] == recs + ([miner] + listed)[..kept + 1]
  {
  }
}
