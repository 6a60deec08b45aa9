/**
 Exactly when `remove_transaction` undoes `add_transaction`, and what `add_transaction` leaves
 behind when it meets an unsupported input and returns early.
 */
module Undo {
  import opened Ledger
  import opened Backend
  import opened Canonical
  import opened Adding
  import opened Popping

  // Unsupported inputs

  predicate FirstUnsupported(vin: seq<TxInput>, u: nat) {
    u < |vin| && vin[u].ToScript? && Supported(vin[..u])
  }

  lemma {:induction false} ScanUpTo(t: Tables, vin: seq<TxInput>, rest: seq<TxInput>, u: nat, m: bool)
    requires FirstUnsupported(rest, u)
    ensures var s := ScanInputs(t, vin, rest, m);
      if FreshKeys(t.spentKeys, rest[..u])
      then
        && s.status.Ok? && !s.supported
        && s.tables == RemoveSpentKeys(t.(spentKeys := t.spentKeys + KeyImages(rest[..u])), vin)
      else
        s.status == Threw(KeyImageExists)
    decreases |rest|
  {
    hide RemoveSpentKeys;
    if u == 0 {
      assert rest[..0] == [];
      assert t.spentKeys + KeyImages(rest[..0]) == t.spentKeys;
    } else {
      var front := rest[..u];
      var tail := rest[1..];
      assert front[1..] == tail[..u - 1];
      assert forall i :: 0 <= i < u - 1 ==> tail[i] == front[i + 1];
      assert rest[0] == front[0] && tail[u - 1] == rest[u];
      KeyImagesCons(front);
      match rest[0]
      case ToKey(k) =>
        if k !in t.spentKeys {
          var t1 := AddSpentKey(t, k).tables;
          ScanUpTo(t1, vin, tail, u - 1, m);
          assert t1.spentKeys + KeyImages(tail[..u - 1]) == t.spentKeys + KeyImages(front);
        }
      case Gen(_) =>
        ScanUpTo(t, vin, tail, u - 1, true);
        assert KeyImages(tail[..u - 1]) == KeyImages(front);
    }
  }

  lemma KeyImagesSplit(vin: seq<TxInput>, u: nat)
    requires u < |vin| && vin[u].ToScript?
    ensures KeyImages(vin) == KeyImages(vin[..u]) + KeyImages(vin[u + 1..])
  {
    var a, b := vin[..u], vin[u + 1..];
    forall k | k in KeyImages(vin)
      ensures k in KeyImages(a) + KeyImages(b)
    {
      var i :| 0 <= i < |vin| && vin[i].ToKey? && vin[i].keyImage == k;
      if i < u {
        assert a[i] == vin[i];
      } else {
        assert b[i - u - 1] == vin[i];
      }
    }
    forall k | k in KeyImages(a) + KeyImages(b)
      ensures k in KeyImages(vin)
    {
      if k in KeyImages(a) {
        var i :| 0 <= i < |a| && a[i].ToKey? && a[i].keyImage == k;
        assert vin[i] == a[i];
      } else {
        var i :| 0 <= i < |b| && b[i].ToKey? && b[i].keyImage == k;
        assert vin[i + u + 1] == b[i];
      }
    }
  }

  /** `add_transaction` on a transaction whose first unsupported input is input `u`, in any state.
      If the key images before `u` are fresh it returns normally, having only forgotten the spent
      keys named after `u`: the tables are unchanged exactly when none of those was spent. */
  lemma AddUnsupported(t: Tables, tx: Transaction, hash: Hash, u: nat)
    requires FirstUnsupported(tx.vin, u)
    ensures var a := AddTransaction(t, tx, hash);
      var later := KeyImages(tx.vin[u + 1..]);
      && (a.status.Ok? <==> FreshKeys(t.spentKeys, tx.vin[..u]))
      && (a.status.Ok? ==> a.tables == t.(spentKeys := t.spentKeys - later))
      && (a.status.Ok? ==> (a.tables == t <==> t.spentKeys !! later))
  {
    hide RemoveSpentKeys, FreshKeys, ScanInputs;
    var front, later := KeyImages(tx.vin[..u]), KeyImages(tx.vin[u + 1..]);
    ScanUpTo(t, tx.vin, tx.vin, u, false);
    if FreshKeys(t.spentKeys, tx.vin[..u]) {
      RemoveSpentKeysEffect(t.(spentKeys := t.spentKeys + front), tx.vin);
      KeyImagesSplit(tx.vin, u);
      FreshKeysDisjoint(t.spentKeys, tx.vin[..u]);
      assert t.spentKeys + front - (front + later) == t.spentKeys - later;
    }
  }

  lemma {:induction false} UnsupportedHasFirst(vin: seq<TxInput>) returns (u: nat)
    requires !Supported(vin)
    ensures FirstUnsupported(vin, u)
  {
    u := 0;
    while !vin[u].ToScript?
      invariant u < |vin|
      invariant forall i :: 0 <= i < u ==> !vin[i].ToScript?
      decreases |vin| - u
    {
      u := u + 1;
      if u == |vin| {
        assert false;
      }
    }
  }

  // When removing undoes adding

  lemma {:induction false} RemoveOutputsEffect(t: Tables, tx: Transaction, indices: seq<nat>, i: nat)
    requires i <= |tx.vout| && RemoveOutputs(t, tx, indices, i).status.Ok?
    ensures i <= |indices|
    ensures var t' := RemoveOutputs(t, tx, indices, i).tables;
      && t' == t.(outputTxs := t'.outputTxs, outputAmounts := t'.outputAmounts)
      && forall key :: key in t.outputAmounts && key !in t'.outputAmounts ==>
           exists k :: 0 <= k < i && key == (RemovedAmount(tx, k), indices[k])
    decreases i
  {
    hide RemovedAmount;
    if i == 0 {
    } else {
      var r := RemoveOutput(t, RemovedAmount(tx, i - 1), indices[i - 1]);
      RemoveOutputsEffect(r.tables, tx, indices, i - 1);
    }
  }

  lemma RemoveDataDropsTx(t: Tables, hash: Hash, tx: Transaction)
    requires RemoveTransactionData(t, hash, tx).status.Ok?
    ensures hash in t.txIndices && t.txIndices[hash].txId in t.txs
    ensures RemoveTransactionData(t, hash, tx).tables.txs == t.txs - {t.txIndices[hash].txId}
  {
    hide RemoveOutputs;
    var id := t.txIndices[hash].txId;
    var t1 := t.(txs := t.txs - {id});
    var indices := if id in t1.txOutputs then t1.txOutputs[id] else [];
    RemoveOutputsEffect(t1, tx, indices, |tx.vout|);
  }

  lemma NotUndoneUnsupported(t: Tables, tx: Transaction, hash: Hash)
    requires !Supported(tx.vin)
    requires AddTransaction(t, tx, hash).status.Ok?
    ensures var u := RemoveTransaction(AddTransaction(t, tx, hash).tables, hash);
      u.status.Ok? ==> u.tables.txs != t.txs
  {
    hide AddTransaction, RemoveSpentKeys, RemoveTransactionData;
    var k := UnsupportedHasFirst(tx.vin);
    AddUnsupported(t, tx, hash, k);
    var a := AddTransaction(t, tx, hash).tables;
    assert a.txs == t.txs && a.txIndices == t.txIndices;
    if RemoveTransaction(a, hash).status.Ok? {
      var found := FindTx(a, hash).value;
      RemoveSpentKeysEffect(a, found.vin);
      RemoveDataDropsTx(RemoveSpentKeys(a, found.vin), hash, found);
    }
  }

  /** Row `j` of a coinbase transaction's outputs is an amount-0 row that was not there before. */
  lemma {:induction false} CoinbaseIndices(before: seq<OutRec>, mine: seq<OutRec>, j: nat)
    requires j <= |mine| && forall i :: 0 <= i < |mine| ==> mine[i].amount == 0
    ensures Count(before + mine[..j], 0) == Count(before, 0) + j
  {
    if j == 0 {
      assert before + mine[..0] == before;
    } else {
      CoinbaseIndices(before, mine, j - 1);
      assert before + mine[..j] == before + mine[..j - 1] + [mine[j - 1]];
      CountSnoc(before + mine[..j - 1], mine[j - 1], 0);
    }
  }

  lemma PseudoRctHasGen(tx: Transaction)
    ensures IsPseudoRct(tx) <==> tx.version >= V2_RINGCT && |tx.vin| == 1 && HasGen(tx.vin)
  {
    if |tx.vin| == 1 && tx.vin[0].Gen? {
      assert HasGen(tx.vin);
    }
  }

  lemma MismatchIsCoinbase(tx: Transaction, j: nat)
    requires j < |tx.vout| && StoredAmount(tx, j) != RemovedAmount(tx, j)
    ensures HasGen(tx.vin) && tx.version >= V2_RINGCT && |tx.vin| != 1
    ensures forall i :: 0 <= i < |tx.vout| ==> StoredAmount(tx, i) == 0
    ensures RemovedAmount(tx, j) != 0
  {
    PseudoRctHasGen(tx);
  }

  /** Removing with the wrong amounts leaves the row of output `j` where it was. */
  lemma RowSurvives(t: Tables, before: seq<OutRec>, r: TxRec, j: nat)
    requires j < |r.tx.vout| && StoredAmount(r.tx, j) != RemovedAmount(r.tx, j)
    requires t.outputAmounts == AmountRows(before + OutputsOf(r))
    requires RemoveOutputs(t, r.tx, IndexList(before, OutputsOf(r)), |r.tx.vout|).status.Ok?
    ensures (0, Count(before, 0) + j) in
              RemoveOutputs(t, r.tx, IndexList(before, OutputsOf(r)), |r.tx.vout|).tables.outputAmounts
    ensures (0, Count(before, 0) + j) !in AmountRows(before)
  {
    hide RemoveOutputs, Count, StoredAmount, RemovedAmount, OutputUnlockTime, OutputCommitment,
      AmountRows;
    var mine := OutputsOf(r);
    var list := IndexList(before, mine);
    RemoveOutputsEffect(t, r.tx, list, |r.tx.vout|);
    MismatchIsCoinbase(r.tx, j);
    forall i: nat | i <= |mine| {
      CoinbaseIndices(before, mine, i);
    }
    assert forall i :: 0 <= i < |list| ==> list[i] == Count(before, 0) + i;
    CoinbaseRow(before, mine, j);
  }

  lemma NotUndoneMismatch(t: Tables, recs: seq<TxRec>, r: TxRec, j: nat)
    requires t == WithTxTables(t, recs + [r]) && r.hash !in TxIndexRows(recs)
    requires j < |r.tx.vout| && StoredAmount(r.tx, j) != RemovedAmount(r.tx, j)
    requires RemoveTransactionData(t, r.hash, r.tx).status.Ok?
    ensures (0, Count(AllOutputs(recs), 0) + j) in
              RemoveTransactionData(t, r.hash, r.tx).tables.outputAmounts
    ensures (0, Count(AllOutputs(recs), 0) + j) !in AmountRows(AllOutputs(recs))
  {
    hide RemoveOutputs, AllOutputs, OutputsOf, IndexList, TxIndexRows, Txs, IndexLists, OutTxs,
      Tabulate, StoredAmount, RemovedAmount, AmountRows, Count;
    NewestRows(recs, r);
    AllOutputsSnoc(recs, r);
    RowSurvives(t.(txs := Tabulate(Txs(recs))), AllOutputs(recs), r, j);
  }

  /** The row of a coinbase transaction's output `j` is there after it is added, not before. */
  lemma CoinbaseRow(before: seq<OutRec>, mine: seq<OutRec>, j: nat)
    requires j < |mine| && forall i :: 0 <= i < |mine| ==> mine[i].amount == 0
    ensures (0, Count(before, 0) + j) in AmountRows(before + mine)
    ensures (0, Count(before, 0) + j) !in AmountRows(before)
  {
    hide AmountRows, Count;
    CoinbaseIndices(before, mine, |mine|);
    assert mine[..|mine|] == mine;
    AmountRowsDense(before + mine, 0, Count(before, 0) + j);
    AmountRowsDense(before, 0, Count(before, 0) + j);
  }

  /** On the tables of any transaction list, an accepted transaction is undone by removing it,
      blacklist aside, exactly when all its inputs are supported and the add side and the remove
      side file its outputs under the same amounts. */
  lemma UndoneIffReversible(chain: seq<Entry>, recs: seq<TxRec>, blacklist: set<nat>, r: TxRec)
    requires r.height == |chain|
    requires AddTransaction(TablesOf(chain, recs, blacklist), r.tx, r.hash).status.Ok?
    ensures var t := TablesOf(chain, recs, blacklist);
      var added := AddTransaction(t, r.tx, r.hash).tables;
      RemoveTransaction(added, r.hash) == Outcome(t.(blacklist := added.blacklist), Ok)
      <==> Reversible(r.tx)
  {
    hide AddTransaction, RemoveTransaction, TxAdmissible, StoredAmount, RemovedAmount,
      BlacklistedBy;
    var t := TablesOf(chain, recs, blacklist);
    if !Supported(r.tx.vin) {
      NotUndoneUnsupported(t, r.tx, r.hash);
    } else {
      AddTransactionCorrect(chain, recs, blacklist, r);
      var blacklist' := blacklist + BlacklistedBy(recs, r);
      if Reversible(r.tx) {
        RemoveTransactionCorrect(chain, recs, blacklist', r);
      } else {
        var j :| 0 <= j < |r.tx.vout| && StoredAmount(r.tx, j) != RemovedAmount(r.tx, j);
        NotUndoneCoinbase(chain, recs, blacklist', r, j);
      }
    }
  }

  lemma NotUndoneCoinbase(
    chain: seq<Entry>, recs: seq<TxRec>, blacklist: set<nat>, r: TxRec, j: nat)
    requires TxAdmissible(recs, r)
    requires j < |r.tx.vout| && StoredAmount(r.tx, j) != RemovedAmount(r.tx, j)
    ensures RemoveTransaction(TablesOf(chain, recs + [r], blacklist), r.hash)
         != Outcome(TablesOf(chain, recs, blacklist), Ok)
  {
    hide AllOutputs, TxIndexRows, Txs, IndexLists, OutTxs, AmountRows, Blocks, Infos, HeightRows,
      Tabulate, SpentBy, FreshKeys, OutputStorable, RemoveTransactionData, KeyImages,
      RemoveSpentKeys, StoredAmount, RemovedAmount;
    var t := TablesOf(chain, recs + [r], blacklist);
    TxIndexRowsKeys(recs, r.hash);
    NewestRows(recs, r);
    RemoveSpentKeysEffect(t, r.tx.vin);
    var t1 := RemoveSpentKeys(t, r.tx.vin);
    if RemoveTransactionData(t1, r.hash, r.tx).status.Ok? {
      NotUndoneMismatch(t1, recs, r, j);
    }
  }

  /** The two tests differ exactly on v2+ transactions that have a coinbase input beside other
      inputs, and then every output with a non-zero amount is looked for in the wrong place. */
  lemma AmountTestsDiffer(tx: Transaction)
    ensures (forall i :: 0 <= i < |tx.vout| ==> StoredAmount(tx, i) == RemovedAmount(tx, i)) <==>
            (tx.version >= V2_RINGCT && HasGen(tx.vin) && |tx.vin| != 1 ==>
               forall i :: 0 <= i < |tx.vout| ==> tx.vout[i].amount == 0)
  {
    PseudoRctHasGen(tx);
    if tx.version >= V2_RINGCT && HasGen(tx.vin) && |tx.vin| != 1 {
      assert forall i :: 0 <= i < |tx.vout| ==> StoredAmount(tx, i) == 0;
      assert forall i :: 0 <= i < |tx.vout| ==> RemovedAmount(tx, i) == tx.vout[i].amount;
    }
  }
}
