/**
 What the tables mean after every well-formed run: indices point back at the outputs they
 were made for, an amount's rows are the chain's outputs of that amount in chain order, and no key
 image is spent twice.
 */
module Indexes {
  import opened Wrappers
  import opened Ledger
  import opened Canonical
  import opened Runs
  import Adding

  // Positions of outputs

  lemma {:induction false} OutputAt(recs: seq<TxRec>, n: nat, i: nat)
    requires n < |recs| && i < |recs[n].tx.vout|
    ensures var outs := AllOutputs(recs);
      var p := |AllOutputs(recs[..n])| + i;
      && p < |outs|
      && outs[p] == OutputOf(recs[n], i)
      && outs[..p] == AllOutputs(recs[..n]) + OutputsOf(recs[n])[..i]
  {
    hide OutputOf, AllOutputs;
    var front := Init(recs);
    AllOutputsSnoc(front, Last(recs));
    assert front + [Last(recs)] == recs;
    if n == |recs| - 1 {
      assert recs[..n] == front;
    } else {
      OutputAt(front, n, i);
      assert front[..n] == recs[..n];
    }
  }

  lemma {:induction false} RowOf(outs: seq<OutRec>, p: nat)
    requires p < |outs|
    ensures |OutTxs(outs)| == |outs|
    ensures OutTxs(outs)[p] == OutTx(outs[p].txHash, outs[p].localIndex)
    ensures var key := (outs[p].amount, Count(outs[..p], outs[p].amount));
      key in AmountRows(outs) && AmountRows(outs)[key] == AmountRow(outs[p], p)
  {
    OutTxsSize(outs);
    var front := Init(outs);
    OutTxsSize(front);
    if p == |outs| - 1 {
      assert outs[..p] == front;
    } else {
      RowOf(front, p);
      assert front[..p] == outs[..p];
      AmountRowsDense(front, Last(outs).amount, Count(front, Last(outs).amount));
    }
  }

  lemma {:induction false} IndexListAt(recs: seq<TxRec>, n: nat)
    requires n < |recs|
    ensures |IndexLists(recs)| == |recs|
    ensures IndexLists(recs)[n] == IndexList(AllOutputs(recs[..n]), OutputsOf(recs[n]))
  {
    hide IndexList, AllOutputs, OutputsOf;
    ListSizes(recs);
    ListSizes(Init(recs));
    if n == |recs| - 1 {
      assert recs[..n] == Init(recs);
    } else {
      IndexListAt(Init(recs), n);
      assert Init(recs)[..n] == recs[..n];
    }
  }

  // Index agreement

  function OutputUnlockTimeAt(t: Tables, amount: nat, index: nat): Option<nat> {
    if (amount, index) in t.outputAmounts then Some(t.outputAmounts[(amount, index)].unlockTime)
    else None
  }

  function OutputSource(t: Tables, amount: nat, index: nat): Option<OutTx> {
    if (amount, index) in t.outputAmounts &&
       t.outputAmounts[(amount, index)].outputId in t.outputTxs
    then Some(t.outputTxs[t.outputAmounts[(amount, index)].outputId])
    else None
  }

  lemma RecIndexAgreement(chain: seq<Entry>, recs: seq<TxRec>, blacklist: set<nat>, n: nat, i: nat)
    requires n < |recs| && i < |recs[n].tx.vout|
    ensures var t := TablesOf(chain, recs, blacklist);
      var tx := recs[n].tx;
      && n in t.txOutputs && |t.txOutputs[n]| == |tx.vout|
      && OutputSource(t, StoredAmount(tx, i), t.txOutputs[n][i]) == Some(OutTx(recs[n].hash, i))
      && OutputUnlockTimeAt(t, StoredAmount(tx, i), t.txOutputs[n][i])
         == Some(OutputUnlockTime(tx, i))
  {
    hide AllOutputs, IndexLists, OutTxs, AmountRows, Count, Txs, TxIndexRows, SpentBy, Blocks,
      Infos, HeightRows, StoredAmount, OutputUnlockTime, OutputCommitment;
    var outs := AllOutputs(recs);
    var p := |AllOutputs(recs[..n])| + i;
    OutputAt(recs, n, i);
    RowOf(outs, p);
    IndexListAt(recs, n);
  }

  predicate DistinctTxHashes(recs: seq<TxRec>) {
    forall i, j :: 0 <= i < j < |recs| ==> recs[i].hash != recs[j].hash
  }

  lemma {:induction false} TxIndexAt(recs: seq<TxRec>, n: nat)
    requires n < |recs|
    requires DistinctTxHashes(recs)
    ensures recs[n].hash in TxIndexRows(recs)
    ensures TxIndexRows(recs)[recs[n].hash] == TxIndex(n, recs[n].tx.unlockTime, recs[n].height)
  {
    if n < |recs| - 1 {
      TxIndexAt(Init(recs), n);
    }
  }

  lemma {:induction false} AdmissibleDistinct(recs: seq<TxRec>, more: seq<TxRec>)
    requires DistinctTxHashes(recs)
    requires TxsAdmissible(recs, more)
    ensures DistinctTxHashes(recs + more)
    decreases |more|
  {
    hide FreshKeys, OutputStorable, SpentBy;
    if more == [] {
      assert recs + more == recs;
    } else {
      AdmissibleDistinct(recs + [more[0]], more[1..]);
      assert recs + [more[0]] + more[1..] == recs + more;
    }
  }

  lemma {:induction false} ChainHashesDistinct(chain: seq<Entry>)
    requires ValidChain(chain)
    ensures DistinctTxHashes(ChainRecs(chain))
  {
    hide TxsAdmissible, BlockRecs;
    if chain == [] {
    } else {
      ChainHashesDistinct(Init(chain));
      AdmissibleDistinct(ChainRecs(Init(chain)), BlockRecs(Last(chain), |chain| - 1));
    }
  }

  /** After any well-formed run, from a chain transaction's hash one reaches its amount indices, and
      the i-th of them, looked up under the amount the output is stored under, gives back (hash, i)
      and the output's own unlock time for v3+ transactions, the transaction's otherwise. */
  lemma IndexAgreement(ops: seq<Op>, n: nat, i: nat)
    requires WellFormed(ops)
    requires n < |ChainRecs(ChainAfter(ops))| && i < |ChainRecs(ChainAfter(ops))[n].tx.vout|
    ensures var t := Run(ops);
      var r := ChainRecs(ChainAfter(ops))[n];
      && r.hash in t.txIndices
      && t.txIndices[r.hash] == TxIndex(n, r.tx.unlockTime, r.height)
      && n in t.txOutputs && |t.txOutputs[n]| == |r.tx.vout|
      && OutputSource(t, StoredAmount(r.tx, i), t.txOutputs[n][i]) == Some(OutTx(r.hash, i))
      && OutputUnlockTimeAt(t, StoredAmount(r.tx, i), t.txOutputs[n][i])
         == Some(if r.tx.version >= 3 then r.tx.vout[i].unlockTime else r.tx.unlockTime)
  {
    hide Run, ChainAfter, ChainRecs, BlacklistAfter, ValidChain, OutputSource, OutputUnlockTimeAt;
    var chain := ChainAfter(ops);
    RunCorrect(ops);
    ChainAfterValid(ops);
    ChainHashesDistinct(chain);
    TxIndexAt(ChainRecs(chain), n);
    RecIndexAgreement(chain, ChainRecs(chain), BlacklistAfter(ops), n, i);
  }

  // The rows of an amount

  /** The positions, in chain order, of the outputs stored under `amount`. */
  function Positions(outs: seq<OutRec>, amount: nat): seq<nat> {
    if outs == [] then []
    else Positions(Init(outs), amount) + if Last(outs).amount == amount then [|outs| - 1] else []
  }

  lemma {:induction false} PositionsCorrect(outs: seq<OutRec>, amount: nat)
    ensures var ps := Positions(outs, amount);
      && |ps| == Count(outs, amount)
      && (forall j, k :: 0 <= j < k < |ps| ==> ps[j] < ps[k])
      && (forall p: nat :: p in ps <==> p < |outs| && outs[p].amount == amount)
      && (forall k :: 0 <= k < |ps| ==> ps[k] < |outs| && Count(outs[..ps[k]], amount) == k)
  {
    if outs == [] {
    } else {
      var front := Init(outs);
      PositionsCorrect(front, amount);
      var ps, qs := Positions(front, amount), Positions(outs, amount);
      assert outs[..|outs| - 1] == front;
      forall k | 0 <= k < |ps|
        ensures Count(outs[..ps[k]], amount) == k
      {
        assert outs[..ps[k]] == front[..ps[k]];
      }
      assert forall p: nat :: p < |front| ==> outs[p] == front[p];
      assert forall p: nat :: p in qs <==> p in ps || (Last(outs).amount == amount && p == |front|);
    }
  }

  /** After any well-formed run, the rows of an amount are exactly the chain's outputs stored under
      it, in chain order: row `k` describes the `k`-th of them and there are no other rows. */
  lemma AmountRowsAreChainOutputs(ops: seq<Op>, amount: nat, k: nat)
    requires WellFormed(ops)
    ensures var t := Run(ops);
      var outs := AllOutputs(ChainRecs(ChainAfter(ops)));
      var ps := Positions(outs, amount);
      && ((amount, k) in t.outputAmounts <==> k < |ps|)
      && (k < |ps| ==>
            && ps[k] < |outs| && outs[ps[k]].amount == amount
            && t.outputAmounts[(amount, k)] == AmountRow(outs[ps[k]], ps[k]))
  {
    hide Run, ChainAfter, ChainRecs, BlacklistAfter, AllOutputs, AmountRows, Positions, Count,
      IndexLists, OutTxs, Txs, TxIndexRows, SpentBy, Blocks, Infos, HeightRows, Tabulate;
    RunCorrect(ops);
    var outs := AllOutputs(ChainRecs(ChainAfter(ops)));
    PositionsCorrect(outs, amount);
    AmountRowsDense(outs, amount, k);
    var ps := Positions(outs, amount);
    if k < |ps| {
      assert ps[k] in ps;
      RowOf(outs, ps[k]);
    }
  }

  /** After any well-formed run, both lookups of an amount and an index find something exactly when
      the chain stores more outputs than that under the amount, and then find the output in question;
      the source throws otherwise. */
  lemma LookupsAreChainOutputs(ops: seq<Op>, amount: nat, k: nat)
    requires WellFormed(ops)
    ensures var t := Run(ops);
      var outs := AllOutputs(ChainRecs(ChainAfter(ops)));
      var ps := Positions(outs, amount);
      if k < |ps| then
        && ps[k] < |outs|
        && OutputUnlockTimeAt(t, amount, k) == Some(outs[ps[k]].unlockTime)
        && OutputSource(t, amount, k) == Some(OutTx(outs[ps[k]].txHash, outs[ps[k]].localIndex))
      else OutputUnlockTimeAt(t, amount, k).None? && OutputSource(t, amount, k).None?
  {
    hide Run, ChainAfter, ChainRecs, BlacklistAfter, AllOutputs, AmountRows, Positions, Count,
      IndexLists, OutTxs, Txs, TxIndexRows, SpentBy, Blocks, Infos, HeightRows;
    AmountRowsAreChainOutputs(ops, amount, k);
    RunCorrect(ops);
    var outs := AllOutputs(ChainRecs(ChainAfter(ops)));
    var ps := Positions(outs, amount);
    if k < |ps| {
      RowOf(outs, ps[k]);
    }
  }

  // Double spends

  function InputSpends(vin: seq<TxInput>, k: KeyImage): nat
    decreases |vin|
  {
    if vin == [] then 0
    else (if vin[0] == ToKey(k) then 1 else 0) + InputSpends(vin[1..], k)
  }

  /** How many inputs of the chain spend the key image. */
  function Spends(recs: seq<TxRec>, k: KeyImage): nat {
    if recs == [] then 0 else Spends(Init(recs), k) + InputSpends(Last(recs).tx.vin, k)
  }

  lemma {:induction false} FreshSpendsOnce(spent: set<KeyImage>, vin: seq<TxInput>, k: KeyImage)
    requires FreshKeys(spent, vin)
    ensures InputSpends(vin, k) == if k in KeyImages(vin) then 1 else 0
    ensures k in spent ==> k !in KeyImages(vin)
    decreases |vin|
  {
    if vin == [] {
    } else {
      Adding.KeyImagesCons(vin);
      FreshSpendsOnce(if vin[0].ToKey? then spent + {vin[0].keyImage} else spent, vin[1..], k);
    }
  }

  lemma {:induction false} SpendsOnce(recs: seq<TxRec>, more: seq<TxRec>, k: KeyImage)
    requires TxsAdmissible(recs, more)
    requires Spends(recs, k) == if k in SpentBy(recs) then 1 else 0
    ensures Spends(recs + more, k) == if k in SpentBy(recs + more) then 1 else 0
    decreases |more|
  {
    hide FreshKeys, OutputStorable, SpentBy, InputSpends, KeyImages;
    if more == [] {
      assert recs + more == recs;
    } else {
      var r := more[0];
      FreshSpendsOnce(SpentBy(recs), r.tx.vin, k);
      SpentBySnoc(recs, r);
      SnocParts(recs, r);
      SpendsOnce(recs + [r], more[1..], k);
      assert recs + [r] + more[1..] == recs + more;
    }
  }

  lemma {:induction false} ChainSpendsOnce(chain: seq<Entry>, k: KeyImage)
    requires ValidChain(chain)
    ensures var recs := ChainRecs(chain);
      Spends(recs, k) == if k in SpentBy(recs) then 1 else 0
  {
    hide TxsAdmissible, BlockRecs;
    if chain == [] {
    } else {
      ChainSpendsOnce(Init(chain), k);
      SpendsOnce(ChainRecs(Init(chain)), BlockRecs(Last(chain), |chain| - 1), k);
    }
  }

  /** After any well-formed run, a key image is in the spent-key table exactly when exactly one
      input of the chain spends it, and no key image is spent by two. */
  lemma NoDoubleSpend(ops: seq<Op>, k: KeyImage)
    requires WellFormed(ops)
    ensures var spends := Spends(ChainRecs(ChainAfter(ops)), k);
      spends <= 1 && (k in Run(ops).spentKeys <==> spends == 1)
  {
    hide Run, ChainAfter, ChainRecs, BlacklistAfter, ValidChain, Spends;
    RunCorrect(ops);
    ChainAfterValid(ops);
    ChainSpendsOnce(ChainAfter(ops), k);
  }
}
