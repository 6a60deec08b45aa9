/**
 The RingCT output counter. `add_block` counts a block's RingCT outputs with tests of its own,
 while `add_transaction` decides where outputs are stored; the block records keep a running sum.
 */
module RctCounter {
  import opened Naturals
  import opened Ledger
  import opened Backend
  import opened Canonical
  import opened Runs

  /** How many of the first `i` outputs are stored as amount-0 rows. */
  function StoredZeros(tx: Transaction, i: nat): nat
    requires i <= |tx.vout|
  {
    if i == 0 then 0 else StoredZeros(tx, i - 1) + if StoredAmount(tx, i - 1) == 0 then 1 else 0
  }

  lemma {:induction false} StoredZerosCoinbase(tx: Transaction, i: nat)
    requires i <= |tx.vout| && HasGen(tx.vin) && tx.version >= V2_RINGCT
    ensures StoredZeros(tx, i) == i
  {
    if i == 0 {
    } else {
      StoredZerosCoinbase(tx, i - 1);
    }
  }

  lemma {:induction false} StoredZerosListed(tx: Transaction, i: nat)
    requires i <= |tx.vout| && !(HasGen(tx.vin) && tx.version >= V2_RINGCT)
    ensures StoredZeros(tx, i) == ZeroAmountOutputs(tx.vout[..i])
  {
    if i == 0 {
    } else {
      StoredZerosListed(tx, i - 1);
      assert tx.vout[..i][..i - 1] == tx.vout[..i - 1];
    }
  }

  lemma {:induction false} ZerosBound(vout: seq<TxOutput>)
    ensures ZeroAmountOutputs(vout) <= |vout|
    ensures ZeroAmountOutputs(vout) == |vout| <==>
            forall i :: 0 <= i < |vout| ==> vout[i].amount == 0
  {
    if vout == [] {
    } else {
      ZerosBound(vout[..|vout| - 1]);
    }
  }

  lemma {:induction false} NoZeros(vout: seq<TxOutput>)
    ensures ZeroAmountOutputs(vout) == 0 <==> forall i :: 0 <= i < |vout| ==> vout[i].amount != 0
  {
    if vout == [] {
    } else {
      NoZeros(vout[..|vout| - 1]);
    }
  }

  /** The counter's share of a miner transaction is right exactly when it is a v2+ coinbase, or a
      v2+ transaction with only zero amounts, or a v1 transaction with none. */
  lemma MinerCountExact(tx: Transaction)
    ensures (if tx.version >= V2_RINGCT then |tx.vout| else 0) == StoredZeros(tx, |tx.vout|) <==>
            if tx.version >= V2_RINGCT
            then HasGen(tx.vin) || forall i :: 0 <= i < |tx.vout| ==> tx.vout[i].amount == 0
            else forall i :: 0 <= i < |tx.vout| ==> tx.vout[i].amount != 0
  {
    assert tx.vout[..|tx.vout|] == tx.vout;
    if HasGen(tx.vin) && tx.version >= V2_RINGCT {
      StoredZerosCoinbase(tx, |tx.vout|);
    } else {
      StoredZerosListed(tx, |tx.vout|);
      ZerosBound(tx.vout);
      NoZeros(tx.vout);
    }
  }

  /** Its share of a listed transaction is right exactly when that is no v2+ coinbase, or has only
      zero amounts. */
  lemma ListedCountExact(tx: Transaction)
    ensures ZeroAmountOutputs(tx.vout) == StoredZeros(tx, |tx.vout|) <==>
            (HasGen(tx.vin) && tx.version >= V2_RINGCT ==>
               forall i :: 0 <= i < |tx.vout| ==> tx.vout[i].amount == 0)
  {
    assert tx.vout[..|tx.vout|] == tx.vout;
    ZerosBound(tx.vout);
    if HasGen(tx.vin) && tx.version >= V2_RINGCT {
      StoredZerosCoinbase(tx, |tx.vout|);
    } else {
      StoredZerosListed(tx, |tx.vout|);
    }
  }

  /** The miner transaction creates coins and no other transaction does. */
  predicate CoinbaseShape(e: Entry) {
    HasGen(e.block.minerTx.vin) && forall i :: 0 <= i < |e.txs| ==> !HasGen(e.txs[i].vin)
  }

  // From transactions to blocks

  lemma {:induction false} CountAppend(a: seq<OutRec>, b: seq<OutRec>, amount: nat)
    ensures Count(a + b, amount) == Count(a, amount) + Count(b, amount)
  {
    if b == [] {
      assert a + b == a;
    } else {
      CountAppend(a, Init(b), amount);
      assert a + b == a + Init(b) + [Last(b)];
      CountSnoc(a + Init(b), Last(b), amount);
    }
  }

  lemma {:induction false} CountTxZeros(r: TxRec, i: nat)
    requires i <= |r.tx.vout|
    ensures Count(OutputsOf(r)[..i], 0) == StoredZeros(r.tx, i)
  {
    if i == 0 {
    } else {
      CountTxZeros(r, i - 1);
      assert OutputsOf(r)[..i] == OutputsOf(r)[..i - 1] + [OutputOf(r, i - 1)];
      CountSnoc(OutputsOf(r)[..i - 1], OutputOf(r, i - 1), 0);
    }
  }

  /** The amount-0 rows of one more transaction. */
  lemma ZeroRowsSnoc(recs: seq<TxRec>, r: TxRec)
    ensures Count(AllOutputs(recs + [r]), 0)
         == Count(AllOutputs(recs), 0) + StoredZeros(r.tx, |r.tx.vout|)
  {
    hide Count, AllOutputs;
    AllOutputsSnoc(recs, r);
    CountAppend(AllOutputs(recs), OutputsOf(r), 0);
    CountTxZeros(r, |r.tx.vout|);
    assert OutputsOf(r)[..|r.tx.vout|] == OutputsOf(r);
  }

  lemma {:induction false} ListedGrowth(
    recs: seq<TxRec>, txs: seq<Transaction>, hashes: seq<Hash>, height: nat)
    requires |txs| == |hashes|
    requires forall i :: 0 <= i < |txs| ==> !HasGen(txs[i].vin)
    ensures Count(AllOutputs(recs + TxRecsOf(txs, hashes, height)), 0)
         == Count(AllOutputs(recs), 0) + ListedRctOutputs(txs)
    decreases |txs|
  {
    hide AllOutputs, HasGen, StoredZeros, Count, ZeroAmountOutputs;
    var more := TxRecsOf(txs, hashes, height);
    if txs == [] {
      assert recs + more == recs;
    } else {
      var front := TxRecsOf(Init(txs), Init(hashes), height);
      var r := TxRec(Last(hashes), Last(txs), height);
      ListedGrowth(recs, Init(txs), Init(hashes), height);
      assert recs + more == recs + front + [r];
      ZeroRowsSnoc(recs + front, r);
      ListedCountExact(r.tx);
    }
  }

  /** `num_rct_outs` of an accepted block is the number of amount-0 rows the block adds. */
  lemma CounterIsGrowth(chain: seq<Entry>, e: Entry)
    requires BlockAdmissible(chain, e) && CoinbaseShape(e)
    ensures Count(AllOutputs(ChainRecs(chain + [e])), 0)
         == Count(AllOutputs(ChainRecs(chain)), 0) + NumRctOutputs(e)
  {
    hide AllOutputs, HasGen, StoredZeros, Count, ListedRctOutputs, ZeroAmountOutputs, FreshKeys,
      StoredAmount, ChainRecs, SpentBy;
    var recs := ChainRecs(chain);
    var tx := e.block.minerTx;
    var miner := TxRec(tx.hash, tx, |chain|);
    var listed := TxRecsOf(e.txs, e.block.txHashes, |chain|);
    ChainSnoc(chain, e);
    assert recs + BlockRecs(e, |chain|) == recs + [miner] + listed;
    ListedGrowth(recs + [miner], e.txs, e.block.txHashes, |chain|);
    ZeroRowsSnoc(recs, miner);
    assert TxAdmissible(recs, miner) by {
      assert BlockRecs(e, |chain|)[0] == miner;
    }
    MinerCountHere(miner);
  }

  lemma MinerCountHere(r: TxRec)
    requires HasGen(r.tx.vin)
    requires forall i :: 0 <= i < |r.tx.vout| ==> OutputStorable(r.tx, i)
    ensures StoredZeros(r.tx, |r.tx.vout|) == if r.tx.version >= V2_RINGCT then |r.tx.vout| else 0
  {
    MinerCountExact(r.tx);
    if r.tx.version < V2_RINGCT {
      forall i | 0 <= i < |r.tx.vout|
        ensures r.tx.vout[i].amount != 0
      {
        assert OutputStorable(r.tx, i);
      }
    }
  }

  /** How many blocks lie below the part of the chain that the running sum covers: the sum starts
      over at the topmost block of major version below 4. */
  function Uncounted(chain: seq<Entry>): nat {
    if chain == [] then 0
    else if Last(chain).block.majorVersion < 4 then |chain| - 1
    else Uncounted(Init(chain))
  }

  lemma {:induction false} UncountedBound(chain: seq<Entry>)
    ensures Uncounted(chain) <= |chain|
  {
    if chain == [] {
    } else {
      UncountedBound(Init(chain));
    }
  }

  predicate CoinbaseChain(chain: seq<Entry>) {
    forall i :: 0 <= i < |chain| ==> CoinbaseShape(chain[i])
  }

  function ZeroRows(chain: seq<Entry>): nat {
    Count(AllOutputs(ChainRecs(chain)), 0)
  }

  /** The running sum covers exactly the blocks from the last restart on. */
  lemma {:induction false} RunningSum(chain: seq<Entry>)
    requires ValidChain(chain) && CoinbaseChain(chain)
    ensures Uncounted(chain) <= |chain|
    ensures ZeroRows(chain) == ZeroRows(chain[..Uncounted(chain)]) + CumulativeRct(chain)
  {
    hide BlockAdmissible, CoinbaseShape, Count, AllOutputs, ChainRecs, NumRctOutputs;
    if chain == [] {
      assert chain[..0] == chain;
    } else {
      var front := Init(chain);
      UncountedBound(front);
      RunningSum(front);
      assert front + [Last(chain)] == chain;
      assert Last(chain) == chain[|chain| - 1];
      CounterIsGrowth(front, Last(chain));
      assert chain[..Uncounted(front)] == front[..Uncounted(front)];
    }
  }

  lemma {:induction false} PrefixFacts(chain: seq<Entry>, h: nat)
    requires ValidChain(chain) && h < |chain|
    ensures ValidChain(chain[..h + 1])
    ensures |Infos(chain)| == |chain| && Infos(chain)[h].cumRct == CumulativeRct(chain[..h + 1])
  {
    hide BlockAdmissible, CumulativeRct;
    BlockListSizes(chain);
    BlockListSizes(Init(chain));
    if h == |chain| - 1 {
      assert chain[..h + 1] == chain;
    } else {
      PrefixFacts(Init(chain), h);
      assert Init(chain)[..h + 1] == chain[..h + 1];
    }
  }

  /** After any well-formed run, the record at height `h` holds the length the amount-0 list had
      when that block was on top exactly when no block below the last restart of the sum stored an
      amount-0 row; in particular when every block has major version 4 or above. The list itself,
      now, has as many rows as the whole chain stored. */
  lemma RecordedCountIsZeroRows(ops: seq<Op>, h: nat)
    requires WellFormed(ops) && CoinbaseChain(ChainAfter(ops)) && h < |ChainAfter(ops)|
    ensures var chain := ChainAfter(ops);
      var upTo := chain[..h + 1];
      var t := Run(ops);
      && h in t.blockInfo
      && Uncounted(upTo) <= h + 1
      && AmountIndices(t.outputAmounts, 0) == Below(ZeroRows(chain))
      && (t.blockInfo[h].cumRct == ZeroRows(upTo) <==> ZeroRows(upTo[..Uncounted(upTo)]) == 0)
  {
    hide Run, ChainAfter, Uncounted, CumulativeRct, Count, AllOutputs, ChainRecs, CoinbaseShape,
      AmountRows, AmountIndices, ValidChain, BlacklistAfter, TxIndexRows, Txs, IndexLists, OutTxs,
      SpentBy, HeightRows, Blocks, Infos;
    var chain := ChainAfter(ops);
    RunCorrect(ops);
    ChainAfterValid(ops);
    PrefixFacts(chain, h);
    RunningSum(chain[..h + 1]);
    AmountIndicesOf(AllOutputs(ChainRecs(chain)), 0);
  }

  // What is counted

  /** The outputs of amount 0, as pairs of the transaction's number and the output's. */
  function ZerosAt(t: nat, vout: seq<TxOutput>): set<(nat, nat)> {
    set j | 0 <= j < |vout| && vout[j].amount == 0 :: (t, j)
  }

  /** The outputs `add_block` counts, as pairs of the transaction's number in the block, 0 for the
      miner's, and the output's: all of a v2+ miner transaction, and those of amount 0 of the others. */
  function CountedIn(e: Entry): set<(nat, nat)> {
    MinerCounted(e.block.minerTx) + ListedZeros(e.txs)
  }

  function MinerCounted(tx: Transaction): set<(nat, nat)> {
    set j | 0 <= j < |tx.vout| && tx.version >= 2 :: (0, j)
  }

  function ListedZeros(txs: seq<Transaction>): set<(nat, nat)> {
    set i, j | 0 <= i < |txs| && 0 <= j < |txs[i].vout| && txs[i].vout[j].amount == 0 :: (i + 1, j)
  }

  lemma {:induction false} ZerosSize(t: nat, vout: seq<TxOutput>)
    ensures |ZerosAt(t, vout)| == ZeroAmountOutputs(vout)
  {
    if vout == [] {
    } else {
      var n := |vout| - 1;
      ZerosSize(t, vout[..n]);
      var added := if vout[n].amount == 0 then {(t, n)} else {};
      assert ZerosAt(t, vout) == ZerosAt(t, vout[..n]) + added;
    }
  }

  lemma {:induction false} ListedZerosSize(txs: seq<Transaction>)
    ensures |ListedZeros(txs)| == ListedRctOutputs(txs)
  {
    hide ZeroAmountOutputs;
    if txs == [] {
    } else {
      var n := |txs| - 1;
      ListedZerosSize(txs[..n]);
      ZerosSize(n + 1, txs[n].vout);
      ListedZerosSnoc(txs);
      assert ListedZeros(txs[..n]) !! ZerosAt(n + 1, txs[n].vout);
    }
  }

  lemma ListedZerosSnoc(txs: seq<Transaction>)
    requires txs != []
    ensures var n := |txs| - 1;
      ListedZeros(txs) == ListedZeros(txs[..n]) + ZerosAt(n + 1, txs[n].vout)
  {
    var n := |txs| - 1;
    var front := txs[..n];
    forall p | p in ListedZeros(front)
      ensures p in ListedZeros(txs)
    {
      var i, j :| 0 <= i < |front| && 0 <= j < |front[i].vout| && front[i].vout[j].amount == 0
        && p == (i + 1, j);
      assert txs[i] == front[i];
    }
    forall p | p in ListedZeros(txs)
      ensures p in ListedZeros(front) + ZerosAt(n + 1, txs[n].vout)
    {
      var i, j :| 0 <= i < |txs| && 0 <= j < |txs[i].vout| && txs[i].vout[j].amount == 0
        && p == (i + 1, j);
      if i < n {
        assert front[i] == txs[i];
      }
    }
  }

  lemma {:induction false} MinerCountedSize(tx: Transaction)
    ensures |MinerCounted(tx)| == if tx.version >= 2 then |tx.vout| else 0
    decreases |tx.vout|
  {
    if tx.version < 2 {
      assert MinerCounted(tx) == {};
    } else if tx.vout != [] {
      var n := |tx.vout| - 1;
      var front := MinerCounted(tx.(vout := tx.vout[..n]));
      MinerCountedSize(tx.(vout := tx.vout[..n]));
      assert MinerCounted(tx) == front + {(0, n)};
    }
  }

  /** `num_rct_outs`, whatever the block looks like. */
  lemma NumRctOutputsAre(e: Entry)
    ensures NumRctOutputs(e) == |CountedIn(e)|
  {
    hide ListedRctOutputs, ZeroAmountOutputs;
    var mine := MinerCounted(e.block.minerTx);
    MinerCountedSize(e.block.minerTx);
    ListedZerosSize(e.txs);
    assert mine !! ListedZeros(e.txs);
  }

  /** The counted outputs of the blocks from `from` up to, but not at, `end`. */
  function Counted(chain: seq<Entry>, from: nat, end: nat): set<(nat, (nat, nat))>
    requires end <= |chain|
  {
    set b, p | from <= b < end && p in CountedIn(chain[b]) :: (b, p)
  }

  function Tagged(b: nat, s: set<(nat, nat)>): set<(nat, (nat, nat))> {
    set p | p in s :: (b, p)
  }

  lemma {:induction false} TaggedSize(b: nat, s: set<(nat, nat)>)
    ensures |Tagged(b, s)| == |s|
  {
    if s == {} {
      assert Tagged(b, s) == {};
    } else {
      var x :| x in s;
      TaggedSize(b, s - {x});
      assert Tagged(b, s) == Tagged(b, s - {x}) + {(b, x)};
      assert (b, x) !in Tagged(b, s - {x});
    }
  }

  lemma CountedSnoc(chain: seq<Entry>, from: nat)
    requires chain != [] && from < |chain|
    ensures |Counted(chain, from, |chain|)|
         == |Counted(Init(chain), from, |chain| - 1)| + |CountedIn(Last(chain))|
  {
    hide CountedIn;
    var n := |chain| - 1;
    var top := Tagged(n, CountedIn(Last(chain)));
    TaggedSize(n, CountedIn(Last(chain)));
    assert forall b :: 0 <= b < n ==> Init(chain)[b] == chain[b];
    assert Counted(chain, from, |chain|) == Counted(Init(chain), from, n) + top;
    assert Counted(Init(chain), from, n) !! top;
  }

  lemma {:induction false} CumulativeRctIs(chain: seq<Entry>)
    ensures CumulativeRct(chain) == |Counted(chain, Uncounted(chain), |chain|)|
  {
    hide CountedIn, NumRctOutputs;
    if chain == [] {
      assert Counted(chain, 0, 0) == {};
    } else {
      var n := |chain| - 1;
      NumRctOutputsAre(Last(chain));
      UncountedBound(Init(chain));
      CountedSnoc(chain, Uncounted(chain));
      if Last(chain).block.majorVersion < 4 {
        assert Counted(Init(chain), n, n) == {};
      } else {
        CumulativeRctIs(Init(chain));
      }
    }
  }

  /** After any well-formed run, whatever its blocks look like, the record at height `h` holds the
      number of outputs counted in the blocks from the last restart of the sum up to that height. */
  lemma RecordedCountIs(ops: seq<Op>, h: nat)
    requires WellFormed(ops) && h < |ChainAfter(ops)|
    ensures var chain := ChainAfter(ops);
      && h in Run(ops).blockInfo
      && Run(ops).blockInfo[h].cumRct == |Counted(chain, Uncounted(chain[..h + 1]), h + 1)|
  {
    hide Run, ChainAfter, Uncounted, CumulativeRct, AllOutputs, ChainRecs, AmountRows, ValidChain,
      BlacklistAfter, TxIndexRows, Txs, IndexLists, OutTxs, SpentBy, HeightRows, Blocks, Infos,
      CountedIn;
    var chain := ChainAfter(ops);
    RunCorrect(ops);
    ChainAfterValid(ops);
    PrefixFacts(chain, h);
    CumulativeRctIs(chain[..h + 1]);
    var from := Uncounted(chain[..h + 1]);
    assert Counted(chain[..h + 1], from, h + 1) == Counted(chain, from, h + 1);
  }
}
