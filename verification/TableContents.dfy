/**
 What every table holds after a well-formed run, row by row, in terms of the fields of the blocks
 and transactions of the chain.
 */
module TableContents {
  import opened Wrappers
  import opened Ledger
  import opened Canonical
  import opened Runs
  import opened Indexes
  import Adding

  // The contents of the rows

  lemma {:induction false} AllStorable(recs: seq<TxRec>, more: seq<TxRec>, n: nat)
    requires TxsAdmissible(recs, more) && n < |more|
    ensures forall i :: 0 <= i < |more[n].tx.vout| ==> OutputStorable(more[n].tx, i)
    decreases |more|
  {
    hide FreshKeys, OutputStorable, SpentBy;
    if n == 0 {
    } else {
      AllStorable(recs + [more[0]], more[1..], n - 1);
    }
  }

  lemma {:induction false} ChainStorable(chain: seq<Entry>, n: nat)
    requires ValidChain(chain) && n < |ChainRecs(chain)|
    ensures var tx := ChainRecs(chain)[n].tx;
      forall i :: 0 <= i < |tx.vout| ==> OutputStorable(tx, i)
  {
    hide TxsAdmissible, BlockRecs, OutputStorable;
    var below := ChainRecs(Init(chain));
    if n < |below| {
      ChainStorable(Init(chain), n);
    } else {
      AllStorable(below, BlockRecs(Last(chain), |chain| - 1), n - |below|);
    }
  }

  lemma RecRow(chain: seq<Entry>, recs: seq<TxRec>, blacklist: set<nat>, n: nat, i: nat)
    requires n < |recs| && i < |recs[n].tx.vout|
    ensures var t := TablesOf(chain, recs, blacklist);
      && n in t.txOutputs && i < |t.txOutputs[n]|
      && var key := (StoredAmount(recs[n].tx, i), t.txOutputs[n][i]);
         key in t.outputAmounts
         && t.outputAmounts[key] == AmountRow(OutputOf(recs[n], i), |AllOutputs(recs[..n])| + i)
  {
    hide AllOutputs, IndexLists, OutTxs, AmountRows, Count, Txs, TxIndexRows, SpentBy, Blocks,
      Infos, HeightRows, StoredAmount, OutputUnlockTime, OutputCommitment;
    OutputAt(recs, n, i);
    RowOf(AllOutputs(recs), |AllOutputs(recs[..n])| + i);
    IndexListAt(recs, n);
  }

  /** After any well-formed run, what the row of output `i` of the `n`-th transaction of the chain
      holds, read off the transaction: it is filed under amount 0 if the transaction is v2+ with a
      coinbase input, and under its own amount otherwise; only amount-0 rows have a commitment, a
      coinbase's being the one to its amount, any other the output's mask. */
  lemma OutputRow(ops: seq<Op>, n: nat, i: nat)
    requires WellFormed(ops)
    requires n < |ChainRecs(ChainAfter(ops))| && i < |ChainRecs(ChainAfter(ops))[n].tx.vout|
    ensures var t := Run(ops);
      var r := ChainRecs(ChainAfter(ops))[n];
      var output := r.tx.vout[i];
      var coinbase := exists j :: 0 <= j < |r.tx.vin| && r.tx.vin[j].Gen?;
      var amount := if r.tx.version >= 2 && coinbase then 0 else output.amount;
      && n in t.txOutputs && i < |t.txOutputs[n]|
      && (amount, t.txOutputs[n][i]) in t.outputAmounts
      && var row := t.outputAmounts[(amount, t.txOutputs[n][i])];
         && row.target == output.target
         && row.height == r.height
         && row.unlockTime == (if r.tx.version >= 3 then output.unlockTime else r.tx.unlockTime)
         && row.commitment == (if amount != 0 then None
                               else if coinbase then Some(ZeroCommit(output.amount))
                               else Some(output.mask))
  {
    hide Run, ChainAfter, ChainRecs, BlacklistAfter, ValidChain, AllOutputs, TablesOf;
    var chain := ChainAfter(ops);
    RunCorrect(ops);
    ChainAfterValid(ops);
    ChainStorable(chain, n);
    assert OutputStorable(ChainRecs(chain)[n].tx, i);
    RecRow(chain, ChainRecs(chain), BlacklistAfter(ops), n, i);
  }

  // Blocks and transaction ids

  /** How many transactions the first `h` blocks hold: a miner transaction and the listed ones each. */
  function TxsBelow(chain: seq<Entry>, h: nat): nat
    requires h <= |chain|
  {
    if h == 0 then 0 else TxsBelow(chain, h - 1) + 1 + |chain[h - 1].txs|
  }

  lemma {:induction false} RecAt(chain: seq<Entry>, h: nat, j: nat)
    requires ValidChain(chain) && h < |chain| && j <= |chain[h].txs|
    ensures |chain[h].block.txHashes| == |chain[h].txs|
    ensures var e := chain[h];
      && TxsBelow(chain, h) + j < |ChainRecs(chain)|
      && ChainRecs(chain)[TxsBelow(chain, h) + j] ==
         if j == 0 then TxRec(e.block.minerTx.hash, e.block.minerTx, h)
         else TxRec(e.block.txHashes[j - 1], e.txs[j - 1], h)
    decreases |chain|
  {
    hide BlockAdmissible, BlockRecs, ChainRecs, TxsBelow;
    var front, e := Init(chain), Last(chain);
    assert front + [e] == chain;
    ChainSnoc(front, e);
    if h == |chain| - 1 {
      assert chain[..h] == front;
      RecCount(chain, h);
      SizesMatch(front, e);
      BlockRecAt(e, h, j);
    } else {
      RecAt(front, h, j);
      SameTxsBelow(front, e, h);
    }
  }

  lemma SizesMatch(chain: seq<Entry>, e: Entry)
    requires BlockAdmissible(chain, e)
    ensures |e.block.txHashes| == |e.txs|
  {
  }

  lemma BlockRecAt(e: Entry, h: nat, j: nat)
    requires |e.block.txHashes| == |e.txs| && j <= |e.txs|
    ensures |BlockRecs(e, h)| == 1 + |e.txs|
    ensures BlockRecs(e, h)[j] ==
            if j == 0 then TxRec(e.block.minerTx.hash, e.block.minerTx, h)
            else TxRec(e.block.txHashes[j - 1], e.txs[j - 1], h)
  {
  }

  lemma {:induction false} RecCount(chain: seq<Entry>, h: nat)
    requires ValidChain(chain) && h <= |chain|
    ensures |ChainRecs(chain[..h])| == TxsBelow(chain, h)
    decreases |chain|, h
  {
    hide BlockAdmissible, BlockRecs;
    if h == 0 {
    } else if h == |chain| {
      assert chain[..h] == chain && chain[..h - 1] == Init(chain);
      RecCount(chain, h - 1);
      SizesMatch(Init(chain), Last(chain));
      BlockRecAt(Last(chain), h - 1, 0);
    } else {
      var front := Init(chain);
      RecCount(front, h);
      SameTxsBelow(front, Last(chain), h);
      assert front + [Last(chain)] == chain && front[..h] == chain[..h];
    }
  }

  lemma {:induction false} SameTxsBelow(chain: seq<Entry>, e: Entry, h: nat)
    requires h <= |chain|
    ensures TxsBelow(chain + [e], h) == TxsBelow(chain, h)
  {
    if h == 0 {
    } else {
      SameTxsBelow(chain, e, h - 1);
    }
  }

  lemma {:induction false} TxAt(recs: seq<TxRec>, n: nat)
    requires n < |recs|
    ensures |Txs(recs)| == |recs| && Txs(recs)[n] == recs[n].tx
  {
    ListSizes(recs);
    ListSizes(Init(recs));
    if n == |recs| - 1 {
    } else {
      TxAt(Init(recs), n);
    }
  }

  /** After any well-formed run, transactions are numbered through the chain, in each block the miner
      transaction first and then the listed ones in their order, and are stored whole under those
      numbers. `j` is 0 for the miner transaction of block `h`. */
  lemma TransactionIds(ops: seq<Op>, h: nat, j: nat)
    requires WellFormed(ops) && h < |ChainAfter(ops)| && j <= |ChainAfter(ops)[h].txs|
    ensures var t := Run(ops);
      var e := ChainAfter(ops)[h];
      var id := TxsBelow(ChainAfter(ops), h) + j;
      && |e.block.txHashes| == |e.txs|
      && var tx := if j == 0 then e.block.minerTx else e.txs[j - 1];
         var hash := if j == 0 then e.block.minerTx.hash else e.block.txHashes[j - 1];
         && id in t.txs && t.txs[id] == tx
         && hash in t.txIndices && t.txIndices[hash] == TxIndex(id, tx.unlockTime, h)
  {
    hide Run, ChainAfter, ChainRecs, BlacklistAfter, ValidChain, TxsBelow, Txs, TxIndexRows, Blocks,
      Infos, HeightRows, IndexLists, OutTxs, AllOutputs, AmountRows, SpentBy;
    var chain := ChainAfter(ops);
    RunCorrect(ops);
    ChainAfterValid(ops);
    ChainHashesDistinct(chain);
    RecAt(chain, h, j);
    TxAt(ChainRecs(chain), TxsBelow(chain, h) + j);
    TxIndexAt(ChainRecs(chain), TxsBelow(chain, h) + j);
  }

  lemma {:induction false} BlockAt(chain: seq<Entry>, h: nat)
    requires h < |chain|
    ensures |Blocks(chain)| == |Infos(chain)| == |chain|
    ensures Blocks(chain)[h] == chain[h].block
    ensures Infos(chain)[h].hash == chain[h].block.hash && Infos(chain)[h].meta == chain[h].meta
  {
    BlockListSizes(chain);
    BlockListSizes(Init(chain));
    if h == |chain| - 1 {
    } else {
      BlockAt(Init(chain), h);
    }
  }

  lemma {:induction false} HeightAt(chain: seq<Entry>, h: nat)
    requires h < |chain| && Adding.DistinctHashes(chain)
    ensures chain[h].block.hash in HeightRows(chain) && HeightRows(chain)[chain[h].block.hash] == h
  {
    if h == |chain| - 1 {
    } else {
      HeightAt(Init(chain), h);
    }
  }

  /** After any well-formed run, block `h` of the chain is stored whole under its height, with its
      record and its hash leading back to the height, and there are no other blocks. */
  lemma BlockRows(ops: seq<Op>, h: nat)
    requires WellFormed(ops)
    ensures var t := Run(ops);
      var chain := ChainAfter(ops);
      && (h in t.blocks <==> h < |chain|) && (h in t.blockInfo <==> h < |chain|)
      && (h < |chain| ==>
            && t.blocks[h] == chain[h].block
            && t.blockInfo[h].hash == chain[h].block.hash && t.blockInfo[h].meta == chain[h].meta
            && chain[h].block.hash in t.blockHeights
            && t.blockHeights[chain[h].block.hash] == h)
  {
    hide Run, ChainAfter, ChainRecs, BlacklistAfter, ValidChain, Txs, TxIndexRows, Blocks, Infos,
      HeightRows, IndexLists, OutTxs, AllOutputs, AmountRows, SpentBy;
    var chain := ChainAfter(ops);
    RunCorrect(ops);
    ChainAfterValid(ops);
    Adding.ValidChainDistinct(chain);
    BlockListSizes(chain);
    if h < |chain| {
      BlockAt(chain, h);
      HeightAt(chain, h);
    }
  }

  // The blacklist

  /** Output `i` of `more[m]`, which follows the transactions `recs` and `more[..m]`, is row `k` of
      its amount, and its transaction is v2+ and names a contributor. */
  ghost predicate Blacklists(recs: seq<TxRec>, more: seq<TxRec>, m: nat, i: nat, k: nat) {
    && m < |more| && i < |more[m].tx.vout|
    && more[m].tx.version >= 2 && more[m].tx.namesContributor
    && k == Count(AllOutputs(recs + more[..m]) + OutputsOf(more[m])[..i], StoredAmount(more[m].tx, i))
  }

  lemma BlacklistedHere(recs: seq<TxRec>, r: TxRec, k: nat)
    ensures k in Adding.BlacklistedBy(recs, r) <==> exists i: nat :: Blacklists(recs, [r], 0, i, k)
  {
    hide Count, AllOutputs, StoredAmount;
    assert recs + [r][..0] == recs;
    var list := IndexList(AllOutputs(recs), OutputsOf(r));
    if k in Adding.BlacklistedBy(recs, r) {
      var i :| 0 <= i < |list| && list[i] == k;
      assert Blacklists(recs, [r], 0, i, k);
    }
    if i: nat :| Blacklists(recs, [r], 0, i, k) {
      assert list[i] == k;
    }
  }

  lemma BlacklistsTail(recs: seq<TxRec>, more: seq<TxRec>, m: nat, i: nat, k: nat)
    requires 0 < m < |more|
    ensures Blacklists(recs, more, m, i, k) <==> Blacklists(recs + [more[0]], more[1..], m - 1, i, k)
  {
    assert recs + more[..m] == recs + [more[0]] + more[1..][..m - 1];
  }

  lemma {:induction false} BlacklistedExactly(recs: seq<TxRec>, more: seq<TxRec>, k: nat)
    ensures k in Adding.BlacklistedByAll(recs, more) <==>
            exists m: nat, i: nat :: Blacklists(recs, more, m, i, k)
    decreases |more|
  {
    hide Adding.BlacklistedBy, Blacklists;
    if more == [] {
      NoneBlacklists(recs, k);
    } else {
      BlacklistedHere(recs, more[0], k);
      BlacklistedExactly(recs + [more[0]], more[1..], k);
      forall i: nat {
        FirstBlacklists(recs, more, i, k);
      }
      forall m: nat, i: nat | 0 < m < |more| {
        BlacklistsTail(recs, more, m, i, k);
      }
      if m: nat, i: nat :| Blacklists(recs, more, m, i, k) {
        InMore(recs, more, m, i, k);
        if m > 0 {
          assert Blacklists(recs + [more[0]], more[1..], m - 1, i, k);
        }
      }
      if m: nat, i: nat :| Blacklists(recs + [more[0]], more[1..], m, i, k) {
        InMore(recs + [more[0]], more[1..], m, i, k);
        assert Blacklists(recs, more, m + 1, i, k);
      }
    }
  }

  lemma NoneBlacklists(recs: seq<TxRec>, k: nat)
    ensures !exists m: nat, i: nat :: Blacklists(recs, [], m, i, k)
  {
  }

  lemma InMore(recs: seq<TxRec>, more: seq<TxRec>, m: nat, i: nat, k: nat)
    requires Blacklists(recs, more, m, i, k)
    ensures m < |more|
  {
  }

  lemma FirstBlacklists(recs: seq<TxRec>, more: seq<TxRec>, i: nat, k: nat)
    requires more != []
    ensures Blacklists(recs, more, 0, i, k) <==> Blacklists(recs, [more[0]], 0, i, k)
  {
    assert recs + more[..0] == recs + [more[0]][..0];
  }

  /** The operation number `o` of the run added a block, and its transaction `m` (0 for the miner's)
      put output `i`, row `k` of its amount at the time, on the blacklist. */
  ghost predicate BlacklistedAt(ops: seq<Op>, o: nat, m: nat, i: nat, k: nat) {
    && o < |ops| && ops[o].Add?
    && var chain := ChainAfter(ops[..o]);
       && BlockAdmissible(chain, ops[o].entry)
       && Blacklists(ChainRecs(chain), BlockRecs(ops[o].entry, |chain|), m, i, k)
  }

  lemma {:induction false} BlacklistAfterIs(ops: seq<Op>, k: nat)
    ensures k in BlacklistAfter(ops) <==> exists o: nat, m: nat, i: nat :: BlacklistedAt(ops, o, m, i, k)
  {
    hide BlockAdmissible, Blacklists, ChainAfter, Adding.BlacklistedByAll;
    if ops == [] {
    } else {
      var front, last := Init(ops), |ops| - 1;
      BlacklistAfterIs(front, k);
      assert ops[..last] == front;
      var chain := ChainAfter(front);
      if ops[last].Add? {
        BlacklistedExactly(ChainRecs(chain), BlockRecs(ops[last].entry, |chain|), k);
      }
      forall o: nat, m: nat, i: nat | o < last
        ensures BlacklistedAt(ops, o, m, i, k) <==> BlacklistedAt(front, o, m, i, k)
      {
        assert front[..o] == ops[..o] && front[o] == ops[o];
      }
      if o: nat, m: nat, i: nat :| BlacklistedAt(front, o, m, i, k) {
        assert BlacklistedAt(ops, o, m, i, k);
      }
      if k in BlacklistedByOp(chain, ops[last]) {
        var m: nat, i: nat :|
          Blacklists(ChainRecs(chain), BlockRecs(ops[last].entry, |chain|), m, i, k);
        assert BlacklistedAt(ops, last, m, i, k);
      }
    }
  }

  /** After any well-formed run, an amount index is blacklisted exactly when some block the run
      accepted, still on the chain or not, had a v2+ transaction that names a contributor and an
      output which got that index. */
  lemma BlacklistIs(ops: seq<Op>, k: nat)
    requires WellFormed(ops)
    ensures k in Run(ops).blacklist <==> exists o: nat, m: nat, i: nat :: BlacklistedAt(ops, o, m, i, k)
  {
    hide BlacklistedAt, Run, ChainAfter, ChainRecs, BlacklistAfter;
    RunCorrect(ops);
    BlacklistAfterIs(ops, k);
    assert ChainTables(ChainAfter(ops), BlacklistAfter(ops)).blacklist == BlacklistAfter(ops);
  }
}
