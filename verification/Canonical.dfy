/**
 The tables as a function of the chain alone. Every table is read off the list of blocks, or off
 the list of their transactions in chain order, without the operations that build it; only the
 RingCT count in a block's record is the one `add_block` makes of that block.
 */
module Canonical {
  import opened Naturals
  import opened Wrappers
  import opened Ledger
  import opened Backend

  /** A transaction as the chain holds it: under which hash and in the block at which height. */
  datatype TxRec = TxRec(hash: Hash, tx: Transaction, height: nat)

  /** An output as the chain holds it. */
  datatype OutRec = OutRec(
    txHash: Hash, localIndex: nat, amount: nat, target: Target, unlockTime: nat, height: nat,
    commitment: Option<Commitment>)

  function Init<T>(s: seq<T>): seq<T>
    requires s != []
  {
    s[..|s| - 1]
  }

  function Last<T>(s: seq<T>): T
    requires s != []
  {
    s[|s| - 1]
  }

  lemma SnocParts<T>(s: seq<T>, x: T)
    ensures Init(s + [x]) == s && Last(s + [x]) == x
  {
  }

  /** A table whose keys are the positions of a list. */
  function Tabulate<V>(s: seq<V>): map<nat, V> {
    map i | 0 <= i < |s| :: s[i]
  }

  // Outputs

  function OutputOf(r: TxRec, i: nat): OutRec
    requires i < |r.tx.vout|
  {
    OutRec(r.hash, i, StoredAmount(r.tx, i), r.tx.vout[i].target, OutputUnlockTime(r.tx, i),
           r.height, OutputCommitment(r.tx, i))
  }

  function OutputsOf(r: TxRec): seq<OutRec> {
    seq(|r.tx.vout|, i requires 0 <= i < |r.tx.vout| => OutputOf(r, i))
  }

  function AllOutputs(recs: seq<TxRec>): seq<OutRec> {
    if recs == [] then [] else AllOutputs(Init(recs)) + OutputsOf(Last(recs))
  }

  /** How many of the outputs are stored under `amount`. */
  function Count(outs: seq<OutRec>, amount: nat): nat {
    if outs == [] then 0
    else Count(Init(outs), amount) + if Last(outs).amount == amount then 1 else 0
  }

  function OutTxs(outs: seq<OutRec>): seq<OutTx> {
    if outs == [] then [] else OutTxs(Init(outs)) + [OutTx(Last(outs).txHash, Last(outs).localIndex)]
  }

  function AmountRow(o: OutRec, id: nat): OutKey {
    OutKey(id, o.target, o.unlockTime, o.height, if o.amount == 0 then o.commitment else None)
  }

  /** Output `i` of the chain is row `Count(outs[..i], amount)` of its amount. */
  function AmountRows(outs: seq<OutRec>): map<(nat, nat), OutKey> {
    if outs == [] then map[]
    else AmountRows(Init(outs))[
        (Last(outs).amount, Count(Init(outs), Last(outs).amount)) :=
          AmountRow(Last(outs), |outs| - 1)]
  }

  // Transactions

  function Txs(recs: seq<TxRec>): seq<Transaction> {
    if recs == [] then [] else Txs(Init(recs)) + [Last(recs).tx]
  }

  function TxIndexRows(recs: seq<TxRec>): map<Hash, TxIndex> {
    if recs == [] then map[]
    else
      var r := Last(recs);
      TxIndexRows(Init(recs))[r.hash := TxIndex(|recs| - 1, r.tx.unlockTime, r.height)]
  }

  /** The amount indices of the outputs `mine` when they follow the outputs `before`. */
  function IndexList(before: seq<OutRec>, mine: seq<OutRec>): seq<nat> {
    seq(|mine|, k requires 0 <= k < |mine| => Count(before + mine[..k], mine[k].amount))
  }

  function IndexLists(recs: seq<TxRec>): seq<seq<nat>> {
    if recs == [] then []
    else IndexLists(Init(recs)) + [IndexList(AllOutputs(Init(recs)), OutputsOf(Last(recs)))]
  }

  function SpentBy(recs: seq<TxRec>): set<KeyImage> {
    set i, j | 0 <= i < |recs| && 0 <= j < |recs[i].tx.vin| && recs[i].tx.vin[j].ToKey?
      :: recs[i].tx.vin[j].keyImage
  }

  // Blocks

  function TxRecsOf(txs: seq<Transaction>, hashes: seq<Hash>, height: nat): seq<TxRec>
    requires |txs| == |hashes|
  {
    seq(|txs|, i requires 0 <= i < |txs| => TxRec(hashes[i], txs[i], height))
  }

  /** The transactions of a block in the order they are stored: the miner's first. */
  function BlockRecs(e: Entry, height: nat): seq<TxRec> {
    [TxRec(e.block.minerTx.hash, e.block.minerTx, height)]
    + if |e.txs| == |e.block.txHashes| then TxRecsOf(e.txs, e.block.txHashes, height) else []
  }

  function ChainRecs(chain: seq<Entry>): seq<TxRec> {
    if chain == [] then []
    else ChainRecs(Init(chain)) + BlockRecs(Last(chain), |chain| - 1)
  }

  /** The RingCT count in the top block's record: a running sum that restarts at every block of
      major version below 4. */
  function CumulativeRct(chain: seq<Entry>): nat {
    if chain == [] then 0
    else if Last(chain).block.majorVersion < 4 then NumRctOutputs(Last(chain))
    else NumRctOutputs(Last(chain)) + CumulativeRct(Init(chain))
  }

  function Blocks(chain: seq<Entry>): seq<Block> {
    if chain == [] then [] else Blocks(Init(chain)) + [Last(chain).block]
  }

  function Infos(chain: seq<Entry>): seq<BlockInfo> {
    if chain == [] then []
    else
      var e := Last(chain);
      Infos(Init(chain)) + [BlockInfo(e.block.hash, e.meta, CumulativeRct(chain))]
  }

  function HeightRows(chain: seq<Entry>): map<Hash, nat> {
    if chain == [] then map[]
    else HeightRows(Init(chain))[Last(chain).block.hash := |chain| - 1]
  }

  // The whole database

  /** The tables when `chain` are the recorded blocks and `recs` the stored transactions. While a
      block is being added or popped, `recs` runs ahead of `chain`. */
  function TablesOf(chain: seq<Entry>, recs: seq<TxRec>, blacklist: set<nat>): Tables {
    Tables(Tabulate(Blocks(chain)), Tabulate(Infos(chain)), HeightRows(chain),
           TxIndexRows(recs), Tabulate(Txs(recs)), Tabulate(IndexLists(recs)),
           Tabulate(OutTxs(AllOutputs(recs))), AmountRows(AllOutputs(recs)),
           SpentBy(recs), blacklist)
  }

  function ChainTables(chain: seq<Entry>, blacklist: set<nat>): Tables {
    TablesOf(chain, ChainRecs(chain), blacklist)
  }

  // What can be added

  /** Every key image of `vin` is new, also with respect to the inputs before it. */
  predicate FreshKeys(spent: set<KeyImage>, vin: seq<TxInput>)
    decreases |vin|
  {
    vin == [] ||
    if vin[0].ToKey?
    then vin[0].keyImage !in spent && FreshKeys(spent + {vin[0].keyImage}, vin[1..])
    else FreshKeys(spent, vin[1..])
  }

  predicate OutputStorable(tx: Transaction, i: nat)
    requires i < |tx.vout|
  {
    tx.vout[i].target.KeyTarget? && (StoredAmount(tx, i) == 0 ==> tx.version >= V2_RINGCT)
  }

  predicate TxAdmissible(recs: seq<TxRec>, r: TxRec) {
    && FreshKeys(SpentBy(recs), r.tx.vin)
    && (forall k :: 0 <= k < |recs| ==> recs[k].hash != r.hash)
    && (forall i :: 0 <= i < |r.tx.vout| ==> OutputStorable(r.tx, i))
  }

  predicate TxsAdmissible(recs: seq<TxRec>, more: seq<TxRec>)
    decreases |more|
  {
    more == [] || (TxAdmissible(recs, more[0]) && TxsAdmissible(recs + [more[0]], more[1..]))
  }

  predicate BlockAdmissible(chain: seq<Entry>, e: Entry) {
    && |e.block.txHashes| == |e.txs|
    && TxsAdmissible(ChainRecs(chain), BlockRecs(e, |chain|))
    && (forall k :: 0 <= k < |chain| ==> chain[k].block.hash != e.block.hash)
    && (chain != [] ==> Last(chain).block.hash == e.block.prevId)
  }

  /** A chain each block of which could be added to the blocks below it. */
  predicate ValidChain(chain: seq<Entry>) {
    chain == [] || (ValidChain(Init(chain)) && BlockAdmissible(Init(chain), Last(chain)))
  }

  /** The two conditions under which removing a transaction undoes adding it. */
  predicate Reversible(tx: Transaction) {
    && Supported(tx.vin)
    && forall i :: 0 <= i < |tx.vout| ==> StoredAmount(tx, i) == RemovedAmount(tx, i)
  }

  predicate BlockReversible(e: Entry) {
    Reversible(e.block.minerTx) && forall i :: 0 <= i < |e.txs| ==> Reversible(e.txs[i])
  }

  predicate BlockSupported(e: Entry) {
    Supported(e.block.minerTx.vin) && forall i :: 0 <= i < |e.txs| ==> Supported(e.txs[i].vin)
  }

  // Basic facts

  lemma AllOutputsSnoc(recs: seq<TxRec>, r: TxRec)
    ensures AllOutputs(recs + [r]) == AllOutputs(recs) + OutputsOf(r)
  {
    SnocParts(recs, r);
  }

  /** The tables of one more transaction. */
  lemma RecsSnoc(recs: seq<TxRec>, r: TxRec)
    ensures |Txs(recs)| == |IndexLists(recs)| == |recs|
    ensures Txs(recs + [r]) == Txs(recs) + [r.tx]
    ensures IndexLists(recs + [r]) ==
            IndexLists(recs) + [IndexList(AllOutputs(recs), OutputsOf(r))]
    ensures TxIndexRows(recs + [r]) ==
            TxIndexRows(recs)[r.hash := TxIndex(|recs|, r.tx.unlockTime, r.height)]
  {
    ListSizes(recs);
    SnocParts(recs, r);
  }

  lemma {:induction false} ListSizes(recs: seq<TxRec>)
    ensures |Txs(recs)| == |IndexLists(recs)| == |recs|
  {
    if recs == [] {
    } else {
      ListSizes(Init(recs));
    }
  }

  lemma OutputsSnoc(outs: seq<OutRec>, o: OutRec)
    ensures |OutTxs(outs)| == |outs|
    ensures OutTxs(outs + [o]) == OutTxs(outs) + [OutTx(o.txHash, o.localIndex)]
    ensures AmountRows(outs + [o]) ==
            AmountRows(outs)[(o.amount, Count(outs, o.amount)) := AmountRow(o, |outs|)]
  {
    OutTxsSize(outs);
    SnocParts(outs, o);
  }

  lemma {:induction false} OutTxsSize(outs: seq<OutRec>)
    ensures |OutTxs(outs)| == |outs|
  {
    if outs == [] {
    } else {
      OutTxsSize(Init(outs));
    }
  }

  /** The tables of one more block. */
  lemma ChainSnoc(chain: seq<Entry>, e: Entry)
    ensures |Blocks(chain)| == |Infos(chain)| == |chain|
    ensures Blocks(chain + [e]) == Blocks(chain) + [e.block]
    ensures Infos(chain + [e]) ==
            Infos(chain) + [BlockInfo(e.block.hash, e.meta, CumulativeRct(chain + [e]))]
    ensures HeightRows(chain + [e]) == HeightRows(chain)[e.block.hash := |chain|]
    ensures ChainRecs(chain + [e]) == ChainRecs(chain) + BlockRecs(e, |chain|)
  {
    BlockListSizes(chain);
    SnocParts(chain, e);
  }

  lemma {:induction false} BlockListSizes(chain: seq<Entry>)
    ensures |Blocks(chain)| == |Infos(chain)| == |chain|
  {
    if chain == [] {
    } else {
      BlockListSizes(Init(chain));
    }
  }

  lemma CountSnoc(outs: seq<OutRec>, o: OutRec, amount: nat)
    ensures Count(outs + [o], amount) == Count(outs, amount) + if o.amount == amount then 1 else 0
  {
    SnocParts(outs, o);
  }

  lemma AmountIndicesUpdate(rows: map<(nat, nat), OutKey>, key: (nat, nat), row: OutKey, amount: nat)
    ensures AmountIndices(rows[key := row], amount) ==
            AmountIndices(rows, amount) + if key.0 == amount then {key.1} else {}
  {
    var rows' := rows[key := row];
    forall k | k in AmountIndices(rows, amount) + if key.0 == amount then {key.1} else {}
      ensures k in AmountIndices(rows', amount)
    {
      assert (amount, k) in rows' && (amount, k).0 == amount;
    }
  }

  lemma NoAmountIndices(amount: nat)
    ensures AmountIndices(map[], amount) == {}
  {
  }

  lemma {:induction false} AmountIndicesOf(outs: seq<OutRec>, amount: nat)
    ensures AmountIndices(AmountRows(outs), amount) == Below(Count(outs, amount))
  {
    hide AmountIndices;
    if outs == [] {
      NoAmountIndices(amount);
    } else {
      AmountIndicesOf(Init(outs), amount);
      var o := Last(outs);
      AmountIndicesUpdate(AmountRows(Init(outs)), (o.amount, Count(Init(outs), o.amount)),
                          AmountRow(o, |outs| - 1), amount);
    }
  }

  lemma AmountIndicesMember(rows: map<(nat, nat), OutKey>, amount: nat, k: nat)
    ensures (amount, k) in rows <==> k in AmountIndices(rows, amount)
  {
    if (amount, k) in rows {
      assert (amount, k).0 == amount && (amount, k).1 == k;
    }
  }

  /** The rows of an amount are numbered from 0 without gaps. */
  lemma AmountRowsDense(outs: seq<OutRec>, amount: nat, k: nat)
    ensures (amount, k) in AmountRows(outs) <==> k < Count(outs, amount)
  {
    AmountIndicesOf(outs, amount);
    AmountIndicesMember(AmountRows(outs), amount, k);
  }

  lemma TabulateSize<V>(s: seq<V>)
    ensures |Tabulate(s)| == |s| && NextId(Tabulate(s)) == |s|
  {
    var rows := Tabulate(s);
    assert rows.Keys == Below(|s|);
    assert |rows| == |rows.Keys|;
    if s != [] {
      assert |s| - 1 in rows.Keys;
    }
  }

  lemma TabulateSnoc<V>(s: seq<V>, x: V)
    ensures |Tabulate(s)| == |s| && NextId(Tabulate(s)) == |s|
    ensures Tabulate(s + [x]) == Tabulate(s)[|s| := x]
    ensures Tabulate(s + [x]) - {|s|} == Tabulate(s)
  {
    TabulateSize(s);
  }

  lemma {:induction false} TxIndexRowsKeys(recs: seq<TxRec>, h: Hash)
    ensures h in TxIndexRows(recs) <==> exists k :: 0 <= k < |recs| && recs[k].hash == h
  {
    if recs == [] {
    } else {
      TxIndexRowsKeys(Init(recs), h);
      assert forall k :: 0 <= k < |recs| - 1 ==> recs[k] == Init(recs)[k];
      assert Last(recs) == recs[|recs| - 1];
    }
  }

  lemma {:induction false} HeightRowsKeys(chain: seq<Entry>, h: Hash)
    ensures h in HeightRows(chain) <==> exists k :: 0 <= k < |chain| && chain[k].block.hash == h
  {
    if chain == [] {
    } else {
      HeightRowsKeys(Init(chain), h);
      assert forall k :: 0 <= k < |chain| - 1 ==> chain[k] == Init(chain)[k];
      assert Last(chain) == chain[|chain| - 1];
    }
  }

  lemma SpentBySnoc(recs: seq<TxRec>, r: TxRec)
    ensures SpentBy(recs + [r]) == SpentBy(recs) + KeyImages(r.tx.vin)
  {
    var all := recs + [r];
    forall k | k in SpentBy(recs) + KeyImages(r.tx.vin)
      ensures k in SpentBy(all)
    {
      if k in SpentBy(recs) {
        var i, j :| 0 <= i < |recs| && 0 <= j < |recs[i].tx.vin| && recs[i].tx.vin[j].ToKey?
          && recs[i].tx.vin[j].keyImage == k;
        assert all[i] == recs[i];
      } else {
        var j :| 0 <= j < |r.tx.vin| && r.tx.vin[j].ToKey? && r.tx.vin[j].keyImage == k;
        assert all[|recs|] == r;
      }
    }
    forall k | k in SpentBy(all)
      ensures k in SpentBy(recs) + KeyImages(r.tx.vin)
    {
      var i, j :| 0 <= i < |all| && 0 <= j < |all[i].tx.vin| && all[i].tx.vin[j].ToKey?
        && all[i].tx.vin[j].keyImage == k;
      assert all[i] == if i < |recs| then recs[i] else r;
    }
  }
}
