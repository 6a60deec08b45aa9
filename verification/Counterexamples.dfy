/**
 Concrete inputs at which properties one might expect of the store fail. The exact conditions are
 in the modules imported here.
 */
module Counterexamples {
  import opened Ledger
  import opened Backend
  import opened Canonical
  import opened Adding
  import opened Popping
  import opened Runs
  import opened Undo
  import opened UndoBlock
  import opened RctCounter
  import opened Store
  import opened Guards
  import opened Failing

  const KEY := KeyImage(1)

  function Tx(hash: nat, vin: seq<TxInput>, vout: seq<TxOutput>): Transaction {
    Transaction(Hash(hash), V2_RINGCT, 0, vin, vout, false)
  }

  const OUTPUT := TxOutput(5, KeyTarget(1), 0, Mask(0))

  /** A block with only a miner transaction. */
  function MinerOnly(hash: nat, prev: nat, majorVersion: nat, tx: Transaction): Entry {
    Entry(Block(Hash(hash), Hash(prev), majorVersion, tx, []), BlockMeta(0, 0, 0, 0), [])
  }

  lemma MinerOnlyRecs(e: Entry, height: nat)
    requires e.txs == [] && e.block.txHashes == []
    ensures BlockRecs(e, height) == [TxRec(e.block.minerTx.hash, e.block.minerTx, height)]
  {
  }

  lemma OneAdmissible(recs: seq<TxRec>, r: TxRec)
    requires TxAdmissible(recs, r)
    ensures TxsAdmissible(recs, [r])
  {
    hide TxAdmissible;
    assert [r][1..] == [];
    assert TxsAdmissible(recs + [r], []);
  }

  lemma MinerOnlyAdmissible(chain: seq<Entry>, e: Entry)
    requires e.txs == [] && e.block.txHashes == []
    requires TxAdmissible(ChainRecs(chain), TxRec(e.block.minerTx.hash, e.block.minerTx, |chain|))
    requires forall k :: 0 <= k < |chain| ==> chain[k].block.hash != e.block.hash
    requires chain != [] ==> Last(chain).block.hash == e.block.prevId
    ensures BlockAdmissible(chain, e)
  {
    hide TxAdmissible, ChainRecs;
    var r := TxRec(e.block.minerTx.hash, e.block.minerTx, |chain|);
    MinerOnlyRecs(e, |chain|);
    OneAdmissible(ChainRecs(chain), r);
  }

  lemma FirstTxAdmissible(tx: Transaction)
    requires FreshKeys({}, tx.vin)
    requires forall i :: 0 <= i < |tx.vout| ==> OutputStorable(tx, i)
    ensures TxAdmissible([], TxRec(tx.hash, tx, 0))
  {
    hide FreshKeys, OutputStorable;
    assert SpentBy([]) == {};
  }

  // Blocks that popping does not undo

  /** A genesis block whose miner transaction has a key input beside the coinbase input. */
  function MixedCoinbase(): Entry {
    MinerOnly(2, 0, 7, Tx(1, [Gen(0), ToKey(KEY)], [OUTPUT]))
  }

  lemma MixedCoinbaseAdmissible()
    ensures BlockAdmissible([], MixedCoinbase())
    ensures Supported(MixedCoinbase().block.minerTx.vin)
  {
    var tx := MixedCoinbase().block.minerTx;
    assert tx.vin[0].Gen? && tx.vin[1..] == [ToKey(KEY)] && [ToKey(KEY)][1..] == [];
    assert FreshKeys({}, [ToKey(KEY)]);
    FirstTxAdmissible(tx);
    MinerOnlyAdmissible([], MixedCoinbase());
  }

  lemma MixedCoinbaseIrreversible()
    ensures !BlockReversible(MixedCoinbase())
  {
    var tx := MixedCoinbase().block.minerTx;
    assert tx.vin[0].Gen?;
    assert StoredAmount(tx, 0) == 0 && RemovedAmount(tx, 0) == 5;
  }

  /** It is accepted on the empty tables and popping does not undo it. */
  lemma MixedCoinbaseNotUndone()
    ensures AddBlock(EMPTY_TABLES, MixedCoinbase()).status.Ok?
    ensures !PopUndoes(EMPTY_TABLES, MixedCoinbase())
  {
    hide AddBlock, PopUndoes, BlockAdmissible, BlockReversible, Supported, ChainTables;
    var e := MixedCoinbase();
    EmptyChainTables();
    EmptyValid();
    MixedCoinbaseAdmissible();
    MixedCoinbaseIrreversible();
    AddBlockCorrect([], {}, e);
    BlockUndoneIffReversible([], {}, e);
  }

  /** The run that adds and pops it does not leave the tables of the empty chain. */
  lemma MixedCoinbaseRun()
    ensures ChainAfter([Add(MixedCoinbase()), Pop]) == []
    ensures !CanonicalAfter([Add(MixedCoinbase()), Pop])
  {
    hide BlockAdmissible, BlockReversible, CanonicalAfter;
    var e := MixedCoinbase();
    var ops := [Add(e), Pop];
    MixedCoinbaseAdmissible();
    MixedCoinbaseIrreversible();
    NothingYet();
    AddLast([], e);
    assert [] + [Add(e)] == Init(ops) && [] + [e] == [e];
    NotCanonical(ops);
  }

  /** A first block with an output of amount 5 that is filed under that amount. */
  function PlainOutput(): Entry {
    MinerOnly(2, 0, 7, Tx(1, [Gen(0)], [OUTPUT]).(version := 1))
  }

  /** A second block with a coinbase input beside a key input, and an output of amount 5 that is filed
      under amount 0. */
  function MixedOnTop(): Entry {
    MinerOnly(4, 2, 7, Tx(3, [Gen(1), ToKey(KEY)], [OUTPUT]))
  }

  const PLAIN_REC := TxRec(Hash(1), PlainOutput().block.minerTx, 0)
  const MIXED_REC := TxRec(Hash(3), MixedOnTop().block.minerTx, 1)

  lemma PlainOutputFacts()
    ensures BlockAdmissible([], PlainOutput()) && BlockSupported(PlainOutput())
    ensures ChainRecs([PlainOutput()]) == [PLAIN_REC]
  {
    var tx := PlainOutput().block.minerTx;
    assert tx.vin[0].Gen? && tx.vin[1..] == [];
    FirstTxAdmissible(tx);
    MinerOnlyAdmissible([], PlainOutput());
    MinerOnlyRecs(PlainOutput(), 0);
    assert Init([PlainOutput()]) == [] && Last([PlainOutput()]) == PlainOutput();
  }

  lemma MixedOnTopFacts()
    ensures BlockAdmissible([PlainOutput()], MixedOnTop()) && BlockSupported(MixedOnTop())
  {
    var tx := MixedOnTop().block.minerTx;
    PlainOutputFacts();
    assert SpentBy([PLAIN_REC]) == {};
    assert tx.vin[0].Gen? && tx.vin[1..] == [ToKey(KEY)] && [ToKey(KEY)][1..] == [];
    assert FreshKeys({}, [ToKey(KEY)]);
    MinerOnlyAdmissible([PlainOutput()], MixedOnTop());
  }

  lemma TwoOutputs()
    ensures AllOutputs([PLAIN_REC]) == [OutputOf(PLAIN_REC, 0)]
    ensures AllOutputs([PLAIN_REC, MIXED_REC]) == [OutputOf(PLAIN_REC, 0), OutputOf(MIXED_REC, 0)]
    ensures OutputOf(PLAIN_REC, 0).amount == 5 && OutputOf(MIXED_REC, 0).amount == 0
  {
    hide OutputOf;
    AllOutputsSnoc([], PLAIN_REC);
    AllOutputsSnoc([PLAIN_REC], MIXED_REC);
    assert [] + [PLAIN_REC] == [PLAIN_REC] && [PLAIN_REC] + [MIXED_REC] == [PLAIN_REC, MIXED_REC];
    OutputAmounts();
  }

  lemma OutputAmounts()
    ensures OutputOf(PLAIN_REC, 0).amount == 5 && OutputOf(MIXED_REC, 0).amount == 0
  {
    assert MIXED_REC.tx.vin[0].Gen?;
  }

  /** The rows of the two outputs, and where the second transaction's index list points. */
  lemma TwoRows()
    ensures var rows := AmountRows(AllOutputs([PLAIN_REC, MIXED_REC]));
      (5, 0) in rows && rows[(5, 0)].outputId == 0
    ensures IndexList(AllOutputs([PLAIN_REC]), OutputsOf(MIXED_REC)) == [0]
    ensures (5, 0) in AmountRows(AllOutputs([PLAIN_REC]))
    ensures 0 in Tabulate(OutTxs(AllOutputs([PLAIN_REC, MIXED_REC])))
  {
    hide AllOutputs, OutputOf;
    var a, b := OutputOf(PLAIN_REC, 0), OutputOf(MIXED_REC, 0);
    TwoOutputs();
    OutputsSnoc([], a);
    OutputsSnoc([a], b);
    assert [] + [a] == [a] && [a] + [b] == [a, b];
    assert [a] + OutputsOf(MIXED_REC)[..0] == [a];
    CountSnoc([], a, 0);
    CountSnoc([], a, 5);
    OutTxsSize([a, b]);
  }

  /** Removing the second transaction deletes the first one's row. */
  lemma RemovesOtherRow(blacklist: set<nat>)
    ensures var t := TablesOf([PlainOutput()], [PLAIN_REC, MIXED_REC], blacklist);
      var r := RemoveTransaction(t, Hash(3));
      r.status.Ok? && (5, 0) !in r.tables.outputAmounts
  {
    hide AllOutputs, OutputsOf, IndexList, IndexLists, Txs, TxIndexRows, OutTxs, AmountRows, Blocks,
      Infos, HeightRows, SpentBy, Tabulate, KeyImages, RemoveSpentKeys;
    var t := TablesOf([PlainOutput()], [PLAIN_REC, MIXED_REC], blacklist);
    TwoRows();
    assert [PLAIN_REC] + [MIXED_REC] == [PLAIN_REC, MIXED_REC];
    TxIndexRowsKeys([PLAIN_REC], Hash(3));
    NewestRows([PLAIN_REC], MIXED_REC);
    RemoveSpentKeysEffect(t, MIXED_REC.tx.vin);
    assert RemovedAmount(MIXED_REC.tx, 0) == 5;
  }

  /** In a reachable state, a block is added and popped, both succeed, and the row of an output of an
      earlier transaction is gone. */
  lemma PopDeletesOtherRow()
    ensures var t := Run([Add(PlainOutput())]);
      var added := AddBlock(t, MixedOnTop());
      var popped := PopBlock(added.tables);
      && WellFormed([Add(PlainOutput())])
      && added.status.Ok? && popped.status.Ok?
      && (5, 0) in t.outputAmounts && (5, 0) !in popped.tables.outputAmounts
  {
    hide Run, AddBlock, RemoveTransaction, BlockAdmissible, BlockSupported, WellFormed, ChainAfter,
      BlacklistAfter, TablesOf, RemoveBlock, TopBlock, BlacklistedByBlock;
    var a, b := PlainOutput(), MixedOnTop();
    var ops := [Add(a)];
    PlainOutputFacts();
    MixedOnTopFacts();
    NothingYet();
    AddLast([], a);
    assert [] + [Add(a)] == ops && [] + [a] == [a];
    RunCorrect(ops);
    var blacklist := BlacklistAfter(ops);
    OneBlockTables(blacklist);
    SupportedValid(ops);
    AddBlockSupported([a], blacklist, b);
    var blacklist' := blacklist + BlacklistedByBlock([a], b);
    ChainSnoc([a], b);
    MinerOnlyRecs(b, 1);
    assert [PLAIN_REC] + [MIXED_REC] == [PLAIN_REC, MIXED_REC];
    RemoveBlockFrom([a], [PLAIN_REC, MIXED_REC], blacklist', b);
    RemovesOtherRow(blacklist');
  }

  lemma OneBlockTables(blacklist: set<nat>)
    ensures (5, 0) in ChainTables([PlainOutput()], blacklist).outputAmounts
  {
    hide AllOutputs, IndexLists, Txs, TxIndexRows, OutTxs, AmountRows, Blocks, Infos, HeightRows,
      SpentBy, Tabulate, ChainRecs;
    PlainOutputFacts();
    TwoRows();
  }

  lemma SupportedValid(ops: seq<Op>)
    requires WellFormed(ops)
    ensures ValidChain(ChainAfter(ops))
  {
    ChainAfterValid(ops);
  }

  lemma AddBlockSupported(chain: seq<Entry>, blacklist: set<nat>, e: Entry)
    requires ValidChain(chain) && BlockSupported(e) && BlockAdmissible(chain, e)
    ensures AddBlock(ChainTables(chain, blacklist), e)
         == Outcome(ChainTables(chain + [e], blacklist + BlacklistedByBlock(chain, e)), Ok)
  {
    hide AddBlock, ChainTables, BlockAdmissible, ValidChain, BlacklistedByBlock;
    AddBlockCorrect(chain, blacklist, e);
  }

  /** A genesis block whose miner transaction has an unsupported input. */
  function ScriptMiner(): Entry {
    MinerOnly(2, 0, 7, Tx(1, [ToScript], []))
  }

  lemma ScriptMinerAccepted()
    ensures AddBlock(EMPTY_TABLES, ScriptMiner()).status.Ok?
  {
    hide AddTransaction;
    var e := ScriptMiner();
    var tx := e.block.minerTx;
    AddUnsupported(EMPTY_TABLES, tx, tx.hash, 0);
    assert KeyImages(tx.vin[1..]) == {};
    assert AddTransaction(EMPTY_TABLES, tx, tx.hash) == Outcome(EMPTY_TABLES, Ok);
  }

  /** It is accepted on the empty tables and popping does not undo it. */
  lemma ScriptMinerNotUndone()
    ensures AddBlock(EMPTY_TABLES, ScriptMiner()).status.Ok?
    ensures !PopUndoes(EMPTY_TABLES, ScriptMiner())
  {
    hide AddBlock, PopUndoes, ChainTables;
    EmptyChainTables();
    EmptyValid();
    ScriptMinerAccepted();
    assert ScriptMiner().block.minerTx.vin[0].ToScript?;
    BlockUndoneIffReversible([], {}, ScriptMiner());
  }

  // A spent key that is forgotten

  function Spender(): Entry {
    MinerOnly(2, 0, 7, Tx(1, [ToKey(KEY)], []))
  }

  lemma SpenderRun()
    ensures WellFormed([Add(Spender())]) && ChainAfter([Add(Spender())]) == [Spender()]
  {
    hide BlockAdmissible;
    var e := Spender();
    assert e.block.minerTx.vin[1..] == [];
    FirstTxAdmissible(e.block.minerTx);
    MinerOnlyAdmissible([], e);
    AddLast([], Add(e).entry);
    assert [] + [Add(e)] == [Add(e)];
  }

  lemma SpenderSpends()
    ensures KEY in SpentBy(ChainRecs([Spender()]))
  {
    var e := Spender();
    MinerOnlyRecs(e, 0);
    assert Init([e]) == [] && Last([e]) == e;
    var recs := ChainRecs([e]);
    assert recs == [] + BlockRecs(e, 0) == BlockRecs(e, 0);
    assert recs[0].tx.vin[0] == ToKey(KEY);
  }

  /** In a reachable state, adding a transaction with an unsupported input returns normally and takes
      a spent key out of the table. */
  lemma SpentKeyForgotten()
    ensures var t := Run([Add(Spender())]);
      var a := AddTransaction(t, Tx(3, [ToScript, ToKey(KEY)], []), Hash(3));
      && WellFormed([Add(Spender())]) && KEY in t.spentKeys
      && a.status.Ok? && KEY !in a.tables.spentKeys
  {
    hide Run, AddTransaction, ChainAfter, WellFormed, Spender, BlacklistAfter, ChainRecs, TxIndexRows,
      Txs, IndexLists, OutTxs, AmountRows, AllOutputs, SpentBy, Blocks, Infos, HeightRows;
    var tx := Tx(3, [ToScript, ToKey(KEY)], []);
    SpenderRun();
    SpenderSpends();
    RunCorrect([Add(Spender())]);
    AddUnsupported(Run([Add(Spender())]), tx, Hash(3), 0);
    assert tx.vin[..0] == [];
    assert tx.vin[1..][0] == ToKey(KEY);
  }

  // A recorded count that is not the length of the amount-0 list

  function First(): Entry {
    MinerOnly(2, 0, 7, Tx(1, [Gen(0)], [OUTPUT]))
  }

  function Second(): Entry {
    MinerOnly(4, 2, 3, Tx(3, [Gen(1)], []))
  }

  const RESTART := [Add(First()), Add(Second())]

  lemma FirstFacts()
    ensures BlockAdmissible([], First()) && BlockSupported(First()) && CoinbaseShape(First())
    ensures NumRctOutputs(First()) == 1
  {
    var tx := First().block.minerTx;
    assert tx.vin[0].Gen? && tx.vin[1..] == [];
    FirstTxAdmissible(tx);
    MinerOnlyAdmissible([], First());
  }

  lemma SecondFacts()
    ensures BlockAdmissible([First()], Second())
    ensures BlockSupported(Second()) && CoinbaseShape(Second())
  {
    var tx := Second().block.minerTx;
    assert tx.vin[0].Gen? && tx.vin[1..] == [];
    MinerOnlyRecs(First(), 0);
    assert Init([First()]) == [] && Last([First()]) == First();
    MinerOnlyAdmissible([First()], Second());
  }

  lemma RestartRun()
    ensures WellFormed(RESTART) && ChainAfter(RESTART) == [First(), Second()]
  {
    hide BlockAdmissible, BlockSupported, ChainAfter, WellFormed;
    FirstFacts();
    SecondFacts();
    NothingYet();
    AddLast([], First());
    assert [] + [Add(First())] == [Add(First())] && [] + [First()] == [First()];
    AddLast([Add(First())], Second());
    assert [Add(First())] + [Add(Second())] == RESTART;
  }

  lemma NothingYet()
    ensures WellFormed([]) && ChainAfter([]) == []
  {
  }

  lemma FirstZeroRows()
    ensures ZeroRows([First()]) == 1
  {
    hide BlockAdmissible, CoinbaseShape, NumRctOutputs, First;
    FirstFacts();
    CounterIsGrowth([], First());
    assert [] + [First()] == [First()];
  }

  lemma RestartUncounted()
    ensures Uncounted([First(), Second()]) == 1
  {
    assert Last([First(), Second()]) == Second();
  }

  /** A second block of major version 3 makes the recorded count start over: it is not the length of
      the amount-0 list. */
  lemma CountRestarts()
    ensures var t := Run(RESTART);
      && WellFormed(RESTART)
      && 1 in t.blockInfo && t.blockInfo[1].cumRct != |AmountIndices(t.outputAmounts, 0)|
  {
    hide Run, ChainAfter, WellFormed, CoinbaseShape, ZeroRows, Uncounted, First, Second, AmountIndices;
    RestartRun();
    FirstFacts();
    SecondFacts();
    FirstZeroRows();
    RestartUncounted();
    RecordedCountIsZeroRows(RESTART, 1);
    var chain := ChainAfter(RESTART);
    assert chain[..2] == chain && chain[..1] == [First()];
  }

  // A failure whose writes stay

  /** A block whose miner transaction spends a key image twice. */
  function SpendsTwice(): Entry {
    MinerOnly(2, 0, 7, Tx(1, [ToKey(KEY), ToKey(KEY)], []))
  }

  /** Adding it fails after a write. */
  lemma FailsAfterWriting()
    ensures var a := AddBlock(EMPTY_TABLES, SpendsTwice());
      a.status == Threw(KeyImageExists) && a.tables == EMPTY_TABLES.(spentKeys := {KEY})
  {
    var tx := SpendsTwice().block.minerTx;
    assert tx.vin[1..] == [ToKey(KEY)];
    assert EMPTY_TABLES.spentKeys + {KEY} == {KEY};
  }

  /** A block that forgets a spent key and spends it again before it fails. */
  function ForgetsAndRespends(): Entry {
    Entry(Block(Hash(4), Hash(2), 7, Tx(3, [ToScript, ToKey(KEY)], []), [Hash(5)]),
          BlockMeta(0, 0, 0, 0), [Tx(5, [ToKey(KEY), ToKey(KEY)], [])])
  }

  /** Its addition fails after two writes and still leaves the tables as they were: failing before the
      first write is sufficient for that, but not necessary. */
  lemma FailsUnchangedAfterWriting(t: Tables)
    requires t.spentKeys == {KEY}
    ensures var e := ForgetsAndRespends();
      && AddTransaction(t, e.block.minerTx, Hash(3)) == Outcome(t.(spentKeys := {}), Ok)
      && AddBlock(t, e).status.Threw? && AddBlock(t, e).tables == t
  {
    hide AddTransaction;
    var e := ForgetsAndRespends();
    var miner, listed := e.block.minerTx, e.txs[0];
    assert miner.vin[0].ToScript? && miner.vin[1] == ToKey(KEY);
    assert KeyImages(miner.vin) == {KEY};
    UnsupportedPasses(t, miner, Hash(3));
    assert t.spentKeys - {KEY} == {};
    var t' := t.(spentKeys := {});
    assert listed.vin[1..] == [ToKey(KEY)] && {} + {KEY} == t.spentKeys;
    assert Repeats({KEY}, [ToKey(KEY)]) && UpToRepeat({KEY}, [ToKey(KEY)]) == {KEY};
    RepeatStops(t', listed, Hash(5));
  }

  /** In batch mode the guard that aborts on failure leaves the write in place. */
  method BatchFailureKeepsWrite(db: BlockchainStore) returns (s: Status)
    requires db.TxnValid() && db.batchActive && db.Contents() == EMPTY_TABLES
    modifies db
    ensures s.Threw? && KEY in db.spentKeys && db.Contents() != EMPTY_TABLES
  {
    hide AddBlock;
    FailsAfterWriting();
    s := AddBlockGuarded(db, SpendsTwice());
  }

  /** Outside batch mode so does a guard that nothing aborts. */
  method CommittingFailureKeepsWrite(db: BlockchainStore) returns (s: Status)
    requires !db.batchActive && db.snapshot.None? && db.Contents() == EMPTY_TABLES
    modifies db
    ensures s.Threw? && KEY in db.spentKeys && db.Contents() != EMPTY_TABLES
  {
    hide AddBlock;
    FailsAfterWriting();
    s := AddBlockCommitting(db, SpendsTwice());
  }
}
