/**
 What a failing `add_block` leaves behind. Without a rollback the writes made before the failure
 stay; this module says exactly when the tables are nevertheless as they were.
 */
module Failing {
  import opened Ledger
  import opened Backend
  import opened Canonical
  import opened Adding
  import opened Popping
  import opened Undo
  import opened UndoBlock

  /** Some key image before the first unsupported input is spent already, also by an input before. */
  predicate Repeats(spent: set<KeyImage>, vin: seq<TxInput>)
    decreases |vin|
  {
    vin != [] &&
    match vin[0]
    case ToKey(k) => k in spent || Repeats(spent + {k}, vin[1..])
    case Gen(_) => Repeats(spent, vin[1..])
    case ToScript => false
  }

  /** The spent keys when the input loop stops at that key image. */
  function UpToRepeat(spent: set<KeyImage>, vin: seq<TxInput>): set<KeyImage>
    decreases |vin|
  {
    if vin == [] then spent
    else match vin[0]
      case ToKey(k) => if k in spent then spent else UpToRepeat(spent + {k}, vin[1..])
      case Gen(_) => UpToRepeat(spent, vin[1..])
      case ToScript => spent
  }

  /** What adding transactions leaves behind: the spent keys alone are touched, and the additions
      pass or stop, or a transaction is stored. Transactions with an unsupported input pass and are
      not stored. */
  datatype Trail =
    | Passed(spent: set<KeyImage>)
    | Stopped(spent: set<KeyImage>, error: Error)
    | Stored

  function TrailOf(
    known: set<Hash>, spent: set<KeyImage>, txs: seq<Transaction>, hashes: seq<Hash>): Trail
    requires |txs| == |hashes|
    decreases |txs|
  {
    if txs == [] then Passed(spent)
    else
      var vin := txs[0].vin;
      if Repeats(spent, vin) then Stopped(UpToRepeat(spent, vin), KeyImageExists)
      else if !Supported(vin) then TrailOf(known, spent - KeyImages(vin), txs[1..], hashes[1..])
      else if hashes[0] in known then Stopped(spent + KeyImages(vin), TxExists)
      else Stored
  }

  // The input loop

  lemma {:induction false} RepeatsIff(spent: set<KeyImage>, vin: seq<TxInput>)
    requires Supported(vin)
    ensures Repeats(spent, vin) <==> !FreshKeys(spent, vin)
    decreases |vin|
  {
    if vin == [] {
    } else {
      SupportedTail(vin);
      RepeatsIff(if vin[0].ToKey? then spent + {vin[0].keyImage} else spent, vin[1..]);
    }
  }

  lemma SupportedTail(vin: seq<TxInput>)
    requires vin != [] && Supported(vin)
    ensures Supported(vin[1..]) && !vin[0].ToScript?
  {
    assert forall i :: 0 <= i < |vin[1..]| ==> vin[1..][i] == vin[i + 1];
  }

  lemma {:induction false} ScanRepeats(t: Tables, vin: seq<TxInput>, rest: seq<TxInput>, m: bool)
    requires Repeats(t.spentKeys, rest)
    ensures var s := ScanInputs(t, vin, rest, m);
      s.status == Threw(KeyImageExists) && s.tables == t.(spentKeys := UpToRepeat(t.spentKeys, rest))
    decreases |rest|
  {
    match rest[0]
    case ToKey(k) =>
      if k !in t.spentKeys {
        ScanRepeats(AddSpentKey(t, k).tables, vin, rest[1..], m);
      }
    case Gen(_) => ScanRepeats(t, vin, rest[1..], true);
  }

  /** Before an unsupported input a repeat is the only way to fail. */
  lemma {:induction false} RepeatsBeforeUnsupported(spent: set<KeyImage>, vin: seq<TxInput>, u: nat)
    requires FirstUnsupported(vin, u)
    ensures Repeats(spent, vin) <==> !FreshKeys(spent, vin[..u])
    decreases |vin|
  {
    if u == 0 {
    } else {
      var front, tail := vin[..u], vin[1..];
      assert front[1..] == tail[..u - 1];
      assert front[0] == vin[0] && tail[u - 1] == vin[u];
      SupportedTail(front);
      RepeatsBeforeUnsupported(if vin[0].ToKey? then spent + {vin[0].keyImage} else spent, tail, u - 1);
    }
  }

  lemma UnsupportedPasses(t: Tables, tx: Transaction, hash: Hash)
    requires !Supported(tx.vin) && !Repeats(t.spentKeys, tx.vin)
    ensures AddTransaction(t, tx, hash)
         == Outcome(t.(spentKeys := t.spentKeys - KeyImages(tx.vin)), Ok)
  {
    hide AddTransaction, Repeats, FreshKeys, KeyImages;
    var u := UnsupportedHasFirst(tx.vin);
    RepeatsBeforeUnsupported(t.spentKeys, tx.vin, u);
    AddUnsupported(t, tx, hash, u);
    KeyImagesSplit(tx.vin, u);
    FreshKeysDisjoint(t.spentKeys, tx.vin[..u]);
    assert t.spentKeys - KeyImages(tx.vin) == t.spentKeys - KeyImages(tx.vin[u + 1..]);
  }

  // Storing

  /** Once a transaction's hash is entered it stays. */
  lemma StoreEnters(t: Tables, tx: Transaction, hash: Hash)
    ensures var a := StoreTransaction(t, tx, hash);
      if hash in t.txIndices then a == Outcome(t, Threw(TxExists))
      else a.tables.txIndices.Keys == t.txIndices.Keys + {hash}
  {
    hide AddTransactionData, AddOutputs, NextId, HasBlacklistedOutputs;
    DataEnters(t, tx, hash);
    AddOutputsFrame(AddTransactionData(t, tx, hash).tables, hash, tx, 0, []);
  }

  lemma DataEnters(t: Tables, tx: Transaction, hash: Hash)
    ensures var d := AddTransactionData(t, tx, hash);
      if hash in t.txIndices then d.tables == t && d.status == Threw(TxExists)
      else d.tables.txIndices.Keys == t.txIndices.Keys + {hash}
  {
    hide NextId;
  }

  lemma SupportedStores(t: Tables, tx: Transaction, hash: Hash)
    requires Supported(tx.vin) && !Repeats(t.spentKeys, tx.vin)
    ensures var a := AddTransaction(t, tx, hash);
      if hash in t.txIndices
      then a == Outcome(t.(spentKeys := t.spentKeys + KeyImages(tx.vin)), Threw(TxExists))
      else a.tables.txIndices.Keys == t.txIndices.Keys + {hash}
  {
    hide StoreTransaction, ScanInputs, Repeats, FreshKeys, Supported, KeyImages, HasGen;
    RepeatsIff(t.spentKeys, tx.vin);
    ScanSupported(t, tx.vin, tx.vin, false);
    StoreEnters(t.(spentKeys := t.spentKeys + KeyImages(tx.vin)), tx, hash);
  }

  lemma RepeatStops(t: Tables, tx: Transaction, hash: Hash)
    requires Repeats(t.spentKeys, tx.vin)
    ensures var a := AddTransaction(t, tx, hash);
      a == Outcome(t.(spentKeys := UpToRepeat(t.spentKeys, tx.vin)), Threw(KeyImageExists))
  {
    hide StoreTransaction, ScanInputs, Repeats, UpToRepeat;
    ScanRepeats(t, tx.vin, tx.vin, false);
  }

  lemma AddTransactionKeeps(t: Tables, tx: Transaction, hash: Hash)
    ensures t.txIndices.Keys <= AddTransaction(t, tx, hash).tables.txIndices.Keys
  {
    hide AddTransaction, Repeats, UpToRepeat, KeyImages, Supported;
    if Repeats(t.spentKeys, tx.vin) {
      RepeatStops(t, tx, hash);
    } else if Supported(tx.vin) {
      SupportedStores(t, tx, hash);
    } else {
      UnsupportedPasses(t, tx, hash);
    }
  }

  lemma {:induction false} AddTransactionsKeep(t: Tables, txs: seq<Transaction>, hashes: seq<Hash>)
    requires |txs| == |hashes|
    ensures t.txIndices.Keys <= AddTransactions(t, txs, hashes).tables.txIndices.Keys
    decreases |txs|
  {
    hide AddTransaction;
    if txs == [] {
    } else {
      AddTransactionKeeps(t, txs[0], hashes[0]);
      AddTransactionsKeep(AddTransaction(t, txs[0], hashes[0]).tables, txs[1..], hashes[1..]);
    }
  }

  /** The trail says exactly what adding the transactions leaves. */
  lemma {:induction false} TrailIs(t: Tables, txs: seq<Transaction>, hashes: seq<Hash>)
    requires |txs| == |hashes|
    ensures var a := AddTransactions(t, txs, hashes);
      match TrailOf(t.txIndices.Keys, t.spentKeys, txs, hashes)
      case Passed(spent) => a == Outcome(t.(spentKeys := spent), Ok)
      case Stopped(spent, error) => a == Outcome(t.(spentKeys := spent), Threw(error))
      case Stored => t.txIndices.Keys < a.tables.txIndices.Keys
    decreases |txs|
  {
    hide AddTransaction, Repeats, UpToRepeat, KeyImages, Supported;
    if txs == [] {
    } else {
      var tx, hash := txs[0], hashes[0];
      if Repeats(t.spentKeys, tx.vin) {
        RepeatStops(t, tx, hash);
      } else if Supported(tx.vin) {
        SupportedStores(t, tx, hash);
        if hash !in t.txIndices {
          AddTransactionsKeep(AddTransaction(t, tx, hash).tables, txs[1..], hashes[1..]);
        }
      } else {
        UnsupportedPasses(t, tx, hash);
        TrailIs(AddTransaction(t, tx, hash).tables, txs[1..], hashes[1..]);
      }
    }
  }

  // The whole block

  /** The block record is refused before anything of it is written. */
  predicate RecordRefused(t: Tables, block: Block) {
    var h := |t.blocks|;
    || block.hash in t.blockHeights
    || (h > 0 && block.prevId !in t.blockHeights)
    || (h > 0 && t.blockHeights[block.prevId] != h - 1)
    || !Appendable(t.blocks, h)
  }

  lemma RecordRefusal(t: Tables, e: Entry)
    requires RecordRefused(t, e.block)
    ensures var a := AddBlockRecord(t, e.block, e.meta, NumRctOutputs(e));
      a == Outcome(t, a.status) && a.status.Threw?
  {
    hide NumRctOutputs, NextId;
  }

  lemma RecordWritten(t: Tables, e: Entry)
    requires !RecordRefused(t, e.block)
    ensures |t.blocks| !in t.blocks
    ensures |t.blocks| in AddBlockRecord(t, e.block, e.meta, NumRctOutputs(e)).tables.blocks
  {
    hide NumRctOutputs;
  }

  lemma RecordKeepsHashes(t: Tables, e: Entry)
    ensures AddBlockRecord(t, e.block, e.meta, NumRctOutputs(e)).tables.txIndices == t.txIndices
    ensures AddBlockRecord(t, e.block, e.meta, NumRctOutputs(e)).tables.spentKeys == t.spentKeys
  {
    hide NumRctOutputs, NextId;
  }

  function BlockTxs(e: Entry): seq<Transaction> {
    [e.block.minerTx] + e.txs
  }

  function BlockHashes(e: Entry): seq<Hash> {
    [e.block.minerTx.hash] + e.block.txHashes
  }

  lemma AddBlockParts(t: Tables, e: Entry)
    requires |e.block.txHashes| == |e.txs|
    ensures var r := AddTransactions(t, BlockTxs(e), BlockHashes(e));
      AddBlock(t, e) ==
      if r.status.Threw? then r else AddBlockRecord(r.tables, e.block, e.meta, NumRctOutputs(e))
  {
    hide AddTransaction, AddBlockRecord, NumRctOutputs;
    assert BlockTxs(e)[1..] == e.txs && BlockHashes(e)[1..] == e.block.txHashes;
  }

  /** The numbers of hashes and transactions differ, or no transaction is stored and the spent keys
      come out the same, with the record refused if it comes to that. */
  predicate NoTrace(t: Tables, e: Entry) {
    |e.block.txHashes| == |e.txs| ==>
      match TrailOf(t.txIndices.Keys, t.spentKeys, BlockTxs(e), BlockHashes(e))
      case Passed(spent) => spent == t.spentKeys && RecordRefused(t, e.block)
      case Stopped(spent, _) => spent == t.spentKeys
      case Stored => false
  }

  /** In whatever state the tables are, exactly then a failing `add_block` leaves them as they were. */
  lemma FailureUnchangedIff(t: Tables, e: Entry)
    requires AddBlock(t, e).status.Threw?
    ensures AddBlock(t, e).tables == t <==> NoTrace(t, e)
  {
    hide AddBlock, AddBlockRecord, TrailOf, RecordRefused, NumRctOutputs;
    if |e.block.txHashes| != |e.txs| {
      MismatchUnchanged(t, e);
    } else {
      BlockTrail(t, e);
      match TrailOf(t.txIndices.Keys, t.spentKeys, BlockTxs(e), BlockHashes(e))
      case Passed(spent) =>
        SameSpent(t, spent);
        RecordAfter(t, t.(spentKeys := spent), e);
      case Stopped(spent, _) => SameSpent(t, spent);
      case Stored =>
    }
  }

  lemma SameSpent(t: Tables, spent: set<KeyImage>)
    ensures t.(spentKeys := spent) == t <==> spent == t.spentKeys
  {
  }

  lemma BlockTrail(t: Tables, e: Entry)
    requires |e.block.txHashes| == |e.txs|
    ensures match TrailOf(t.txIndices.Keys, t.spentKeys, BlockTxs(e), BlockHashes(e))
      case Passed(spent) =>
        AddBlock(t, e)
        == AddBlockRecord(t.(spentKeys := spent), e.block, e.meta, NumRctOutputs(e))
      case Stopped(spent, error) => AddBlock(t, e) == Outcome(t.(spentKeys := spent), Threw(error))
      case Stored => AddBlock(t, e).tables.txIndices != t.txIndices
  {
    hide AddBlock, AddTransactions, AddBlockRecord, TrailOf, NumRctOutputs;
    AddBlockParts(t, e);
    TrailIs(t, BlockTxs(e), BlockHashes(e));
    RecordKeepsHashes(AddTransactions(t, BlockTxs(e), BlockHashes(e)).tables, e);
  }

  /** The record does not bring tables back that have changed. */
  lemma RecordAfter(t: Tables, t': Tables, e: Entry)
    ensures var a := AddBlockRecord(t', e.block, e.meta, NumRctOutputs(e));
      && (t'.spentKeys != t.spentKeys ==> a.tables != t)
      && (t' == t ==> (a.tables == t <==> RecordRefused(t, e.block)))
  {
    hide AddBlockRecord, RecordRefused, NumRctOutputs;
    RecordKeepsHashes(t', e);
    if t' == t && RecordRefused(t, e.block) {
      RecordRefusal(t, e);
    } else if t' == t {
      RecordWritten(t, e);
    }
  }

  lemma MismatchUnchanged(t: Tables, e: Entry)
    requires |e.block.txHashes| != |e.txs|
    ensures AddBlock(t, e) == Outcome(t, Threw(RuntimeError))
  {
  }

  // Miner transactions with supported inputs

  /** The first key input names a key image that is spent already. */
  predicate FirstKeySpent(spent: set<KeyImage>, vin: seq<TxInput>) {
    vin != [] &&
    if vin[0].ToKey? then vin[0].keyImage in spent else FirstKeySpent(spent, vin[1..])
  }

  predicate NoKeys(vin: seq<TxInput>) {
    forall i :: 0 <= i < |vin| ==> !vin[i].ToKey?
  }

  lemma {:induction false} UpToRepeatGrows(spent: set<KeyImage>, vin: seq<TxInput>)
    ensures spent <= UpToRepeat(spent, vin)
    decreases |vin|
  {
    if vin == [] {
    } else {
      UpToRepeatGrows(if vin[0].ToKey? then spent + {vin[0].keyImage} else spent, vin[1..]);
    }
  }

  lemma {:induction false} StopsUnchangedIff(spent: set<KeyImage>, vin: seq<TxInput>)
    requires Supported(vin)
    ensures FirstKeySpent(spent, vin) <==> Repeats(spent, vin) && UpToRepeat(spent, vin) == spent
    decreases |vin|
  {
    if vin == [] {
    } else {
      SupportedTail(vin);
      match vin[0]
      case ToKey(k) => UpToRepeatGrows(spent + {k}, vin[1..]);
      case Gen(_) => StopsUnchangedIff(spent, vin[1..]);
    }
  }

  lemma NoNewKeysIff(spent: set<KeyImage>, vin: seq<TxInput>)
    requires Supported(vin) && !Repeats(spent, vin)
    ensures spent + KeyImages(vin) == spent <==> NoKeys(vin)
  {
    hide Repeats, FreshKeys;
    RepeatsIff(spent, vin);
    FreshKeysDisjoint(spent, vin);
    if !NoKeys(vin) {
      var i :| 0 <= i < |vin| && vin[i].ToKey?;
      assert vin[i].keyImage in KeyImages(vin);
    } else {
      assert KeyImages(vin) == {};
    }
  }

  /** With supported inputs in the miner transaction, the condition comes down to its own fields: its
      first key image is spent already, or it has no key image and its hash is known. */
  lemma SupportedMinerNoTrace(t: Tables, e: Entry)
    requires Supported(e.block.minerTx.vin) && |e.block.txHashes| == |e.txs|
    ensures var tx := e.block.minerTx;
      NoTrace(t, e) <==>
      FirstKeySpent(t.spentKeys, tx.vin) || (NoKeys(tx.vin) && tx.hash in t.txIndices)
  {
    hide Repeats, UpToRepeat, KeyImages, FirstKeySpent, NoKeys, RecordRefused, Supported;
    var vin := e.block.minerTx.vin;
    StopsUnchangedIff(t.spentKeys, vin);
    assert BlockTxs(e)[0] == e.block.minerTx && BlockHashes(e)[0] == e.block.minerTx.hash;
    if !Repeats(t.spentKeys, vin) {
      NoNewKeysIff(t.spentKeys, vin);
    } else {
      NoKeysNoRepeat(t.spentKeys, vin);
    }
  }

  lemma {:induction false} NoKeysNoRepeat(spent: set<KeyImage>, vin: seq<TxInput>)
    requires Repeats(spent, vin)
    ensures !NoKeys(vin)
    decreases |vin|
  {
    if vin[0].ToKey? {
    } else {
      NoKeysNoRepeat(spent, vin[1..]);
      var i :| 0 <= i < |vin[1..]| && vin[1..][i].ToKey?;
      assert vin[i + 1].ToKey?;
    }
  }
}
