/**
 Whole runs of the store. Every operation runs inside a write transaction, so one that throws is
 rolled back. Take any run of additions and pops, failing ones included, in which the added blocks
 have supported inputs. At every point of it the tables are those of the surviving chain, with only
 the output blacklist remembering more, exactly when every block that is popped is reversible.
 */
module Runs {
  import opened Wrappers
  import opened Ledger
  import opened Backend
  import opened Canonical
  import opened Adding
  import opened Popping
  import opened UndoBlock

  datatype Op = Add(entry: Entry) | Pop

  /** One committed or rolled-back operation on the tables. */
  function Step(t: Tables, op: Op): Tables {
    match op
    case Add(e) => var r := AddBlock(t, e); if r.status.Ok? then r.tables else t
    case Pop => var r := PopBlock(t); if r.status.Ok? then r.tables else t
  }

  function Run(ops: seq<Op>): Tables {
    if ops == [] then EMPTY_TABLES else Step(Run(Init(ops)), Last(ops))
  }

  /** What the operation is meant to do to the chain: an admissible block goes on top, a pop takes
      the top block off. */
  function ChainStep(chain: seq<Entry>, op: Op): seq<Entry> {
    match op
    case Add(e) => if BlockAdmissible(chain, e) then chain + [e] else chain
    case Pop => if chain == [] then [] else Init(chain)
  }

  function ChainAfter(ops: seq<Op>): seq<Entry> {
    if ops == [] then [] else ChainStep(ChainAfter(Init(ops)), Last(ops))
  }

  // The runs that the theorems are about

  /** Every added block has only supported inputs. */
  predicate SupportedRun(ops: seq<Op>) {
    forall i :: 0 <= i < |ops| && ops[i].Add? ==> BlockSupported(ops[i].entry)
  }

  /** If the operation takes a block off the chain, that block is reversible. */
  predicate PopReversible(chain: seq<Entry>, op: Op) {
    op.Pop? && chain != [] ==> BlockReversible(Last(chain))
  }

  /** Every popped block is reversible. Blocks that are rejected or stay need not be. */
  predicate PopsReversible(ops: seq<Op>) {
    ops == [] || (PopsReversible(Init(ops)) && PopReversible(ChainAfter(Init(ops)), Last(ops)))
  }

  predicate WellFormed(ops: seq<Op>) {
    SupportedRun(ops) && PopsReversible(ops)
  }

  predicate SupportedChain(chain: seq<Entry>) {
    forall i :: 0 <= i < |chain| ==> BlockSupported(chain[i])
  }

  lemma ChainStepValid(chain: seq<Entry>, op: Op)
    requires ValidChain(chain) && SupportedChain(chain)
    requires op.Add? ==> BlockSupported(op.entry)
    ensures ValidChain(ChainStep(chain, op)) && SupportedChain(ChainStep(chain, op))
  {
    hide BlockAdmissible, BlockSupported;
    match op
    case Add(e) => SnocParts(chain, e);
    case Pop =>
  }

  lemma EmptyValid()
    ensures ValidChain([]) && SupportedChain([])
  {
  }

  lemma SupportedParts(ops: seq<Op>)
    requires ops != [] && SupportedRun(ops)
    ensures SupportedRun(Init(ops)) && (Last(ops).Add? ==> BlockSupported(Last(ops).entry))
  {
    hide BlockSupported;
  }

  lemma {:induction false} ChainAfterValid(ops: seq<Op>)
    requires SupportedRun(ops)
    ensures ValidChain(ChainAfter(ops)) && SupportedChain(ChainAfter(ops))
  {
    hide SupportedRun, ValidChain, SupportedChain, ChainStep;
    if ops == [] {
      EmptyValid();
    } else {
      SupportedParts(ops);
      ChainAfterValid(Init(ops));
      ChainStepValid(ChainAfter(Init(ops)), Last(ops));
    }
  }

  // Canonical tables

  /** What the operation adds to the blacklist. */
  function BlacklistedByOp(chain: seq<Entry>, op: Op): set<nat> {
    match op
    case Add(e) => if BlockAdmissible(chain, e) then BlacklistedByBlock(chain, e) else {}
    case Pop => {}
  }

  /** Every amount index that any accepted block of the run put on the blacklist. */
  function BlacklistAfter(ops: seq<Op>): set<nat> {
    if ops == [] then {}
    else BlacklistAfter(Init(ops)) + BlacklistedByOp(ChainAfter(Init(ops)), Last(ops))
  }

  /** One operation on the tables of a valid chain: adding a block with supported inputs, or popping
      a reversible one, or popping from the empty chain. */
  lemma StepCorrect(chain: seq<Entry>, blacklist: set<nat>, op: Op)
    requires ValidChain(chain) && PopReversible(chain, op)
    requires op.Add? ==> BlockSupported(op.entry)
    ensures Step(ChainTables(chain, blacklist), op)
         == ChainTables(ChainStep(chain, op), blacklist + BlacklistedByOp(chain, op))
  {
    hide ChainTables, AddBlock, PopBlock, BlacklistedByBlock, BlockAdmissible, Supported;
    assert blacklist + {} == blacklist;
    match op
    case Add(e) => AddBlockCorrect(chain, blacklist, e);
    case Pop =>
      if chain == [] {
        PopEmpty(blacklist);
      } else {
        assert Init(chain) + [Last(chain)] == chain;
        PopBlockCorrect(Init(chain), Last(chain), blacklist);
      }
  }

  lemma PopEmpty(blacklist: set<nat>)
    ensures PopBlock(ChainTables([], blacklist)).status == Threw(BlockDne)
  {
  }

  /** The tables after the run are those of the chain the run leaves. */
  predicate CanonicalAfter(ops: seq<Op>) {
    Run(ops) == ChainTables(ChainAfter(ops), BlacklistAfter(ops))
  }

  /** They are so after every run of supported additions and reversible pops. */
  lemma {:induction false} RunCorrect(ops: seq<Op>)
    requires WellFormed(ops)
    ensures Run(ops) == ChainTables(ChainAfter(ops), BlacklistAfter(ops))
  {
    hide ChainTables, Step, SupportedRun, BlacklistedByOp, ChainStep, PopReversible;
    if ops == [] {
      EmptyChainTables();
    } else {
      SupportedParts(ops);
      RunCorrect(Init(ops));
      ChainAfterValid(Init(ops));
      StepCorrect(ChainAfter(Init(ops)), BlacklistAfter(Init(ops)), Last(ops));
    }
  }

  /** A pop takes the tables of a chain with a supported top block to those of the chain below
      exactly when that block is reversible. */
  lemma PopCorrectIff(chain: seq<Entry>, blacklist: set<nat>)
    requires ValidChain(chain) && chain != [] && BlockSupported(Last(chain))
    ensures Step(ChainTables(chain, blacklist), Pop) == ChainTables(Init(chain), blacklist)
       <==> BlockReversible(Last(chain))
  {
    hide ChainTables, PopBlock, BlockAdmissible, BlockReversible, Supported;
    var front, e := Init(chain), Last(chain);
    assert front + [e] == chain;
    if BlockReversible(e) {
      PopBlockCorrect(front, e, blacklist);
    } else {
      MismatchNotUndone(front, blacklist, e);
      BlockCount(chain, blacklist);
      BlockCount(front, blacklist);
    }
  }

  lemma BlockCount(chain: seq<Entry>, blacklist: set<nat>)
    ensures |ChainTables(chain, blacklist).blocks| == |chain|
  {
    hide Tabulate;
    BlockListSizes(chain);
    TabulateSize(Blocks(chain));
  }

  lemma {:induction false} PrefixWellFormed(ops: seq<Op>, k: nat)
    requires WellFormed(ops) && k <= |ops|
    ensures WellFormed(ops[..k])
    decreases |ops|
  {
    hide SupportedRun, PopReversible;
    if k == |ops| {
      assert ops[..k] == ops;
    } else {
      SupportedParts(ops);
      PrefixWellFormed(Init(ops), k);
      assert Init(ops)[..k] == ops[..k];
    }
  }

  /** The first pop of an irreversible block shows in the tables. */
  lemma {:induction false} IrreversiblePopShows(ops: seq<Op>) returns (k: nat)
    requires SupportedRun(ops) && !PopsReversible(ops)
    ensures k <= |ops| && !CanonicalAfter(ops[..k])
  {
    hide SupportedRun, CanonicalAfter, ChainAfter, BlockReversible;
    SupportedParts(ops);
    if PopsReversible(Init(ops)) {
      k := |ops|;
      assert ops[..k] == ops;
      NotCanonical(ops);
    } else {
      k := IrreversiblePopShows(Init(ops));
      assert Init(ops)[..k] == ops[..k];
    }
  }

  lemma NotCanonical(ops: seq<Op>)
    requires ops != [] && WellFormed(Init(ops)) && !PopReversible(ChainAfter(Init(ops)), Last(ops))
    ensures !CanonicalAfter(ops)
  {
    hide WellFormed, ChainTables, Step, BlockReversible, SupportedRun, ValidChain;
    var chain, blacklist := ChainAfter(Init(ops)), BlacklistAfter(Init(ops));
    SupportedOnly(Init(ops));
    RunCorrect(Init(ops));
    ChainAfterValid(Init(ops));
    PopCorrectIff(chain, blacklist);
    assert blacklist + {} == blacklist;
  }

  lemma SupportedOnly(ops: seq<Op>)
    requires WellFormed(ops)
    ensures SupportedRun(ops)
  {
  }

  /** For runs whose added blocks have supported inputs, the tables are those of the surviving chain
      at every point of the run exactly when every popped block is reversible. */
  lemma RunCorrectIff(ops: seq<Op>)
    requires SupportedRun(ops)
    ensures (forall k :: 0 <= k <= |ops| ==> CanonicalAfter(ops[..k])) <==> PopsReversible(ops)
  {
    hide SupportedRun, CanonicalAfter, PopsReversible;
    if PopsReversible(ops) {
      forall k | 0 <= k <= |ops|
        ensures CanonicalAfter(ops[..k])
      {
        PrefixCanonical(ops, k);
      }
    } else {
      var k := IrreversiblePopShows(ops);
      assert !CanonicalAfter(ops[..k]);
    }
  }

  lemma PrefixCanonical(ops: seq<Op>, k: nat)
    requires WellFormed(ops) && k <= |ops|
    ensures CanonicalAfter(ops[..k])
  {
    hide WellFormed;
    PrefixWellFormed(ops, k);
    RunCorrect(ops[..k]);
  }

  lemma EmptyChainTables()
    ensures ChainTables([], {}) == EMPTY_TABLES
  {
  }

  /** Two such runs that leave the same chain leave the same tables, blacklist aside. */
  lemma HistoryIndependence(ops: seq<Op>, ops': seq<Op>)
    requires WellFormed(ops) && WellFormed(ops')
    requires ChainAfter(ops) == ChainAfter(ops')
    ensures Run(ops).(blacklist := {}) == Run(ops').(blacklist := {})
  {
    RunCorrect(ops);
    RunCorrect(ops');
  }

  function Adds(chain: seq<Entry>): seq<Op> {
    if chain == [] then [] else Adds(Init(chain)) + [Add(Last(chain))]
  }

  lemma AddLast(ops: seq<Op>, e: Entry)
    requires WellFormed(ops) && BlockSupported(e) && BlockAdmissible(ChainAfter(ops), e)
    ensures WellFormed(ops + [Add(e)]) && ChainAfter(ops + [Add(e)]) == ChainAfter(ops) + [e]
  {
    hide BlockAdmissible, BlockSupported;
    SnocParts(ops, Add(e));
  }

  lemma TopSupported(chain: seq<Entry>)
    requires chain != [] && SupportedChain(chain)
    ensures SupportedChain(Init(chain)) && BlockSupported(Last(chain))
  {
    hide BlockSupported;
  }

  lemma {:induction false} AddsRebuild(chain: seq<Entry>)
    requires ValidChain(chain) && SupportedChain(chain)
    ensures WellFormed(Adds(chain)) && ChainAfter(Adds(chain)) == chain
  {
    hide BlockAdmissible, BlockSupported, SupportedChain, ChainStep, PopReversible;
    if chain == [] {
    } else {
      TopSupported(chain);
      AddsRebuild(Init(chain));
      AddLast(Adds(Init(chain)), Last(chain));
      assert Init(chain) + [Last(chain)] == chain;
    }
  }

  /** In particular they are what adding the surviving chain from scratch gives. */
  lemma RunEqualsRebuild(ops: seq<Op>)
    requires WellFormed(ops)
    ensures Run(ops).(blacklist := {}) == Run(Adds(ChainAfter(ops))).(blacklist := {})
  {
    ChainAfterValid(ops);
    AddsRebuild(ChainAfter(ops));
    HistoryIndependence(ops, Adds(ChainAfter(ops)));
  }

  lemma {:induction false} ReversedTwice<T>(s: seq<T>)
    ensures Reversed(Reversed(s)) == s
  {
    if s == [] {
    } else {
      ReversedTwice(Init(s));
      ReversedCons(Last(s), Reversed(Init(s)));
      assert Init(s) + [Last(s)] == s;
    }
  }

  lemma {:induction false} ReversedCons<T>(x: T, s: seq<T>)
    ensures Reversed([x] + s) == Reversed(s) + [x]
  {
    if s != [] {
      ReversedCons(x, Init(s));
      assert Init([x] + s) == [x] + Init(s) && Last([x] + s) == Last(s);
    } else {
      assert [x] + s == [x];
    }
  }

  /** In every state a well-formed run can reach: adding an admissible, reversible block and popping
      it restores every table but the blacklist and hands back the block and its transactions in
      reverse; adding those again, reversed back, restores the tables as they were before the pop.
      */
  lemma AddPopAdd(ops: seq<Op>, e: Entry)
    requires WellFormed(ops) && BlockReversible(e)
    requires BlockAdmissible(ChainAfter(ops), e)
    ensures var before := Run(ops);
      var added := AddBlock(before, e);
      var popped := PopBlock(added.tables);
      && added.status.Ok?
      && popped == PopOutcome(before.(blacklist := added.tables.blacklist),
                              Some(e.block), Reversed(e.txs), Ok)
      && AddBlock(popped.tables, e.(txs := Reversed(popped.txs))) == added
  {
    hide AddBlock, PopBlock, BlockAdmissible, BlacklistedByBlock, BlockReversible, Run, ChainAfter,
      Reversed, BlacklistAfter;
    var chain, blacklist := ChainAfter(ops), BlacklistAfter(ops);
    RunCorrect(ops);
    ChainAfterValid(ops);
    ReversibleSupported(e);
    AddBlockCorrect(chain, blacklist, e);
    var blacklist' := blacklist + BlacklistedByBlock(chain, e);
    PopBlockCorrect(chain, e, blacklist');
    AddBlockCorrect(chain, blacklist', e);
    assert blacklist' + BlacklistedByBlock(chain, e) == blacklist';
    ReversedTwice(e.txs);
    assert e.(txs := e.txs) == e;
  }

  lemma ReversibleSupported(e: Entry)
    requires BlockReversible(e)
    ensures Supported(e.block.minerTx.vin)
    ensures forall i :: 0 <= i < |e.txs| ==> Supported(e.txs[i].vin)
  {
  }

  /** There, adding and popping such a block is the identity on all tables exactly when everything
      the block blacklists was blacklisted before. */
  lemma AddPopIdentityIff(ops: seq<Op>, e: Entry)
    requires WellFormed(ops) && BlockReversible(e)
    requires BlockAdmissible(ChainAfter(ops), e)
    ensures PopBlock(AddBlock(Run(ops), e).tables).tables == Run(ops) <==>
            BlacklistedByBlock(ChainAfter(ops), e) <= Run(ops).blacklist
  {
    hide AddBlock, PopBlock, BlockAdmissible, BlacklistedByBlock, BlockReversible, Run, ChainAfter,
      BlacklistAfter, Reversed;
    var chain, blacklist := ChainAfter(ops), BlacklistAfter(ops);
    RunCorrect(ops);
    ChainAfterValid(ops);
    ReversibleSupported(e);
    AddBlockCorrect(chain, blacklist, e);
    PopBlockCorrect(chain, e, blacklist + BlacklistedByBlock(chain, e));
    assert Run(ops).blacklist == blacklist;
    assert BlacklistedByBlock(chain, e) <= blacklist
      <==> blacklist + BlacklistedByBlock(chain, e) == blacklist;
  }

  /** A genesis block whose coinbase transaction blacklists its only output. */
  function BlacklistingBlock(): Entry {
    var tx := Transaction(Hash(1), V2_RINGCT, 0, [Gen(0)],
                          [TxOutput(5, KeyTarget(1), 0, Mask(0))], true);
    Entry(Block(Hash(2), Hash(0), 7, tx, []), BlockMeta(0, 0, 0, 0), [])
  }

  lemma BlacklistingBlockAdmissible()
    ensures BlockReversible(BlacklistingBlock()) && BlockAdmissible([], BlacklistingBlock())
  {
    var e := BlacklistingBlock();
    var r := TxRec(Hash(1), e.block.minerTx, 0);
    assert r.tx.vin[0].Gen?;
    assert FreshKeys({}, r.tx.vin);
    assert SpentBy([]) == {};
    assert BlockRecs(e, 0) == [r];
    assert [r][1..] == [];
  }

  lemma BlacklistingBlockBlacklists()
    ensures 0 in BlacklistedByBlock([], BlacklistingBlock())
  {
    var e := BlacklistingBlock();
    var r := TxRec(Hash(1), e.block.minerTx, 0);
    assert r.tx.vin[0].Gen?;
    assert BlockRecs(e, 0)[0] == r;
    var list := IndexList([], OutputsOf(r));
    assert list[0] == Count([] + OutputsOf(r)[..0], 0) == 0;
    assert 0 in list;
  }

  /** The blacklist is not a function of the chain: a block added to the empty database and popped
      again can leave tables that are not empty. */
  lemma BlacklistOutlivesItsBlock()
    ensures exists e :: BlockReversible(e) && BlockAdmissible([], e) &&
              PopBlock(AddBlock(EMPTY_TABLES, e).tables).tables != EMPTY_TABLES
  {
    hide AddBlock, PopBlock, BlockAdmissible, BlacklistedByBlock, BlockReversible, BlacklistingBlock;
    var e := BlacklistingBlock();
    BlacklistingBlockAdmissible();
    BlacklistingBlockBlacklists();
    assert ChainAfter([]) == [] && Run([]) == EMPTY_TABLES;
    AddPopIdentityIff([], e);
  }
}
