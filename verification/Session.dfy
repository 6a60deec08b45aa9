/**
 Whole sessions on a store object: a list of additions and pops carried out with guards and
 atomic pops leaves the tables the run of those operations does.
 */
module Session {
  import opened Ledger
  import opened Canonical
  import opened Store
  import opened Guards
  import opened Runs
  import B = Backend

  method Execute(db: BlockchainStore, ops: seq<Op>)
    requires db.Contents() == EMPTY_TABLES && db.snapshot.None? && !db.batchActive
    modifies db
    ensures db.snapshot.None? && !db.batchActive
    ensures db.readOpen == (old(db.readOpen) && ops == [])
    ensures db.Contents() == Run(ops)
    ensures WellFormed(ops) ==> db.Contents() == ChainTables(ChainAfter(ops), BlacklistAfter(ops))
  {
    hide B.AddBlock, B.PopBlock, BlockchainStore.Contents, ChainTables, ChainAfter, BlacklistAfter,
      WellFormed;
    var i := 0;
    while i < |ops|
      invariant 0 <= i <= |ops|
      invariant db.snapshot.None? && !db.batchActive
      invariant db.readOpen == (old(db.readOpen) && i == 0)
      invariant db.Contents() == Run(ops[..i])
    {
      assert Init(ops[..i + 1]) == ops[..i] && Last(ops[..i + 1]) == ops[i];
      match ops[i] {
        case Add(e) => var _ := AddBlockGuarded(db, e);
        case Pop => var _, _, _ := db.PopBlockAtomic();
      }
      i := i + 1;
    }
    assert ops[..i] == ops;
    if WellFormed(ops) {
      RunCorrect(ops);
    }
  }
}
