/**
 Transaction guards: `db_txn_guard` as an object on top of the store, and the discipline of
 nested read and write guards as a theorem over every well-nested use of them.
 */
module Guards {
  import opened Wrappers
  import opened Ledger
  import opened Store
  import B = Backend
  import Failing

  class TxnGuard {
    const db: BlockchainStore
    const readonly: bool
    var active: bool

    constructor (db: BlockchainStore, readonly: bool, active: bool)
      ensures this.db == db && this.readonly == readonly && this.active == active
    {
      this.db, this.readonly, this.active := db, readonly, active;
    }

    /** Ends the transaction, whether or not this guard opened it, as the source does. */
    method Stop() returns (s: Status)
      requires db.TxnValid()
      modifies `active, db`snapshot, db`readOpen
      ensures db.TxnValid() && active == (old(active) && s.Threw?)
      ensures readonly ==> s.Ok? && !db.readOpen && db.snapshot == old(db.snapshot)
      ensures !readonly ==>
                && db.readOpen == old(db.readOpen)
                && s == (if old(db.snapshot).Some? then Ok else Threw(TxnStart))
                && db.snapshot == (if db.batchActive then old(db.snapshot) else None)
    {
      s := Ok;
      if readonly {
        db.BlockRtxnStop();
      } else {
        s := db.BlockWtxnStop();
        if s.Threw? {
          return;
        }
      }
      active := false;
    }

    method Abort() returns (s: Status)
      requires db.TxnValid()
      modifies this`active, db
      ensures db.TxnValid() && db.batchActive == old(db.batchActive)
      ensures active == (old(active) && s.Threw?)
      ensures readonly ==>
                && s.Ok? && !db.readOpen && db.snapshot == old(db.snapshot)
                && db.Contents() == old(db.Contents())
      ensures !readonly ==>
                && db.readOpen == old(db.readOpen)
                && s == (if old(db.snapshot).Some? then Ok else Threw(TxnStart))
                && db.snapshot == (if db.batchActive then old(db.snapshot) else None)
                && db.Contents() == if old(db.snapshot).Some? && !db.batchActive
                                    then old(db.snapshot).value else old(db.Contents())
    {
      s := Ok;
      if readonly {
        db.BlockRtxnStop();
      } else {
        s := db.BlockWtxnAbort();
        if s.Threw? {
          return;
        }
      }
      active := false;
    }

    /** The destructor. */
    method Destroy()
      requires db.TxnValid()
      requires active && !readonly ==> db.snapshot.Some?
      modifies `active, db`snapshot, db`readOpen
      ensures db.TxnValid() && !active
      ensures db.readOpen == (old(db.readOpen) && !(old(active) && readonly))
      ensures db.snapshot == if old(active) && !readonly && !db.batchActive then None
                             else old(db.snapshot)
    {
      if active {
        var _ := Stop();
      }
    }
  }

  /** The constructor, which throws when a write transaction cannot be started. */
  method Guard(db: BlockchainStore, readonly: bool) returns (guard: Option<TxnGuard>, s: Status)
    requires db.TxnValid()
    modifies db`snapshot, db`readOpen
    ensures db.TxnValid()
    ensures guard.Some? <==> s.Ok?
    ensures guard.Some? ==>
              fresh(guard.value) && guard.value.db == db && guard.value.readonly == readonly
    ensures readonly ==>
              && s.Ok? && db.snapshot == old(db.snapshot)
              && guard.value.active == (db.snapshot.None? && !old(db.readOpen))
              && db.readOpen == (old(db.readOpen) || guard.value.active)
    ensures !readonly ==>
              && (s.Ok? <==> db.batchActive || old(db.snapshot).None?)
              && (s.Ok? ==> guard.value.active)
              && (s.Threw? ==> s == Threw(TxnStart))
              && (s.Ok? && !db.batchActive ==> db.snapshot == Some(db.Contents()) && !db.readOpen)
              && (s.Threw? || db.batchActive ==>
                    db.snapshot == old(db.snapshot) && db.readOpen == old(db.readOpen))
  {
    var active;
    if readonly {
      active := db.BlockRtxnStart();
    } else {
      s := db.BlockWtxnStart();
      if s.Threw? {
        return None, s;
      }
      active := true;
    }
    var g := new TxnGuard(db, readonly, active);
    guard, s := Some(g), Ok;
  }

  /** `add_block` under a write guard whose failure path aborts. Outside batch mode a failure at any
      point leaves every table as it was, and the write transaction is closed on both paths; a read
      transaction that was open is closed by starting it. In batch mode the abort does nothing: the
      writes made before the failure stay. */
  method AddBlockGuarded(db: BlockchainStore, e: Entry) returns (s: Status)
    requires db.TxnValid()
    modifies db
    ensures db.TxnValid() && db.batchActive == old(db.batchActive) && db.snapshot == old(db.snapshot)
    ensures db.readOpen == (old(db.readOpen) && db.snapshot.Some?)
    ensures !db.batchActive && old(db.snapshot).Some? ==>
              s == Threw(TxnStart) && db.Contents() == old(db.Contents())
    ensures db.batchActive || old(db.snapshot).None? ==>
              var r := B.AddBlock(old(db.Contents()), e);
              && s == r.status
              && db.Contents() == if s.Ok? || db.batchActive then r.tables else old(db.Contents())
    ensures |e.block.txHashes| != |e.txs| ==> db.Contents() == old(db.Contents())
  {
    hide B.AddBlock, BlockchainStore.Contents;
    if |e.block.txHashes| != |e.txs| {
      Failing.MismatchUnchanged(db.Contents(), e);
    }
    var guard;
    guard, s := Guard(db, false);
    if s.Threw? {
      return;
    }
    var _, status := db.AddBlock(e);
    if status.Threw? {
      var _ := guard.value.Abort();
    }
    guard.value.Destroy();
    s := status;
  }

  /** `add_block` under a write guard that nothing aborts: when the exception leaves the scope, the
      guard's destructor commits what was written before it, in batch mode and outside. */
  method AddBlockCommitting(db: BlockchainStore, e: Entry) returns (s: Status)
    requires db.TxnValid()
    modifies db
    ensures db.TxnValid() && db.batchActive == old(db.batchActive) && db.snapshot == old(db.snapshot)
    ensures db.readOpen == (old(db.readOpen) && db.snapshot.Some?)
    ensures !db.batchActive && old(db.snapshot).Some? ==>
              s == Threw(TxnStart) && db.Contents() == old(db.Contents())
    ensures db.batchActive || old(db.snapshot).None? ==>
              B.Outcome(db.Contents(), s) == B.AddBlock(old(db.Contents()), e)
  {
    hide B.AddBlock, BlockchainStore.Contents;
    var guard;
    guard, s := Guard(db, false);
    if s.Threw? {
      return;
    }
    var _, status := db.AddBlock(e);
    guard.value.Destroy();
    s := status;
  }

  // Nested guards

  /** A guard's scope outside batch mode. After its first part the guard may be stopped or aborted
      explicitly any number of times, each time followed by another part. For what is open and who
      closes it, stopping and aborting are the same. */
  datatype Scope = Scope(readonly: bool, first: seq<Scope>, rest: seq<Part>)

  datatype Part = Part(scopes: seq<Scope>)

  /** At most one transaction is open at a time. */
  datatype Mode = Closed | Reading | Writing

  /** Transactions are numbered from 1 in the order they are opened, so that the one open now is
      number `opens`. `closes` counts the calls that close one, `foreign` those of them made by a
      guard that did not open it, `stray` the stops of a read transaction that is not open. Once an
      exception is on its way, `threw`, only destructors run. */
  datatype Trace = Trace(
    mode: Mode, opens: nat, closes: nat, foreign: nat, stray: nat, threw: bool)

  const NO_TRACE := Trace(Closed, 0, 0, 0, 0, false)

  function Open(t: Trace, mode: Mode): Trace {
    t.(mode := mode, opens := t.opens + 1)
  }

  /** Closing the open transaction by a guard that opened number `mine`. */
  function Close(t: Trace, mine: nat): Trace {
    t.(mode := Closed, closes := t.closes + 1,
       foreign := t.foreign + if mine == t.opens then 0 else 1)
  }

  /** The constructor. A read guard opens a transaction if none is open. A write guard resets an open
      read transaction, and throws if a write transaction is open. */
  function StartCall(t: Trace, readonly: bool): Trace {
    match t.mode
    case Closed => Open(t, if readonly then Reading else Writing)
    case Reading => if readonly then t else Open(Close(t, 0), Writing)
    case Writing => if readonly then t else t.(threw := true)
  }

  /** The number of the transaction the guard opens, or 0. */
  function Opened(t: Trace, readonly: bool): nat {
    var t' := StartCall(t, readonly);
    if t'.opens > t.opens then t'.opens else 0
  }

  /** An explicit stop, or the destructor's. */
  function StopCall(t: Trace, readonly: bool, mine: nat): Trace {
    if t.mode == if readonly then Reading else Writing then Close(t, mine)
    else if readonly then t.(stray := t.stray + 1)
    else t.(threw := true)
  }

  /** A guard that opened a transaction is active until it is stopped. */
  function Exec(t: Trace, scope: Scope): Trace
    decreases scope
  {
    var t1 := StartCall(t, scope.readonly);
    if t1.threw then t1
    else
      var mine := Opened(t, scope.readonly);
      var t2 := ExecAll(t1, scope.first);
      if mine > 0 && (scope.rest == [] || t2.threw) then StopCall(t2, scope.readonly, mine)
      else ExecRest(t2, scope.readonly, mine, scope.rest)
  }

  function ExecAll(t: Trace, scopes: seq<Scope>): Trace
    decreases scopes
  {
    if scopes == [] || t.threw then t else ExecAll(Exec(t, scopes[0]), scopes[1..])
  }

  /** The explicit stops and the parts that follow them. */
  function ExecRest(t: Trace, readonly: bool, mine: nat, rest: seq<Part>): Trace
    decreases rest
  {
    if rest == [] || t.threw then t
    else
      ExecRest(ExecAll(StopCall(t, readonly, mine), rest[0].scopes), readonly, mine, rest[1..])
  }

  // The discipline

  /** Only read guards, and none of them is stopped explicitly. */
  predicate Quiet(scopes: seq<Scope>) {
    scopes == [] ||
    (&& scopes[0].readonly && Quiet(scopes[0].first) && scopes[0].rest == []
     && Quiet(scopes[1..]))
  }

  /** Outermost guards may be of either kind and may be stopped once. While one of them holds a
      transaction the scopes inside are quiet; after its stop they are on their own again. */
  predicate Disciplined(scopes: seq<Scope>) {
    scopes == [] ||
    (&& Quiet(scopes[0].first)
     && (scopes[0].rest == [] || (|scopes[0].rest| == 1 && Disciplined(scopes[0].rest[0].scopes)))
     && Disciplined(scopes[1..]))
  }

  /** From `t` to `r` nothing went wrong. */
  predicate Clean(t: Trace, r: Trace) {
    !r.threw && r.foreign == t.foreign && r.stray == t.stray
  }

  predicate Balanced(t: Trace, r: Trace) {
    r.closes - t.closes == r.opens - t.opens
  }

  /** What any scopes do to the transaction that is open around them. A write transaction stays open.
      A read transaction stays open, or is closed by a guard that did not open it. Where none was
      open, none is left open. Counters do not fall. */
  predicate Continues(t: Trace, r: Trace) {
    && r.foreign >= t.foreign && r.stray >= t.stray && (t.threw ==> r.threw)
    && match t.mode
       case Closed => r.mode == Closed && Balanced(t, r)
       case Writing => r.mode == Writing && r.opens == t.opens && r.closes == t.closes
       case Reading =>
         if r.mode == Reading then r.opens == t.opens && r.closes == t.closes
         else r.mode == Closed && r.closes - t.closes == r.opens - t.opens + 1
              && r.foreign > t.foreign
  }

  predicate Numbered(t: Trace) {
    t.mode != Closed ==> t.opens > 0
  }

  lemma ContinuesTransitive(t: Trace, m: Trace, r: Trace)
    requires Continues(t, m) && Continues(m, r)
    ensures Continues(t, r) && (Clean(t, r) <==> Clean(t, m) && Clean(m, r))
    ensures Numbered(t) ==> Numbered(m)
  {
  }

  /** What a guard must be like to do no harm where a transaction is open, or where none is. */
  predicate Allowed(t: Trace, scope: Scope) {
    && Quiet(scope.first)
    && if t.mode != Closed then scope.readonly && scope.rest == []
       else scope.rest == [] || (|scope.rest| == 1 && Disciplined(scope.rest[0].scopes))
  }

  predicate AllAllowed(t: Trace, scopes: seq<Scope>) {
    if t.mode == Closed then Disciplined(scopes) else Quiet(scopes)
  }

  /** Scopes run anywhere: they do what `Continues` says, cleanly exactly when they are allowed there;
      where a transaction is open, allowed scopes change nothing at all. */
  lemma {:induction false} ScopesDo(t: Trace, scopes: seq<Scope>)
    requires Numbered(t) && !t.threw
    ensures var r := ExecAll(t, scopes);
      && Continues(t, r)
      && (Clean(t, r) <==> AllAllowed(t, scopes))
      && (t.mode != Closed && Quiet(scopes) ==> r == t)
    decreases scopes
  {
    hide Exec;
    if scopes == [] {
    } else {
      var m := Exec(t, scopes[0]);
      ScopeDoes(t, scopes[0]);
      if !m.threw {
        ContinuesNumbered(t, m);
        ScopesDo(m, scopes[1..]);
        ContinuesTransitive(t, m, ExecAll(m, scopes[1..]));
      }
    }
  }

  lemma ContinuesNumbered(t: Trace, m: Trace)
    requires Numbered(t) && Continues(t, m)
    ensures Numbered(m)
  {
  }

  lemma {:induction false} ScopeDoes(t: Trace, scope: Scope)
    requires Numbered(t) && !t.threw
    ensures var r := Exec(t, scope);
      && Continues(t, r)
      && (Clean(t, r) <==> Allowed(t, scope))
      && (t.mode != Closed && Allowed(t, scope) ==> r == t)
    decreases scope
  {
    hide ExecAll, ExecRest, Quiet, Disciplined;
    var t1, mine := StartCall(t, scope.readonly), Opened(t, scope.readonly);
    if !t1.threw {
      var t2 := ExecAll(t1, scope.first);
      ScopesDo(t1, scope.first);
      if mine == 0 {
        ContinuesNumbered(t1, t2);
        IdleRest(t2, scope.readonly, mine, scope.rest);
        ContinuesTransitive(t, t2, ExecRest(t2, scope.readonly, mine, scope.rest));
      } else if scope.rest != [] && !t2.threw {
        OwnerStops(t2, scope.readonly, mine, scope.rest);
      }
    }
  }

  /** The stops of a guard with a transaction of its own: the first closes it, or finds it closed; any
      later one is an error. */
  lemma {:induction false} OwnerStops(t: Trace, readonly: bool, mine: nat, rest: seq<Part>)
    requires Numbered(t) && !t.threw && rest != []
    requires t.mode == (if readonly then Reading else Writing) || (readonly && t.mode == Closed)
    ensures var s := StopCall(t, readonly, mine);
      var r := ExecRest(t, readonly, mine, rest);
      && s.mode == Closed && Continues(s, r)
      && (Clean(s, r) <==> |rest| == 1 && Disciplined(rest[0].scopes))
    decreases rest
  {
    hide ExecAll, Disciplined;
    var s := StopCall(t, readonly, mine);
    var m := ExecAll(s, rest[0].scopes);
    ScopesDo(s, rest[0].scopes);
    IdleRest(m, readonly, mine, rest[1..]);
    ContinuesTransitive(s, m, ExecRest(m, readonly, mine, rest[1..]));
  }

  /** The stops of a guard that holds nothing are errors. */
  lemma {:induction false} IdleRest(t: Trace, readonly: bool, mine: nat, rest: seq<Part>)
    requires Numbered(t) && (t.mode == Closed || (readonly && mine == 0))
    ensures var r := ExecRest(t, readonly, mine, rest);
      Continues(t, r) && (rest == [] ==> r == t) && (rest != [] && !t.threw ==> !Clean(t, r))
    decreases rest
  {
    hide ExecAll;
    if rest == [] || t.threw {
    } else {
      var s := StopCall(t, readonly, mine);
      assert Continues(t, s) && !Clean(t, s);
      var m := ExecAll(s, rest[0].scopes);
      if s.threw {
        ThrewAll(s, rest[0].scopes);
      } else {
        ScopesDo(s, rest[0].scopes);
      }
      ContinuesTransitive(t, s, m);
      ContinuesNumbered(s, m);
      IdleRest(m, readonly, mine, rest[1..]);
      ContinuesTransitive(t, m, ExecRest(m, readonly, mine, rest[1..]));
    }
  }

  lemma ThrewAll(t: Trace, scopes: seq<Scope>)
    requires t.threw
    ensures ExecAll(t, scopes) == t
  {
  }

  /** Any program of nested read and write guards, started with no transaction open and whatever it
      throws, ends with none open and with every transaction closed once. No guard closes another
      guard's transaction, no stop meets a closed read transaction and nothing throws, exactly when
      the program is disciplined. */
  lemma NestedGuards(scopes: seq<Scope>)
    ensures var r := ExecAll(NO_TRACE, scopes);
      && r.mode == Closed && r.opens == r.closes
      && (r.foreign == 0 && r.stray == 0 && !r.threw <==> Disciplined(scopes))
  {
    ScopesDo(NO_TRACE, scopes);
  }

  // Read guards stopped at most once

  predicate SimpleRead(scope: Scope)
    decreases scope, 0
  {
    && scope.readonly && SimpleReads(scope.first)
    && (scope.rest == [] || (|scope.rest| == 1 && SimpleReads(scope.rest[0].scopes)))
  }

  predicate SimpleReads(scopes: seq<Scope>)
    decreases scopes, 1
  {
    scopes == [] || (SimpleRead(scopes[0]) && SimpleReads(scopes[1..]))
  }

  /** With these nothing throws, and either counter alone tells whether the scopes are disciplined. */
  lemma {:induction false} NestedReads(t: Trace, scopes: seq<Scope>)
    requires Numbered(t) && !t.threw && t.mode != Writing && SimpleReads(scopes)
    ensures var r := ExecAll(t, scopes);
      && !r.threw
      && (t.mode == Reading ==> (r.mode == Reading <==> Quiet(scopes)))
      && (t.mode == Closed ==> (r.foreign == t.foreign <==> Disciplined(scopes)))
      && (t.mode == Closed ==> (r.stray == t.stray <==> Disciplined(scopes)))
    decreases scopes
  {
    hide Exec;
    if scopes == [] {
    } else {
      var m := Exec(t, scopes[0]);
      ScopeDoes(t, scopes[0]);
      NestedRead(t, scopes[0]);
      ScopesDo(m, scopes[1..]);
      NestedReads(m, scopes[1..]);
    }
  }

  lemma {:induction false} NestedRead(t: Trace, scope: Scope)
    requires Numbered(t) && !t.threw && t.mode != Writing && SimpleRead(scope)
    ensures var r := Exec(t, scope);
      && !r.threw
      && (t.mode == Reading ==> (r.mode == Reading <==> Allowed(t, scope)))
      && (t.mode == Closed ==> (r.foreign == t.foreign <==> Allowed(t, scope)))
      && (t.mode == Closed ==> (r.stray == t.stray <==> Allowed(t, scope)))
    decreases scope
  {
    hide ExecAll, Quiet, Disciplined;
    var t1, mine := StartCall(t, true), Opened(t, true);
    var t2 := ExecAll(t1, scope.first);
    ScopesDo(t1, scope.first);
    NestedReads(t1, scope.first);
    if scope.rest == [] {
    } else {
      var s := StopCall(t2, true, mine);
      var m := ExecAll(s, scope.rest[0].scopes);
      ScopesDo(s, scope.rest[0].scopes);
      NestedReads(s, scope.rest[0].scopes);
      assert scope.rest[1..] == [] && ExecRest(m, true, mine, []) == m;
      assert Exec(t, scope) == m;
    }
  }

  // On a store

  ghost predicate Matches(db: BlockchainStore, t: Trace)
    reads db
  {
    && !db.batchActive
    && (db.snapshot.Some? <==> t.mode == Writing)
    && (db.readOpen <==> t.mode == Reading)
  }

  /** A scope carried out with guard objects on a store does what `Exec` says. What an open write
      transaction would go back to stays. */
  method Perform(db: BlockchainStore, scope: Scope, t: Trace) returns (r: Trace)
    requires Matches(db, t) && Numbered(t) && !t.threw
    modifies db`snapshot, db`readOpen
    ensures r == Exec(t, scope) && Matches(db, r)
    ensures t.mode == Writing ==> db.snapshot == old(db.snapshot)
    decreases scope
  {
    hide ExecAll, ExecRest, Quiet, Disciplined;
    var guard, s := Guard(db, scope.readonly);
    r := StartCall(t, scope.readonly);
    if s.Threw? {
      return;
    }
    var g := guard.value;
    var mine := Opened(t, scope.readonly);
    ScopesDo(r, scope.first);
    r := PerformAll(db, scope.first, r);
    if scope.rest != [] && !r.threw {
      r := PerformStops(db, g, mine, scope.rest, r);
    } else {
      NoRest(r, scope.readonly, mine, scope.rest);
    }
    if g.active {
      r := StopCall(r, scope.readonly, mine);
    }
    g.Destroy();
  }

  lemma NoRest(t: Trace, readonly: bool, mine: nat, rest: seq<Part>)
    requires rest == [] || t.threw
    ensures ExecRest(t, readonly, mine, rest) == t
  {
  }

  /** The explicit stops of a guard and the parts after them. */
  method PerformStops(db: BlockchainStore, g: TxnGuard, mine: nat, rest: seq<Part>, t: Trace)
    returns (r: Trace)
    requires Matches(db, t) && Numbered(t) && g.db == db && rest != [] && !t.threw
    requires g.active && !g.readonly ==> t.mode == Writing
    modifies g`active, db`snapshot, db`readOpen
    ensures r == ExecRest(t, g.readonly, mine, rest) && Matches(db, r) && !g.active
    ensures g.readonly && t.mode == Writing ==> db.snapshot == old(db.snapshot)
    decreases rest
  {
    hide ExecAll, Clean, AllAllowed;
    r := t;
    var i := 0;
    assert rest[0..] == rest;
    while i < |rest| && !r.threw
      invariant 0 <= i <= |rest|
      invariant Matches(db, r) && Numbered(r)
      invariant i == 0 ==> r == t
      invariant g.readonly && t.mode == Writing ==> r.mode == Writing && db.snapshot == old(db.snapshot)
      invariant i > 0 ==> !g.active
      invariant g.active && !g.readonly ==> r.mode == Writing
      invariant ExecRest(r, g.readonly, mine, rest[i..]) == ExecRest(t, g.readonly, mine, rest)
    {
      assert rest[i..][1..] == rest[i + 1..];
      r := StopCall(r, g.readonly, mine);
      var _ := g.Stop();
      if r.threw {
        ThrewAll(r, rest[i].scopes);
      } else {
        ScopesDo(r, rest[i].scopes);
      }
      r := PerformAll(db, rest[i].scopes, r);
      i := i + 1;
    }
  }

  method PerformAll(db: BlockchainStore, scopes: seq<Scope>, t: Trace) returns (r: Trace)
    requires Matches(db, t) && Numbered(t)
    modifies db`snapshot, db`readOpen
    ensures r == ExecAll(t, scopes) && Matches(db, r)
    ensures t.mode == Writing ==> db.snapshot == old(db.snapshot)
    decreases scopes
  {
    r := t;
    if scopes != [] && !t.threw {
      ScopeDoes(t, scopes[0]);
      r := Perform(db, scopes[0], r);
      r := PerformAll(db, scopes[1..], r);
    }
  }
}
