/**
 Checkpoints: the range query over the checkpoint table, the immutable checkpoint it decides,
 and the culling of old checkpoints. Finality moves up but for two kinds of recording.
 */
module Checkpoints {
  import opened Wrappers
  import opened Ledger
  import opened Store
  import Backend
  import opened Guards

  /** A checkpoint is a frame_pix one if it carries signatures, a hard-coded one otherwise. */
  datatype Checkpoint = Checkpoint(height: nat, blockHash: Hash, signatures: nat) {
    predicate FramePix() {
      signatures > 0
    }
  }

  type Table = map<nat, Checkpoint>

  const NUM_CHECKPOINTS := 2
  const INTERVAL := 4
  const PERSISTENT_INTERVAL := 60
  const MAX_SIZE := 0xFFFF_FFFF_FFFF_FFFF

  ghost predicate Keyed(table: Table) {
    forall h :: h in table ==> table[h].height == h
  }

  // Ordered access

  function Top(table: Table): (top: nat)
    requires table != map[]
    ensures top in table && forall h :: h in table ==> h <= top
  {
    var next := Backend.NextId(table);
    assert next != 0 by {
      var h :| h in table;
    }
    next - 1
  }

  /** The first key from `lo` up, not above `hi`. */
  function Lowest(table: Table, lo: nat, hi: nat): (r: Option<nat>)
    ensures r.Some? ==> lo <= r.value <= hi && r.value in table
    ensures r.Some? ==> forall h :: lo <= h < r.value ==> h !in table
    ensures r.None? ==> forall h :: lo <= h <= hi ==> h !in table
    decreases hi - lo
  {
    if lo > hi then None
    else if lo in table then Some(lo)
    else if lo == hi then None
    else Lowest(table, lo + 1, hi)
  }

  /** The first key below `h` going down. */
  function HighestBelow(table: Table, h: nat): (r: Option<nat>)
    ensures r.Some? ==> r.value < h && r.value in table
    ensures r.Some? ==> forall k :: r.value < k < h ==> k !in table
    ensures r.None? ==> forall k :: 0 <= k < h ==> k !in table
  {
    if h == 0 then None
    else if h - 1 in table then Some(h - 1)
    else HighestBelow(table, h - 1)
  }

  function Bottom(table: Table): (bottom: nat)
    requires table != map[]
    ensures bottom in table && forall h :: h in table ==> bottom <= h
  {
    Lowest(table, 0, Top(table)).value
  }

  function Clamp(val: nat, min: nat, max: nat): nat {
    if val < min then min else if val > max then max else val
  }

  // The range query

  /** Up to `n` checkpoints from height `hi` down to `lo`. */
  function Down(table: Table, hi: int, lo: nat, n: nat): seq<Checkpoint>
    decreases hi
  {
    if hi < lo || n == 0 then []
    else if hi in table then [table[hi]] + Down(table, hi - 1, lo, n - 1)
    else Down(table, hi - 1, lo, n)
  }

  /** Up to `n` checkpoints from height `lo` up to `hi`. */
  function Up(table: Table, lo: nat, hi: nat, n: nat): seq<Checkpoint>
    decreases hi - lo
  {
    if hi < lo || n == 0 then []
    else if lo in table then [table[lo]] + Up(table, lo + 1, hi, n - 1)
    else Up(table, lo + 1, hi, n)
  }

  function Range(table: Table, start: nat, end: nat, n: nat): seq<Checkpoint> {
    if table == map[] then []
    else
      var from := Clamp(start, Bottom(table), Top(table));
      var until := Clamp(end, Bottom(table), Top(table));
      var limit := if n == 0 then MAX_SIZE else n;
      if from > until then Down(table, from, until, limit) else Up(table, from, until, limit)
  }

  /** Heights without a checkpoint do not matter. */
  lemma {:induction false} DownSkip(table: Table, hi: int, next: int, lo: nat, n: nat)
    requires lo - 1 <= next <= hi && forall k :: next < k <= hi ==> k !in table
    ensures Down(table, hi, lo, n) == Down(table, next, lo, n)
    decreases hi - next
  {
    if next < hi {
      DownSkip(table, hi - 1, next, lo, n);
    }
  }

  lemma {:induction false} UpSkip(table: Table, lo: nat, next: nat, hi: nat, n: nat)
    requires lo <= next <= hi + 1 && forall k :: lo <= k < next ==> k !in table
    ensures Up(table, lo, hi, n) == Up(table, next, hi, n)
    decreases next - lo
  {
    if lo < next {
      UpSkip(table, lo + 1, next, hi, n);
    }
  }

  // What the range query means

  /** The height nearest to `x` between the lowest and the highest checkpoint. */
  ghost function Nearest(table: Table, x: nat): (e: nat)
    requires table != map[]
    ensures if forall h :: h in table ==> x < h then e in table && forall h :: h in table ==> e <= h
            else if forall h :: h in table ==> h < x
            then e in table && forall h :: h in table ==> h <= e
            else e == x
  {
    Clamp(x, Bottom(table), Top(table))
  }

  /** `a` comes before `b` going up, or down. */
  ghost predicate Before(up: bool, a: nat, b: nat) {
    if up then a < b else a > b
  }

  ghost predicate AllBefore(up: bool, r: seq<Checkpoint>, h: nat) {
    forall i :: 0 <= i < |r| ==> Before(up, r[i].height, h)
  }

  ghost predicate InOrder(up: bool, r: seq<Checkpoint>) {
    forall i, j :: 0 <= i < j < |r| ==> Before(up, r[i].height, r[j].height)
  }

  /** The checkpoint at `h` is there, or lies beyond all that are, the limit being reached. */
  ghost predicate Accounted(table: Table, up: bool, limit: nat, r: seq<Checkpoint>, h: nat)
    requires h in table
  {
    table[h] in r || (|r| == limit && AllBefore(up, r, h))
  }

  ghost predicate FromTable(table: Table, lo: int, hi: int, r: seq<Checkpoint>) {
    forall i :: 0 <= i < |r| ==>
      r[i].height in table && table[r[i].height] == r[i] && lo <= r[i].height <= hi
  }

  /** The checkpoints from `lo` to `hi`, going up or down, at most `limit` of them: they are entries of
      the table between the heights, in strict order, and all others between the heights are accounted
      for. */
  ghost predicate Collected(
    table: Table, lo: int, hi: int, up: bool, limit: nat, r: seq<Checkpoint>)
  {
    && |r| <= limit
    && FromTable(table, lo, hi, r)
    && InOrder(up, r)
    && forall h :: h in table && lo <= h <= hi ==> Accounted(table, up, limit, r, h)
  }

  lemma CollectedNone(table: Table, lo: int, hi: int, up: bool, limit: nat)
    requires hi < lo || limit == 0
    ensures Collected(table, lo, hi, up, limit, [])
  {
  }

  lemma CollectedSkip(
    table: Table, lo: int, hi: int, lo': int, hi': int, up: bool, limit: nat, r: seq<Checkpoint>)
    requires Collected(table, lo', hi', up, limit, r) && lo <= lo' && hi' <= hi
    requires forall h :: h in table && lo <= h <= hi ==> lo' <= h <= hi'
    ensures Collected(table, lo, hi, up, limit, r)
  {
    hide Accounted, InOrder;
  }

  lemma InOrderCons(up: bool, c: Checkpoint, r: seq<Checkpoint>)
    requires InOrder(up, r) && forall i :: 0 <= i < |r| ==> Before(up, c.height, r[i].height)
    ensures InOrder(up, [c] + r)
  {
    hide Before;
    assert forall i :: 0 < i < |[c] + r| ==> ([c] + r)[i] == r[i - 1];
  }

  lemma AccountedCons(table: Table, up: bool, limit: nat, c: Checkpoint, r: seq<Checkpoint>, h: nat)
    requires h in table && Accounted(table, up, limit, r, h) && Before(up, c.height, h)
    ensures Accounted(table, up, limit + 1, [c] + r, h)
  {
    hide Before;
    assert forall i :: 0 < i < |[c] + r| ==> ([c] + r)[i] == r[i - 1];
    if table[h] in r {
      var i :| 0 <= i < |r| && r[i] == table[h];
      assert ([c] + r)[i + 1] == table[h];
    }
  }

  lemma FromTableCons(table: Table, lo: int, hi: int, c: Checkpoint, r: seq<Checkpoint>)
    requires FromTable(table, lo, hi, r)
    requires c.height in table && table[c.height] == c && lo <= c.height <= hi
    ensures FromTable(table, lo, hi, [c] + r)
  {
    assert forall i :: 0 < i < |[c] + r| ==> ([c] + r)[i] == r[i - 1];
  }

  /** The first checkpoint, before those of the rest of the range. */
  lemma CollectedCons(
    table: Table, lo: int, hi: int, up: bool, limit: nat, c: Checkpoint, r: seq<Checkpoint>)
    requires c.height in table && table[c.height] == c && lo <= c.height <= hi
    requires c.height == if up then lo else hi
    requires Collected(table, if up then lo + 1 else lo, if up then hi else hi - 1, up, limit, r)
    ensures Collected(table, lo, hi, up, limit + 1, [c] + r)
  {
    hide Accounted, InOrder;
    InOrderCons(up, c, r);
    WiderTable(table, if up then lo + 1 else lo, if up then hi else hi - 1, lo, hi, r);
    FromTableCons(table, lo, hi, c, r);
    forall h | h in table && lo <= h <= hi
      ensures Accounted(table, up, limit + 1, [c] + r, h)
    {
      if h == c.height {
        FirstAccounted(table, up, limit, c, r);
      } else {
        AccountedCons(table, up, limit, c, r, h);
      }
    }
  }

  lemma WiderTable(table: Table, lo: int, hi: int, lo': int, hi': int, r: seq<Checkpoint>)
    requires FromTable(table, lo, hi, r) && lo' <= lo && hi <= hi'
    ensures FromTable(table, lo', hi', r)
  {
  }

  lemma FirstAccounted(table: Table, up: bool, limit: nat, c: Checkpoint, r: seq<Checkpoint>)
    requires c.height in table && table[c.height] == c
    ensures Accounted(table, up, limit + 1, [c] + r, c.height)
  {
    assert ([c] + r)[0] == c;
  }

  lemma {:induction false} UpIs(table: Table, lo: nat, hi: nat, n: nat)
    requires Keyed(table)
    ensures Collected(table, lo, hi, true, n, Up(table, lo, hi, n))
    decreases hi - lo
  {
    hide Collected;
    if hi < lo || n == 0 {
      CollectedNone(table, lo, hi, true, n);
    } else if lo in table {
      UpIs(table, lo + 1, hi, n - 1);
      CollectedCons(table, lo, hi, true, n - 1, table[lo], Up(table, lo + 1, hi, n - 1));
    } else {
      UpIs(table, lo + 1, hi, n);
      CollectedSkip(table, lo, hi, lo + 1, hi, true, n, Up(table, lo + 1, hi, n));
    }
  }

  lemma {:induction false} DownIs(table: Table, hi: int, lo: nat, n: nat)
    requires Keyed(table)
    ensures Collected(table, lo, hi, false, n, Down(table, hi, lo, n))
    decreases hi
  {
    hide Collected;
    if hi < lo || n == 0 {
      CollectedNone(table, lo, hi, false, n);
    } else if hi in table {
      DownIs(table, hi - 1, lo, n - 1);
      CollectedCons(table, lo, hi, false, n - 1, table[hi], Down(table, hi - 1, lo, n - 1));
    } else {
      DownIs(table, hi - 1, lo, n);
      CollectedSkip(table, lo, hi, lo, hi - 1, false, n, Down(table, hi - 1, lo, n));
    }
  }

  /** The checkpoints between two heights, each moved to the nearest height of the table's range, in
      the order from the first to the second. */
  ghost predicate CollectedBetween(
    table: Table, start: nat, end: nat, limit: nat, r: seq<Checkpoint>)
    requires table != map[]
  {
    var from, until := Nearest(table, start), Nearest(table, end);
    if from <= until then Collected(table, from, until, true, limit, r)
    else Collected(table, until, from, false, limit, r)
  }

  /** The range query without its walks. Asked for 0 checkpoints it gives as many as there are. */
  lemma RangeIs(table: Table, start: nat, end: nat, n: nat)
    requires Keyed(table)
    ensures table == map[] ==> Range(table, start, end, n) == []
    ensures table != map[] ==>
              CollectedBetween(table, start, end, if n == 0 then 0xFFFF_FFFF_FFFF_FFFF else n,
                               Range(table, start, end, n))
  {
    hide Collected, Up, Down, Bottom, Top;
    if table != map[] {
      var from, until := Nearest(table, start), Nearest(table, end);
      var limit := if n == 0 then MAX_SIZE else n;
      if from > until {
        DownIs(table, from, until, limit);
      } else {
        UpIs(table, from, until, limit);
      }
    }
  }

  class CheckpointDb {
    const store: BlockchainStore  // whose transactions cover this table too
    var table: Table

    constructor (store: BlockchainStore)
      ensures this.store == store && table == map[]
    {
      this.store, table := store, map[];
    }

    method UpdateBlockCheckpoint(c: Checkpoint)
      requires Keyed(table)
      modifies `table
      ensures table == old(table)[c.height := c] && Keyed(table)
    {
      table := table[c.height := c];
    }

    method RemoveBlockCheckpoint(height: nat)
      requires Keyed(table)
      modifies `table
      ensures table == old(table) - {height} && Keyed(table)
    {
      if height in table {
        table := table - {height};
      }
    }

    /** The search for the first checkpoint of a range, one height at a time towards `end`. */
    method FirstOfRange(start: nat, end: nat) returns (first: Option<nat>)
      ensures start > end ==> first == match HighestBelow(table, start + 1)
                                       case Some(h) => if h >= end then Some(h) else None
                                       case None => None
      ensures start <= end ==> first == Lowest(table, start, end)
    {
      var height := start;
      while height != end
        invariant start > end ==>
          end <= height <= start && forall k :: height < k <= start ==> k !in table
        invariant start <= end ==>
          start <= height <= end && forall k :: start <= k < height ==> k !in table
        decreases if start > end then height - end else end - height
      {
        if height in table {
          return Some(height);
        }
        if end >= start {
          height := height + 1;
        } else {
          height := height - 1;
        }
      }
      first := if end in table then Some(end) else None;
    }

    /** Checkpoints from `start` towards `end`, both clamped to the table's range. */
    method GetCheckpointsRange(start: nat, end: nat, n: nat) returns (result: seq<Checkpoint>)
      requires Keyed(table)
      ensures result == Range(table, start, end, n)
      ensures table == map[] ==> result == []
      ensures table != map[] ==>
                CollectedBetween(table, start, end, if n == 0 then 0xFFFF_FFFF_FFFF_FFFF else n, result)
    {
      hide CollectedBetween;
      RangeIs(table, start, end, n);
      if table == map[] {
        return [];
      }
      var bottom, top := Bottom(table), Top(table);
      var from, until := Clamp(start, bottom, top), Clamp(end, bottom, top);
      var limit := if n == 0 then MAX_SIZE else n;
      var first := FirstOfRange(from, until);
      if first.None? {
        if from > until {
          DownSkip(table, from, until as int - 1, until, limit);
        } else {
          UpSkip(table, from, until + 1, until, limit);
        }
        return [];
      }
      if from > until {
        DownSkip(table, from, first.value, until, limit);
        result := WalkDown(first.value, from, until, limit);
      } else {
        UpSkip(table, from, first.value, until, limit);
        result := WalkUp(first.value, from, until, top, limit);
      }
    }

    /** The cursor loop going to smaller heights. */
    method WalkDown(first: nat, max: nat, min: nat, limit: nat) returns (result: seq<Checkpoint>)
      requires Keyed(table) && min <= first <= max && first in table && limit > 0
      ensures result == Down(table, first, min, limit)
    {
      result := [table[first]];
      var cursor := first;
      while |result| < limit
        invariant cursor in table && cursor <= max && 1 <= |result| <= limit
        invariant Down(table, first, min, limit)
               == result + Down(table, cursor - 1, min, limit - |result|)
        decreases cursor
      {
        match HighestBelow(table, cursor) {
          case None =>
            if cursor - 1 >= min {
              DownSkip(table, cursor - 1, min - 1, min, limit - |result|);
            }
            break;
          case Some(next) =>
            if next >= min {
              DownSkip(table, cursor - 1, next, min, limit - |result|);
            } else if cursor - 1 >= min {
              DownSkip(table, cursor - 1, min - 1, min, limit - |result|);
            }
            cursor := next;
            if min <= table[cursor].height <= max {
              result := result + [table[cursor]];
            }
        }
      }
    }

    /** The cursor loop going to larger heights. */
    method WalkUp(first: nat, min: nat, max: nat, top: nat, limit: nat)
      returns (result: seq<Checkpoint>)
      requires Keyed(table) && min <= first <= max <= top && first in table && limit > 0
      ensures result == Up(table, first, max, limit)
    {
      result := [table[first]];
      var cursor := first;
      while |result| < limit
        invariant cursor in table && min <= cursor <= top && 1 <= |result| <= limit
        invariant Up(table, first, max, limit)
               == result + Up(table, cursor + 1, max, limit - |result|)
        decreases top - cursor
      {
        match Lowest(table, cursor + 1, top) {
          case None =>
            if cursor + 1 <= max {
              UpSkip(table, cursor + 1, max + 1, max, limit - |result|);
            }
            break;
          case Some(next) =>
            if next <= max {
              UpSkip(table, cursor + 1, next, max, limit - |result|);
            } else if cursor + 1 <= max {
              UpSkip(table, cursor + 1, max + 1, max, limit - |result|);
            }
            cursor := next;
            if min <= table[cursor].height <= max {
              result := result + [table[cursor]];
            }
        }
      }
    }

    method GetImmutableCheckpoint(height: nat) returns (immutable: Option<Checkpoint>)
      requires Keyed(table)
      ensures immutable == Immutable(table, height)
      ensures immutable.None? <==>
              table == map[] ||
              (table[Newest(table, height)].signatures > 0 && Newest(table, height) == Bottom(table))
    {
      NoneIff(table, height);
      var checkpoints := GetCheckpointsRange(height, 0, NUM_CHECKPOINTS);
      if |checkpoints| == 0 {
        return None;
      }
      if !checkpoints[0].FramePix() {
        immutable := Some(checkpoints[0]);
      } else if |checkpoints| == NUM_CHECKPOINTS {
        immutable := Some(checkpoints[1]);
      } else {
        immutable := None;
      }
    }
  }

  // Finality

  /** The checkpoint that can no longer be overridden, seen from a chain of the given height. */
  function Immutable(table: Table, height: nat): Option<Checkpoint> {
    var checkpoints := Range(table, height, 0, NUM_CHECKPOINTS);
    if |checkpoints| == 0 then None
    else if !checkpoints[0].FramePix() then Some(checkpoints[0])
    else if |checkpoints| == NUM_CHECKPOINTS then Some(checkpoints[1])
    else None
  }

  /** The newest checkpoint seen from `height`: the highest at or below it, or the lowest of all if
      they are all above. */
  function Newest(table: Table, height: nat): (newest: nat)
    requires table != map[]
    ensures newest in table
    ensures if height < Bottom(table) then newest == Bottom(table)
            else newest <= height && forall h :: h in table && h <= height ==> h <= newest
  {
    if height < Bottom(table) then Bottom(table) else HighestBelow(table, height + 1).value
  }

  /** The immutable checkpoint without the range query: the newest checkpoint if it is hard-coded,
      that is, has no signatures; otherwise the one before it, if any. */
  lemma ImmutableIs(table: Table, height: nat)
    requires Keyed(table)
    ensures Immutable(table, height) ==
            if table == map[] then None
            else
              var newest := Newest(table, height);
              if table[newest].signatures == 0 then Some(table[newest])
              else match HighestBelow(table, newest)
                case None => None
                case Some(h) => Some(table[h])
  {
    hide HighestBelow, Newest, Bottom, Lowest, Top;
    if table != map[] {
      var bottom, top := Bottom(table), Top(table);
      var from := Clamp(height, bottom, top);
      var newest := Newest(table, height);
      assert Clamp(0, bottom, top) == bottom;
      if from > bottom {
        assert newest <= from && forall k :: newest < k <= from ==> k !in table;
        DownSkip(table, from, newest, bottom, 2);
        match HighestBelow(table, newest) {
          case None => DownSkip(table, newest as int - 1, bottom as int - 1, bottom, 1);
          case Some(h) => DownSkip(table, newest as int - 1, h, bottom, 1);
        }
      } else {
        assert newest == bottom == from;
        assert HighestBelow(table, bottom).None?;
        assert Up(table, bottom, bottom, 2) == [table[bottom]];
      }
    }
  }

  predicate AtOrAbove(later: Option<Checkpoint>, earlier: Option<Checkpoint>) {
    earlier.Some? ==> later.Some? && earlier.value.height <= later.value.height
  }

  /** Finality rises with the height it is seen from. */
  lemma MonotoneInHeight(table: Table, low: nat, high: nat)
    requires Keyed(table) && low <= high
    ensures AtOrAbove(Immutable(table, high), Immutable(table, low))
  {
    hide Immutable;
    ImmutableIs(table, low);
    ImmutableIs(table, high);
  }

  /** Recording `c` takes the place of a hard-coded newest checkpoint with a frame_pix one, or puts
      it below all others when the height asked about is below them too. */
  predicate Lowers(table: Table, c: Checkpoint, height: nat) {
    && table != map[]
    && (|| (&& c.height == Newest(table, height)
            && table[Newest(table, height)].signatures == 0 && c.signatures > 0)
        || (height < Bottom(table) && c.height < Bottom(table)))
  }

  /** Finality keeps or rises when a checkpoint is recorded, at whatever height, with exactly those
      two exceptions. */
  lemma RecordingKeepsFinalityIff(table: Table, c: Checkpoint, height: nat)
    requires Keyed(table) && Immutable(table, height).Some?
    ensures AtOrAbove(Immutable(table[c.height := c], height), Immutable(table, height)) <==>
            !Lowers(table, c, height)
  {
    hide Immutable, HighestBelow, Newest, Bottom, Lowest, Top;
    var table' := table[c.height := c];
    ImmutableIs(table, height);
    ImmutableIs(table', height);
    var bottom, newest := Bottom(table), Newest(table, height);
    if height < bottom && c.height < bottom {
      BottomIs(table', c.height);
      NewestIs(table', height, c.height);
    } else if newest < c.height <= height {
      BottomIs(table', bottom);
      NewestIs(table', height, c.height);
      assert newest in table';
      assert HighestBelow(table', c.height).Some?;
    } else {
      SameNewestAfter(table, c, height);
      assert forall k :: k in table ==> k in table';
    }
  }

  lemma SameNewestAfter(table: Table, c: Checkpoint, height: nat)
    requires table != map[]
    requires !(height < Bottom(table) && c.height < Bottom(table))
    requires !(Newest(table, height) < c.height <= height)
    ensures Newest(table[c.height := c], height) == Newest(table, height)
  {
    hide HighestBelow, Newest, Bottom, Lowest, Top;
    var table' := table[c.height := c];
    var bottom, newest := Bottom(table), Newest(table, height);
    if height < bottom {
      BottomIs(table', bottom);
    } else {
      assert Bottom(table') <= newest by { assert newest in table'; }
    }
    NewestIs(table', height, newest);
  }

  lemma BottomIs(table: Table, bottom: nat)
    requires bottom in table && forall h :: h in table ==> bottom <= h
    ensures Bottom(table) == bottom
  {
  }

  lemma NewestIs(table: Table, height: nat, newest: nat)
    requires newest in table
    requires if height < Bottom(table) then newest == Bottom(table)
             else newest <= height && forall h :: h in table && h <= height ==> h <= newest
    ensures Newest(table, height) == newest
  {
  }

  /** Between the immutable checkpoint and the height it is seen from there is at most one other
      checkpoint, and that is a frame_pix one. */
  lemma AtMostOneNewer(table: Table, height: nat, h: nat, h': nat)
    requires Keyed(table) && Immutable(table, height).Some?
    requires h in table && Immutable(table, height).value.height < h <= height
    requires h' in table && Immutable(table, height).value.height < h' <= height
    ensures h == h' && table[h].signatures > 0
  {
    hide Immutable;
    ImmutableIs(table, height);
  }

  /** The immutable checkpoint lies at or below the height asked about exactly when some checkpoint
      does; below the lowest checkpoint the clamping hands out a checkpoint of the future. */
  lemma NotAboveIff(table: Table, height: nat)
    requires Keyed(table) && Immutable(table, height).Some?
    ensures Immutable(table, height).value.height <= height <==>
            exists h :: h in table && h <= height
  {
    hide Immutable;
    ImmutableIs(table, height);
    assert Bottom(table) in table;
  }

  /** There is no immutable checkpoint exactly when the newest is a frame_pix one with no checkpoint
      before it, or there are no checkpoints. */
  lemma NoneIff(table: Table, height: nat)
    requires Keyed(table)
    ensures Immutable(table, height).None? <==>
            table == map[] ||
            (table[Newest(table, height)].signatures > 0 && Newest(table, height) == Bottom(table))
  {
    hide Immutable;
    ImmutableIs(table, height);
  }

  // Culling

  /** Removing checkpoints below the immutable one changes nothing for later heights. */
  lemma RemovingOldKeepsFinality(table: Table, gone: set<nat>, seen: nat, height: nat)
    requires Keyed(table) && Immutable(table, seen).Some? && seen <= height
    requires forall h :: h in gone ==> h < Immutable(table, seen).value.height
    ensures Immutable(table - gone, height) == Immutable(table, height)
  {
    hide Immutable, HighestBelow, Newest, Bottom, Lowest, Top;
    var table' := table - gone;
    ImmutableIs(table, seen);
    ImmutableIs(table, height);
    ImmutableIs(table', height);
    var limit := Immutable(table, seen).value.height;
    var newest := Newest(table, height);
    assert limit <= newest && newest in table';
    assert forall k :: k in table && k >= limit ==> k in table';
    SameNewest(table, table', height, limit);
    if table[newest].FramePix() {
      var before := HighestBelow(table, newest);
      assert before.Some? && before.value >= limit;
      HighestBelowIs(table', newest, before.value);
    }
  }

  lemma SameNewest(table: Table, table': Table, height: nat, limit: nat)
    requires table != map[] && table' != map[] && Newest(table, height) >= limit
    requires forall k :: k in table' ==> k in table
    requires forall k :: k in table && k >= limit ==> k in table'
    ensures Newest(table', height) == Newest(table, height)
  {
    var newest := Newest(table, height);
    assert newest in table';
    if height < Bottom(table) {
      BottomIs(table', newest);
    } else {
      assert Bottom(table') <= newest <= height;
      NewestIs(table', height, newest);
    }
  }

  lemma HighestBelowIs(table: Table, h: nat, k: nat)
    requires k in table && k < h && forall j :: k < j < h ==> j !in table
    ensures HighestBelow(table, h) == Some(k)
  {
  }

  /** The heights culling visits from `from` on, below `end`, except the persistent ones. */
  function Culled(from: nat, end: nat): set<nat>
    decreases end - from
  {
    if from >= end then {}
    else (if from % PERSISTENT_INTERVAL != 0 then {from} else {}) + Culled(from + INTERVAL, end)
  }

  /** Every fourth height from `from` on, below `end`, that is not a multiple of sixty. */
  lemma {:induction false} CulledIs(from: nat, end: nat, h: nat)
    ensures h in Culled(from, end) <==> from <= h < end && (h - from) % 4 == 0 && h % 60 != 0
    decreases end - from
  {
    if from >= end {
    } else {
      CulledIs(from + INTERVAL, end, h);
    }
  }

  /** Where culling stops: the first step at or past `end`. */
  function CullStop(from: nat, end: nat): nat
    decreases end - from
  {
    if from >= end then from else CullStop(from + INTERVAL, end)
  }

  /** The first step from `from` on that is at or past `end`. */
  lemma {:induction false} CullStopIs(from: nat, end: nat) returns (steps: nat)
    ensures CullStop(from, end) == from + 4 * steps && end <= from + 4 * steps
    ensures steps == 0 || from + 4 * (steps - 1) < end
    decreases end - from
  {
    if from >= end {
      steps := 0;
    } else {
      var more := CullStopIs(from + INTERVAL, end);
      steps := more + 1;
    }
  }

  function CullStart(lastCull: nat, end: nat): nat {
    var start := if end < PERSISTENT_INTERVAL then 0 else end - PERSISTENT_INTERVAL;
    var rounded := if start % INTERVAL > 0 then start + (INTERVAL - start % INTERVAL) else start;
    if lastCull < rounded then rounded else lastCull
  }

  /** Culling starts at the last cull, or at the first multiple of four that is at most sixty below
      the end, whichever is later. */
  lemma CullStartIs(lastCull: nat, end: nat) returns (first: nat)
    ensures first % 4 == 0 && end - 60 <= first && (first == 0 || first < end - 60 + 4)
    ensures CullStart(lastCull, end) == if lastCull < first then first else lastCull
  {
    first := CullStart(0, end);
  }

  /** A block added to the chain, with the checkpoint that came with it. */
  datatype Added = Added(height: nat, majorVersion: nat, checkpoint: Option<Checkpoint>)

  const NETWORK_VERSION_12 := 12

  /** Blocks that are too low or too old are ignored. */
  predicate Counts(b: Added) {
    b.height >= PERSISTENT_INTERVAL && b.majorVersion >= NETWORK_VERSION_12
  }

  /** Where culling stops on a new block. */
  function CullEnd(table: Table, b: Added): nat {
    var immutable := Immutable(table, b.height + 1);
    if immutable.Some? then immutable.value.height else 0
  }

  function CulledBy(table: Table, lastCull: nat, b: Added): set<nat> {
    var end := CullEnd(table, b);
    Culled(CullStart(lastCull, end), end)
  }

  /** The checkpoint that a block records. Outside batch mode the block's own write transaction is
      still open when the checkpoint is to be recorded, starting a batch throws, and the checkpoint
      is dropped. */
  function RecordedBy(b: Added, batch: bool): Option<Checkpoint> {
    if Counts(b) && batch then b.checkpoint else None
  }

  function Record(table: Table, c: Option<Checkpoint>): Table {
    if c.Some? then table[c.value.height := c.value] else table
  }

  function TableAfter(table: Table, lastCull: nat, b: Added, batch: bool): Table {
    if !Counts(b) then table else Record(table - CulledBy(table, lastCull, b), RecordedBy(b, batch))
  }

  function CulledUpTo(table: Table, lastCull: nat, b: Added): nat {
    var end := CullEnd(table, b);
    if !Counts(b) then lastCull else CullStop(CullStart(lastCull, end), end)
  }

  /** Culling up to `end` that goes on from `last` leaves off at `next`: it starts at `last` or at the
      first multiple of four at or above `end - 60`, whichever is later, and stops at the first of
      every fourth height from there that is not below `end`. */
  predicate LeavesOff(last: nat, end: nat, next: nat) {
    var first := if end < 60 then 0 else (end - 57) / 4 * 4;
    var start := if last < first then first else last;
    start <= next && (next - start) % 4 == 0 && end <= next && (next == start || next - 4 < end)
  }

  /** Where culling is after a block: where it was for blocks below height 60 or version 12, and
      otherwise where culling up to the immutable checkpoint leaves off. */
  lemma CulledUpToIs(table: Table, lastCull: nat, b: Added)
    ensures var immutable := Immutable(table, b.height + 1);
      var next := CulledUpTo(table, lastCull, b);
      if b.height < 60 || b.majorVersion < 12 then next == lastCull
      else LeavesOff(lastCull, if immutable.Some? then immutable.value.height else 0, next)
  {
    hide Immutable;
    var end := CullEnd(table, b);
    var first := CullStartIs(lastCull, end);
    var steps := CullStopIs(CullStart(lastCull, end), end);
  }

  /** What a block does to the checkpoint at height `h`. Blocks below height 60 or version 12 do
      nothing. Otherwise the one the block records in batch mode is there, and of the others those
      culling visits are gone: every fourth from the start to the immutable checkpoint, except the
      multiples of sixty. */
  lemma TableAfterIs(table: Table, lastCull: nat, b: Added, batch: bool, h: nat)
    ensures var after := TableAfter(table, lastCull, b, batch);
      if b.height < 60 || b.majorVersion < 12 then after == table
      else if batch && b.checkpoint.Some? && b.checkpoint.value.height == h
      then h in after && after[h] == b.checkpoint.value
      else
        var immutable := Immutable(table, b.height + 1);
        var end := if immutable.Some? then immutable.value.height else 0;
        var start := CullStart(lastCull, end);
        && (h in after <==>
              h in table && !(start <= h < end && (h - start) % 4 == 0 && h % 60 != 0))
        && (h in after ==> after[h] == table[h])
  {
    hide Immutable, Culled, CullStart;
    var end := CullEnd(table, b);
    CulledIs(CullStart(lastCull, end), end, h);
  }

  class CheckpointKeeper {
    const db: CheckpointDb
    var lastCull: nat

    constructor (db: CheckpointDb)
      ensures this.db == db && lastCull == 0
    {
      this.db, lastCull := db, 0;
    }

    /** Records a checkpoint in a batch of its own or in the one that is active. With a write
        transaction open instead, starting the batch throws, which is caught here. */
    method UpdateCheckpoint(c: Checkpoint) returns (ok: bool)
      requires Keyed(db.table)
      modifies db`table
      ensures ok == (db.store.batchActive || db.store.snapshot.None?)
      ensures db.table == Record(old(db.table), if ok then Some(c) else None) && Keyed(db.table)
    {
      ok := db.store.batchActive || db.store.snapshot.None?;
      if ok {
        db.UpdateBlockCheckpoint(c);
      }
    }

    method Cull(end: nat)
      requires Keyed(db.table)
      modifies this, db`table
      ensures db.table == old(db.table) - Culled(old(lastCull), end) && Keyed(db.table)
      ensures lastCull == CullStop(old(lastCull), end)
    {
      ghost var gone: set<nat> := {};
      while lastCull < end
        invariant Culled(old(lastCull), end) == gone + Culled(lastCull, end)
        invariant CullStop(old(lastCull), end) == CullStop(lastCull, end)
        invariant db.table == old(db.table) - gone && Keyed(db.table)
        decreases end - lastCull
      {
        if lastCull % PERSISTENT_INTERVAL != 0 {
          db.RemoveBlockCheckpoint(lastCull);
          gone := gone + {lastCull};
        }
        lastCull := lastCull + INTERVAL;
      }
      assert gone == Culled(old(lastCull), end);
    }

    /** How far to cull on a new block, and where to go on. */
    method StartCulling(b: Added) returns (end: nat)
      requires Keyed(db.table)
      modifies `lastCull
      ensures end == CullEnd(db.table, b) && lastCull == CullStart(old(lastCull), end)
    {
      hide Immutable;
      end := 0;
      var immutable := db.GetImmutableCheckpoint(b.height + 1);
      if immutable.Some? {
        end := immutable.value.height;
      }
      var start := if end < PERSISTENT_INTERVAL then 0 else end - PERSISTENT_INTERVAL;
      if start % INTERVAL > 0 {
        start := start + (INTERVAL - start % INTERVAL);
      }
      lastCull := if lastCull < start then start else lastCull;
    }

    /** A block was added. If the write transaction cannot be started the exception leaves only the
        place where culling goes on. */
    method OnBlockAdded(b: Added) returns (s: Status)
      requires Keyed(db.table) && db.store.TxnValid()
      modifies this, db, db.store`snapshot, db.store`readOpen
      ensures Keyed(db.table) && db.store.TxnValid()
      ensures db.store.snapshot == old(db.store.snapshot)
      ensures db.store.readOpen ==
              (old(db.store.readOpen) && (db.store.batchActive || !Counts(b) || s.Threw?))
      ensures s.Threw? <==> Counts(b) && !db.store.batchActive && db.store.snapshot.Some?
      ensures s.Ok? ==>
                && db.table == TableAfter(old(db.table), old(lastCull), b, db.store.batchActive)
                && lastCull == CulledUpTo(old(db.table), old(lastCull), b)
      ensures s.Threw? ==>
                && s == Threw(TxnStart) && db.table == old(db.table)
                && lastCull == CullStart(old(lastCull), CullEnd(db.table, b))
      ensures forall h :: h in old(db.table) && h % 60 == 0 ==> h in db.table
      ensures b.height < 60 || b.majorVersion < 12 ==>
                s.Ok? && db.table == old(db.table) && lastCull == old(lastCull)
      ensures s.Ok? && b.height >= 60 && b.majorVersion >= 12 ==>
                var immutable := Immutable(old(db.table), b.height + 1);
                LeavesOff(old(lastCull), if immutable.Some? then immutable.value.height else 0, lastCull)
    {
      hide Culled, CullStop, CullStart, CullEnd, Keyed, BlockchainStore.Contents, Immutable, LeavesOff;
      CulledUpToIs(db.table, lastCull, b);
      if b.height < PERSISTENT_INTERVAL || b.majorVersion < NETWORK_VERSION_12 {
        return Ok;
      }
      var end := StartCulling(b);
      var guard;
      guard, s := Guard(db.store, false);
      if s.Threw? {
        return;
      }
      Cull(end);
      if b.checkpoint.Some? {
        var _ := UpdateCheckpoint(b.checkpoint.value);
      }
      guard.value.Destroy();
      PersistentKept(old(db.table), old(lastCull), b, db.store.batchActive);
    }
  }

  /** Checkpoints at multiples of sixty stay. */
  lemma PersistentKept(table: Table, lastCull: nat, b: Added, batch: bool)
    ensures forall h :: h in table && h % 60 == 0 ==> h in TableAfter(table, lastCull, b, batch)
  {
    hide TableAfter, Immutable, CullStart;
    forall h | h in table && h % 60 == 0
      ensures h in TableAfter(table, lastCull, b, batch)
    {
      TableAfterIs(table, lastCull, b, batch, h);
    }
  }

  // Histories

  /** A block is added, in batch mode or not, or a checkpoint is recorded by itself. */
  datatype Event = BlockAdded(added: Added, batch: bool) | Recorded(checkpoint: Checkpoint)

  /** `seen` is the chain height, from which finality is seen. */
  datatype State = State(table: Table, lastCull: nat, seen: nat)

  function Next(s: State, event: Event): State {
    match event
    case BlockAdded(b, batch) =>
      State(TableAfter(s.table, s.lastCull, b, batch), CulledUpTo(s.table, s.lastCull, b),
            b.height + 1)
    case Recorded(c) => s.(table := Record(s.table, Some(c)))
  }

  function Finality(s: State): Option<Checkpoint> {
    Immutable(s.table, s.seen)
  }

  /** The event records a checkpoint that is one of the two exceptions, while there is finality. */
  predicate LowersFinality(s: State, event: Event) {
    var seen := Next(s, event).seen;
    var c := match event
      case BlockAdded(b, batch) => RecordedBy(b, batch)
      case Recorded(c) => Some(c);
    c.Some? && Immutable(s.table, seen).Some? && Lowers(s.table, c.value, seen)
  }

  lemma CulledByBelow(table: Table, lastCull: nat, b: Added)
    ensures forall h :: h in CulledBy(table, lastCull, b) ==> h < CullEnd(table, b)
  {
    hide CullEnd, CullStart, Culled;
    var end := CullEnd(table, b);
    forall h | h in CulledBy(table, lastCull, b)
      ensures h < end
    {
      CulledIs(CullStart(lastCull, end), end, h);
    }
  }

  lemma BlockKeepsFinalityIff(s: State, b: Added, batch: bool)
    requires Keyed(s.table) && Counts(b)
    ensures var s' := Next(s, BlockAdded(b, batch));
      && Keyed(s'.table)
      && (AtOrAbove(Finality(s'), Immutable(s.table, s'.seen)) <==>
            !LowersFinality(s, BlockAdded(b, batch)))
  {
    hide Immutable, CulledBy, CulledUpTo, Lowers;
    var seen := b.height + 1;
    var gone := CulledBy(s.table, s.lastCull, b);
    CulledByBelow(s.table, s.lastCull, b);
    if Immutable(s.table, seen).Some? {
      RemovingOldKeepsFinality(s.table, gone, seen, seen);
      var c := RecordedBy(b, batch);
      if c.Some? {
        CullingKeepsException(s.table, gone, c.value, seen);
        RecordingKeepsFinalityIff(s.table - gone, c.value, seen);
      }
    }
  }

  /** One event, culling included: finality seen from the height the event leads to keeps or rises
      exactly when the event does not record one of the two exceptions. */
  lemma EventKeepsFinalityIff(s: State, event: Event)
    requires Keyed(s.table)
    ensures var s' := Next(s, event);
      && Keyed(s'.table)
      && (AtOrAbove(Finality(s'), Immutable(s.table, s'.seen)) <==> !LowersFinality(s, event))
  {
    hide Immutable, TableAfter, CulledUpTo, Lowers, RecordedBy;
    match event
    case BlockAdded(b, batch) =>
      if Counts(b) {
        BlockKeepsFinalityIff(s, b, batch);
      } else {
        IgnoredBlock(s, b, batch);
      }
    case Recorded(c) =>
      if Immutable(s.table, s.seen).Some? {
        RecordingKeepsFinalityIff(s.table, c, s.seen);
      }
  }

  lemma IgnoredBlock(s: State, b: Added, batch: bool)
    requires !Counts(b)
    ensures TableAfter(s.table, s.lastCull, b, batch) == s.table && RecordedBy(b, batch).None?
  {
  }

  /** Culling neither turns a harmless recording into a harmful one nor the reverse. */
  lemma CullingKeepsException(table: Table, gone: set<nat>, c: Checkpoint, height: nat)
    requires Keyed(table) && Immutable(table, height).Some?
    requires forall h :: h in gone ==> h < Immutable(table, height).value.height
    ensures Lowers(table - gone, c, height) <==> Lowers(table, c, height)
  {
    hide Immutable, HighestBelow, Newest, Bottom, Lowest, Top;
    ImmutableIs(table, height);
    var table' := table - gone;
    var limit := Immutable(table, height).value.height;
    var newest := Newest(table, height);
    assert limit in table' && newest in table' && limit <= newest;
    SameNewest(table, table', height, limit);
    if height < Bottom(table) {
      assert newest == Bottom(table) == limit;
      BottomIs(table', limit);
    } else {
      assert Bottom(table') <= limit <= height;
    }
  }

  function RunHistory(initial: State, history: seq<Event>): State {
    if history == [] then initial
    else Next(RunHistory(initial, history[..|history| - 1]), history[|history| - 1])
  }

  /** The chain height never falls, and no event lowers finality. */
  ghost predicate ValidHistory(initial: State, history: seq<Event>) {
    history == [] ||
    (var front, last := history[..|history| - 1], history[|history| - 1];
     var s := RunHistory(initial, front);
     && ValidHistory(initial, front)
     && s.seen <= Next(s, last).seen
     && !LowersFinality(s, last))
  }

  lemma {:induction false} HistoryKeyed(initial: State, history: seq<Event>)
    requires Keyed(initial.table)
    ensures Keyed(RunHistory(initial, history).table)
  {
    hide Next, Keyed;
    if history == [] {
    } else {
      HistoryKeyed(initial, history[..|history| - 1]);
      EventKeepsFinalityIff(RunHistory(initial, history[..|history| - 1]), history[|history| - 1]);
    }
  }

  /** Over any history in which the chain height never falls and none of the two exceptional
      recordings happens, culling included, the immutable checkpoint never disappears and its height
      never falls. */
  lemma {:induction false} FinalityNeverFalls(initial: State, history: seq<Event>, k: nat)
    requires Keyed(initial.table) && ValidHistory(initial, history) && k <= |history|
    ensures AtOrAbove(Finality(RunHistory(initial, history)),
                      Finality(RunHistory(initial, history[..k])))
  {
    hide Next, Immutable, LowersFinality, Keyed;
    if k == |history| {
      assert history[..k] == history;
    } else {
      var front, last := history[..|history| - 1], history[|history| - 1];
      var s := RunHistory(initial, front);
      FinalityNeverFalls(initial, front, k);
      assert front[..k] == history[..k];
      HistoryKeyed(initial, front);
      EventKeepsFinalityIff(s, last);
      MonotoneInHeight(s.table, s.seen, Next(s, last).seen);
    }
  }

  // Inputs at which finality is not what one might expect

  const HARD_CODED := Checkpoint(100, Hash(1), 0)
  const ONE_CHECKPOINT: Table := map[100 := HARD_CODED]

  lemma OneCheckpoint(height: nat)
    ensures Keyed(ONE_CHECKPOINT) && Immutable(ONE_CHECKPOINT, height) == Some(HARD_CODED)
  {
    hide Immutable, HighestBelow, Newest, Bottom, Lowest, Top;
    assert 100 in ONE_CHECKPOINT;
    assert Newest(ONE_CHECKPOINT, height) == 100;
    ImmutableIs(ONE_CHECKPOINT, height);
  }

  /** Seen from height 50 the checkpoint at 100 is immutable. */
  lemma FutureCheckpoint()
    ensures Immutable(ONE_CHECKPOINT, 50).Some? && Immutable(ONE_CHECKPOINT, 50).value.height > 50
  {
    OneCheckpoint(50);
  }

  /** A frame_pix checkpoint in place of the hard-coded one takes finality away. */
  lemma ReplacingLowers()
    ensures var c := Checkpoint(100, Hash(1), 13);
      && Lowers(ONE_CHECKPOINT, c, 100)
      && Immutable(ONE_CHECKPOINT, 100).Some?
      && Immutable(ONE_CHECKPOINT[100 := c], 100).None?
  {
    hide Immutable, HighestBelow, Bottom, Lowest, Top, Newest;
    var c := Checkpoint(100, Hash(1), 13);
    OneCheckpoint(100);
    ImmutableIs(ONE_CHECKPOINT[100 := c], 100);
  }

  /** A checkpoint below all others, seen from below them too, takes it down. */
  lemma RecordingBelowLowers()
    ensures var c := Checkpoint(20, Hash(2), 0);
      && Lowers(ONE_CHECKPOINT, c, 10)
      && Immutable(ONE_CHECKPOINT, 10) == Some(HARD_CODED)
      && Immutable(ONE_CHECKPOINT[20 := c], 10) == Some(c)
  {
    hide Immutable, HighestBelow, Bottom, Lowest, Top, Newest;
    var c := Checkpoint(20, Hash(2), 0);
    OneCheckpoint(10);
    assert 100 in ONE_CHECKPOINT;
    BottomIs(ONE_CHECKPOINT, 100);
    var table := ONE_CHECKPOINT[20 := c];
    BottomIs(table, 20);
    ImmutableIs(table, 10);
  }
}
