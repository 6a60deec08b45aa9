/**
 The greedy choice of the next connection, and greedy runs: what they keep and where they end.
 */
module MeshChoice {
  import opened Naturals
  import opened MeshGraph
  import opened MeshCounting

  // Scores

  function OutSet(g: Graph, n: nat, i: nat): set<nat> {
    set j | j in Below(n) && (i, j) in g
  }

  function InSet(g: Graph, n: nat, j: nat): set<nat> {
    set k | k in Below(n) && (k, j) in g
  }

  function OutDegree(g: Graph, n: nat, i: nat): nat {
    |OutSet(g, n, i)|
  }

  function InDegree(g: Graph, n: nat, j: nat): nat {
    |InSet(g, n, j)|
  }

  predicate Candidate(g: Graph, n: nat, i: nat, j: nat) {
    Pair(n, i, j) && !Adjacent(g, i, j)
  }

  /** The pairs that still have at most `m` short paths. */
  function LowPairs(g: Graph, n: nat, m: nat): set<(nat, nat)> {
    set i, j | i in Below(n) && j in Below(n) && i < j && Paths(g, n, i, j) <= m :: (i, j)
  }

  datatype Score = Score(load: nat, low: nat)

  predicate Less(a: Score, b: Score) {
    a.load < b.load || (a.load == b.load && a.low < b.low)
  }

  function ScoreOf(g: Graph, n: nat, m: nat, i: nat, j: nat): Score {
    Score(OutDegree(g, n, i) + 1 + (InDegree(g, n, j) + 1), |LowPairs(g + {(i, j)}, n, m)|)
  }

  /** Row-major order. */
  predicate Before(p: nat, q: nat, i: nat, j: nat) {
    p < i || (p == i && q < j)
  }

  /** (b, c) is the first of the candidates before (i, j) that none of them beats. */
  ghost predicate BestBefore(g: Graph, n: nat, m: nat, i: nat, j: nat, b: nat, c: nat) {
    && Candidate(g, n, b, c) && Before(b, c, i, j)
    && forall p, q :: Candidate(g, n, p, q) && Before(p, q, i, j) ==>
         && !Less(ScoreOf(g, n, m, p, q), ScoreOf(g, n, m, b, c))
         && (Before(p, q, b, c) ==> Less(ScoreOf(g, n, m, b, c), ScoreOf(g, n, m, p, q)))
  }

  ghost predicate NoneBefore(g: Graph, n: nat, i: nat, j: nat) {
    forall p, q :: Candidate(g, n, p, q) ==> !Before(p, q, i, j)
  }

  /** The choice of the greedy step. */
  ghost predicate Best(g: Graph, n: nat, m: nat, b: nat, c: nat) {
    BestBefore(g, n, m, n, 0, b, c)
  }

  lemma BestUnique(g: Graph, n: nat, m: nat, b: nat, c: nat, b': nat, c': nat)
    requires Best(g, n, m, b, c) && Best(g, n, m, b', c')
    ensures b == b' && c == c'
  {
    hide ScoreOf, Candidate;
  }

  /** What the choice is, said without scores: of the pairs that are not connected, it is one of least
      load; of those, one that leaves the fewest pairs; and of those the first in row-major order. */
  lemma BestIs(g: Graph, n: nat, m: nat, b: nat, c: nat, p: nat, q: nat)
    requires Best(g, n, m, b, c)
    requires p < n && q < n && p != q && (p, q) !in g && (q, p) !in g
    ensures b < n && c < n && b != c && (b, c) !in g && (c, b) !in g
    ensures var load := OutDegree(g, n, b) + InDegree(g, n, c);
      var load' := OutDegree(g, n, p) + InDegree(g, n, q);
      var left, left' := |LowPairs(g + {(b, c)}, n, m)|, |LowPairs(g + {(p, q)}, n, m)|;
      && load <= load'
      && (load == load' ==> left <= left')
      && (load == load' && left == left' ==> b < p || (b == p && c <= q))
  {
    hide OutDegree, InDegree, LowPairs;
    assert Candidate(g, n, p, q) && Before(p, q, n, 0);
  }

  /** Every candidate's load, which counts the new connection at both ends, is below the 2n the search
      starts from. */
  lemma LoadBound(g: Graph, n: nat, m: nat, i: nat, j: nat)
    requires Simple(g, n) && Candidate(g, n, i, j)
    ensures 2 <= ScoreOf(g, n, m, i, j).load <= 2 * n - 2
  {
    hide LowPairs;
    assert forall e :: e in g ==> e.0 != e.1;
    assert (i, i) !in g && (j, j) !in g;
    var others := Below(n) - {i} - {j};
    SubsetSize(OutSet(g, n, i), others);
    SubsetSize(InSet(g, n, j), others);
    assert |others| == n - 2;
  }

  /** One step of the search. */
  lemma BestStep(g: Graph, n: nat, m: nat, i: nat, j: nat, b: nat, c: nat)
    requires BestBefore(g, n, m, i, j, b, c)
    ensures Candidate(g, n, i, j) && Less(ScoreOf(g, n, m, i, j), ScoreOf(g, n, m, b, c)) ==>
              BestBefore(g, n, m, i, j + 1, i, j)
    ensures !(Candidate(g, n, i, j) && Less(ScoreOf(g, n, m, i, j), ScoreOf(g, n, m, b, c))) ==>
              BestBefore(g, n, m, i, j + 1, b, c)
  {
    hide ScoreOf, Candidate;
  }

  lemma FirstStep(g: Graph, n: nat, m: nat, i: nat, j: nat)
    requires NoneBefore(g, n, i, j)
    ensures Candidate(g, n, i, j) ==> BestBefore(g, n, m, i, j + 1, i, j)
    ensures !Candidate(g, n, i, j) ==> NoneBefore(g, n, i, j + 1)
  {
    hide ScoreOf, Candidate;
  }

  lemma NextRow(g: Graph, n: nat, m: nat, i: nat, b: nat, c: nat)
    ensures BestBefore(g, n, m, i, n, b, c) ==> BestBefore(g, n, m, i + 1, 0, b, c)
    ensures NoneBefore(g, n, i, n) ==> NoneBefore(g, n, i + 1, 0)
  {
    hide ScoreOf;
  }

  // The minimum

  ghost predicate IsMin(g: Graph, n: nat, m: nat) {
    && (exists i, j :: Pair(n, i, j) && Paths(g, n, i, j) == m)
    && AtLeast(g, n, m)
  }

  ghost predicate AtLeast(g: Graph, n: nat, m: nat) {
    forall i, j :: Pair(n, i, j) ==> Paths(g, n, i, j) >= m
  }

  /** While the minimum is below a target of at most n - 1 there is a pair left to connect. */
  lemma CandidateExists(g: Graph, n: nat, m: nat, target: nat)
    requires IsMin(g, n, m) && m < target <= n - 1
    ensures exists i, j :: Candidate(g, n, i, j)
  {
    hide Paths;
    if Complete(g, n) {
      var i, j :| Pair(n, i, j) && Paths(g, n, i, j) == m;
      CompletePaths(g, n, i, j);
      assert false;
    }
    var i, j :| Pair(n, i, j) && !Adjacent(g, i, j);
    assert Candidate(g, n, i, j);
  }

  /** The minimum never falls when an edge is added. */
  lemma MinMonotone(g: Graph, n: nat, m: nat, i: nat, j: nat, m': nat)
    requires Candidate(g, n, i, j) && IsMin(g, n, m) && IsMin(g + {(i, j)}, n, m')
    ensures m <= m'
  {
    hide Paths, Gains;
    var p, q :| Pair(n, p, q) && Paths(g + {(i, j)}, n, p, q) == m';
    EdgeGain(g, n, i, j, p, q);
  }

  lemma SimpleAdd(g: Graph, n: nat, i: nat, j: nat)
    requires Simple(g, n) && Candidate(g, n, i, j)
    ensures Simple(g + {(i, j)}, n)
  {
    var g' := g + {(i, j)};
    forall e | e in g'
      ensures e.0 < n && e.1 < n && e.0 != e.1 && (e.1, e.0) !in g'
    {
      if e == (i, j) {
        assert !Adjacent(g, i, j);
      } else {
        assert e in g;
      }
    }
  }

  // Greedy runs

  /** The graph after the first `k` chosen connections. */
  function GraphAfter(edges: seq<(nat, nat)>, k: nat): Graph
    requires k <= |edges|
  {
    if k == 0 then {} else GraphAfter(edges, k - 1) + {edges[k - 1]}
  }

  /** Each connection was the greedy choice for the minimum at its time, which was still short of
      the target. */
  ghost predicate GreedyRun(n: nat, target: nat, edges: seq<(nat, nat)>) {
    forall k :: 0 <= k < |edges| ==> GreedyStep(n, target, edges, k)
  }

  ghost predicate GreedyStep(n: nat, target: nat, edges: seq<(nat, nat)>, k: nat)
    requires k < |edges|
  {
    exists m: nat :: IsMin(GraphAfter(edges, k), n, m) && m < target &&
      Best(GraphAfter(edges, k), n, m, edges[k].0, edges[k].1)
  }

  lemma {:induction false} GraphAfterPrefix(edges: seq<(nat, nat)>, e: (nat, nat), k: nat)
    requires k <= |edges|
    ensures GraphAfter(edges + [e], k) == GraphAfter(edges, k)
  {
    if k == 0 {
    } else {
      GraphAfterPrefix(edges, e, k - 1);
    }
  }

  lemma GreedyExtend(n: nat, target: nat, edges: seq<(nat, nat)>, e: (nat, nat), m: nat)
    requires GreedyRun(n, target, edges)
    requires IsMin(GraphAfter(edges, |edges|), n, m) && m < target
    requires Best(GraphAfter(edges, |edges|), n, m, e.0, e.1)
    ensures GreedyRun(n, target, edges + [e])
    ensures GraphAfter(edges + [e], |edges| + 1) == GraphAfter(edges, |edges|) + {e}
  {
    hide IsMin, Best;
    var edges' := edges + [e];
    forall k | 0 <= k < |edges'|
      ensures GreedyStep(n, target, edges', k)
    {
      GraphAfterPrefix(edges, e, k);
      if k < |edges| {
        assert GreedyStep(n, target, edges, k);
      }
    }
    GraphAfterPrefix(edges, e, |edges|);
  }

  /** After every step of a greedy run the graph is simple and has one connected pair per step, so
      that no run is longer than n(n - 1)/2. */
  lemma {:induction false} GreedyRunBound(n: nat, target: nat, edges: seq<(nat, nat)>, k: nat)
    requires GreedyRun(n, target, edges) && k <= |edges|
    ensures Simple(GraphAfter(edges, k), n)
    ensures EdgeCount(GraphAfter(edges, k), n) == k
    ensures 2 * k <= n * (n - 1)
  {
    hide IsMin, EdgeCount, ScoreOf, Simple;
    if k == 0 {
      EmptyEdges(n);
      EmptySimple(n);
    } else {
      GreedyRunBound(n, target, edges, k - 1);
      var g, e := GraphAfter(edges, k - 1), edges[k - 1];
      assert GreedyStep(n, target, edges, k - 1);
      SimpleAdd(g, n, e.0, e.1);
      EdgeCountAdd(g, e.0, e.1, n);
    }
    EdgeCountBound(GraphAfter(edges, k), n);
  }

  lemma EmptySimple(n: nat)
    ensures Simple({}, n)
  {
  }

  lemma IsMinUnique(g: Graph, n: nat, m: nat, m': nat)
    requires IsMin(g, n, m) && IsMin(g, n, m')
    ensures m == m'
  {
    hide Paths;
  }

  /** The greedy run is determined: two runs agree as far as the shorter one goes. */
  lemma {:induction false} GreedyDeterministic(
    n: nat, target: nat, edges: seq<(nat, nat)>, edges': seq<(nat, nat)>, k: nat)
    requires GreedyRun(n, target, edges) && GreedyRun(n, target, edges')
    requires k <= |edges| && k <= |edges'|
    ensures edges[..k] == edges'[..k]
    ensures GraphAfter(edges, k) == GraphAfter(edges', k)
  {
    hide IsMin, Best;
    if k == 0 {
    } else {
      GreedyDeterministic(n, target, edges, edges', k - 1);
      assert GreedyStep(n, target, edges, k - 1) && GreedyStep(n, target, edges', k - 1);
      var g, e, e' := GraphAfter(edges, k - 1), edges[k - 1], edges'[k - 1];
      var m: nat :| IsMin(g, n, m) && m < target && Best(g, n, m, e.0, e.1);
      var m': nat :| IsMin(g, n, m') && m' < target && Best(g, n, m', e'.0, e'.1);
      IsMinUnique(g, n, m, m');
      BestUnique(g, n, m, e.0, e.1, e'.0, e'.1);
      assert edges[..k] == edges[..k - 1] + [e];
      assert edges'[..k] == edges'[..k - 1] + [e'];
    }
  }

  /** Every connection of a greedy run is the choice that `BestIs` describes, for the minimum at the
      time. */
  lemma GreedyChoice(n: nat, target: nat, edges: seq<(nat, nat)>, k: nat, m: nat, p: nat, q: nat)
    requires GreedyRun(n, target, edges) && k < |edges| && IsMin(GraphAfter(edges, k), n, m)
    requires p < n && q < n && p != q
    requires (p, q) !in GraphAfter(edges, k) && (q, p) !in GraphAfter(edges, k)
    ensures var g, (b, c) := GraphAfter(edges, k), edges[k];
      var load := OutDegree(g, n, b) + InDegree(g, n, c);
      var load' := OutDegree(g, n, p) + InDegree(g, n, q);
      var left, left' := |LowPairs(g + {(b, c)}, n, m)|, |LowPairs(g + {(p, q)}, n, m)|;
      && m < target
      && load <= load'
      && (load == load' ==> left <= left')
      && (load == load' && left == left' ==> b < p || (b == p && c <= q))
  {
    hide IsMin, Best, OutDegree, InDegree, LowPairs;
    assert GreedyStep(n, target, edges, k);
    var g, e := GraphAfter(edges, k), edges[k];
    var m': nat :| IsMin(g, n, m') && m' < target && Best(g, n, m', e.0, e.1);
    IsMinUnique(g, n, m, m');
    BestIs(g, n, m, e.0, e.1, p, q);
  }

  /** A greedy run makes no connection more than it needs: before each of them some pair is still
      short of the target. */
  lemma GreedyNeeded(n: nat, target: nat, edges: seq<(nat, nat)>, k: nat)
    requires GreedyRun(n, target, edges) && k < |edges|
    ensures !AtLeast(GraphAfter(edges, k), n, target)
  {
    hide Best, Paths;
    assert GreedyStep(n, target, edges, k);
  }

  /** Along a greedy run the minimum never falls. */
  lemma {:induction false} GreedyMinMonotone(
    n: nat, target: nat, edges: seq<(nat, nat)>, k: nat, m: nat, l: nat, m': nat)
    requires GreedyRun(n, target, edges) && k <= l <= |edges|
    requires IsMin(GraphAfter(edges, k), n, m) && IsMin(GraphAfter(edges, l), n, m')
    ensures m <= m'
    decreases l
  {
    hide IsMin, ScoreOf;
    if k == l {
      IsMinUnique(GraphAfter(edges, k), n, m, m');
    } else {
      assert GreedyStep(n, target, edges, l - 1);
      var g, e := GraphAfter(edges, l - 1), edges[l - 1];
      var m1: nat :| IsMin(g, n, m1) && m1 < target && Best(g, n, m1, e.0, e.1);
      GreedyMinMonotone(n, target, edges, k, m, l - 1, m1);
      assert e == (e.0, e.1);
      MinMonotone(g, n, m1, e.0, e.1, m');
    }
  }

  /** In every state of a greedy run the short paths of all pairs together are the connections made
      plus d(d - 1)/2 for the degree d of every node. */
  lemma GreedyDoubleCounting(n: nat, target: nat, edges: seq<(nat, nat)>, k: nat)
    requires GreedyRun(n, target, edges) && k <= |edges|
    ensures var g := GraphAfter(edges, k); PathSum(g, n, n) == k + NeighbourPairs(g, n, n)
  {
    hide GreedyRun, PathSum, NeighbourPairs, EdgeCount;
    GreedyRunBound(n, target, edges, k);
    DoubleCounting(GraphAfter(edges, k), n);
  }

  // When the target can be met

  function MinConnections(n: nat): nat {
    if n <= 10 then 4 else 2
  }

  function CompleteGraph(n: nat): Graph {
    set i, j | i in Below(n) && j in Below(n) && i < j :: (i, j)
  }

  /** Some graph gives every pair `target` short paths exactly when the target is at most n - 1. The
      search only ever stops at such a graph. */
  lemma TargetReachableIff(n: nat, target: nat)
    requires n >= 2
    ensures (exists g :: AtLeast(g, n, target)) <==> target <= n - 1
  {
    hide Paths;
    if g :| AtLeast(g, n, target) {
      assert Pair(n, 0, 1);
      PathsBound(g, n, 0, 1);
    }
    if target <= n - 1 {
      var g := CompleteGraph(n);
      assert Complete(g, n);
      forall i, j | Pair(n, i, j)
        ensures Paths(g, n, i, j) >= target
      {
        CompletePaths(g, n, i, j);
      }
      assert AtLeast(g, n, target);
    }
  }

  /** So it can stop for the script's own targets exactly from five nodes on. */
  lemma ScriptTargetReachableIff(n: nat)
    requires n >= 2
    ensures var target := if n <= 10 then 4 else 2;
      (exists g :: AtLeast(g, n, target)) <==> n >= 5
  {
    hide AtLeast;
    TargetReachableIff(n, if n <= 10 then 4 else 2);
  }
}
