/**
 The mesh generator: a matrix of connections changed in place, with the counting loops, the
 trial-and-undo search and the greedy loop of the script.
 */
module Mesh {
  import opened Naturals
  import opened Wrappers
  import opened MeshGraph
  import opened MeshCounting
  import opened MeshChoice

  class QuorumMesh {
    const nodes: nat
    const conns: array2<int>

    constructor (n: nat)
      ensures Valid() && nodes == n && fresh(conns)
      ensures Connections() == {}
    {
      nodes := n;
      conns := new int[n, n]((i, j) => 0);
    }

    ghost predicate Valid()
      reads conns
    {
      && conns.Length0 == nodes && conns.Length1 == nodes
      && forall i, j :: 0 <= i < nodes && 0 <= j < nodes ==> conns[i, j] == 0 || conns[i, j] == 1
    }

    /** The matrix as a graph. */
    ghost function Connections(): Graph
      requires conns.Length0 == nodes && conns.Length1 == nodes
      reads conns
    {
      set i, j | i in Below(nodes) && j in Below(nodes) && conns[i, j] != 0 :: (i, j)
    }

    // Counting

    /** The nodes connected to `j`, in increasing order. */
    method NeighbourList(j: nat) returns (list: seq<nat>)
      requires Valid() && j < nodes
      ensures forall k: nat :: k in list <==> k in Neighbours(Connections(), nodes, j)
      ensures forall x, y :: 0 <= x < y < |list| ==> list[x] < list[y]
    {
      hide Connections, Adjacent;
      ghost var g := Connections();
      list := [];
      for r := 0 to j
        invariant forall k: nat :: k in list <==> k < r && Adjacent(g, j, k)
        invariant forall x :: 0 <= x < |list| ==> list[x] < r
        invariant forall x, y :: 0 <= x < y < |list| ==> list[x] < list[y]
      {
        LinkIs(r, j);
        if conns[r, j] != 0 || conns[j, r] > 0 {
          list := list + [r];
        }
      }
      for c := j + 1 to nodes
        invariant forall k: nat :: k in list <==> k < c && k != j && Adjacent(g, j, k)
        invariant forall x :: 0 <= x < |list| ==> list[x] < c
        invariant forall x, y :: 0 <= x < y < |list| ==> list[x] < list[y]
      {
        LinkIs(c, j);
        if conns[j, c] != 0 || conns[c, j] > 0 {
          list := list + [c];
        }
      }
    }

    /** How many nodes of the list are `i` or connected to it. */
    method CountLinked(list: seq<nat>, i: nat) returns (count: nat)
      requires Valid() && i < nodes
      requires forall x, y :: 0 <= x < y < |list| ==> list[x] < list[y]
      requires forall x :: 0 <= x < |list| ==> list[x] < nodes
      ensures count == |LinkedAmong(Connections(), list, i)|
    {
      hide Connections, LinkedAmong;
      ghost var g := Connections();
      count := 0;
      LinkedNone(g, list, i);
      for x := 0 to |list|
        invariant count == |LinkedAmong(g, list[..x], i)|
      {
        var n := list[x];
        LinkedStep(g, list, x, i);
        LinkIs(n, i);
        if n == i || conns[n, i] > 0 || conns[i, n] > 0 {
          count := count + 1;
        }
      }
      assert list[..|list|] == list;
    }

    lemma LinkIs(n: nat, i: nat)
      requires Valid() && n < nodes && i < nodes
      ensures conns[n, i] > 0 || conns[i, n] > 0 <==> Adjacent(Connections(), i, n)
    {
    }

    method CountPathsWithinTwo(a: nat, b: nat) returns (paths: nat)
      requires Valid() && Pair(nodes, a, b)
      ensures paths == Paths(Connections(), nodes, a, b)
    {
      ghost var g := Connections();
      var i, j := a, b;
      if i > j {
        i, j := j, i;
        PathsSymmetric(g, nodes, a, b);
      }
      var neighbours := NeighbourList(j);
      assert forall x :: 0 <= x < |neighbours| ==> neighbours[x] in neighbours;
      paths := CountLinked(neighbours, i);
      assert LinkedAmong(g, neighbours, i) == ShortPaths(g, nodes, i, j);
    }

    method MinWithinTwo() returns (m: Option<nat>)
      requires Valid()
      ensures m.None? <==> nodes < 2
      ensures m.Some? ==> IsMin(Connections(), nodes, m.value)
    {
      hide Connections, Paths, MinSoFar, IsMin;
      ghost var g := Connections();
      m := None;
      for i := 0 to nodes
        invariant m.None? <==> i == 0 || nodes < 2
        invariant m.Some? ==> MinSoFar(g, nodes, m.value, i, 0)
      {
        if m.Some? {
          MinRowStart(g, nodes, m.value, i);
        }
        for j := i + 1 to nodes
          invariant m.None? <==> nodes < 2 || (i == 0 && j == 1)
          invariant m.Some? ==> MinSoFar(g, nodes, m.value, i, j)
        {
          MinStep(g, nodes, m, i, j);
          var c := CountPathsWithinTwo(i, j);
          if m.None? || c < m.value {
            m := Some(c);
          }
        }
        if m.Some? {
          MinRowEnd(g, nodes, m.value, i);
        }
      }
      if m.Some? {
        MinComplete(g, nodes, m.value);
      }
    }

    method CountNotWithinTwo(minPaths: nat) returns (c: nat)
      requires Valid()
      ensures c == |LowPairs(Connections(), nodes, minPaths)|
    {
      hide Connections, Paths, LowBefore, LowPairs;
      ghost var g := Connections();
      c := 0;
      LowStart(g, nodes, minPaths);
      for i := 0 to nodes
        invariant c == |LowBefore(g, nodes, minPaths, i, 0)|
      {
        LowRowStart(g, nodes, minPaths, i);
        for j := i + 1 to nodes
          invariant c == |LowBefore(g, nodes, minPaths, i, j)|
        {
          LowStep(g, nodes, minPaths, i, j);
          var paths := CountPathsWithinTwo(i, j);
          if paths <= minPaths {
            c := c + 1;
          }
        }
        LowRowEnd(g, nodes, minPaths, i);
      }
      LowEnd(g, nodes, minPaths);
    }

    lemma EntryIs(i: nat, j: nat)
      requires Valid() && i < nodes && j < nodes
      ensures conns[i, j] == One((i, j) in Connections())
    {
    }

    method Outgoing(i: nat) returns (sum: nat)
      requires Valid() && i < nodes
      ensures sum == OutDegree(Connections(), nodes, i)
    {
      hide Connections, OutDegree;
      ghost var g := Connections();
      sum := 0;
      OutStep(g, i, 0);
      for j := 0 to nodes
        invariant sum == OutDegree(g, j, i)
      {
        OutStep(g, i, j);
        EntryIs(i, j);
        sum := sum + conns[i, j];
      }
    }

    method Incoming(j: nat) returns (sum: nat)
      requires Valid() && j < nodes
      ensures sum == InDegree(Connections(), nodes, j)
    {
      hide Connections, InDegree;
      ghost var g := Connections();
      sum := 0;
      InStep(g, j, 0);
      for k := 0 to nodes
        invariant sum == InDegree(g, k, j)
      {
        InStep(g, j, k);
        EntryIs(k, j);
        sum := sum + conns[k, j];
      }
    }

    // The search

    method Connect(i: nat, j: nat)
      requires Valid() && i < nodes && j < nodes
      modifies conns
      ensures Valid() && Connections() == old(Connections()) + {(i, j)}
      ensures forall p, q :: 0 <= p < nodes && 0 <= q < nodes ==>
                conns[p, q] == if p == i && q == j then 1 else old(conns[p, q])
    {
      conns[i, j] := 1;
    }

    /** How many pairs would be left, if `i` were connected to `j`; the matrix is put back. */
    method Try(i: nat, j: nat, minPaths: nat) returns (low: nat)
      requires Valid() && Candidate(Connections(), nodes, i, j)
      modifies conns
      ensures low == |LowPairs(old(Connections()) + {(i, j)}, nodes, minPaths)|
      ensures Valid() && Connections() == old(Connections())
      ensures forall p, q :: 0 <= p < nodes && 0 <= q < nodes ==> conns[p, q] == old(conns[p, q])
    {
      hide LowPairs;
      assert (i, j) !in Connections();
      Connect(i, j);
      low := CountNotWithinTwo(minPaths);
      conns[i, j] := 0;
    }

    /** The search loops: the first of the best candidates, or (0, 0) if there is none. The matrix is
        as it was. */
    method Choose(minPaths: nat) returns (b: nat, c: nat)
      requires Valid() && Simple(Connections(), nodes)
      modifies conns
      ensures Valid() && Connections() == old(Connections())
      ensures forall p, q :: 0 <= p < nodes && 0 <= q < nodes ==> conns[p, q] == old(conns[p, q])
      ensures if NoneBefore(old(Connections()), nodes, nodes, 0) then b == 0 && c == 0
              else Best(old(Connections()), nodes, minPaths, b, c)
    {
      hide Connections, ScoreOf, Candidate, Simple, BestBefore, NoneBefore, LowPairs;
      ghost var g := Connections();
      var low := CountNotWithinTwo(minPaths);
      var best := Score(nodes + nodes, low);
      b, c := 0, 0;
      ghost var found := false;
      NoneAtStart(g, nodes);
      for i := 0 to nodes
        invariant Valid() && Connections() == g
        invariant forall p, q :: 0 <= p < nodes && 0 <= q < nodes ==> conns[p, q] == old(conns[p, q])
        invariant SearchState(g, nodes, minPaths, i, 0, found, b, c, best)
      {
        b, c, best, found := ChooseInRow(minPaths, i, b, c, best, found, g);
        NextRow(g, nodes, minPaths, i, b, c);
      }
      if found {
        BestExcludesNone(g, nodes, minPaths, b, c);
      }
    }

    method ChooseInRow(minPaths: nat, i: nat, b0: nat, c0: nat, best0: Score,
                       ghost found0: bool, ghost g: Graph)
      returns (b: nat, c: nat, best: Score, ghost found: bool)
      requires Valid() && Connections() == g && Simple(g, nodes) && i < nodes
      requires SearchState(g, nodes, minPaths, i, 0, found0, b0, c0, best0)
      modifies conns
      ensures Valid() && Connections() == g
      ensures forall p, q :: 0 <= p < nodes && 0 <= q < nodes ==> conns[p, q] == old(conns[p, q])
      ensures SearchState(g, nodes, minPaths, i, nodes, found, b, c, best)
    {
      hide Connections, ScoreOf, Simple, BestBefore, NoneBefore, LowPairs, OutDegree, InDegree;
      b, c, best, found := b0, c0, best0, found0;
      var outgoing := Outgoing(i);
      outgoing := outgoing + 1;
      for j := 0 to nodes
        invariant Valid() && Connections() == g
        invariant forall p, q :: 0 <= p < nodes && 0 <= q < nodes ==> conns[p, q] == old(conns[p, q])
        invariant SearchState(g, nodes, minPaths, i, j, found, b, c, best)
      {
        var incoming := Incoming(j);
        incoming := incoming + 1;
        var linked := Linked(i, j);
        if found {
          BestStep(g, nodes, minPaths, i, j, b, c);
        } else {
          FirstStep(g, nodes, minPaths, i, j);
        }
        if i == j || linked {
          continue;
        }
        LoadBound(g, nodes, minPaths, i, j);
        var low := Try(i, j, minPaths);
        var score := Score(outgoing + incoming, low);
        ScoreIs(g, nodes, minPaths, i, j);
        if Less(score, best) {
          b, c, best := i, j, score;
        }
        found := true;
      }
    }

    method Linked(i: nat, j: nat) returns (linked: bool)
      requires Valid() && i < nodes && j < nodes
      ensures linked == Adjacent(Connections(), i, j)
    {
      linked := conns[i, j] != 0 || conns[j, i] != 0;
    }

    // The greedy loop

    /** Builds a mesh in which every pair has at least `target` short paths, starting from no
        connections. The chosen connections form a greedy run. */
    method Build(target: nat) returns (edges: seq<(nat, nat)>)
      requires Valid() && Connections() == {}
      requires nodes >= 2 && target <= nodes - 1
      modifies conns
      ensures Valid() && Simple(Connections(), nodes)
      ensures GreedyRun(nodes, target, edges) && Connections() == GraphAfter(edges, |edges|)
      ensures AtLeast(Connections(), nodes, target)
      ensures EdgeCount(Connections(), nodes) == |edges| && 2 * |edges| <= nodes * (nodes - 1)
    {
      hide Connections, IsMin, Best, Simple, EdgeCount, Paths, Candidate;
      var minPaths: nat := 0;
      edges := [];
      EmptyMin(nodes);
      while minPaths < target
        invariant Valid() && Connections() == GraphAfter(edges, |edges|)
        invariant IsMin(Connections(), nodes, minPaths)
        invariant GreedyRun(nodes, target, edges)
        decreases nodes * (nodes - 1) - 2 * |edges|
      {
        GreedyRunBound(nodes, target, edges, |edges|);
        ghost var g := Connections();
        CandidateExists(g, nodes, minPaths, target);
        var b, c := Choose(minPaths);
        SomeBest(g, nodes, minPaths, b, c);
        GreedyExtend(nodes, target, edges, (b, c), minPaths);
        edges := edges + [(b, c)];
        GreedyRunBound(nodes, target, edges, |edges|);
        Connect(b, c);
        var m := MinWithinTwo();
        minPaths := m.value;
      }
      GreedyRunBound(nodes, target, edges, |edges|);
      MinMeansAtLeast(Connections(), nodes, minPaths, target);
    }
  }

  /** The script for one quorum size: a mesh that keeps every two nodes within two hops of each other
      under any fewer than four node failures up to ten nodes, any fewer than two above. It stops as
      soon as every pair has four short paths, or two. */
  method Generate(n: nat) returns (mesh: QuorumMesh, edges: seq<(nat, nat)>)
    requires n >= 5
    ensures fresh(mesh) && mesh.Valid() && mesh.nodes == n
    ensures GreedyRun(n, if n <= 10 then 4 else 2, edges)
    ensures mesh.Connections() == GraphAfter(edges, |edges|)
    ensures forall k :: 0 <= k < |edges| ==>
              !AtLeast(GraphAfter(edges, k), n, if n <= 10 then 4 else 2)
    ensures forall down: set<nat>, i, j ::
              Pair(n, i, j) && |down| < (if n <= 10 then 4 else 2) && i !in down && j !in down ==>
                Connected(mesh.Connections(), n, i, j, down, false)
    ensures forall j: nat :: j < n ==>
              |Neighbours(mesh.Connections(), n, j)| >= if n <= 10 then 4 else 2
  {
    hide GreedyRun, GraphAfter, Connected, Neighbours, Paths, QuorumMesh.Connections, Simple,
      EdgeCount;
    mesh := new QuorumMesh(n);
    edges := mesh.Build(MinConnections(n));
    FaultTolerance(mesh.Connections(), n, MinConnections(n));
    forall k | 0 <= k < |edges|
      ensures !AtLeast(GraphAfter(edges, k), n, MinConnections(n))
    {
      GreedyNeeded(n, MinConnections(n), edges, k);
    }
  }

  // Partial results of the counting loop

  /** The nodes of the list that are `i` or connected to it. */
  ghost function LinkedAmong(g: Graph, list: seq<nat>, i: nat): set<nat> {
    set k | k in list && (k == i || Adjacent(g, i, k))
  }

  lemma LinkedNone(g: Graph, list: seq<nat>, i: nat)
    ensures LinkedAmong(g, list[..0], i) == {}
  {
  }

  lemma LinkedStep(g: Graph, list: seq<nat>, x: nat, i: nat)
    requires x < |list| && forall y, z :: 0 <= y < z < |list| ==> list[y] < list[z]
    ensures |LinkedAmong(g, list[..x + 1], i)|
         == |LinkedAmong(g, list[..x], i)| + One(list[x] == i || Adjacent(g, i, list[x]))
  {
    var n := list[x];
    var added := if n == i || Adjacent(g, i, n) then {n} else {};
    assert n !in list[..x];
    assert list[..x + 1] == list[..x] + [n];
    hide Adjacent;
    assert LinkedAmong(g, list[..x + 1], i) == LinkedAmong(g, list[..x], i) + added;
  }

  // Partial results of the pair loops

  ghost predicate MinSoFar(g: Graph, n: nat, m: nat, i: nat, j: nat) {
    && (exists p, q :: Pair(n, p, q) && Paths(g, n, p, q) == m)
    && forall p, q :: Pair(n, p, q) && p < q && Before(p, q, i, j) ==> Paths(g, n, p, q) >= m
  }

  lemma MinRowStart(g: Graph, n: nat, m: nat, i: nat)
    requires MinSoFar(g, n, m, i, 0)
    ensures MinSoFar(g, n, m, i, i + 1)
  {
    hide Paths;
  }

  lemma MinStep(g: Graph, n: nat, m: Option<nat>, i: nat, j: nat)
    requires i < j < n
    requires match m case Some(v) => MinSoFar(g, n, v, i, j) case None => i == 0 && j == 1
    ensures var c := Paths(g, n, i, j);
      MinSoFar(g, n, if m.None? || c < m.value then c else m.value, i, j + 1)
  {
    hide Paths;
    assert Pair(n, i, j);
  }

  lemma MinRowEnd(g: Graph, n: nat, m: nat, i: nat)
    requires MinSoFar(g, n, m, i, n)
    ensures MinSoFar(g, n, m, i + 1, 0)
  {
    hide Paths;
  }

  lemma MinComplete(g: Graph, n: nat, m: nat)
    requires MinSoFar(g, n, m, n, 0)
    ensures IsMin(g, n, m)
  {
    hide Paths;
    forall p, q | Pair(n, p, q)
      ensures Paths(g, n, p, q) >= m
    {
      if p > q {
        PathsSymmetric(g, n, p, q);
        assert Pair(n, q, p) && Before(q, p, n, 0);
      }
    }
  }

  /** The pairs of the set that come before (i, j). */
  ghost function UpTo(pairs: set<(nat, nat)>, i: nat, j: nat): set<(nat, nat)> {
    set e | e in pairs && Before(e.0, e.1, i, j)
  }

  lemma UpToStep(pairs: set<(nat, nat)>, i: nat, j: nat)
    ensures |UpTo(pairs, i, j + 1)| == |UpTo(pairs, i, j)| + One((i, j) in pairs)
  {
    var added := if (i, j) in pairs then {(i, j)} else {};
    assert UpTo(pairs, i, j + 1) == UpTo(pairs, i, j) + added;
    assert (i, j) !in UpTo(pairs, i, j);
  }

  ghost function LowBefore(g: Graph, n: nat, m: nat, i: nat, j: nat): set<(nat, nat)> {
    UpTo(LowPairs(g, n, m), i, j)
  }

  lemma LowStart(g: Graph, n: nat, m: nat)
    ensures |LowBefore(g, n, m, 0, 0)| == 0
  {
    assert LowBefore(g, n, m, 0, 0) == {};
  }

  lemma LowRowStart(g: Graph, n: nat, m: nat, i: nat)
    ensures LowBefore(g, n, m, i, i + 1) == LowBefore(g, n, m, i, 0)
  {
  }

  lemma LowStep(g: Graph, n: nat, m: nat, i: nat, j: nat)
    requires i < j < n
    ensures |LowBefore(g, n, m, i, j + 1)|
         == |LowBefore(g, n, m, i, j)| + One(Paths(g, n, i, j) <= m)
  {
    hide Paths, LowPairs, UpTo;
    LowMember(g, n, m, i, j);
    UpToStep(LowPairs(g, n, m), i, j);
  }

  lemma LowMember(g: Graph, n: nat, m: nat, i: nat, j: nat)
    requires i < j < n
    ensures (i, j) in LowPairs(g, n, m) <==> Paths(g, n, i, j) <= m
  {
    hide Paths;
  }

  lemma LowRowEnd(g: Graph, n: nat, m: nat, i: nat)
    ensures LowBefore(g, n, m, i, n) == LowBefore(g, n, m, i + 1, 0)
    ensures i + 1 >= n ==> LowBefore(g, n, m, i, i + 1) == LowBefore(g, n, m, i + 1, 0)
  {
  }

  lemma LowEnd(g: Graph, n: nat, m: nat)
    ensures LowBefore(g, n, m, n, 0) == LowPairs(g, n, m)
  {
  }

  lemma OutStep(g: Graph, i: nat, j: nat)
    ensures OutDegree(g, j + 1, i) == OutDegree(g, j, i) + One((i, j) in g)
    ensures OutDegree(g, 0, i) == 0
  {
    var added := if (i, j) in g then {j} else {};
    assert OutSet(g, j + 1, i) == OutSet(g, j, i) + added;
  }

  lemma InStep(g: Graph, j: nat, k: nat)
    ensures InDegree(g, k + 1, j) == InDegree(g, k, j) + One((k, j) in g)
    ensures InDegree(g, 0, j) == 0
  {
    var added := if (k, j) in g then {k} else {};
    assert InSet(g, k + 1, j) == InSet(g, k, j) + added;
  }

  // The state of the search

  /** Up to (i, j): the best candidate so far and its score, or the starting values, which any
      candidate beats. */
  ghost predicate SearchState(
    g: Graph, n: nat, m: nat, i: nat, j: nat, found: bool, b: nat, c: nat, best: Score)
  {
    if found then BestBefore(g, n, m, i, j, b, c) && best == ScoreOf(g, n, m, b, c)
    else NoneBefore(g, n, i, j) && b == 0 && c == 0 && best.load == 2 * n
  }

  lemma NoneAtStart(g: Graph, n: nat)
    ensures NoneBefore(g, n, 0, 0)
  {
  }

  lemma ScoreIs(g: Graph, n: nat, m: nat, i: nat, j: nat)
    ensures ScoreOf(g, n, m, i, j) ==
            Score(OutDegree(g, n, i) + 1 + (InDegree(g, n, j) + 1), |LowPairs(g + {(i, j)}, n, m)|)
  {
  }

  lemma BestExcludesNone(g: Graph, n: nat, m: nat, b: nat, c: nat)
    requires BestBefore(g, n, m, n, 0, b, c)
    ensures !NoneBefore(g, n, n, 0)
  {
    hide ScoreOf;
  }

  lemma SomeBest(g: Graph, n: nat, m: nat, b: nat, c: nat)
    requires exists i, j :: Candidate(g, n, i, j)
    requires if NoneBefore(g, n, n, 0) then b == 0 && c == 0 else Best(g, n, m, b, c)
    ensures Best(g, n, m, b, c) && b < n && c < n
  {
    hide ScoreOf;
    var i, j :| Candidate(g, n, i, j);
    assert Before(i, j, n, 0);
  }

  lemma EmptyMin(n: nat)
    requires n >= 2
    ensures IsMin({}, n, 0)
  {
    assert Pair(n, 0, 1);
    assert ShortPaths({}, n, 0, 1) == {};
    assert Paths({}, n, 0, 1) == 0;
  }

  lemma MinMeansAtLeast(g: Graph, n: nat, m: nat, target: nat)
    requires IsMin(g, n, m) && m >= target
    ensures AtLeast(g, n, target)
  {
    hide Paths;
  }
}
