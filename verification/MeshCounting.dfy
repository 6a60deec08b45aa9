/**
 Counting in a mesh: sums over unordered pairs of nodes, and the double counting of short paths.
 */
module MeshCounting {
  import opened Naturals
  import opened MeshGraph

  // Connected pairs

  /** How many of the nodes below `i` are adjacent to `j`. */
  function EdgeRow(g: Graph, j: nat, i: nat): nat {
    if i == 0 then 0 else EdgeRow(g, j, i - 1) + One(Adjacent(g, i - 1, j))
  }

  /** How many pairs of nodes below `m` are adjacent. */
  function EdgeCount(g: Graph, m: nat): nat {
    if m == 0 then 0 else EdgeCount(g, m - 1) + EdgeRow(g, m - 1, m - 1)
  }

  lemma {:induction false} EdgeRowBound(g: Graph, j: nat, i: nat)
    ensures EdgeRow(g, j, i) <= i
  {
    if i == 0 {
    } else {
      EdgeRowBound(g, j, i - 1);
    }
  }

  lemma NextProduct(d: nat)
    ensures (d + 1) * d == d * (d - 1) + 2 * d
  {
  }

  lemma {:induction false} EdgeCountBound(g: Graph, m: nat)
    ensures 2 * EdgeCount(g, m) <= m * (m - 1)
  {
    if m == 0 {
    } else {
      EdgeCountBound(g, m - 1);
      EdgeRowBound(g, m - 1, m - 1);
      NextProduct(m - 1);
    }
  }

  lemma {:induction false} EdgeRowAdd(g: Graph, a: nat, b: nat, j: nat, i: nat)
    requires a != b && !Adjacent(g, a, b)
    ensures EdgeRow(g + {(a, b)}, j, i)
         == EdgeRow(g, j, i) + One((j == a && b < i) || (j == b && a < i))
  {
    if i == 0 {
    } else {
      EdgeRowAdd(g, a, b, j, i - 1);
      assert Adjacent(g + {(a, b)}, i - 1, j) <==>
        Adjacent(g, i - 1, j) || (i - 1 == a && j == b) || (i - 1 == b && j == a);
    }
  }

  /** Connecting a pair that was not connected adds one. */
  lemma {:induction false} EdgeCountAdd(g: Graph, a: nat, b: nat, m: nat)
    requires a != b && !Adjacent(g, a, b)
    ensures EdgeCount(g + {(a, b)}, m) == EdgeCount(g, m) + One(a < m && b < m)
  {
    if m == 0 {
    } else {
      EdgeCountAdd(g, a, b, m - 1);
      EdgeRowAdd(g, a, b, m - 1, m - 1);
    }
  }

  lemma {:induction false} EmptyEdges(m: nat)
    ensures EdgeCount({}, m) == 0
  {
    if m == 0 {
    } else {
      EmptyEdges(m - 1);
      EmptyRow(m - 1, m - 1);
    }
  }

  lemma {:induction false} EmptyRow(j: nat, i: nat)
    ensures EdgeRow({}, j, i) == 0
  {
    if i == 0 {
    } else {
      EmptyRow(j, i - 1);
    }
  }

  // Short paths

  /** The short paths from the nodes below `i` to `j`. */
  function PathRow(g: Graph, n: nat, j: nat, i: nat): nat {
    if i == 0 then 0 else PathRow(g, n, j, i - 1) + Paths(g, n, i - 1, j)
  }

  /** The short paths of all pairs of nodes below `m`. */
  function PathSum(g: Graph, n: nat, m: nat): nat {
    if m == 0 then 0 else PathSum(g, n, m - 1) + PathRow(g, n, m - 1, m - 1)
  }

  /** Half of d(d - 1) for the degree d of every node below `m`. */
  function NeighbourPairs(g: Graph, n: nat, m: nat): nat {
    if m == 0 then 0
    else
      var d := |Neighbours(g, n, m - 1)|;
      NeighbourPairs(g, n, m - 1) + d * (d - 1) / 2
  }

  // Paths over a middle node, counted pair by pair and node by node

  function Hit(g: Graph, i: nat, j: nat, k: nat): nat {
    One(k != i && k != j && Adjacent(g, i, k) && Adjacent(g, j, k))
  }

  function CommonUpTo(g: Graph, i: nat, j: nat, m: nat): nat {
    if m == 0 then 0 else CommonUpTo(g, i, j, m - 1) + Hit(g, i, j, m - 1)
  }

  lemma {:induction false} CommonIsSum(g: Graph, i: nat, j: nat, m: nat)
    ensures CommonUpTo(g, i, j, m) == |Common(g, m, i, j)|
  {
    hide Below;
    if m == 0 {
    } else {
      CommonIsSum(g, i, j, m - 1);
      var added := if Hit(g, i, j, m - 1) == 1 then {m - 1} else {};
      assert Common(g, m, i, j) == Common(g, m - 1, i, j) + added;
    }
  }

  function CommonRow(g: Graph, j: nat, m: nat, i: nat): nat
    decreases i
  {
    if i == 0 then 0 else CommonRow(g, j, m, i - 1) + CommonUpTo(g, i - 1, j, m)
  }

  function CommonSum(g: Graph, p: nat, m: nat): nat
    decreases p
  {
    if p == 0 then 0 else CommonSum(g, p - 1, m) + CommonRow(g, p - 1, m, p - 1)
  }

  function HitRow(g: Graph, j: nat, k: nat, i: nat): nat {
    if i == 0 then 0 else HitRow(g, j, k, i - 1) + Hit(g, i - 1, j, k)
  }

  /** The pairs of nodes below `p` that have `k` as a common neighbour. */
  function HitSum(g: Graph, k: nat, p: nat): nat {
    if p == 0 then 0 else HitSum(g, k, p - 1) + HitRow(g, p - 1, k, p - 1)
  }

  lemma {:induction false} CommonRowSplit(g: Graph, j: nat, m: nat, i: nat)
    requires m > 0
    ensures CommonRow(g, j, m, i) == CommonRow(g, j, m - 1, i) + HitRow(g, j, m - 1, i)
  {
    if i == 0 {
    } else {
      CommonRowSplit(g, j, m, i - 1);
    }
  }

  lemma {:induction false} CommonSumSplit(g: Graph, p: nat, m: nat)
    requires m > 0
    ensures CommonSum(g, p, m) == CommonSum(g, p, m - 1) + HitSum(g, m - 1, p)
  {
    if p == 0 {
    } else {
      CommonSumSplit(g, p - 1, m);
      CommonRowSplit(g, p - 1, m, p - 1);
    }
  }

  lemma {:induction false} CommonRowZero(g: Graph, j: nat, i: nat)
    ensures CommonRow(g, j, 0, i) == 0
  {
    if i == 0 {
    } else {
      CommonRowZero(g, j, i - 1);
    }
  }

  lemma {:induction false} CommonSumZero(g: Graph, p: nat)
    ensures CommonSum(g, p, 0) == 0
  {
    if p == 0 {
    } else {
      CommonSumZero(g, p - 1);
      CommonRowZero(g, p - 1, p - 1);
    }
  }

  /** The neighbours of `k` below `m`. */
  function Degree(g: Graph, k: nat, m: nat): nat {
    if m == 0 then 0 else Degree(g, k, m - 1) + One(m - 1 != k && Adjacent(g, k, m - 1))
  }

  lemma {:induction false} DegreeIs(g: Graph, k: nat, m: nat)
    ensures Degree(g, k, m) == |Neighbours(g, m, k)|
  {
    hide Neighbours, Adjacent;
    if m == 0 {
      NoNeighbours(g, k);
    } else {
      DegreeIs(g, k, m - 1);
      OneMoreNode(g, k, m - 1);
    }
  }

  lemma NoNeighbours(g: Graph, k: nat)
    ensures Neighbours(g, 0, k) == {}
  {
  }

  lemma OneMoreNode(g: Graph, k: nat, m: nat)
    ensures |Neighbours(g, m + 1, k)|
         == |Neighbours(g, m, k)| + One(m != k && Adjacent(g, k, m))
  {
    hide Below, Adjacent;
    var added := if m != k && Adjacent(g, k, m) then {m} else {};
    assert Neighbours(g, m + 1, k) == Neighbours(g, m, k) + added;
  }

  lemma {:induction false} HitRowIs(g: Graph, j: nat, k: nat, i: nat)
    ensures HitRow(g, j, k, i) == if j != k && Adjacent(g, k, j) then Degree(g, k, i) else 0
  {
    if i == 0 {
    } else {
      HitRowIs(g, j, k, i - 1);
    }
  }

  /** A node of degree d is the common neighbour of d(d - 1)/2 pairs. */
  lemma {:induction false} HitSumIs(g: Graph, k: nat, p: nat)
    ensures 2 * HitSum(g, k, p) == Degree(g, k, p) * (Degree(g, k, p) - 1)
  {
    if p == 0 {
    } else {
      HitSumIs(g, k, p - 1);
      HitRowIs(g, p - 1, k, p - 1);
      NextProduct(Degree(g, k, p - 1));
    }
  }

  lemma {:induction false} CommonSumIs(g: Graph, n: nat, m: nat)
    ensures CommonSum(g, n, m) == NeighbourPairs(g, n, m)
  {
    if m == 0 {
      CommonSumZero(g, n);
    } else {
      CommonSumIs(g, n, m - 1);
      CommonSumSplit(g, n, m);
      HitSumIs(g, m - 1, n);
      DegreeIs(g, m - 1, n);
    }
  }

  lemma {:induction false} PathRowIs(g: Graph, n: nat, j: nat, i: nat)
    requires i <= j < n
    ensures PathRow(g, n, j, i) == EdgeRow(g, j, i) + CommonRow(g, j, n, i)
  {
    hide Paths, Common, CommonUpTo;
    if i == 0 {
    } else {
      PathRowIs(g, n, j, i - 1);
      PathsAre(g, n, i - 1, j);
      CommonIsSum(g, i - 1, j, n);
    }
  }

  lemma {:induction false} PathSumIs(g: Graph, n: nat, m: nat)
    requires m <= n
    ensures PathSum(g, n, m) == EdgeCount(g, m) + CommonSum(g, m, n)
  {
    if m == 0 {
    } else {
      PathSumIs(g, n, m - 1);
      PathRowIs(g, n, m - 1, m - 1);
    }
  }

  /** Double counting: the short paths of all pairs together are the connected pairs plus
      d(d - 1)/2 for the degree d of every node. */
  lemma DoubleCounting(g: Graph, n: nat)
    ensures PathSum(g, n, n) == EdgeCount(g, n) + NeighbourPairs(g, n, n)
  {
    PathSumIs(g, n, n);
    CommonSumIs(g, n, n);
  }
}
