/**
 Quorum meshes as graphs: nodes are the numbers below `n`, an edge (i, j) is an outgoing
 connection of `i` to `j`, and connectivity ignores the direction.
 */
module MeshGraph {
  import opened Naturals

  type Graph = set<(nat, nat)>

  predicate Adjacent(g: Graph, i: nat, j: nat) {
    (i, j) in g || (j, i) in g
  }

  /** Nodes connected to both. */
  function Common(g: Graph, n: nat, i: nat, j: nat): set<nat> {
    set k | k in Below(n) && k != i && k != j && Adjacent(g, i, k) && Adjacent(g, j, k)
  }

  function Neighbours(g: Graph, n: nat, j: nat): set<nat> {
    set k | k in Below(n) && k != j && Adjacent(g, j, k)
  }

  /** The paths of at most two hops, named after the node before the end `j`: `i` itself for the
      direct connection, the middle node for a path over two hops. */
  function ShortPaths(g: Graph, n: nat, i: nat, j: nat): set<nat> {
    set k | k in Neighbours(g, n, j) && (k == i || Adjacent(g, i, k))
  }

  function Paths(g: Graph, n: nat, i: nat, j: nat): nat {
    |ShortPaths(g, n, i, j)|
  }

  function One(b: bool): nat {
    if b then 1 else 0
  }

  predicate Pair(n: nat, i: nat, j: nat) {
    i < n && j < n && i != j
  }

  /** A simple graph on the nodes below `n`: no self-loops, no edge in both directions. */
  predicate Simple(g: Graph, n: nat) {
    && (forall e :: e in g ==> e.0 < n && e.1 < n && e.0 != e.1)
    && (forall e :: e in g ==> (e.1, e.0) !in g)
  }

  /** A short path is the direct connection or a common neighbour. */
  lemma PathsAre(g: Graph, n: nat, i: nat, j: nat)
    requires Pair(n, i, j)
    ensures Paths(g, n, i, j) == One(Adjacent(g, i, j)) + |Common(g, n, i, j)|
  {
    var direct := if Adjacent(g, i, j) then {i} else {};
    assert ShortPaths(g, n, i, j) == direct + Common(g, n, i, j);
  }

  lemma PathsSymmetric(g: Graph, n: nat, i: nat, j: nat)
    requires Pair(n, i, j)
    ensures Paths(g, n, i, j) == Paths(g, n, j, i)
  {
    PathsAre(g, n, i, j);
    PathsAre(g, n, j, i);
    assert Common(g, n, i, j) == Common(g, n, j, i);
  }

  /** No pair has more than `n - 1` short paths. */
  lemma PathsBound(g: Graph, n: nat, i: nat, j: nat)
    requires Pair(n, i, j)
    ensures Paths(g, n, i, j) <= n - 1
  {
    SubsetSize(ShortPaths(g, n, i, j), Below(n) - {j});
  }

  lemma {:induction false} SubsetSize<T>(a: set<T>, b: set<T>)
    requires a <= b
    ensures |a| <= |b|
    decreases |a|
  {
    if a != {} {
      var x :| x in a;
      SubsetSize(a - {x}, b - {x});
    }
  }

  ghost predicate Complete(g: Graph, n: nat) {
    forall i, j :: Pair(n, i, j) ==> Adjacent(g, i, j)
  }

  lemma CompletePaths(g: Graph, n: nat, i: nat, j: nat)
    requires Pair(n, i, j) && Complete(g, n)
    ensures Paths(g, n, i, j) == n - 1
  {
    assert forall k :: k in Below(n) - {j} ==> Pair(n, j, k) && (k == i || Pair(n, i, k));
    assert ShortPaths(g, n, i, j) == Below(n) - {j};
  }

  // Adding an edge

  /** Whether the edge (a, b) makes a new short path between i and j. */
  predicate Gains(g: Graph, n: nat, a: nat, b: nat, i: nat, j: nat) {
    || (i == a && j == b) || (i == b && j == a)
    || (i == a && j in Neighbours(g, n, b)) || (j == a && i in Neighbours(g, n, b))
    || (i == b && j in Neighbours(g, n, a)) || (j == b && i in Neighbours(g, n, a))
  }

  /** The middle node of the new path over two hops, if there is one. */
  function NewMiddle(g: Graph, n: nat, a: nat, b: nat, i: nat, j: nat): set<nat> {
    if (i == a && j in Neighbours(g, n, b)) || (j == a && i in Neighbours(g, n, b)) then {b}
    else if (i == b && j in Neighbours(g, n, a)) || (j == b && i in Neighbours(g, n, a)) then {a}
    else {}
  }

  lemma CommonGain(g: Graph, n: nat, a: nat, b: nat, i: nat, j: nat, k: nat)
    requires Pair(n, a, b) && !Adjacent(g, a, b) && Pair(n, i, j)
    ensures k in Common(g + {(a, b)}, n, i, j) <==>
            k in Common(g, n, i, j) || k in NewMiddle(g, n, a, b, i, j)
    ensures !(k in Common(g, n, i, j) && k in NewMiddle(g, n, a, b, i, j))
  {
    var g' := g + {(a, b)};
    assert forall x, y :: Adjacent(g', x, y) <==>
      Adjacent(g, x, y) || (x == a && y == b) || (x == b && y == a);
    assert Adjacent(g, i, k) <==> Adjacent(g, k, i);
    assert Adjacent(g, j, k) <==> Adjacent(g, k, j);
  }

  /** A new edge (a, b) raises by one exactly the pair {a, b}, the pairs of a with a neighbour of b,
      and the pairs of b with a neighbour of a. */
  lemma EdgeGain(g: Graph, n: nat, a: nat, b: nat, i: nat, j: nat)
    requires Pair(n, a, b) && !Adjacent(g, a, b) && Pair(n, i, j)
    ensures Paths(g + {(a, b)}, n, i, j) == Paths(g, n, i, j) + One(Gains(g, n, a, b, i, j))
  {
    hide Common, NewMiddle;
    var g' := g + {(a, b)};
    PathsAre(g, n, i, j);
    PathsAre(g', n, i, j);
    var gained := NewMiddle(g, n, a, b, i, j);
    forall k: nat {
      CommonGain(g, n, a, b, i, j, k);
    }
    assert Common(g', n, i, j) == Common(g, n, i, j) + gained;
    assert Common(g, n, i, j) !! gained;
    GainSize(g, n, a, b, i, j);
  }

  lemma GainSize(g: Graph, n: nat, a: nat, b: nat, i: nat, j: nat)
    requires Pair(n, a, b) && !Adjacent(g, a, b) && Pair(n, i, j)
    ensures One(Adjacent(g + {(a, b)}, i, j)) + |NewMiddle(g, n, a, b, i, j)|
         == One(Adjacent(g, i, j)) + One(Gains(g, n, a, b, i, j))
  {
  }

  // What short paths are good for

  /** After the nodes in `down` fail, and the direct connection too if `cut`, is there a path of at
      most two hops left? */
  predicate Connected(g: Graph, n: nat, i: nat, j: nat, down: set<nat>, cut: bool) {
    (Adjacent(g, i, j) && !cut) || exists k :: k in Common(g, n, i, j) && k !in down
  }

  /** A pair has at least `t` short paths exactly when it survives any fewer than `t` failures of
      other nodes and of the direct connection. */
  lemma PathsAreFaultTolerance(g: Graph, n: nat, i: nat, j: nat, t: nat)
    requires Pair(n, i, j)
    ensures Paths(g, n, i, j) >= t <==>
            forall down: set<nat>, cut ::
              i !in down && j !in down && |down| + One(cut) < t ==> Connected(g, n, i, j, down, cut)
  {
    PathsAre(g, n, i, j);
    var common := Common(g, n, i, j);
    if Paths(g, n, i, j) >= t {
      forall down: set<nat>, cut | i !in down && j !in down && |down| + One(cut) < t
        ensures Connected(g, n, i, j, down, cut)
      {
        if common <= down {
          SubsetSize(common, down);
        } else {
          var k :| k in common && k !in down;
        }
      }
    } else {
      assert !Connected(g, n, i, j, common, true);
      if !Adjacent(g, i, j) {
        assert !Connected(g, n, i, j, common, false);
        assert |common| + One(false) < t;
      } else {
        assert |common| + One(true) < t;
      }
    }
  }

  /** With at least `t` short paths for every pair, deleting any fewer than `t` nodes leaves every two
      remaining nodes joined directly or over one remaining node, and every node has at least `t`
      neighbours. */
  lemma FaultTolerance(g: Graph, n: nat, t: nat)
    requires n >= 2 && forall i, j :: Pair(n, i, j) ==> Paths(g, n, i, j) >= t
    ensures forall down: set<nat>, i, j :: Pair(n, i, j) && |down| < t && i !in down && j !in down ==>
              Connected(g, n, i, j, down, false)
    ensures forall j: nat :: j < n ==> |Neighbours(g, n, j)| >= t
  {
    forall down: set<nat>, i, j | Pair(n, i, j) && |down| < t && i !in down && j !in down
      ensures Connected(g, n, i, j, down, false)
    {
      PathsAreFaultTolerance(g, n, i, j, t);
      assert |down| + One(false) < t;
    }
    forall j: nat | j < n
      ensures |Neighbours(g, n, j)| >= t
    {
      var i := if j == 0 then 1 else 0;
      assert Pair(n, i, j) && Paths(g, n, i, j) >= t;
      SubsetSize(ShortPaths(g, n, i, j), Neighbours(g, n, j));
    }
  }
}
