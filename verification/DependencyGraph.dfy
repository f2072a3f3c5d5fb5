/**
 The pending-command graph of the dependency engine: node `i` is the i-th registered
 command and `g[i]` is its `pending_deps` vector.  Edges point from a command to what it
 waits for.
 */
module DependencyGraph {

  type Graph = seq<seq<nat>>

  /** Every dependency is a registered command. */
  ghost predicate WellFormed(g: Graph) {
    forall i, k :: 0 <= i < |g| && 0 <= k < |g[i]| ==> g[i][k] < |g|
  }

  /** A nonempty walk that follows dependency edges. */
  ghost predicate IsPath(g: Graph, p: seq<nat>) {
    && |p| > 0
    && (forall k :: 0 <= k < |p| ==> p[k] < |g|)
    && (forall k :: 0 < k < |p| ==> p[k] in g[p[k - 1]])
  }

  ghost predicate PathFromTo(g: Graph, p: seq<nat>, a: nat, b: nat) {
    IsPath(g, p) && p[0] == a && p[|p| - 1] == b
  }

  ghost predicate Reaches(g: Graph, a: nat, b: nat) {
    exists p :: PathFromTo(g, p, a, b)
  }

  /** A walk with at least one edge that returns to its start. */
  ghost predicate IsCycle(g: Graph, p: seq<nat>) {
    IsPath(g, p) && |p| >= 2 && p[0] == p[|p| - 1]
  }

  ghost predicate Acyclic(g: Graph) {
    forall p :: !IsCycle(g, p)
  }

  function AddNode(g: Graph): Graph {
    g + [[]]
  }

  /** Command `i` additionally waits for command `j`. */
  function AddEdge(g: Graph, i: nat, j: nat): Graph
    requires i < |g|
  {
    g[i := g[i] + [j]]
  }

  // ---------------------------------------------------------------- paths --

  lemma ExtendFront(g: Graph, a: nat, p: seq<nat>)
    requires IsPath(g, p) && a < |g| && p[0] in g[a]
    ensures IsPath(g, [a] + p)
    ensures ([a] + p)[0] == a && ([a] + p)[|p|] == p[|p| - 1]
  {
  }

  lemma ExtendBack(g: Graph, p: seq<nat>, b: nat)
    requires IsPath(g, p) && b < |g| && b in g[p[|p| - 1]]
    ensures IsPath(g, p + [b])
  {
  }

  lemma SubPath(g: Graph, p: seq<nat>, lo: nat, hi: nat)
    requires IsPath(g, p) && lo < hi <= |p|
    ensures IsPath(g, p[lo..hi])
  {
    var q := p[lo..hi];
    forall k | 0 < k < |q| ensures q[k] in g[q[k - 1]] {
      assert q[k] == p[lo + k] && q[k - 1] == p[lo + k - 1];
    }
  }

  /** In an acyclic graph no walk visits a node twice. */
  lemma PathsAreSimple(g: Graph, p: seq<nat>, i: nat, j: nat)
    requires Acyclic(g) && IsPath(g, p) && i < j < |p|
    ensures p[i] != p[j]
  {
    if p[i] == p[j] {
      SubPath(g, p, i, j + 1);
      assert IsCycle(g, p[i..j + 1]);
    }
  }

  /** Pigeonhole: distinct numbers below `n` are at most `n` many. */
  lemma {:induction false} DistinctBounded(p: seq<nat>, n: nat)
    requires forall k :: 0 <= k < |p| ==> p[k] < n
    requires forall i, j :: 0 <= i < j < |p| ==> p[i] != p[j]
    ensures |p| <= n
  {
    if |p| == 0 {
    } else {
      assert p[0] < n;
      if n - 1 in p {
        var i :| 0 <= i < |p| && p[i] == n - 1;
        DistinctBounded(p[..i] + p[i + 1..], n - 1);
      } else {
        DistinctBounded(p, n - 1);
      }
    }
  }

  lemma PathLength(g: Graph, p: seq<nat>)
    requires Acyclic(g) && IsPath(g, p)
    ensures |p| <= |g|
  {
    forall i, j | 0 <= i < j < |p| ensures p[i] != p[j] { PathsAreSimple(g, p, i, j); }
    DistinctBounded(p, |g|);
  }

  lemma ReachesSelf(g: Graph, a: nat)
    requires a < |g|
    ensures Reaches(g, a, a)
  {
    assert PathFromTo(g, [a], a, a);
  }

  lemma ReachesStep(g: Graph, a: nat, b: nat, c: nat)
    requires Reaches(g, a, b) && b < |g| && c < |g| && c in g[b]
    ensures Reaches(g, a, c)
  {
    var p :| PathFromTo(g, p, a, b);
    ExtendBack(g, p, c);
    assert PathFromTo(g, p + [c], a, c);
  }

  /** A command reaches `b` exactly when it is `b` or one of its dependencies reaches `b`. */
  lemma ReachesUnfold(g: Graph, a: nat, b: nat)
    requires WellFormed(g) && a < |g|
    ensures Reaches(g, a, b) <==> (a == b || exists k :: 0 <= k < |g[a]| && Reaches(g, g[a][k], b))
  {
    if Reaches(g, a, b) && a != b {
      var p :| PathFromTo(g, p, a, b);
      SubPath(g, p, 1, |p|);
      assert PathFromTo(g, p[1..], p[1], b);
      var k :| 0 <= k < |g[a]| && g[a][k] == p[1];
      assert Reaches(g, g[a][k], b);
    }
    if a == b { ReachesSelf(g, a); }
    if k :| 0 <= k < |g[a]| && Reaches(g, g[a][k], b) {
      var p :| PathFromTo(g, p, g[a][k], b);
      ExtendFront(g, a, p);
      assert PathFromTo(g, [a] + p, a, b);
    }
  }

  // --------------------------------------------------------- cycle safety --

  lemma AddNodeAcyclic(g: Graph)
    requires WellFormed(g) && Acyclic(g)
    ensures WellFormed(AddNode(g)) && Acyclic(AddNode(g))
  {
    var h := AddNode(g);
    forall p ensures !IsCycle(h, p) {
      if IsCycle(h, p) {
        forall k | 0 <= k < |p| ensures p[k] < |g| {
          if k > 0 {
            assert p[k] in h[p[k - 1]];
          } else {
            assert p[|p| - 1] in h[p[|p| - 2]];
          }
        }
        assert IsCycle(g, p);
      }
    }
  }

  /** What `j` already reaches is closed under the edges of the extended graph. */
  lemma {:induction false} DescendantsClosed(g: Graph, i: nat, j: nat, p: seq<nat>, a: nat, b: nat)
    requires WellFormed(g) && i < |g| && j < |g| && !Reaches(g, j, i)
    requires IsPath(AddEdge(g, i, j), p) && a <= b < |p| && Reaches(g, j, p[a])
    ensures Reaches(g, j, p[b])
    decreases b - a
  {
    if a < b {
      assert p[a] != i;
      assert p[a + 1] in AddEdge(g, i, j)[p[a]];
      assert p[a + 1] in g[p[a]];
      ReachesStep(g, j, p[a], p[a + 1]);
      DescendantsClosed(g, i, j, p, a + 1, b);
    }
  }

  /** An accepted edge keeps the graph acyclic. */
  lemma AddEdgeAcyclic(g: Graph, i: nat, j: nat)
    requires WellFormed(g) && Acyclic(g) && i < |g| && j < |g| && !Reaches(g, j, i)
    ensures WellFormed(AddEdge(g, i, j)) && Acyclic(AddEdge(g, i, j))
  {
    var h := AddEdge(g, i, j);
    forall p ensures !IsCycle(h, p) {
      if IsCycle(h, p) {
        var last := |p| - 1;
        if a :| 0 <= a < |p| && Reaches(g, j, p[a]) {
          // once inside the descendants of j the cycle never leaves them, so it avoids i
          DescendantsClosed(g, i, j, p, a, last);
          forall k | 0 <= k < |p| ensures p[k] != i {
            DescendantsClosed(g, i, j, p, 0, k);
          }
        } else {
          ReachesSelf(g, j);
          assert forall k :: 0 <= k < |p| ==> p[k] != j;
        }
        forall k | 0 < k < |p| ensures p[k] in g[p[k - 1]] {
          assert p[k] in h[p[k - 1]];
        }
        assert IsCycle(g, p);
      }
    }
  }

  lemma PathSurvives(g: Graph, i: nat, j: nat, p: seq<nat>)
    requires IsPath(g, p) && i < |g|
    ensures IsPath(AddEdge(g, i, j), p)
  {
    var h := AddEdge(g, i, j);
    forall k | 0 < k < |p| ensures p[k] in h[p[k - 1]] {
      assert p[k] in g[p[k - 1]];
    }
  }

  /** The call-time check is exact: an edge closes a cycle iff the other end already
      reaches this command (a self-dependency included). */
  lemma EdgeClosesCycleIff(g: Graph, i: nat, j: nat)
    requires WellFormed(g) && Acyclic(g) && i < |g| && j < |g|
    ensures Acyclic(AddEdge(g, i, j)) <==> !Reaches(g, j, i)
  {
    if Reaches(g, j, i) {
      var p :| PathFromTo(g, p, j, i);
      var h := AddEdge(g, i, j);
      PathSurvives(g, i, j, p);
      assert h[i] == g[i] + [j];
      assert j in h[i];
      ExtendBack(h, p, j);
      assert IsCycle(h, p + [j]);
    } else {
      AddEdgeAcyclic(g, i, j);
    }
  }

  // ------------------------------------------------------------- reachable --

  /** The depth-first search of the cycle check.  `trail` is the walk by which the search
      got to `from`; on an acyclic graph it cannot grow past the number of commands, which
      is why the search ends although it keeps no visited set. */
  method ReachableFrom(g: Graph, from: nat, target: nat, ghost trail: seq<nat>) returns (r: bool)
    requires WellFormed(g) && Acyclic(g) && from < |g|
    requires IsPath(g, trail) && trail[|trail| - 1] == from
    ensures r <==> Reaches(g, from, target)
    decreases |g| - |trail|
  {
    ReachesUnfold(g, from, target);
    if from == target {
      return true;
    }
    for k := 0 to |g[from]|
      invariant forall m :: 0 <= m < k ==> !Reaches(g, g[from][m], target)
    {
      var dep := g[from][k];
      ExtendBack(g, trail, dep);
      PathLength(g, trail + [dep]);
      var found := ReachableFrom(g, dep, target, trail + [dep]);
      if found {
        return true;
      }
    }
    return false;
  }

  method Reachable(g: Graph, from: nat, target: nat) returns (r: bool)
    requires WellFormed(g) && Acyclic(g) && from < |g|
    ensures r <==> Reaches(g, from, target)
  {
    r := ReachableFrom(g, from, target, [from]);
  }
}
