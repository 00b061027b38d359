/** Directed paths through the store's outgoing maps, their weights, and
    reachability. */
module Paths {
  import opened Store

  /** A non-empty sequence of vertices, each an out-neighbour of the one before. */
  predicate IsPath(g: DiGraph, p: seq<int>) {
    && |p| > 0
    && (forall i | 0 <= i < |p| :: p[i] in g.nodes)
    && (forall i | 1 <= i < |p| :: p[i] in g.nodes[p[i - 1]].outEdges)
  }

  predicate IsPathFrom(g: DiGraph, p: seq<int>, a: int, b: int) {
    IsPath(g, p) && p[0] == a && p[|p| - 1] == b
  }

  /** The sum of the weights along a path. */
  function PathWeight(g: DiGraph, p: seq<int>): nat
    requires IsPath(g, p)
    decreases |p|
  {
    if |p| == 1 then 0 else g.nodes[p[0]].outEdges[p[1]] + PathWeight(g, p[1..])
  }

  ghost predicate Reachable(g: DiGraph, a: int, b: int) {
    exists p :: IsPathFrom(g, p, a, b)
  }

  /** A set of vertices that no outgoing edge leaves. */
  predicate Closed(g: DiGraph, s: set<int>) {
    forall x | x in s :: x in g.nodes && g.nodes[x].outEdges.Keys <= s
  }

  lemma PathTail(g: DiGraph, p: seq<int>)
    requires IsPath(g, p) && |p| > 1
    ensures IsPath(g, p[1..])
  {
    forall i | 1 <= i < |p[1..]| ensures p[1..][i] in g.nodes[p[1..][i - 1]].outEdges {
      assert p[1..][i] == p[i + 1] && p[1..][i - 1] == p[i];
    }
  }

  /** Prepending an in-neighbour of the first vertex extends a path and adds the edge's weight. */
  lemma PathCons(g: DiGraph, x: int, p: seq<int>)
    requires IsPath(g, p) && x in g.nodes && p[0] in g.nodes[x].outEdges
    ensures IsPath(g, [x] + p)
    ensures PathWeight(g, [x] + p) == g.nodes[x].outEdges[p[0]] + PathWeight(g, p)
  {
    var q := [x] + p;
    forall i | 1 <= i < |q| ensures q[i] in g.nodes[q[i - 1]].outEdges {
      if i > 1 {
        assert q[i] == p[i - 1] && q[i - 1] == p[i - 2];
      }
    }
    assert q[1..] == p;
  }

  /** Appending an out-neighbour of the last vertex extends a path. */
  lemma PathSnoc(g: DiGraph, p: seq<int>, y: int)
    requires IsPath(g, p) && y in g.nodes && y in g.nodes[p[|p| - 1]].outEdges
    ensures IsPath(g, p + [y])
  {
  }

  /** Appending an edge adds its weight at the end. */
  lemma {:induction false} PathSnocWeight(g: DiGraph, p: seq<int>, y: int)
    requires IsPath(g, p) && y in g.nodes && y in g.nodes[p[|p| - 1]].outEdges
    ensures IsPath(g, p + [y])
    ensures PathWeight(g, p + [y]) == PathWeight(g, p) + g.nodes[p[|p| - 1]].outEdges[y]
    decreases |p|
  {
    PathSnoc(g, p, y);
    if |p| == 1 {
      assert (p + [y])[1..] == [y];
    } else {
      PathTail(g, p);
      PathSnocWeight(g, p[1..], y);
      assert (p + [y])[1..] == p[1..] + [y];
    }
  }

  lemma ReachRefl(g: DiGraph, a: int)
    requires a in g.nodes
    ensures Reachable(g, a, a)
  {
    assert IsPathFrom(g, [a], a, a);
  }

  lemma ReachStep(g: DiGraph, a: int, b: int, c: int)
    requires Reachable(g, a, b) && b in g.nodes && c in g.nodes[b].outEdges && c in g.nodes
    ensures Reachable(g, a, c)
  {
    var p :| IsPathFrom(g, p, a, b);
    PathSnoc(g, p, c);
    assert IsPathFrom(g, p + [c], a, c);
  }

  lemma ReachTrans(g: DiGraph, a: int, b: int, c: int)
    requires Reachable(g, a, b) && Reachable(g, b, c)
    ensures Reachable(g, a, c)
  {
    var p :| IsPathFrom(g, p, a, b);
    var q :| IsPathFrom(g, q, b, c);
    var r := p + q[1..];
    forall i | 1 <= i < |r| ensures r[i] in g.nodes[r[i - 1]].outEdges {
      if i >= |p| {
        assert r[i] == q[i - |p| + 1];
        assert r[i - 1] == q[i - |p|];
      }
    }
    assert IsPathFrom(g, r, a, c);
  }

  /** A path that starts inside a closed set never leaves it. */
  lemma {:induction false} ClosedPath(g: DiGraph, s: set<int>, p: seq<int>)
    requires Closed(g, s) && IsPath(g, p) && p[0] in s
    ensures p[|p| - 1] in s
    decreases |p|
  {
    if |p| > 1 {
      PathTail(g, p);
      var a, b := p[0], p[1];
      assert a in s && b in g.nodes[a].outEdges;
      assert b in s;
      assert p[1..][0] == b;
      ClosedPath(g, s, p[1..]);
    }
  }

  /** Everything reachable from a member of a closed set lies in the set. */
  lemma ClosedReach(g: DiGraph, s: set<int>, a: int, b: int)
    requires Closed(g, s) && a in s && Reachable(g, a, b)
    ensures b in s
  {
    var p :| IsPathFrom(g, p, a, b);
    ClosedPath(g, s, p);
  }
}
