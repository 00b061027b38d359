/** The breadth-first traversal that the component search calls `dfs`: a
    FIFO queue, with every vertex marked "visited" as it is first reached.
    With a filter, every reachable vertex is still explored, but only those
    in the filter are listed after the start vertex. The per-vertex "info"
    marks of `GraphAlgo.dfs` are a local set here. */
module Traversal {
  import opened Store
  import opened Sets
  import opened Paths
  import opened Options

  predicate NoDup(s: seq<int>) {
    forall i, j | 0 <= i < j < |s| :: s[i] != s[j]
  }

  /** A list without repeats that enumerates a set is as long as the set. */
  lemma {:induction false} NoDupSize(s: seq<int>, t: set<int>)
    requires NoDup(s) && forall x :: x in s <==> x in t
    ensures |s| == |t|
    decreases |s|
  {
    if s == [] {
      if t != {} {
        var x := Pick(t);
        assert false;
      }
    } else {
      var rest := s[1..];
      assert s == [s[0]] + rest;
      forall x
        ensures x in rest <==> x in t - {s[0]}
      {
        if x in rest {
          var j :| 0 <= j < |rest| && rest[j] == x;
          assert s[j + 1] == x;
        }
      }
      NoDupSize(rest, t - {s[0]});
    }
  }

  /** Whether the traversal lists a reached vertex: always without a filter,
      otherwise when the filter marks it. */
  predicate Accepts(filter: Option<set<int>>, x: int) {
    filter.None? || x in filter.value
  }

  /** The facts that hold between two dequeues: visited vertices are vertices
      reachable from `start`, queued vertices are visited, and the list holds
      `start` first and then, once each, the visited vertices the filter
      accepts. */
  ghost predicate Frontier(g: DiGraph, start: int, filter: Option<set<int>>, visited: set<int>, queue: seq<int>, list: seq<int>) {
    && visited <= g.nodes.Keys && start in visited
    && (forall x | x in visited :: Reachable(g, start, x))
    && (forall y | y in queue :: y in visited)
    && |list| > 0 && list[0] == start && NoDup(list)
    && (forall x :: x in list <==> x == start || (x in visited && Accepts(filter, x)))
  }

  /** Marking and queueing one newly reached vertex. */
  lemma Reached(g: DiGraph, start: int, filter: Option<set<int>>, visited: set<int>, queue: seq<int>, list: seq<int>, u: int, x: int)
    requires OutMirrored(g.nodes) && Frontier(g, start, filter, visited, queue, list)
    requires u in visited && x in g.nodes[u].outEdges && x !in visited
    ensures x in g.nodes && x != start
    ensures Frontier(g, start, filter, visited + {x}, queue + [x],
                     if Accepts(filter, x) then list + [x] else list)
  {
    assert x in g.nodes;
    ReachStep(g, start, u, x);
    var list' := if Accepts(filter, x) then list + [x] else list;
    assert x !in list;
    assert list'[0] == start;
    forall y ensures y in list' <==> y == start || (y in visited + {x} && Accepts(filter, y)) {
      if y in list' && y != x {
        assert y in list;
      }
    }
  }

  /** Scanning the out-neighbours of the dequeued vertex `u`: every one not
      yet visited is marked, queued, and listed if the filter accepts it.
      Afterwards all of u's out-neighbours are visited. */
  method Expand(g: DiGraph, start: int, filter: Option<set<int>>, u: int, visited0: set<int>, queue0: seq<int>, list0: seq<int>)
    returns (visited: set<int>, queue: seq<int>, list: seq<int>)
    requires OutMirrored(g.nodes) && u in visited0
    requires Frontier(g, start, filter, visited0, queue0, list0)
    ensures Frontier(g, start, filter, visited, queue, list)
    ensures g.nodes[u].outEdges.Keys <= visited
    ensures visited0 <= visited
    ensures visited == visited0 ==> queue == queue0
    ensures forall y | y in queue0 :: y in queue
    ensures forall y | y in visited && y !in visited0 :: y in queue
  {
    visited, queue, list := visited0, queue0, list0;
    var todo := g.nodes[u].outEdges.Keys;
    while todo != {}
      invariant todo <= g.nodes[u].outEdges.Keys
      invariant Frontier(g, start, filter, visited, queue, list)
      invariant g.nodes[u].outEdges.Keys - todo <= visited
      invariant visited0 <= visited
      invariant visited == visited0 ==> queue == queue0
      invariant forall y | y in queue0 :: y in queue
      invariant forall y | y in visited && y !in visited0 :: y in queue
      decreases todo
    {
      // Naming a member of `todo` lets the verifier see that the choice below exists.
      ghost var someX := Pick(todo);
      var x :| x in todo;
      todo := todo - {x};
      if x !in visited {
        Reached(g, start, filter, visited, queue, list, u, x);
        queue := queue + [x];
        visited := visited + {x};
        if Accepts(filter, x) {
          list := list + [x];
        }
      }
    }
  }

  lemma Dequeued(q: seq<int>)
    requires q != []
    ensures q[0] in q
    ensures forall x | x in q :: x == q[0] || x in q[1..]
  {
    assert q == [q[0]] + q[1..];
  }

  /** Breadth-first search from `start`. The list starts with `start` and
      then holds, once each, the vertices reachable from `start` that the
      filter accepts; the visited set is everything reachable. */
  method Bfs(g: DiGraph, start: int, filter: Option<set<int>>) returns (list: seq<int>, visited: set<int>)
    requires OutMirrored(g.nodes) && start in g.nodes
    ensures |list| > 0 && list[0] == start && NoDup(list)
    ensures forall x :: x in visited <==> Reachable(g, start, x)
    ensures forall x :: x in list <==> x == start || (Reachable(g, start, x) && Accepts(filter, x))
  {
    list := [start];
    visited := {start};
    var queue := [start];
    ReachRefl(g, start);
    while queue != []
      invariant Frontier(g, start, filter, visited, queue, list)
      invariant forall x | x in visited && x !in queue :: g.nodes[x].outEdges.Keys <= visited
      decreases |g.nodes.Keys - visited|, |queue|
    {
      ghost var visited0, queue0 := visited, queue;
      var u := queue[0];
      Dequeued(queue);
      queue := queue[1..];
      visited, queue, list := Expand(g, start, filter, u, visited, queue, list);
      if visited != visited0 {
        ComplementShrinks(g.nodes.Keys, visited0, visited);
      }
      forall x | x in visited && x !in queue
        ensures g.nodes[x].outEdges.Keys <= visited
      {
        if x != u {
          assert x in visited0 && x !in queue0;
        }
      }
    }
    assert Closed(g, visited);
    forall x | Reachable(g, start, x)
      ensures x in visited
    {
      ClosedReach(g, visited, start, x);
    }
  }
}
