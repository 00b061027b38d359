/** The stores of the shortest-path and component unit tests, and what the
    model says about the queries those tests make. */
module Samples {
  import opened Store
  import opened Paths
  import opened ShortestPaths
  import opened Options
  import opened Traversal
  import opened Components

  /** Vertices 0..4 with edges 0->1 (3), 1->2 (5), 0->2 (10), 2->3 (5),
      3->4 (5) and 0->4 (19), as the test builds them. */
  function Sample(): DiGraph {
    DiGraph(map[
      0 := Node(0, map[], map[1 := 3, 2 := 10, 4 := 19]),
      1 := Node(1, map[0 := 3], map[2 := 5]),
      2 := Node(2, map[1 := 5, 0 := 10], map[3 := 5]),
      3 := Node(3, map[2 := 5], map[4 := 5]),
      4 := Node(4, map[3 := 5, 0 := 19], map[])], 6, 11)
  }

  /** Every edge of the sample is mirrored with its weight at its target. */
  lemma SampleMirrored()
    ensures OutMirrored(Sample().nodes)
  {
    var n := Sample().nodes;
    forall u, v | u in n && v in n[u].outEdges
      ensures v in n && v != u && u in n[v].inEdges && n[v].inEdges[u] == n[u].outEdges[v]
    {
      assert u in {0, 1, 2, 3, 4};
    }
  }

  /** The path 0, 1, 2, 3, 4 weighs 18. */
  lemma SamplePath()
    ensures IsPathFrom(Sample(), [0, 1, 2, 3, 4], 0, 4) && PathWeight(Sample(), [0, 1, 2, 3, 4]) == 18
  {
    var g := Sample();
    var p := [0, 1, 2, 3, 4];
    assert IsPath(g, p);
    assert p[1..] == [1, 2, 3, 4] && p[2..] == [2, 3, 4] && p[3..] == [3, 4] && p[4..] == [4];
  }

  /** No path from 0 to 4 weighs less than 18: the labels below satisfy
      every edge, so they bound every path from 0. */
  lemma SampleBound()
    ensures forall p | IsPathFrom(Sample(), p, 0, 4) :: 18 <= PathWeight(Sample(), p)
  {
    var g := Sample();
    var labels: map<int, nat> := map[0 := 0, 1 := 3, 2 := 8, 3 := 13, 4 := 18];
    forall u | u in labels
      ensures Settled(g, labels, u)
    {
    }
    forall p | IsPathFrom(g, p, 0, 4)
      ensures 18 <= PathWeight(g, p)
    {
      NoShorterPath(g, labels, p);
    }
  }

  /** Nothing leaves {3, 4}, so 0 is not reachable from 3. */
  lemma SampleUnreachable()
    ensures !Reachable(Sample(), 3, 0)
  {
    var g := Sample();
    assert Closed(g, {3, 4});
    if Reachable(g, 3, 0) {
      ClosedReach(g, {3, 4}, 3, 0);
    }
  }

  lemma SampleKeys()
    ensures Sample().nodes.Keys == {0, 1, 2, 3, 4}
  {
  }

  /** Every path into 4 is pinned down by its first vertex, and from 0 the
      only path of weight 18 is 0, 1, 2, 3, 4. */
  lemma {:induction false} UniqueFrom(p: seq<int>)
    requires IsPath(Sample(), p) && p[|p| - 1] == 4
    ensures p[0] == 4 ==> p == [4]
    ensures p[0] == 3 ==> p == [3, 4] && PathWeight(Sample(), p) == 5
    ensures p[0] == 2 ==> p == [2, 3, 4] && PathWeight(Sample(), p) == 10
    ensures p[0] == 1 ==> p == [1, 2, 3, 4] && PathWeight(Sample(), p) == 15
    ensures p[0] == 0 && PathWeight(Sample(), p) == 18 ==> p == [0, 1, 2, 3, 4]
    decreases |p|
  {
    var g := Sample();
    if |p| > 1 {
      assert p[1] in g.nodes[p[0]].outEdges;
      PathTail(g, p);
      UniqueFrom(p[1..]);
      assert p == [p[0]] + p[1..];
    }
  }

  /** The first query of the test: 0 to 4 costs 18, along exactly the path
      0, 1, 2, 3, 4. */
  method SampleQuery() returns (d: Option<nat>, path: seq<int>)
    ensures d == Some(18) && IsPathFrom(Sample(), path, 0, 4) && PathWeight(Sample(), path) == 18
    ensures path == [0, 1, 2, 3, 4]
  {
    var g := Sample();
    SampleMirrored();
    SamplePath();
    SampleBound();
    assert Reachable(g, 0, 4) by {
      assert IsPathFrom(g, [0, 1, 2, 3, 4], 0, 4);
    }
    d, path := ShortestPath(g, 0, 4);
    var w := PathWeight(g, path);
    assert d.value <= PathWeight(g, [0, 1, 2, 3, 4]);
    assert 18 <= w;
    UniqueFrom(path);
  }

  /** The other two queries of the test: 3 to 0 has no path, and an absent
      id gives no path; both come with an empty vertex list. */
  method SampleMisses() returns (d30: Option<nat>, p30: seq<int>, d92: Option<nat>, p92: seq<int>)
    ensures d30 == None && p30 == []
    ensures d92 == None && p92 == []
  {
    var g := Sample();
    SampleMirrored();
    SampleUnreachable();
    SampleKeys();
    d30, p30 := ShortestPath(g, 3, 0);
    d92, p92 := ShortestPath(g, 9, 2);
  }

  // ---------------------------------------------------------------------------
  // The component test

  /** Vertices 1..6 with the two-way edges 1-4, 1-5, 2-3, 5-6 and the edges
      4->6, 6->4, all of weight 10, as the component test builds them. */
  function Twins(): DiGraph {
    DiGraph(map[
      1 := Node(1, map[4 := 10, 5 := 10], map[4 := 10, 5 := 10]),
      2 := Node(2, map[3 := 10], map[3 := 10]),
      3 := Node(3, map[2 := 10], map[2 := 10]),
      4 := Node(4, map[1 := 10, 6 := 10], map[1 := 10, 6 := 10]),
      5 := Node(5, map[1 := 10, 6 := 10], map[1 := 10, 6 := 10]),
      6 := Node(6, map[5 := 10, 4 := 10], map[5 := 10, 4 := 10])], 10, 16)
  }

  /** Every edge of the component test store is mirrored with its weight. */
  lemma TwinsMirrored()
    ensures KeysMatch(Twins().nodes) && OutMirrored(Twins().nodes) && InMirrored(Twins().nodes)
  {
    var n := Twins().nodes;
    forall u, v | u in n && v in n[u].outEdges
      ensures v in n && v != u && u in n[v].inEdges && n[v].inEdges[u] == n[u].outEdges[v]
    {
      assert u in {1, 2, 3, 4, 5, 6};
    }
    forall v, u | v in n && u in n[v].inEdges
      ensures u in n && v in n[u].outEdges
    {
      assert v in {1, 2, 3, 4, 5, 6};
    }
  }

  /** An edge is a path of one step. */
  lemma Hop(g: DiGraph, a: int, b: int)
    requires a in g.nodes && b in g.nodes && b in g.nodes[a].outEdges
    ensures Reachable(g, a, b)
  {
    assert IsPathFrom(g, [a, b], a, b);
  }

  /** Who shares a component with whom in the test store: 1, 4, 5, 6 reach
      each other, so do 2 and 3, and nothing leads from one group to the
      other. */
  lemma TwinsComponents()
    ensures InScc(Twins(), 2, 3) && InScc(Twins(), 4, 5) && InScc(Twins(), 4, 6)
    ensures !InScc(Twins(), 1, 2) && !InScc(Twins(), 2, 4)
    ensures forall x :: InScc(Twins(), 1, x) <==> InScc(Twins(), 4, x)
  {
    var g := Twins();
    Hop(g, 2, 3);
    Hop(g, 3, 2);
    Hop(g, 4, 6);
    Hop(g, 6, 4);
    Hop(g, 6, 5);
    Hop(g, 5, 6);
    Hop(g, 1, 4);
    Hop(g, 4, 1);
    ReachTrans(g, 4, 6, 5);
    ReachTrans(g, 5, 6, 4);
    assert Closed(g, {1, 4, 5, 6});
    assert Closed(g, {2, 3});
    if Reachable(g, 1, 2) {
      ClosedReach(g, {1, 4, 5, 6}, 1, 2);
    }
    if Reachable(g, 2, 4) {
      ClosedReach(g, {2, 3}, 2, 4);
    }
    forall x
      ensures InScc(g, 1, x) <==> InScc(g, 4, x)
    {
      if InScc(g, 1, x) {
        ReachTrans(g, 4, 1, x);
        ReachTrans(g, x, 1, 4);
      }
      if InScc(g, 4, x) {
        ReachTrans(g, 1, 4, x);
        ReachTrans(g, x, 4, 1);
      }
    }
  }

  /** Scanning 1..6 starts a list at 1, at 2, and again at 4: the marks of
      {1, 4, 5, 6} were wiped when 2's component was searched. */
  lemma TwinsHeads()
    ensures Heads(Twins(), [1, 2, 3, 4, 5, 6], {}) == [1, 2, 4]
  {
    var g := Twins();
    var order := [1, 2, 3, 4, 5, 6];
    TwinsComponents();
    HeadsStep(g, order, 0, {});
    HeadsStep(g, order, 1, Scc(g, 1));
    HeadsStep(g, order, 2, Scc(g, 2));
    HeadsStep(g, order, 3, Scc(g, 2));
    HeadsStep(g, order, 4, Scc(g, 4));
    HeadsStep(g, order, 5, Scc(g, 4));
    assert order[6..] == [];
  }

  /** Components over an order whose heads are 1, 2, 4 where 1 and 4
      share a component: three lists, the third repeating the first. */
  method Repeated(g: DiGraph, order: seq<int>) returns (comps: seq<seq<int>>)
    requires KeysMatch(g.nodes) && OutMirrored(g.nodes) && InMirrored(g.nodes)
    requires NoDup(order) && forall x :: x in order <==> x in g.nodes
    requires Heads(g, order, {}) == [1, 2, 4]
    requires forall x :: InScc(g, 1, x) <==> InScc(g, 4, x)
    ensures |comps| == 3 && |comps[0]| > 0 && |comps[1]| > 0 && |comps[2]| > 0
    ensures comps[0][0] == 1 && comps[1][0] == 2 && comps[2][0] == 4
    ensures forall x :: x in comps[0] <==> x in comps[2]
  {
    comps := ConnectedComponents(g, order);
    forall x
      ensures x in comps[0] <==> x in comps[2]
    {
      ListAt(g, comps, 0, x);
      ListAt(g, comps, 2, x);
    }
  }

  lemma ListAt(g: DiGraph, comps: seq<seq<int>>, k: int, x: int)
    requires SccLists(g, comps) && 0 <= k < |comps|
    ensures |comps[k]| > 0 && (x in comps[k] <==> InScc(g, comps[k][0], x))
  {
  }

  /** The component test: scanning 1..6 gives three lists, the third
      repeating the first. */
  method TwinsQuery() returns (comps: seq<seq<int>>)
    ensures |comps| == 3 && |comps[0]| > 0 && |comps[1]| > 0 && |comps[2]| > 0
    ensures comps[0][0] == 1 && comps[1][0] == 2 && comps[2][0] == 4
    ensures forall x :: x in comps[0] <==> x in comps[2]
  {
    TwinsMirrored();
    TwinsHeads();
    TwinsComponents();
    var order := [1, 2, 3, 4, 5, 6];
    assert NoDup(order);
    comps := Repeated(Twins(), order);
  }

  // ---------------------------------------------------------------------------
  // The single-component test

  /** Vertices 1..6 with the two-way edges 1-4, 1-5, 1-6, 5-6 and the edges
      2->4, 3->2, all of weight 10, as the single-component test builds them. */
  function Fork(): DiGraph {
    DiGraph(map[
      1 := Node(1, map[4 := 10, 5 := 10, 6 := 10], map[4 := 10, 5 := 10, 6 := 10]),
      2 := Node(2, map[3 := 10], map[4 := 10]),
      3 := Node(3, map[], map[2 := 10]),
      4 := Node(4, map[1 := 10, 2 := 10], map[1 := 10]),
      5 := Node(5, map[1 := 10, 6 := 10], map[1 := 10, 6 := 10]),
      6 := Node(6, map[1 := 10, 5 := 10], map[5 := 10, 1 := 10])], 10, 16)
  }

  lemma ForkMirrored()
    ensures KeysMatch(Fork().nodes) && OutMirrored(Fork().nodes) && InMirrored(Fork().nodes)
  {
    var n := Fork().nodes;
    forall u, v | u in n && v in n[u].outEdges
      ensures v in n && v != u && u in n[v].inEdges && n[v].inEdges[u] == n[u].outEdges[v]
    {
      assert u in {1, 2, 3, 4, 5, 6};
    }
    forall v, u | v in n && u in n[v].inEdges
      ensures u in n && v in n[u].outEdges
    {
      assert v in {1, 2, 3, 4, 5, 6};
    }
  }

  /** In the single-component store, 1 shares its component with 4, 5 and 6,
      while 2 reaches that group but nothing returns to 2. */
  lemma ForkComponents()
    ensures forall x :: InScc(Fork(), 1, x) <==> x in {1, 4, 5, 6}
    ensures forall x :: InScc(Fork(), 2, x) <==> x == 2
  {
    var g := Fork();
    ReachRefl(g, 1);
    ReachRefl(g, 2);
    Hop(g, 1, 4);
    Hop(g, 4, 1);
    Hop(g, 1, 5);
    Hop(g, 5, 1);
    Hop(g, 1, 6);
    Hop(g, 6, 1);
    var group := {1, 4, 5, 6};
    assert Closed(g, group);
    assert Closed(g, group + {2});
    forall x
      ensures InScc(g, 1, x) <==> x in group
    {
      if Reachable(g, 1, x) {
        ClosedReach(g, group, 1, x);
      }
    }
    forall x
      ensures InScc(g, 2, x) <==> x == 2
    {
      if InScc(g, 2, x) {
        ClosedReach(g, group + {2}, 2, x);
        if x != 2 {
          ClosedReach(g, group, x, 2);
        }
      }
    }
  }

  /** Component sizes on any store where 1's component is {1, 4, 5, 6}, 2's
      is {2}, and 10 is absent. */
  method Sizes(g: DiGraph) returns (c1: seq<int>, c2: seq<int>, c10: seq<int>)
    requires KeysMatch(g.nodes) && OutMirrored(g.nodes) && InMirrored(g.nodes)
    requires 1 in g.nodes && 2 in g.nodes && 10 !in g.nodes
    requires forall x :: InScc(g, 1, x) <==> x in {1, 4, 5, 6}
    requires forall x :: InScc(g, 2, x) <==> x == 2
    ensures |c1| == 4 && |c2| == 1 && c10 == []
  {
    var h;
    c1, h := ConnectedComponent(g, 1);
    NoDupSize(c1, {1, 4, 5, 6});
    c2, h := ConnectedComponent(g, 2);
    NoDupSize(c2, {2});
    c10, h := ConnectedComponent(g, 10);
  }

  /** The single-component test: the component of 1 has four vertices, that
      of 2 only itself, and an absent id gives an empty list. */
  method ForkQuery() returns (c1: seq<int>, c2: seq<int>, c10: seq<int>)
    ensures |c1| == 4 && |c2| == 1 && c10 == []
  {
    ForkMirrored();
    ForkComponents();
    c1, c2, c10 := Sizes(Fork());
  }
}
