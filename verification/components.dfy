/** Strongly connected components as `GraphAlgo.connected_component` finds them: a forward
    traversal, an in-place transpose, a filtered backward traversal, and the
    transpose undone. The all-components loop skips only the vertices of the
    most recent component, because every traversal first wipes all marks. */
module Components {
  import opened Store
  import opened Paths
  import opened Options
  import opened Transposition
  import opened Traversal

  /** `x` and `v` reach each other. */
  ghost predicate InScc(g: DiGraph, v: int, x: int) {
    Reachable(g, v, x) && Reachable(g, x, v)
  }

  /** The strongly connected component of `v`, as a set of vertices. */
  ghost function Scc(g: DiGraph, v: int): set<int> {
    set x | x in g.nodes && InScc(g, v, x)
  }

  lemma ReachableEnds(g: DiGraph, a: int, b: int)
    requires Reachable(g, a, b)
    ensures a in g.nodes && b in g.nodes
  {
    var p :| IsPathFrom(g, p, a, b);
    assert p[0] in g.nodes && p[|p| - 1] in g.nodes;
  }

  /** The component of `id1`: empty when the vertex is missing; otherwise
      `id1` first, then once each every vertex that both reaches `id1` and is
      reached from it. The store comes back exactly as it was, since the
      transpose is applied twice. */
  method ConnectedComponent(g: DiGraph, id1: int) returns (comp: seq<int>, h: DiGraph)
    requires KeysMatch(g.nodes) && OutMirrored(g.nodes) && InMirrored(g.nodes)
    ensures h == g
    ensures id1 !in g.nodes ==> comp == []
    ensures id1 in g.nodes ==> |comp| > 0 && comp[0] == id1 && NoDup(comp)
    ensures forall x :: x in comp <==> id1 in g.nodes && InScc(g, id1, x)
  {
    if id1 !in g.nodes {
      return [], g;
    }
    var forward, _ := Bfs(g, id1, None);
    var t := Transpose(g);
    TransposeMirrored(g);
    var dict := set x | x in forward;
    var marks;
    comp, marks := Bfs(t, id1, Some(dict));
    h := Transpose(t);
    TransposeInvolution(g);
    ReachRefl(g, id1);
    forall x
      ensures x in comp <==> InScc(g, id1, x)
    {
      ReachableTranspose(g, id1, x);
    }
  }

  /** The heads of the lists the all-components loop produces, defined
      directly: walk the vertex order, skip a vertex that belongs to the
      component found last, otherwise record it and remember its component. */
  ghost function Heads(g: DiGraph, order: seq<int>, last: set<int>): seq<int>
    decreases |order|
  {
    if order == [] then []
    else if order[0] in last then Heads(g, order[1..], last)
    else [order[0]] + Heads(g, order[1..], Scc(g, order[0]))
  }

  lemma HeadsStep(g: DiGraph, order: seq<int>, i: nat, last: set<int>)
    requires i < |order|
    ensures Heads(g, order[i..], last) ==
      if order[i] in last then Heads(g, order[i + 1..], last)
      else [order[i]] + Heads(g, order[i + 1..], Scc(g, order[i]))
  {
    assert order[i..][1..] == order[i + 1..];
  }

  /** The heads are drawn from the scan order, at most one per position and
      never the same vertex twice when the order has no repeats; a first
      vertex outside the last component always starts a list. */
  lemma {:induction false} HeadsShape(g: DiGraph, order: seq<int>, last: set<int>)
    ensures |Heads(g, order, last)| <= |order|
    ensures forall x | x in Heads(g, order, last) :: x in order
    ensures order != [] && order[0] !in last ==> Heads(g, order, last) != [] && Heads(g, order, last)[0] == order[0]
    ensures NoDup(order) ==> NoDup(Heads(g, order, last))
    decreases |order|
  {
    if order != [] {
      var rest := order[1..];
      var next := if order[0] in last then last else Scc(g, order[0]);
      HeadsShape(g, rest, next);
      var tail := Heads(g, rest, next);
      forall x | x in tail
        ensures x in order
      {
        assert x in rest;
      }
      if order[0] !in last && NoDup(order) {
        var r := [order[0]] + tail;
        assert NoDup(rest) by {
          forall i, j | 0 <= i < j < |rest|
            ensures rest[i] != rest[j]
          {
            assert rest[i] == order[i + 1] && rest[j] == order[j + 1];
          }
        }
        assert order[0] !in rest by {
          forall i | 0 <= i < |rest|
            ensures rest[i] != order[0]
          {
            assert rest[i] == order[i + 1];
          }
        }
        forall i, j | 0 <= i < j < |r|
          ensures r[i] != r[j]
        {
          if i == 0 {
            assert r[j] == tail[j - 1];
            assert tail[j - 1] in tail;
          } else {
            assert r[i] == tail[i - 1] && r[j] == tail[j - 1];
          }
        }
      } else if NoDup(order) {
        assert NoDup(rest) by {
          forall i, j | 0 <= i < j < |rest|
            ensures rest[i] != rest[j]
          {
            assert rest[i] == order[i + 1] && rest[j] == order[j + 1];
          }
        }
      }
    }
  }

  /** Each list is non-empty, starts at a vertex, has no repeats, and is
      the component of its first vertex. */
  ghost predicate SccLists(g: DiGraph, comps: seq<seq<int>>) {
    forall k | 0 <= k < |comps| ::
      && |comps[k]| > 0 && comps[k][0] in g.nodes && NoDup(comps[k])
      && forall x :: x in comps[k] <==> InScc(g, comps[k][0], x)
  }

  /** The first `i` vertices of `order` each lie in some list. */
  ghost predicate Covered(order: seq<int>, i: nat, comps: seq<seq<int>>)
    requires i <= |order|
  {
    forall j | 0 <= j < i :: exists k :: 0 <= k < |comps| && order[j] in comps[k]
  }

  lemma CoveredNext(order: seq<int>, i: nat, comps: seq<seq<int>>, comp: seq<int>)
    requires i < |order| && Covered(order, i, comps) && order[i] in comp
    ensures Covered(order, i + 1, comps + [comp])
  {
    var comps' := comps + [comp];
    forall j | 0 <= j < i + 1
      ensures exists k :: 0 <= k < |comps'| && order[j] in comps'[k]
    {
      if j == i {
        assert comps'[|comps|] == comp;
      } else {
        var k :| 0 <= k < |comps| && order[j] in comps[k];
        assert comps'[k] == comps[k];
      }
    }
  }

  lemma CoveredSkip(order: seq<int>, i: nat, comps: seq<seq<int>>)
    requires i < |order| && Covered(order, i, comps)
    requires comps != [] && order[i] in comps[|comps| - 1]
    ensures Covered(order, i + 1, comps)
  {
    var k := |comps| - 1;
    assert 0 <= k < |comps| && order[i] in comps[k];
  }

  /** The component of `v` as the list ConnectedComponent returns equals
      Scc(g, v) as a set. */
  lemma SccAsSet(g: DiGraph, v: int, comp: seq<int>)
    requires forall x :: x in comp <==> InScc(g, v, x)
    ensures (set x | x in comp) == Scc(g, v)
  {
    forall x | x in comp
      ensures x in Scc(g, v)
    {
      ReachableEnds(g, v, x);
    }
  }

  /** The loop state after the first `i` vertices of `order`: the lists so
      far are components headed by `heads`, `last` is the most recent
      component (empty before the first), the first `i` vertices are
      covered, and Heads agrees with what is recorded plus what is to come. */
  ghost predicate Scanned(g: DiGraph, order: seq<int>, i: nat, comps: seq<seq<int>>, heads: seq<int>, last: set<int>) {
    && i <= |order|
    && SccLists(g, comps)
    && |heads| == |comps| && (forall k | 0 <= k < |comps| :: comps[k][0] == heads[k])
    && (comps == [] ==> last == {})
    && (comps != [] ==> last == Scc(g, comps[|comps| - 1][0]) && forall x :: x in last <==> x in comps[|comps| - 1])
    && Covered(order, i, comps)
    && Heads(g, order, {}) == heads + Heads(g, order[i..], last)
  }

  lemma ScannedNew(g: DiGraph, order: seq<int>, i: nat, comps: seq<seq<int>>, heads: seq<int>, last: set<int>, comp: seq<int>)
    requires Scanned(g, order, i, comps, heads, last) && i < |order| && order[i] !in last && order[i] in g.nodes
    requires |comp| > 0 && comp[0] == order[i] && NoDup(comp)
    requires forall x :: x in comp <==> order[i] in g.nodes && InScc(g, order[i], x)
    ensures Scanned(g, order, i + 1, comps + [comp], heads + [order[i]], set x | x in comp)
  {
    var v := order[i];
    HeadsStep(g, order, i, last);
    SccAsSet(g, v, comp);
    ReachRefl(g, v);
    CoveredNext(order, i, comps, comp);
    var comps' := comps + [comp];
    forall k | 0 <= k < |comps'|
      ensures |comps'[k]| > 0 && comps'[k][0] in g.nodes && NoDup(comps'[k])
      ensures forall x :: x in comps'[k] <==> InScc(g, comps'[k][0], x)
    {
      if k < |comps| {
        assert comps'[k] == comps[k];
      }
    }
  }

  lemma ScannedSkip(g: DiGraph, order: seq<int>, i: nat, comps: seq<seq<int>>, heads: seq<int>, last: set<int>)
    requires Scanned(g, order, i, comps, heads, last) && i < |order| && order[i] in last
    ensures Scanned(g, order, i + 1, comps, heads, last)
  {
    HeadsStep(g, order, i, last);
    CoveredSkip(order, i, comps);
  }

  lemma ScannedAll(g: DiGraph, order: seq<int>, comps: seq<seq<int>>, heads: seq<int>, last: set<int>)
    requires Scanned(g, order, |order|, comps, heads, last)
    requires forall x :: x in order <==> x in g.nodes
    ensures forall x | x in g.nodes :: exists i :: 0 <= i < |comps| && x in comps[i]
    ensures Heads(g, order, {}) == heads
  {
    assert Heads(g, order[|order|..], last) == [] by {
      assert order[|order|..] == [];
    }
    forall x | x in g.nodes
      ensures exists i :: 0 <= i < |comps| && x in comps[i]
    {
      assert x in order;
      var j :| 0 <= j < |order| && order[j] == x;
      assert exists k :: 0 <= k < |comps| && order[j] in comps[k];
    }
  }

  /** All components, visiting the vertices in `order` (the store's key
      enumeration order). Each list is the component of its first vertex,
      every vertex lies in some list, and the first vertices are exactly the
      ones Heads predicts, so a component can be listed more than once. */
  method ConnectedComponents(g: DiGraph, order: seq<int>) returns (comps: seq<seq<int>>)
    requires KeysMatch(g.nodes) && OutMirrored(g.nodes) && InMirrored(g.nodes)
    requires NoDup(order) && forall x :: x in order <==> x in g.nodes
    ensures SccLists(g, comps)
    ensures forall x | x in g.nodes :: exists i :: 0 <= i < |comps| && x in comps[i]
    ensures |comps| == |Heads(g, order, {})|
    ensures forall i | 0 <= i < |comps| :: comps[i][0] == Heads(g, order, {})[i]
  {
    comps := [];
    var black: set<int> := {};
    ghost var heads: seq<int> := [];
    var i := 0;
    while i < |order|
      invariant Scanned(g, order, i, comps, heads, black)
    {
      var v := order[i];
      if v !in black {
        assert v in order;
        var comp, _ := ConnectedComponent(g, v);
        ScannedNew(g, order, i, comps, heads, black, comp);
        black := set x | x in comp;
        heads := heads + [v];
        comps := comps + [comp];
      } else {
        ScannedSkip(g, order, i, comps, heads, black);
      }
      i := i + 1;
    }
    ScannedAll(g, order, comps, heads, black);
  }
}
