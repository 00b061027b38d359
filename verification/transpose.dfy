/** The in-place transpose used by the component search: every vertex
    swaps its incoming and outgoing maps. */
module Transposition {
  import opened Store
  import opened Sets
  import opened Paths

  /** `GraphAlgo.replace_dicts`: the vertex set, the vertices' own keys and
      both counters stay as they are; only the maps change places. */
  function Transpose(g: DiGraph): (t: DiGraph)
    ensures t.nodes.Keys == g.nodes.Keys && t.edgeCount == g.edgeCount && t.mc == g.mc
    ensures KeysMatch(g.nodes) ==> KeysMatch(t.nodes)
  {
    g.(nodes := map k | k in g.nodes :: g.nodes[k].(inEdges := g.nodes[k].outEdges, outEdges := g.nodes[k].inEdges))
  }

  /** Swapping twice restores every vertex's maps, so the store is unchanged. */
  lemma TransposeInvolution(g: DiGraph)
    ensures Transpose(Transpose(g)) == g
  {
    var t := Transpose(Transpose(g));
    assert t.nodes.Keys == g.nodes.Keys;
    forall k | k in g.nodes ensures t.nodes[k] == g.nodes[k] {
    }
  }

  /** The edges of the transpose are the reversed edges. */
  lemma TransposeEdges(g: DiGraph)
    requires Valid(g)
    ensures forall u, v :: (u, v) in Edges(Transpose(g)) <==> (v, u) in Edges(g)
  {
    var t := Transpose(g);
    forall u, v ensures (u, v) in Edges(t) <==> (v, u) in Edges(g) {
      EdgesMember(t, u, v);
      EdgesMember(g, v, u);
    }
  }

  function Swap(s: set<(int, int)>): set<(int, int)> {
    set p | p in s :: (p.1, p.0)
  }

  lemma {:induction false} SwapCard(s: set<(int, int)>)
    ensures |Swap(s)| == |s|
    decreases s
  {
    if s != {} {
      var x := Pick(s);
      SwapCard(s - {x});
      assert Swap(s) == Swap(s - {x}) + {(x.1, x.0)};
      assert (x.1, x.0) !in Swap(s - {x});
    }
  }

  lemma TransposeMirrored(g: DiGraph)
    requires KeysMatch(g.nodes) && OutMirrored(g.nodes) && InMirrored(g.nodes)
    ensures KeysMatch(Transpose(g).nodes) && OutMirrored(Transpose(g).nodes) && InMirrored(Transpose(g).nodes)
  {
    var n := Transpose(g).nodes;
    forall u, v | u in n && v in n[u].outEdges
      ensures v in n && v != u && u in n[v].inEdges && n[v].inEdges[u] == n[u].outEdges[v]
    {
      assert v in g.nodes[u].inEdges;
    }
  }

  /** The transpose of a valid store is valid: replace_dicts keeps the
      invariant, edge counter included. */
  lemma TransposeValid(g: DiGraph)
    requires Valid(g)
    ensures Valid(Transpose(g))
  {
    TransposeMirrored(g);
    TransposeEdges(g);
    assert Edges(Transpose(g)) == Swap(Edges(g));
    SwapCard(Edges(g));
  }

  function Reverse(p: seq<int>): (r: seq<int>)
    ensures |r| == |p|
    ensures forall i | 0 <= i < |p| :: r[i] == p[|p| - 1 - i]
  {
    seq(|p|, i requires 0 <= i < |p| => p[|p| - 1 - i])
  }

  lemma ReversePath(g: DiGraph, p: seq<int>)
    requires OutMirrored(g.nodes) && IsPath(g, p)
    ensures IsPath(Transpose(g), Reverse(p))
  {
    var t := Transpose(g);
    var r := Reverse(p);
    forall i | 1 <= i < |r| ensures r[i] in t.nodes[r[i - 1]].outEdges {
      var n := |p|;
      assert r[i] == p[n - 1 - i] && r[i - 1] == p[n - i];
      assert p[n - i] in g.nodes[p[n - 1 - i]].outEdges;
    }
  }

  /** Reachability in the transpose is reachability backwards in the store. */
  lemma ReachableTranspose(g: DiGraph, a: int, b: int)
    requires KeysMatch(g.nodes) && OutMirrored(g.nodes) && InMirrored(g.nodes)
    ensures Reachable(Transpose(g), a, b) <==> Reachable(g, b, a)
  {
    var t := Transpose(g);
    if Reachable(g, b, a) {
      var p :| IsPathFrom(g, p, b, a);
      ReversePath(g, p);
      assert IsPathFrom(t, Reverse(p), a, b);
    }
    if Reachable(t, a, b) {
      var p :| IsPathFrom(t, p, a, b);
      TransposeMirrored(g);
      ReversePath(t, p);
      TransposeInvolution(g);
      assert IsPathFrom(g, Reverse(p), b, a);
    }
  }
}
