/** The dictionary form used by the JSON save and load: a list of vertex
    ids and a list of (src, dest, w) edge entries. Only the mapping between
    that form and the store is modelled; reading and writing files is not. */
module JsonSchema {
  import opened Store
  import opened Sets
  import opened StoreProofs
  import opened Traversal

  datatype EdgeEntry = EdgeEntry(src: int, dest: int, w: Weight)

  // ---------------------------------------------------------------------------
  // Saving

  /** Entry `e` records an edge of `g` with its stored weight. */
  predicate Records(g: DiGraph, e: EdgeEntry) {
    e.src in g.nodes && e.dest in g.nodes[e.src].outEdges && e.w == g.nodes[e.src].outEdges[e.dest]
  }

  /** Some entry names the pair (a, b). */
  ghost predicate Names(es: seq<EdgeEntry>, a: int, b: int) {
    exists i :: 0 <= i < |es| && es[i].src == a && es[i].dest == b
  }

  /** No two entries name the same pair. */
  predicate DistinctPairs(es: seq<EdgeEntry>) {
    forall i, j | 0 <= i < j < |es| :: es[i].src != es[j].src || es[i].dest != es[j].dest
  }

  /** The shape save produces for `g`: every entry records an edge of `g`,
      every edge of `g` is named, and no pair is named twice. */
  ghost predicate Saved(g: DiGraph, es: seq<EdgeEntry>) {
    && (forall i | 0 <= i < |es| :: Records(g, es[i]))
    && (forall a, b | a in g.nodes && b in g.nodes[a].outEdges :: Names(es, a, b))
    && DistinctPairs(es)
  }

  /** Appends one entry per outgoing edge of `a`. */
  method SaveRow(g: DiGraph, a: int, es0: seq<EdgeEntry>) returns (es: seq<EdgeEntry>)
    requires a in g.nodes
    requires forall i | 0 <= i < |es0| :: Records(g, es0[i]) && es0[i].src != a
    requires DistinctPairs(es0)
    ensures |es| >= |es0| && es[..|es0|] == es0
    ensures forall i | 0 <= i < |es| :: Records(g, es[i])
    ensures forall i | |es0| <= i < |es| :: es[i].src == a
    ensures forall b | b in g.nodes[a].outEdges :: Names(es, a, b)
    ensures DistinctPairs(es)
  {
    es := es0;
    var todo := g.nodes[a].outEdges.Keys;
    while todo != {}
      invariant todo <= g.nodes[a].outEdges.Keys
      invariant |es| >= |es0| && es[..|es0|] == es0
      invariant forall i | 0 <= i < |es| :: Records(g, es[i])
      invariant forall i | |es0| <= i < |es| :: es[i].src == a && es[i].dest !in todo
      invariant forall b | b in g.nodes[a].outEdges && b !in todo :: Names(es, a, b)
      invariant DistinctPairs(es)
      decreases todo
    {
      // Naming a member of `todo` lets the verifier see that the choice below exists.
      ghost var someB := Pick(todo);
      var b :| b in todo;
      todo := todo - {b};
      ghost var before := es;
      es := es + [EdgeEntry(a, b, g.nodes[a].outEdges[b])];
      assert es[|es| - 1].src == a && es[|es| - 1].dest == b;
      forall c | c in g.nodes[a].outEdges && c !in todo
        ensures Names(es, a, c)
      {
        if c != b {
          assert Names(before, a, c);
          var i :| 0 <= i < |before| && before[i].src == a && before[i].dest == c;
          assert es[i] == before[i];
        }
      }
    }
  }

  /** The dictionary that `GraphAlgo.save_to_json` writes: one vertex entry per key, in the store's key
      enumeration order `order`, and one edge entry per outgoing-map entry,
      carrying the stored weight. */
  method Save(g: DiGraph, order: seq<int>) returns (ns: seq<int>, es: seq<EdgeEntry>)
    requires NoDup(order) && forall x :: x in order <==> x in g.nodes
    ensures ns == order
    ensures Saved(g, es)
  {
    ns := [];
    es := [];
    var i := 0;
    while i < |order|
      invariant 0 <= i <= |order| && ns == order[..i]
      invariant forall k | 0 <= k < |es| :: Records(g, es[k]) && es[k].src in order[..i]
      invariant forall a, b | a in order[..i] && b in g.nodes[a].outEdges :: Names(es, a, b)
      invariant DistinctPairs(es)
    {
      var a := order[i];
      assert a in order;
      assert a !in order[..i];
      ghost var before := es;
      es := SaveRow(g, a, es);
      ns := ns + [a];
      forall x, b | x in order[..i + 1] && b in g.nodes[x].outEdges
        ensures Names(es, x, b)
      {
        if x != a {
          assert x in order[..i];
          assert Names(before, x, b);
          var k :| 0 <= k < |before| && before[k].src == x && before[k].dest == b;
          assert es[k] == before[k];
        }
      }
      forall k | 0 <= k < |es|
        ensures es[k].src in order[..i + 1]
      {
        if k < |before| {
          assert es[k] == before[k];
        }
      }
      i := i + 1;
    }
    assert order[..i] == order;
  }

  // ---------------------------------------------------------------------------
  // Loading

  /** add_node for each id in turn; ids already present are skipped. */
  function AddNodes(g: DiGraph, ns: seq<int>): DiGraph
    decreases |ns|
  {
    if ns == [] then g else AddNodes(AddNode(g, ns[0]).1, ns[1..])
  }

  /** add_edge for each entry in turn; entries that add_edge refuses are
      dropped. */
  function AddEdges(g: DiGraph, es: seq<EdgeEntry>): DiGraph
    decreases |es|
  {
    if es == [] then g else AddEdges(AddEdge(g, es[0].src, es[0].dest, es[0].w).1, es[1..])
  }

  /** The store that `GraphAlgo.load_from_json` builds: a fresh store, then all vertices, then all edges. */
  function Load(ns: seq<int>, es: seq<EdgeEntry>): DiGraph {
    AddEdges(AddNodes(Empty(), ns), es)
  }

  /** Adding ids keeps every existing vertex and adds the missing ids as
      vertices without edges. */
  lemma {:induction false} AddNodesShape(g: DiGraph, ns: seq<int>)
    ensures forall k :: k in AddNodes(g, ns).nodes <==> k in g.nodes || k in ns
    ensures forall k | k in AddNodes(g, ns).nodes && k !in g.nodes :: AddNodes(g, ns).nodes[k] == NewNode(k)
    ensures forall k | k in g.nodes :: AddNodes(g, ns).nodes[k] == g.nodes[k]
    decreases |ns|
  {
    if ns != [] {
      var h := AddNode(g, ns[0]).1;
      AddNodesShape(h, ns[1..]);
      var r := AddNodes(g, ns);
      assert r == AddNodes(h, ns[1..]);
      forall k
        ensures k in r.nodes <==> k in g.nodes || k in ns
      {
        assert k in ns <==> k == ns[0] || k in ns[1..];
      }
    }
  }

  lemma {:induction false} AddNodesValid(g: DiGraph, ns: seq<int>)
    requires Valid(g)
    ensures Valid(AddNodes(g, ns))
    ensures Edges(AddNodes(g, ns)) == Edges(g)
    decreases |ns|
  {
    if ns != [] {
      AddNodeValid(g, ns[0]);
      AddNodesValid(AddNode(g, ns[0]).1, ns[1..]);
    }
  }

  /** Replaying entries from a valid store keeps it valid; the vertex set is
      unchanged, and a pair becomes an edge exactly when it was one already
      or some entry names it with both ends present and distinct. */
  lemma {:induction false} AddEdgesValid(g: DiGraph, es: seq<EdgeEntry>)
    requires Valid(g)
    ensures Valid(AddEdges(g, es))
    ensures AddEdges(g, es).nodes.Keys == g.nodes.Keys
    ensures forall a, b :: (a, b) in Edges(AddEdges(g, es)) <==>
      (a, b) in Edges(g) || (a in g.nodes && b in g.nodes && a != b && Names(es, a, b))
    decreases |es|
  {
    if es != [] {
      var e := es[0];
      var h := AddEdge(g, e.src, e.dest, e.w).1;
      AddEdgeValid(g, e.src, e.dest, e.w);
      AddEdgesValid(h, es[1..]);
      forall a, b
        ensures (a, b) in Edges(AddEdges(g, es)) <==>
          (a, b) in Edges(g) || (a in g.nodes && b in g.nodes && a != b && Names(es, a, b))
      {
        EdgesMember(g, e.src, e.dest);
        EdgesMember(g, a, b);
        NamesCons(es, a, b);
      }
    }
  }

  /** A pair is named by the entries iff the first entry or a later one names it. */
  lemma NamesCons(es: seq<EdgeEntry>, a: int, b: int)
    requires es != []
    ensures Names(es, a, b) <==> (es[0].src == a && es[0].dest == b) || Names(es[1..], a, b)
  {
    if Names(es[1..], a, b) {
      var i :| 0 <= i < |es[1..]| && es[1..][i].src == a && es[1..][i].dest == b;
      assert es[i + 1] == es[1..][i];
    }
    if Names(es, a, b) && !(es[0].src == a && es[0].dest == b) {
      var i :| 0 <= i < |es| && es[i].src == a && es[i].dest == b;
      assert es[1..][i - 1] == es[i];
    }
  }

  /** Loading gives a valid store whose vertices are the listed ids and whose
      edges are the named pairs between listed, distinct ids: entries that
      mention an unknown id or a self-loop are dropped. */
  lemma LoadValid(ns: seq<int>, es: seq<EdgeEntry>)
    ensures Valid(Load(ns, es))
    ensures forall k :: k in Load(ns, es).nodes <==> k in ns
    ensures forall a, b :: (a, b) in Edges(Load(ns, es)) <==>
      a in ns && b in ns && a != b && Names(es, a, b)
  {
    EmptyValid();
    AddNodesValid(Empty(), ns);
    AddNodesShape(Empty(), ns);
    var h := AddNodes(Empty(), ns);
    AddEdgesValid(h, es);
    forall a, b
      ensures (a, b) !in Edges(h)
    {
      EdgesMember(h, a, b);
    }
  }

  // ---------------------------------------------------------------------------
  // Round trip

  /** `h` has the vertices of `g`, and every edge of `h` is an edge of `g`
      with the same weight. */
  ghost predicate Within(h: DiGraph, g: DiGraph) {
    && h.nodes.Keys == g.nodes.Keys
    && forall a, b | a in h.nodes && b in h.nodes[a].outEdges ::
         b in g.nodes[a].outEdges && h.nodes[a].outEdges[b] == g.nodes[a].outEdges[b]
  }

  /** Adding an edge recorded from `g` keeps a store within `g`. */
  lemma WithinStep(h: DiGraph, g: DiGraph, e: EdgeEntry)
    requires Valid(h) && Within(h, g) && Records(g, e)
    ensures Within(AddEdge(h, e.src, e.dest, e.w).1, g)
  {
    var a, b, w := e.src, e.dest, e.w;
    if AddEdge(h, a, b, w).0 {
      AddEdgeShape(h, a, b, w);
      var n := Linked(h, a, b, w);
      forall x, y | x in n && y in n[x].outEdges
        ensures y in g.nodes[x].outEdges && n[x].outEdges[y] == g.nodes[x].outEdges[y]
      {
        if x != a || y != b {
          assert y in h.nodes[x].outEdges;
        }
      }
    }
  }

  /** Replaying entries recorded from `g` keeps a valid store within `g`. */
  lemma {:induction false} WithinRun(h: DiGraph, g: DiGraph, es: seq<EdgeEntry>)
    requires Valid(h) && Within(h, g)
    requires forall i | 0 <= i < |es| :: Records(g, es[i])
    ensures Within(AddEdges(h, es), g)
    decreases |es|
  {
    if es != [] {
      var e := es[0];
      WithinStep(h, g, e);
      AddEdgeValid(h, e.src, e.dest, e.w);
      forall i | 0 <= i < |es[1..]|
        ensures Records(g, es[1..][i])
      {
        assert es[1..][i] == es[i + 1];
      }
      WithinRun(AddEdge(h, e.src, e.dest, e.w).1, g, es[1..]);
    }
  }

  /** Two valid stores, one within the other and with the same edges, have
      the same vertex map: incoming maps follow from the mirroring. */
  lemma WithinAll(h: DiGraph, g: DiGraph)
    requires Valid(h) && Valid(g) && Within(h, g) && Edges(h) == Edges(g)
    ensures h.nodes == g.nodes
  {
    forall k | k in g.nodes
      ensures h.nodes[k] == g.nodes[k]
    {
      var hn, gn := h.nodes[k], g.nodes[k];
      forall v
        ensures v in hn.outEdges <==> v in gn.outEdges
      {
        EdgesMember(h, k, v);
        EdgesMember(g, k, v);
      }
      forall v | v in hn.outEdges
        ensures hn.outEdges[v] == gn.outEdges[v]
      {
        assert v in h.nodes[k].outEdges;
      }
      assert hn.outEdges == gn.outEdges;
      forall u
        ensures u in hn.inEdges <==> u in gn.inEdges
      {
        EdgesMember(h, u, k);
        EdgesMember(g, u, k);
      }
      forall u | u in hn.inEdges
        ensures hn.inEdges[u] == gn.inEdges[u]
      {
        assert k in h.nodes[u].outEdges;
      }
      assert hn.inEdges == gn.inEdges;
    }
  }

  /** The store holding only the saved ids is valid and within `g`. */
  lemma LoadedVertices(g: DiGraph, ns: seq<int>)
    requires forall k :: k in ns <==> k in g.nodes
    ensures Valid(AddNodes(Empty(), ns)) && Within(AddNodes(Empty(), ns), g)
  {
    var h0 := AddNodes(Empty(), ns);
    EmptyValid();
    AddNodesValid(Empty(), ns);
    AddNodesShape(Empty(), ns);
    forall k
      ensures k in h0.nodes <==> k in g.nodes
    {
    }
    assert h0.nodes.Keys == g.nodes.Keys;
    forall a | a in h0.nodes
      ensures h0.nodes[a].outEdges == map[]
    {
      assert a !in Empty().nodes;
    }
  }

  /** A store whose edges are the pairs named by a saved form of `g`
      between ids of `g` has exactly the edges of `g`. */
  lemma NamedEdges(g: DiGraph, ns: seq<int>, es: seq<EdgeEntry>, l: DiGraph)
    requires Valid(g)
    requires forall k :: k in ns <==> k in g.nodes
    requires Saved(g, es)
    requires forall a, b :: (a, b) in Edges(l) <==> a in ns && b in ns && a != b && Names(es, a, b)
    ensures Edges(l) == Edges(g)
  {
    forall a, b | (a, b) in Edges(l)
      ensures (a, b) in Edges(g)
    {
      var i :| 0 <= i < |es| && es[i].src == a && es[i].dest == b;
      assert Records(g, es[i]);
      EdgesMember(g, a, b);
    }
    forall a, b | (a, b) in Edges(g)
      ensures (a, b) in Edges(l)
    {
      EdgesMember(g, a, b);
      assert b in g.nodes && a != b;
    }
  }

  /** Saving a valid store and loading the result gives back the same
      vertices with the same in- and out-maps, weights included, and the same
      edge counter; in particular the two stores are equal. */
  lemma RoundTrip(g: DiGraph, ns: seq<int>, es: seq<EdgeEntry>)
    requires Valid(g)
    requires forall k :: k in ns <==> k in g.nodes
    requires Saved(g, es)
    ensures Load(ns, es).nodes == g.nodes
    ensures ESize(Load(ns, es)) == ESize(g) && VSize(Load(ns, es)) == VSize(g)
    ensures GraphEqual(Load(ns, es), g)
  {
    LoadedVertices(g, ns);
    WithinRun(AddNodes(Empty(), ns), g, es);
    LoadValid(ns, es);
    NamedEdges(g, ns, es, Load(ns, es));
    WithinAll(Load(ns, es), g);
  }
}
