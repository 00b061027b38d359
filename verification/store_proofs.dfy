/** The representation invariant of the store is established by the
    constructor and preserved by every mutator; the edge counter therefore
    always equals the number of directed edges. */
module StoreProofs {
  import opened Store
  import opened Sets

  /** The edges leaving `k` towards the vertices in `s`. */
  function RowPairs(k: int, s: set<int>): set<(int, int)> {
    set v | v in s :: (k, v)
  }

  /** The edges entering `k` from the vertices in `s`. */
  function ColumnPairs(s: set<int>, k: int): set<(int, int)> {
    set u | u in s :: (u, k)
  }

  lemma {:induction false} RowPairsCard(k: int, s: set<int>)
    ensures |RowPairs(k, s)| == |s|
    decreases s
  {
    if s != {} {
      var x := Pick(s);
      RowPairsCard(k, s - {x});
      assert RowPairs(k, s) == RowPairs(k, s - {x}) + {(k, x)};
    }
  }

  lemma {:induction false} ColumnPairsCard(s: set<int>, k: int)
    ensures |ColumnPairs(s, k)| == |s|
    decreases s
  {
    if s != {} {
      var x := Pick(s);
      ColumnPairsCard(s - {x}, k);
      assert ColumnPairs(s, k) == ColumnPairs(s - {x}, k) + {(x, k)};
    }
  }

  lemma EmptyValid()
    ensures Valid(Empty())
  {
    assert Edges(Empty()) == {};
  }

  lemma AddNodeMirrored(g: DiGraph, k: int)
    requires KeysMatch(g.nodes) && OutMirrored(g.nodes) && InMirrored(g.nodes) && k !in g.nodes
    ensures KeysMatch(g.nodes[k := NewNode(k)])
    ensures OutMirrored(g.nodes[k := NewNode(k)]) && InMirrored(g.nodes[k := NewNode(k)])
  {
    var n := g.nodes[k := NewNode(k)];
    forall u, v | u in n && v in n[u].outEdges
      ensures v in n && v != u && u in n[v].inEdges && n[v].inEdges[u] == n[u].outEdges[v]
    {
      assert u in g.nodes && v in g.nodes[u].outEdges;
    }
    forall v, u | v in n && u in n[v].inEdges ensures u in n && v in n[u].outEdges {
      assert v in g.nodes && u in g.nodes[v].inEdges;
    }
  }

  lemma AddNodeValid(g: DiGraph, k: int)
    requires Valid(g)
    ensures Valid(AddNode(g, k).1)
    ensures Edges(AddNode(g, k).1) == Edges(g)
  {
    var (ok, h) := AddNode(g, k);
    if ok {
      AddNodeMirrored(g, k);
      NewNodeEdges(g, k);
      assert Edges(h) == Edges(DiGraph(g.nodes[k := NewNode(k)], 0, 0));
    }
  }

  lemma NewNodeEdges(g: DiGraph, k: int)
    requires k !in g.nodes
    ensures Edges(DiGraph(g.nodes[k := NewNode(k)], 0, 0)) == Edges(g)
  {
    var h := DiGraph(g.nodes[k := NewNode(k)], 0, 0);
    forall u, v ensures (u, v) in Edges(h) <==> (u, v) in Edges(g) {
      EdgesMember(g, u, v);
      EdgesMember(h, u, v);
    }
  }

  // Edge insertion -------------------------------------------------------------

  /** The vertex map after a successful insertion of a -> b, in a valid store. */
  function Linked(g: DiGraph, a: int, b: int, w: Weight): map<int, Node>
    requires a in g.nodes && b in g.nodes
  {
    g.nodes[a := g.nodes[a].(outEdges := g.nodes[a].outEdges[b := w])]
           [b := g.nodes[b].(inEdges := g.nodes[b].inEdges[a := w])]
  }

  lemma AddEdgeShape(g: DiGraph, a: int, b: int, w: Weight)
    requires KeysMatch(g.nodes) && InMirrored(g.nodes)
    requires AddEdge(g, a, b, w).0
    ensures AddEdge(g, a, b, w).1.nodes == Linked(g, a, b, w)
  {
    assert a !in g.nodes[b].inEdges;
  }

  lemma LinkedMirrored(g: DiGraph, a: int, b: int, w: Weight)
    requires KeysMatch(g.nodes) && OutMirrored(g.nodes) && InMirrored(g.nodes)
    requires a in g.nodes && b in g.nodes && a != b && b !in g.nodes[a].outEdges
    ensures KeysMatch(Linked(g, a, b, w))
    ensures OutMirrored(Linked(g, a, b, w)) && InMirrored(Linked(g, a, b, w))
  {
    var n := Linked(g, a, b, w);
    forall u, v | u in n && v in n[u].outEdges
      ensures v in n && v != u && u in n[v].inEdges && n[v].inEdges[u] == n[u].outEdges[v]
    {
      if u != a || v != b {
        assert v in g.nodes[u].outEdges;
      }
    }
    forall v, u | v in n && u in n[v].inEdges ensures u in n && v in n[u].outEdges {
      if u != a || v != b {
        assert u in g.nodes[v].inEdges;
      }
    }
  }

  lemma LinkedEdges(g: DiGraph, a: int, b: int, w: Weight)
    requires a in g.nodes && b in g.nodes && a != b
    ensures Edges(DiGraph(Linked(g, a, b, w), 0, 0)) == Edges(g) + {(a, b)}
  {
    var h := DiGraph(Linked(g, a, b, w), 0, 0);
    forall u, v ensures (u, v) in Edges(h) <==> (u, v) in Edges(g) + {(a, b)} {
      EdgesMember(g, u, v);
      EdgesMember(h, u, v);
    }
  }

  /** A successful edge insertion adds exactly the pair (a, b) to the edge set. */
  lemma AddEdgeValid(g: DiGraph, a: int, b: int, w: Weight)
    requires Valid(g)
    ensures Valid(AddEdge(g, a, b, w).1)
    ensures AddEdge(g, a, b, w).0 ==> Edges(AddEdge(g, a, b, w).1) == Edges(g) + {(a, b)}
  {
    var (ok, h) := AddEdge(g, a, b, w);
    if ok {
      AddEdgeShape(g, a, b, w);
      LinkedMirrored(g, a, b, w);
      LinkedEdges(g, a, b, w);
      assert Edges(h) == Edges(DiGraph(Linked(g, a, b, w), 0, 0));
      EdgesMember(g, a, b);
    }
  }

  // Edge removal ---------------------------------------------------------------

  /** The vertex map after a successful removal of a -> b. */
  function Unlinked(g: DiGraph, a: int, b: int): map<int, Node>
    requires a in g.nodes && b in g.nodes
  {
    g.nodes[a := g.nodes[a].(outEdges := g.nodes[a].outEdges - {b})]
           [b := g.nodes[b].(inEdges := g.nodes[b].inEdges - {a})]
  }

  lemma RemoveEdgeShape(g: DiGraph, a: int, b: int)
    requires OutMirrored(g.nodes)
    requires RemoveEdge(g, a, b).0
    ensures RemoveEdge(g, a, b).1.nodes == Unlinked(g, a, b)
  {
  }

  lemma UnlinkedMirrored(g: DiGraph, a: int, b: int)
    requires KeysMatch(g.nodes) && OutMirrored(g.nodes) && InMirrored(g.nodes)
    requires a in g.nodes && b in g.nodes && b in g.nodes[a].outEdges
    ensures KeysMatch(Unlinked(g, a, b))
    ensures OutMirrored(Unlinked(g, a, b)) && InMirrored(Unlinked(g, a, b))
  {
    var n := Unlinked(g, a, b);
    forall u, v | u in n && v in n[u].outEdges
      ensures v in n && v != u && u in n[v].inEdges && n[v].inEdges[u] == n[u].outEdges[v]
    {
      assert v in g.nodes[u].outEdges;
    }
    forall v, u | v in n && u in n[v].inEdges ensures u in n && v in n[u].outEdges {
      assert u in g.nodes[v].inEdges;
    }
  }

  lemma UnlinkedEdges(g: DiGraph, a: int, b: int)
    requires a in g.nodes && b in g.nodes
    requires OutMirrored(g.nodes)
    ensures Edges(DiGraph(Unlinked(g, a, b), 0, 0)) == Edges(g) - {(a, b)}
  {
    var h := DiGraph(Unlinked(g, a, b), 0, 0);
    forall u, v ensures (u, v) in Edges(h) <==> (u, v) in Edges(g) - {(a, b)} {
      EdgesMember(g, u, v);
      EdgesMember(h, u, v);
    }
  }

  /** A successful edge removal drops exactly the pair (a, b). */
  lemma RemoveEdgeValid(g: DiGraph, a: int, b: int)
    requires Valid(g)
    ensures Valid(RemoveEdge(g, a, b).1)
    ensures RemoveEdge(g, a, b).0 ==> Edges(RemoveEdge(g, a, b).1) == Edges(g) - {(a, b)}
  {
    var (ok, h) := RemoveEdge(g, a, b);
    if ok {
      RemoveEdgeShape(g, a, b);
      UnlinkedMirrored(g, a, b);
      UnlinkedEdges(g, a, b);
      assert Edges(h) == Edges(DiGraph(Unlinked(g, a, b), 0, 0));
      EdgesMember(g, a, b);
      DifferenceCard(Edges(g), {(a, b)});
    }
  }

  // Vertex removal -------------------------------------------------------------

  /** Every vertex other than `k`, with its entries for `k` dropped. */
  function Stripped(g: DiGraph, k: int): map<int, Node> {
    map x | x in g.nodes && x != k ::
      g.nodes[x].(outEdges := g.nodes[x].outEdges - {k}, inEdges := g.nodes[x].inEdges - {k})
  }

  /** In a valid store every remaining vertex loses exactly its entries for `k`. */
  lemma RemoveNodeShape(g: DiGraph, k: int)
    requires OutMirrored(g.nodes) && InMirrored(g.nodes) && k in g.nodes
    ensures RemoveNode(g, k).1.nodes == Stripped(g, k)
  {
    var h := RemoveNode(g, k).1;
    var n := Stripped(g, k);
    forall x | x in h.nodes ensures h.nodes[x] == n[x] {
      if k in g.nodes[x].outEdges {
        assert x in g.nodes[k].inEdges;
      }
      if k in g.nodes[x].inEdges {
        assert x in g.nodes[k].outEdges;
      }
    }
  }

  lemma StrippedMirrored(g: DiGraph, k: int)
    requires KeysMatch(g.nodes) && OutMirrored(g.nodes) && InMirrored(g.nodes)
    ensures KeysMatch(Stripped(g, k))
    ensures OutMirrored(Stripped(g, k)) && InMirrored(Stripped(g, k))
  {
    var n := Stripped(g, k);
    forall u, v | u in n && v in n[u].outEdges
      ensures v in n && v != u && u in n[v].inEdges && n[v].inEdges[u] == n[u].outEdges[v]
    {
      assert v in g.nodes[u].outEdges;
    }
    forall v, u | v in n && u in n[v].inEdges ensures u in n && v in n[u].outEdges {
      assert u in g.nodes[v].inEdges;
    }
  }

  lemma StrippedEdges(g: DiGraph, k: int)
    requires OutMirrored(g.nodes) && InMirrored(g.nodes) && k in g.nodes
    ensures forall u, v :: (u, v) in Edges(DiGraph(Stripped(g, k), 0, 0)) <==> (u, v) in Edges(g) && u != k && v != k
    ensures |Edges(DiGraph(Stripped(g, k), 0, 0))| == |Edges(g)| - |g.nodes[k].inEdges| - |g.nodes[k].outEdges|
  {
    var h := DiGraph(Stripped(g, k), 0, 0);
    var gone := g.nodes[k];
    var row := RowPairs(k, gone.outEdges.Keys);
    var col := ColumnPairs(gone.inEdges.Keys, k);
    forall u, v ensures (u, v) in Edges(h) <==> (u, v) in Edges(g) && u != k && v != k {
      EdgesMember(g, u, v);
      EdgesMember(h, u, v);
    }
    forall p | p in row + col ensures p in Edges(g) {
      EdgesMember(g, p.0, p.1);
    }
    forall p | p in Edges(g) ensures p in Edges(h) <==> p !in row + col {
      EdgesMember(g, p.0, p.1);
      if p.0 == k {
        assert p in row;
      }
      if p.1 == k {
        assert p.0 in gone.inEdges;
        assert p in col;
      }
    }
    assert row !! col;
    assert Edges(h) == Edges(g) - (row + col);
    DifferenceCard(Edges(g), row + col);
    RowPairsCard(k, gone.outEdges.Keys);
    ColumnPairsCard(gone.inEdges.Keys, k);
  }

  /** Removing a vertex removes exactly the edges that touch it, leaves no
      trace of it in any other vertex, and the counter stays exact. */
  lemma RemoveNodeValid(g: DiGraph, k: int)
    requires Valid(g)
    ensures Valid(RemoveNode(g, k).1)
    ensures RemoveNode(g, k).0 ==>
      forall u, v :: (u, v) in Edges(RemoveNode(g, k).1) <==> (u, v) in Edges(g) && u != k && v != k
    ensures forall x | x in RemoveNode(g, k).1.nodes ::
      k !in RemoveNode(g, k).1.nodes[x].inEdges && k !in RemoveNode(g, k).1.nodes[x].outEdges
  {
    if k in g.nodes {
      RemoveNodeShape(g, k);
      StrippedMirrored(g, k);
      StrippedEdges(g, k);
      assert Edges(RemoveNode(g, k).1) == Edges(DiGraph(Stripped(g, k), 0, 0));
    } else {
      assert forall x | x in g.nodes :: k !in g.nodes[x].outEdges;
    }
  }

  /** Weak equality of two valid stores is exactly equality of vertex sets
      and edge sets: weights never matter. */
  lemma GraphEqualIff(g: DiGraph, h: DiGraph)
    requires Valid(g) && Valid(h)
    ensures GraphEqual(g, h) <==> g.nodes.Keys == h.nodes.Keys && Edges(g) == Edges(h)
  {
    if GraphEqual(g, h) {
      forall u, v ensures (u, v) in Edges(g) <==> (u, v) in Edges(h) {
        EdgesMember(g, u, v);
        EdgesMember(h, u, v);
      }
    }
    if g.nodes.Keys == h.nodes.Keys && Edges(g) == Edges(h) {
      forall k | k in g.nodes ensures NodeEqual(g.nodes[k], h.nodes[k]) {
        forall v ensures v in g.nodes[k].outEdges <==> v in h.nodes[k].outEdges {
          EdgesMember(g, k, v);
          EdgesMember(h, k, v);
        }
        forall u ensures u in g.nodes[k].inEdges <==> u in h.nodes[k].inEdges {
          EdgesMember(g, u, k);
          EdgesMember(h, u, k);
        }
      }
    }
  }

  /** In a valid store, two vertices stored under the same key are equal in
      the sense of `Node.__eq__` exactly when they have the same
      out-neighbours and the same in-neighbours, whatever the weights. */
  lemma NodeEqualIff(g: DiGraph, h: DiGraph, k: int)
    requires Valid(g) && Valid(h) && k in g.nodes && k in h.nodes
    ensures NodeEqual(g.nodes[k], h.nodes[k]) <==>
      && (forall v :: (k, v) in Edges(g) <==> (k, v) in Edges(h))
      && (forall u :: (u, k) in Edges(g) <==> (u, k) in Edges(h))
  {
    forall v ensures (k, v) in Edges(g) <==> v in g.nodes[k].outEdges {
      EdgesMember(g, k, v);
    }
    forall v ensures (k, v) in Edges(h) <==> v in h.nodes[k].outEdges {
      EdgesMember(h, k, v);
    }
    forall u ensures (u, k) in Edges(g) <==> u in g.nodes[k].inEdges {
      EdgesMember(g, u, k);
    }
    forall u ensures (u, k) in Edges(h) <==> u in h.nodes[k].inEdges {
      EdgesMember(h, u, k);
    }
  }

  // ---------------------------------------------------------------------------
  // Arbitrary sequences of mutations

  datatype Op =
    | AddNodeOp(key: int)
    | RemoveNodeOp(key: int)
    | AddEdgeOp(src: int, dst: int, w: Weight)
    | RemoveEdgeOp(src: int, dst: int)

  function Apply(g: DiGraph, op: Op): (bool, DiGraph) {
    match op
    case AddNodeOp(k) => AddNode(g, k)
    case RemoveNodeOp(k) => RemoveNode(g, k)
    case AddEdgeOp(a, b, w) => AddEdge(g, a, b, w)
    case RemoveEdgeOp(a, b) => RemoveEdge(g, a, b)
  }

  function Run(g: DiGraph, ops: seq<Op>): DiGraph
    decreases |ops|
  {
    if ops == [] then g else Run(Apply(g, ops[0]).1, ops[1..])
  }

  /** The number of operations in `ops` that report success when replayed from `g`. */
  function Successes(g: DiGraph, ops: seq<Op>): nat
    decreases |ops|
  {
    if ops == [] then 0
    else var (ok, h) := Apply(g, ops[0]); (if ok then 1 else 0) + Successes(h, ops[1..])
  }

  /** Every mutator changes the revision counter by exactly one on success and
      leaves the store untouched on failure. */
  lemma ApplyRevision(g: DiGraph, op: Op)
    ensures Apply(g, op).0 ==> Apply(g, op).1.mc == g.mc + 1
    ensures !Apply(g, op).0 ==> Apply(g, op).1 == g
  {
  }

  /** Any sequence of mutations from a valid store keeps the invariant, and
      the revision counter grows by the number of successful calls. */
  lemma {:induction false} RunValid(g: DiGraph, ops: seq<Op>)
    requires Valid(g)
    ensures Valid(Run(g, ops))
    ensures Run(g, ops).mc == g.mc + Successes(g, ops)
    decreases |ops|
  {
    if ops != [] {
      var h := Apply(g, ops[0]).1;
      match ops[0] {
        case AddNodeOp(k) => AddNodeValid(g, k);
        case RemoveNodeOp(k) => RemoveNodeValid(g, k);
        case AddEdgeOp(a, b, w) => AddEdgeValid(g, a, b, w);
        case RemoveEdgeOp(a, b) => RemoveEdgeValid(g, a, b);
      }
      ApplyRevision(g, ops[0]);
      RunValid(h, ops[1..]);
    }
  }
}
