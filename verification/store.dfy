/** The graph store: vertices keyed by integer id, each holding an incoming
    and an outgoing map from neighbour id to edge weight, plus an edge counter
    and a modification counter. Every mutator is a pure function returning the
    success flag together with the new store. */
module Store {

  /** Edge weights are positive integers. With a positive weight, the
      truthiness tests of `Node.remove_hashIn` and `Node.remove_hashOut` (a stored weight is "truthy") coincide
      with key presence. */
  type Weight = w: int | w > 0 witness 1

  datatype Node = Node(key: int, inEdges: map<int, Weight>, outEdges: map<int, Weight>)

  datatype DiGraph = DiGraph(nodes: map<int, Node>, edgeCount: int, mc: nat)

  /** A vertex with no edges, as built by the Node constructor. */
  function NewNode(key: int): Node {
    Node(key, map[], map[])
  }

  /** The store right after construction. */
  function Empty(): DiGraph {
    DiGraph(map[], 0, 0)
  }

  // ---------------------------------------------------------------------------
  // Node operations

  /** Records an incoming edge from `id` with weight `w`. A node refuses its
      own key. An existing entry with a different weight is overwritten and
      only then is the result true; a fresh entry is inserted, yet the result
      is false. */
  function AddIn(n: Node, id: int, w: Weight): (r: (bool, Node))
    ensures r.1.key == n.key && r.1.outEdges == n.outEdges
    ensures r.0 <==> n.key != id && id in n.inEdges && n.inEdges[id] != w
    ensures n.key != id ==> id in r.1.inEdges && r.1.inEdges[id] == w
    ensures r.1.inEdges.Keys == if n.key == id then n.inEdges.Keys else n.inEdges.Keys + {id}
    ensures forall k | k in n.inEdges && k != id :: r.1.inEdges[k] == n.inEdges[k]
  {
    if n.key != id then
      if id in n.inEdges && n.inEdges[id] != w then
        (true, n.(inEdges := n.inEdges[id := w]))
      else if id in n.inEdges then
        (false, n)
      else
        (false, n.(inEdges := n.inEdges[id := w]))
    else
      (false, n)
  }

  /** Mirror image of AddIn on the outgoing map. */
  function AddOut(n: Node, id: int, w: Weight): (r: (bool, Node))
    ensures r.1.key == n.key && r.1.inEdges == n.inEdges
    ensures r.0 <==> n.key != id && id in n.outEdges && n.outEdges[id] != w
    ensures n.key != id ==> id in r.1.outEdges && r.1.outEdges[id] == w
    ensures r.1.outEdges.Keys == if n.key == id then n.outEdges.Keys else n.outEdges.Keys + {id}
    ensures forall k | k in n.outEdges && k != id :: r.1.outEdges[k] == n.outEdges[k]
  {
    if n.key != id then
      if id in n.outEdges && n.outEdges[id] != w then
        (true, n.(outEdges := n.outEdges[id := w]))
      else if id in n.outEdges then
        (false, n)
      else
        (false, n.(outEdges := n.outEdges[id := w]))
    else
      (false, n)
  }

  /** Drops the incoming entry for `id`; true iff there was one. */
  function RemoveIn(n: Node, id: int): (r: (bool, Node))
    ensures r.1.key == n.key && r.1.outEdges == n.outEdges
    ensures r.0 <==> id in n.inEdges
    ensures r.1.inEdges.Keys == n.inEdges.Keys - {id}
    ensures forall k | k in r.1.inEdges :: r.1.inEdges[k] == n.inEdges[k]
  {
    if id in n.inEdges then (true, n.(inEdges := n.inEdges - {id})) else (false, n)
  }

  /** Drops the outgoing entry for `id`; true iff there was one. */
  function RemoveOut(n: Node, id: int): (r: (bool, Node))
    ensures r.1.key == n.key && r.1.inEdges == n.inEdges
    ensures r.0 <==> id in n.outEdges
    ensures r.1.outEdges.Keys == n.outEdges.Keys - {id}
    ensures forall k | k in r.1.outEdges :: r.1.outEdges[k] == n.outEdges[k]
  {
    if id in n.outEdges then (true, n.(outEdges := n.outEdges - {id})) else (false, n)
  }

  /** Node equality compares the in-key and out-key sets only: neither the
      key, nor the weights, nor the position. */
  predicate NodeEqual(a: Node, b: Node) {
    a.inEdges.Keys == b.inEdges.Keys && a.outEdges.Keys == b.outEdges.Keys
  }

  // ---------------------------------------------------------------------------
  // Queries

  /** Edge lookup; `DiGraph.has_edge` dereferences the source vertex, so it must be present. */
  function HasEdge(g: DiGraph, a: int, b: int): (r: bool)
    requires a in g.nodes
    ensures r <==> (a, b) in Edges(g)
  {
    EdgesMember(g, a, b);
    b in g.nodes[a].outEdges
  }

  /** The stored weight, or -1 when there is no such edge. */
  function GetEdge(g: DiGraph, a: int, b: int): (r: int)
    requires a in g.nodes
    ensures r == -1 <==> !HasEdge(g, a, b)
    ensures HasEdge(g, a, b) ==> r == g.nodes[a].outEdges[b]
  {
    if b in g.nodes[a].outEdges then g.nodes[a].outEdges[b] else -1
  }

  function VSize(g: DiGraph): nat {
    |g.nodes|
  }

  function ESize(g: DiGraph): int {
    g.edgeCount
  }

  function GetMc(g: DiGraph): nat {
    g.mc
  }

  /** The set of directed edges, read off the outgoing maps. */
  function Edges(g: DiGraph): set<(int, int)> {
    set u, v | u in g.nodes && v in g.nodes[u].outEdges :: (u, v)
  }

  lemma EdgesMember(g: DiGraph, u: int, v: int)
    ensures (u, v) in Edges(g) <==> u in g.nodes && v in g.nodes[u].outEdges
  {
    if u in g.nodes && v in g.nodes[u].outEdges {
      assert (u, v) in Edges(g);
    }
  }

  // ---------------------------------------------------------------------------
  // The representation invariant

  predicate KeysMatch(nodes: map<int, Node>) {
    forall k | k in nodes :: nodes[k].key == k
  }

  /** Every outgoing entry is a present vertex other than the owner, mirrored
      with the same weight in that vertex's incoming map. */
  predicate OutMirrored(nodes: map<int, Node>) {
    forall u, v | u in nodes && v in nodes[u].outEdges ::
      v in nodes && v != u && u in nodes[v].inEdges && nodes[v].inEdges[u] == nodes[u].outEdges[v]
  }

  /** Every incoming entry is a present vertex whose outgoing map names the owner. */
  predicate InMirrored(nodes: map<int, Node>) {
    forall v, u | v in nodes && u in nodes[v].inEdges :: u in nodes && v in nodes[u].outEdges
  }

  predicate Valid(g: DiGraph) {
    && KeysMatch(g.nodes)
    && OutMirrored(g.nodes)
    && InMirrored(g.nodes)
    && g.edgeCount == |Edges(g)|
  }

  /** Weak structural equality: same vertex keys, and equal vertices in the
      sense of NodeEqual. Edge counters, modification counters and weights are
      never compared. */
  predicate GraphEqual(g: DiGraph, h: DiGraph) {
    g.nodes.Keys == h.nodes.Keys && forall k | k in g.nodes :: NodeEqual(g.nodes[k], h.nodes[k])
  }

  // ---------------------------------------------------------------------------
  // Mutators

  function AddNode(g: DiGraph, k: int): (r: (bool, DiGraph))
    ensures r.0 <==> k !in g.nodes
    ensures r.0 ==> VSize(r.1) == VSize(g) + 1 && GetMc(r.1) == GetMc(g) + 1 && ESize(r.1) == ESize(g)
    ensures r.0 ==> k in r.1.nodes && r.1.nodes[k].key == k
                    && r.1.nodes[k].inEdges == map[] && r.1.nodes[k].outEdges == map[]
    ensures r.0 ==> forall x | x in g.nodes :: x in r.1.nodes && r.1.nodes[x] == g.nodes[x]
    ensures r.1.nodes.Keys == g.nodes.Keys + {k}
    ensures !r.0 ==> r.1 == g
  {
    if k !in g.nodes then
      (true, DiGraph(g.nodes[k := NewNode(k)], g.edgeCount, g.mc + 1))
    else
      (false, g)
  }

  function AddEdge(g: DiGraph, a: int, b: int, w: Weight): (r: (bool, DiGraph))
    ensures r.0 <==> a in g.nodes && b in g.nodes && a != b && !HasEdge(g, a, b)
    ensures r.0 ==> ESize(r.1) == ESize(g) + 1 && GetMc(r.1) == GetMc(g) + 1
    ensures r.1.nodes.Keys == g.nodes.Keys
    ensures r.0 && KeysMatch(g.nodes) ==>
      && GetEdge(r.1, a, b) == w
      && a in r.1.nodes[b].inEdges && r.1.nodes[b].inEdges[a] == w
    ensures !r.0 ==> r.1 == g
  {
    if a in g.nodes && b in g.nodes && !HasEdge(g, a, b) && a != b then
      var src := AddOut(g.nodes[a], b, w).1;
      var nodes := g.nodes[a := src];
      var dst := AddIn(nodes[b], a, w).1;
      (true, DiGraph(nodes[b := dst], g.edgeCount + 1, g.mc + 1))
    else
      (false, g)
  }

  function RemoveEdge(g: DiGraph, a: int, b: int): (r: (bool, DiGraph))
    ensures r.0 <==> a in g.nodes && b in g.nodes && HasEdge(g, a, b)
    ensures r.0 ==> ESize(r.1) == ESize(g) - 1 && GetMc(r.1) == GetMc(g) + 1
    ensures r.1.nodes.Keys == g.nodes.Keys
    ensures r.0 ==> GetEdge(r.1, a, b) == -1 && a !in r.1.nodes[b].inEdges
    ensures !r.0 ==> r.1 == g
  {
    if a in g.nodes && b in g.nodes && HasEdge(g, a, b) then
      var src := RemoveOut(g.nodes[a], b).1;
      var nodes := g.nodes[a := src];
      var dst := RemoveIn(nodes[b], a).1;
      (true, DiGraph(nodes[b := dst], g.edgeCount - 1, g.mc + 1))
    else
      (false, g)
  }

  /** The vertex stored under `x` as it is after `k` has been removed: its
      outgoing entry for `k` is dropped when `k` listed `x` as an in-neighbour,
      and its incoming entry for `k` when `k` listed `x` as an out-neighbour. */
  function Detach(n: Node, x: int, k: int, gone: Node): (r: Node)
    ensures r.key == n.key
    ensures r.outEdges == if x in gone.inEdges then n.outEdges - {k} else n.outEdges
    ensures r.inEdges == if x in gone.outEdges then n.inEdges - {k} else n.inEdges
  {
    var n1 := if x in gone.inEdges then RemoveOut(n, k).1 else n;
    if x in gone.outEdges then RemoveIn(n1, k).1 else n1
  }

  function RemoveNode(g: DiGraph, k: int): (r: (bool, DiGraph))
    ensures r.0 <==> k in g.nodes
    ensures r.0 ==> ESize(r.1) == ESize(g) - |g.nodes[k].inEdges| - |g.nodes[k].outEdges|
    ensures r.0 ==> GetMc(r.1) == GetMc(g) + 1
    ensures r.1.nodes.Keys == g.nodes.Keys - {k}
    ensures r.0 ==> forall x | x in r.1.nodes ::
      && (x in g.nodes[k].inEdges ==> k !in r.1.nodes[x].outEdges)
      && (x in g.nodes[k].outEdges ==> k !in r.1.nodes[x].inEdges)
      && (x !in g.nodes[k].inEdges ==> r.1.nodes[x].outEdges == g.nodes[x].outEdges)
      && (x !in g.nodes[k].outEdges ==> r.1.nodes[x].inEdges == g.nodes[x].inEdges)
    ensures !r.0 ==> r.1 == g
  {
    if k in g.nodes then
      var gone := g.nodes[k];
      var nodes := map x | x in g.nodes && x != k :: Detach(g.nodes[x], x, k, gone);
      (true, DiGraph(nodes, g.edgeCount - |gone.inEdges| - |gone.outEdges|, g.mc + 1))
    else
      (false, g)
  }
}
