# Directed weighted graph: store and algorithms, in Dafny

This project models the core of a small Python library for directed weighted graphs.

The library has two layers:

- **The graph store** (`DiGraph` and `Node`).
  - Vertices are kept in a map from integer key to node. Each node holds an incoming and an outgoing map from neighbour key to edge weight.
  - The store also keeps an edge counter and a modification counter (`mc`).
  - The mutators `add_node`, `remove_node`, `add_edge` and `remove_edge` return a success flag. On failure they change nothing.
- **The algorithms** (`GraphAlgo`).
  - `shortest_path` and the `dijkstra` pass behind it.
  - The breadth-first `dfs`, with its optional filter.
  - The in-place transpose `replace_dicts`.
  - `connected_component` and `connected_components`.
  - The dictionary form used by the JSON save and load.

The model is split into modules:

- `Store`, in store.dfy.
  - The store as immutable Dafny maps. Every mutator is a pure function returning the flag together with the new store.
  - The representation invariant `Valid`: in- and out-maps mirror each other with equal weights, there are no self-loops, every key is a present vertex, and the edge counter equals the number of edges.
- `StoreProofs`, in store_proofs.dfy. Every mutator preserves `Valid`; the lemmas also state each mutator's exact effect on the edge set, and the modification counter over any run of operations.
- `Paths`, in paths.dfy. Paths along outgoing maps, path weights, and reachability.
- `Transposition`, in transpose.dfy. The swap of every vertex's maps. It is an involution, keeps the invariant, and reverses reachability.
- `ShortestPaths`, in dijkstra.dfy.
  - The label-correcting worklist of `GraphAlgo.dijkstra`. The queue holds bare vertex ids and pops the least id; popped ("black") vertices are re-queued on strict improvement.
  - Path reconstruction from the parent links, and `shortest_path`.
  - Termination is proved with a lexicographic measure, with no fuel bound.
- `Traversal`, in traversal.dfy. The breadth-first `dfs` with its optional filter.
- `Components`, in components.dfy. `connected_component`, and `connected_components` including its repeated lists.
- `JsonSchema`, in json_schema.dfy. Building the node-id list and edge-entry list from a store, rebuilding a store from them, and the round trip.
- `Samples`, in samples.dfy. The stores built by the repository's shortest-path and two component unit tests, and what the model proves about the queries those tests make.

Two modules hold helpers only: `Sets` (sets.dfy) holds small set lemmas, and `Options` (options.dfy) holds the `Option` type.

Some choices follow the code:

- The per-vertex scratch fields `weight` and `parent` become local maps, and a missing key stands for their `-1` sentinel.
- The `info` colour, which `reset_nodes` sets to `"white"`, becomes the local set of black or visited vertices.
- Dictionary iteration order is not fixed by the model.
  - Where the order matters to the result, it is a parameter: `order` in `ConnectedComponents` and `Save`.
  - Elsewhere an arbitrary element is chosen, so every order is covered.

## Model

| member | source | states |
|---|---|---|
| `Store.AddIn` | src/DiGraph.py:89-102 | A node refuses its own key. The flag is true only when an existing entry gets a different weight. A missing entry is inserted but the flag is still false. Other entries and the outgoing map are untouched. |
| `Store.AddOut` | src/DiGraph.py:130-143 | The same rules as `AddIn`, on the outgoing map. |
| `Store.RemoveIn` | src/DiGraph.py:104-113 | True iff an entry for the id existed. Afterwards exactly that key is gone and all other weights are kept. |
| `Store.RemoveOut` | src/DiGraph.py:145-154 | True iff an entry for the id existed. Afterwards exactly that key is gone and all other weights are kept. |
| `Store.GetEdge` | src/DiGraph.py:198-207 | Returns -1 exactly when there is no such edge, and otherwise the stored weight. The source vertex must be present, since `get_edge` dereferences it. |
| `Store.HasEdge` | src/DiGraph.py:209-216 | True exactly when the pair is in the store's edge set. The source vertex must be present, since `has_edge` dereferences it. |
| `Store.AddNode` | src/DiGraph.py:265-279 | Succeeds iff the key is absent. On success the new vertex has no edges, the vertex count and `mc` rise by one, and the edge count and all other vertices are unchanged. On failure the store is unchanged. |
| `Store.AddEdge` | src/DiGraph.py:303-320 | Succeeds iff both ends exist, they differ, and the edge is absent. On success the weight is readable through `get_edge` and the target's in-map, and the edge count and `mc` rise by one. Otherwise the store is unchanged, so re-adding an edge keeps its old weight. |
| `Store.RemoveEdge` | src/DiGraph.py:322-338 | Succeeds iff both ends exist and the edge exists. On success both entries are gone, the edge count drops by one and `mc` rises by one. Otherwise the store is unchanged. |
| `Store.Detach` | src/DiGraph.py:292-297 | A neighbour of the removed vertex loses exactly the entry for it that the removed vertex's maps name. |
| `Store.RemoveNode` | src/DiGraph.py:281-301 | Succeeds iff the key is present. The vertex is deleted and every neighbour loses its entry for it, while non-neighbours keep their maps. The edge count drops by in-degree plus out-degree, and `mc` rises by exactly one. Otherwise the store is unchanged. |
| `StoreProofs.EmptyValid` | src/DiGraph.py:185-188 | A new store satisfies the representation invariant. |
| `StoreProofs.AddNodeValid` | src/DiGraph.py:265-279 | `add_node` keeps the invariant and adds no edge. |
| `StoreProofs.AddEdgeValid` | src/DiGraph.py:303-320 | `add_edge` keeps the invariant, counter included. On success the edge set gains exactly the new pair. |
| `StoreProofs.RemoveEdgeValid` | src/DiGraph.py:322-338 | `remove_edge` keeps the invariant. On success the edge set loses exactly that pair. |
| `StoreProofs.StrippedEdges` | src/DiGraph.py:292-297 | After the cascade, the edges are exactly the old edges not touching the vertex, and there are in-degree plus out-degree fewer of them. So the counter decrements match the edges removed. |
| `StoreProofs.RemoveNodeValid` | src/DiGraph.py:281-301 | `remove_node` keeps the invariant. On success the edges are the old ones minus those touching the vertex. |
| `StoreProofs.NodeEqualIff` | src/DiGraph.py:164-170 | Vertex equality (`NodeEqual`, the in-key and out-key sets) holds, for a key of two valid stores, iff the vertex has the same out-neighbours and the same in-neighbours in both. Weights and positions are never compared. |
| `StoreProofs.GraphEqualIff` | src/DiGraph.py:340-343 | For valid stores, graph equality (`GraphEqual`: vertex keys and per-vertex in/out key sets) holds iff the two have the same vertices and the same edge set. Weights are never compared. |
| `StoreProofs.ApplyRevision` | src/DiGraph.py:257-263 | One mutator call raises `mc` by one when it succeeds and changes nothing when it fails. |
| `StoreProofs.RunValid` | src/DiGraph.py:257-263 | After any sequence of mutator calls on a valid store, the store is still valid and `mc` has risen by exactly the number of calls that succeeded. |
| `Transposition.Transpose` | src/GraphAlgo.py:214-225 | The transpose keeps the vertex set, each vertex's key, the edge counter and `mc`, which the swap does not touch. |
| `Transposition.TransposeInvolution` | src/GraphAlgo.py:214-225 | Swapping in- and out-maps twice restores the store exactly. |
| `Transposition.TransposeEdges` | src/GraphAlgo.py:214-225 | The edges of the transpose are the reversed edges. |
| `Transposition.TransposeValid` | src/GraphAlgo.py:214-225 | The transpose of a valid store is valid, edge counter included. |
| `Transposition.ReachableTranspose` | src/GraphAlgo.py:214-225 | b is reachable from a in the transpose iff a is reachable from b in the store. |
| `ShortestPaths.Insert` | src/GraphAlgo.py:192-198 | Putting an id into the priority queue keeps it sorted, so the front is the least id. It adds exactly that one entry, and duplicates are kept. |
| `ShortestPaths.MeasureDrops` | src/GraphAlgo.py:196-212 | Each round of the worklist strictly lowers the lexicographic measure. The measure is: non-black vertices, then unlabelled vertices, then the sum of labels, then black entries still queued. So the loop terminates. |
| `ShortestPaths.Step` | src/GraphAlgo.py:200-212 | Handling one out-neighbour v of u keeps labels and parents consistent, leaves u's label unchanged and ends with `d[v] <= d[u] + w`. Labels only fall. Either some label fell, or no black entry was queued. |
| `ShortestPaths.Visit` | src/GraphAlgo.py:197-212 | After scanning all of u's out-neighbours, every labelled vertex that is not queued satisfies all its out-edges. |
| `ShortestPaths.Relaxation` | src/GraphAlgo.py:185-212 | When the queue empties: the source is labelled 0, every labelled vertex satisfies every out-edge, and every parent is labelled with an edge to its child. |
| `ShortestPaths.NoShorterPath` | src/GraphAlgo.py:185-212 | With such labels, no path beats them: the end of a path from a labelled vertex is labelled at most the first label plus the path weight. |
| `ShortestPaths.TightParent` | src/GraphAlgo.py:205-211 | On exit, every parent link is a tight edge: `d[v] == d[parent v] + w(parent v, v)`. |
| `ShortestPaths.TreePath` | src/GraphAlgo.py:104-111 | Following parent links from a labelled vertex gives a path from the source whose weight equals the label. |
| `ShortestPaths.Distances` | src/GraphAlgo.py:185-212 | A vertex is labelled iff it is reachable from the source. Its label is at most the weight of every path to it, and some path attains it. |
| `ShortestPaths.Dijkstra` | src/GraphAlgo.py:185-212 | On exit the labels are the shortest-path distances from the source: exactly the reachable vertices, minimal over all paths, each attained by a path. Each parent link is a tight edge. |
| `ShortestPaths.WalkBack` | src/GraphAlgo.py:102-111 | Walking parents back from the target until the source gives a path from the source to the target that weighs exactly the target's label. |
| `ShortestPaths.ShortestPath` | src/GraphAlgo.py:79-112 | No result and an empty path when an end is missing or the target is unreachable, and only then. `(0, [id1])` when the ends coincide. Otherwise a path from `id1` to `id2`, each step an edge, whose weight is the returned distance and is minimal over all such paths. |
| `Traversal.Expand` | src/GraphAlgo.py:242-248 | Scanning one vertex's out-neighbours marks and queues each vertex not yet visited. It lists that vertex when the filter accepts it, and afterwards all those neighbours are visited. |
| `Traversal.Bfs` | src/GraphAlgo.py:227-249 | The list starts with the start vertex and has no repeats. It holds exactly the start and the reachable vertices the filter accepts. The visited set is exactly the reachable vertices, since unaccepted vertices are still passed through. |
| `Components.ConnectedComponent` | src/GraphAlgo.py:114-132 | Empty when the vertex is missing. Otherwise the vertex comes first with no repeats, and a vertex is listed iff it both reaches the given vertex and is reached from it. The store comes back unchanged. |
| `Components.HeadsShape` | src/GraphAlgo.py:143-149 | The reference `Heads` draws its vertices from the scan order, at most one per position, with no repeats when the order has none. A first vertex outside the last component always starts a list. |
| `Components.HeadsStep` | src/GraphAlgo.py:143-149 | Unfolds the reference definition of which vertices start a list: a vertex is skipped only if it lies in the most recently found component. |
| `Components.ConnectedComponents` | src/GraphAlgo.py:134-150 | Each list is the component of its first vertex, without repeats, and every vertex is in some list. The first vertices are exactly those the reference definition predicts, because the marks are wiped between searches. So a component can be listed twice. |
| `JsonSchema.SaveRow` | src/GraphAlgo.py:65-69 | Appends one entry per outgoing edge of the vertex, each carrying the stored weight, without naming a pair twice. |
| `JsonSchema.Save` | src/GraphAlgo.py:60-70 | The id list is the key enumeration. The edge entries record exactly the edges of the store, each with its weight and each pair once. |
| `JsonSchema.AddNodesShape` | src/GraphAlgo.py:36-45 | `AddNodes`, the fold of `add_node` over the listed ids, keeps every existing vertex. The result's keys are the old keys plus the ids, and each new id gets a vertex without edges. |
| `JsonSchema.AddEdgesValid` | src/GraphAlgo.py:46-47 | `AddEdges`, the fold of `add_edge` over the edge entries, keeps a store valid and its vertices unchanged. A pair becomes an edge iff it was one already, or an entry names it with both ends present and distinct. Other entries are dropped silently. |
| `JsonSchema.LoadValid` | src/GraphAlgo.py:34-47 | The store `Load` builds (a new store, then `AddNodes`, then `AddEdges`) is valid. Its vertices are the listed ids, and its edges are the named pairs between listed, distinct ids. |
| `JsonSchema.WithinRun` | src/GraphAlgo.py:46-47 | Replaying entries recorded from a store never adds an edge the store lacks or a weight it does not have. |
| `JsonSchema.WithinAll` | src/DiGraph.py:315-316 | `add_edge` writes each weight into both maps, so a valid store's in-maps are fixed by its out-maps. Hence two valid stores with the same edges, one carrying the other's weights, have identical vertex maps. |
| `JsonSchema.RoundTrip` | src/GraphAlgo.py:34-70 | Loading what save produced gives back the same vertices, in- and out-maps and weights, and the same edge and vertex counts. So `GraphEqual` (the program's `__eq__`) holds between them. `mc` differs, since loading counts its own mutations. Vertex positions are not carried either, since save writes only ids. |
| `Samples.SamplePath` | src/tests/TestGraphAlgo.py:8-21 | On the test store, the path 0, 1, 2, 3, 4 exists and weighs 18. |
| `Samples.SampleBound` | src/tests/TestGraphAlgo.py:8-21 | On the test store, no path from 0 to 4 weighs less than 18, although a direct edge of weight 19 exists. |
| `Samples.SampleUnreachable` | src/tests/TestGraphAlgo.py:22-24 | On the test store, 0 is not reachable from 3. |
| `Samples.UniqueFrom` | src/tests/TestGraphAlgo.py:8-21 | On the test store, a path into 4 is fixed by its first vertex, and from 0 the only path of weight 18 is 0, 1, 2, 3, 4. |
| `Samples.SampleQuery` | src/tests/TestGraphAlgo.py:19-21 | `shortest_path(0, 4)` returns distance 18 and exactly the path `[0, 1, 2, 3, 4]`. |
| `Samples.SampleMisses` | src/tests/TestGraphAlgo.py:22-27 | `shortest_path(3, 0)` returns no distance and an empty list, and so does `shortest_path(9, 2)`, whose start is absent. |
| `Samples.ForkComponents` | src/tests/TestGraphAlgo.py:30-47 | In the single-component test store, the component of 1 is exactly {1, 4, 5, 6}. The component of 2 is only 2: it reaches 4, but nothing leads back to it. |
| `Samples.Sizes` | src/GraphAlgo.py:114-132 | When the components of 1 and 2 have those members and 10 is absent, `connected_component` returns lists of 4, 1 and 0 vertices. A list without repeats is as long as the set it enumerates. |
| `Samples.ForkQuery` | src/tests/TestGraphAlgo.py:45-47 | On the test store, `connected_component(1)` has 4 vertices, `connected_component(2)` has 1, and `connected_component(10)` is empty. |
| `Samples.TwinsComponents` | src/tests/TestGraphAlgo.py:50-64 | In the component test store, 1, 4, 5 and 6 reach each other, 2 and 3 reach each other, and nothing leads between the two groups. |
| `Samples.TwinsHeads` | src/tests/TestGraphAlgo.py:50-64 | Scanning 1..6 starts lists at 1, 2 and 4. |
| `Samples.Repeated` | src/GraphAlgo.py:134-150 | When the heads are 1, 2, 4 and 1 shares its component with 4, the result has three lists and the third repeats the first. |
| `Samples.TwinsQuery` | src/tests/TestGraphAlgo.py:50-65 | `connected_components` on the test store returns three lists, and the third is the same component as the first. |

## Left out

- File I/O, JSON text, and exception handling in `load_from_json` and `save_to_json`. Only the mapping between the dictionary form and the store is modelled.
- Vertex positions are not modelled: neither the field `Node.pos` nor the `pos` argument of `add_node`. They play no part in edges, counters, equality or the algorithms. The JSON round trip drops them, since save writes only ids and load then passes `pos=None`.
- The `pos` string splitting in `load_from_json`, random positions in `Node.get_pos`, and `plot_graph`. These are text parsing, randomness and drawing, with no bearing on the graph.
- Floating-point weights and infinity.
  - Weights are positive integers (`Store.Weight`).
  - A missing distance is `None`, not `float("inf")`.
  - Weights such as 0.5 in the repository's tests cannot be expressed.
- Zero weights. The truthiness tests in `remove_hashIn` and `remove_hashOut` would leave a weight-0 entry behind while the edge counter still drops. Positive weights rule this out.
- Python's `is not` in `add_hashIn`/`add_hashOut` compares object identity. It is modelled as `!=`, which is what it does for small integers.
- `GraphAlgo.__init__` without a graph, `get_graph`, `__str__` and `__repr__`.
- `get_all_v`, `all_in_edges_of_node` and `all_out_edges_of_node` are field reads (`g.nodes`, `g.nodes[k].inEdges`, `g.nodes[k].outEdges`). Likewise `v_size`, `e_size` and `get_mc` are the accessors `VSize`, `ESize` and `GetMc`. None of these has a contract of its own.
- `reset_nodes` has no member of its own. Each search starts from fresh local maps and an empty black or visited set, which is what the reset achieves.
- ShortestPaths.Step: within one neighbour's handling, `dijkstra` queues the vertex and then relabels it. The model relabels first and then queues it. The queue holds only ids, so the result is the same.
- Traversal.Bfs: states which vertices are listed, that the start comes first and that there are no repeats. It does not state the breadth-first order of the rest.
- Components.ConnectedComponent: states the members of the list. It does not state their order after the first.
- The unit tests in `src/tests/GraphAlgoTest.py` are not followed. They compare distances with the string `"inf"` and expect a component list without the queried vertex, which the code never produces.
- `connected_components` is sometimes described as returning disjoint components. The code can return one component twice, because `dfs` wipes the "black" marks. The model follows the code, and `Samples.TwinsQuery` shows the repeat on the repository's own test store.
