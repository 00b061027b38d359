/** Single-source shortest paths as `GraphAlgo.dijkstra` computes them: a worklist
    of bare vertex ids that pops in ascending id order, with popped ("black")
    vertices re-entered whenever their label strictly improves. The labels
    and parents that `dijkstra` keeps in the vertices' scratch fields are
    local maps here; a missing key stands for the -1 sentinel. */
module ShortestPaths {
  import opened Store
  import opened Sets
  import opened Paths
  import opened Options

  // ---------------------------------------------------------------------------
  // The priority queue

  predicate Sorted(q: seq<int>) {
    forall i, j | 0 <= i < j < |q| :: q[i] <= q[j]
  }

  /** Adds an entry; the front of the queue is always the least id, which is
      what the `PriorityQueue` of plain integers in `dijkstra` pops first.
      Duplicates are kept. */
  function Insert(q: seq<int>, x: int): (r: seq<int>)
    requires Sorted(q)
    ensures Sorted(r)
    ensures multiset(r) == multiset(q) + multiset{x}
    ensures forall y :: y in r <==> y in q || y == x
    decreases |q|
  {
    if q == [] || x <= q[0] then
      SortedCons(x, q);
      [x] + q
    else
      SortedTail(q);
      var rest := Insert(q[1..], x);
      SortedCons(q[0], rest);
      assert q == [q[0]] + q[1..];
      [q[0]] + rest
  }

  /** The tail of a sorted queue is sorted and bounded below by its head. */
  lemma SortedTail(q: seq<int>)
    requires Sorted(q) && q != []
    ensures Sorted(q[1..]) && forall y | y in q[1..] :: q[0] <= y
  {
    forall y | y in q[1..]
      ensures q[0] <= y
    {
      var i :| 0 <= i < |q[1..]| && q[1..][i] == y;
      assert q[i + 1] == y;
    }
  }

  /** A lower bound of a sorted queue can go in front. */
  lemma SortedCons(a: int, q: seq<int>)
    requires Sorted(q) && forall y | y in q :: a <= y
    ensures Sorted([a] + q)
  {
    var r := [a] + q;
    forall i, j | 0 <= i < j < |r|
      ensures r[i] <= r[j]
    {
      assert r[j] == q[j - 1];
      if i > 0 {
        assert r[i] == q[i - 1];
      } else {
        assert q[j - 1] in q;
      }
    }
  }

  /** The number of queue entries whose vertex is already black. */
  function BlackCount(q: seq<int>, black: set<int>): nat
    decreases |q|
  {
    if q == [] then 0 else (if q[0] in black then 1 else 0) + BlackCount(q[1..], black)
  }

  lemma {:induction false} InsertBlackCount(q: seq<int>, x: int, black: set<int>)
    requires Sorted(q)
    ensures BlackCount(Insert(q, x), black) == BlackCount(q, black) + (if x in black then 1 else 0)
    decreases |q|
  {
    if q == [] || x <= q[0] {
      assert (Insert(q, x))[1..] == q;
    } else {
      InsertBlackCount(q[1..], x, black);
      assert (Insert(q, x))[1..] == Insert(q[1..], x);
    }
  }

  // ---------------------------------------------------------------------------
  // The termination measure: the sum of all labels

  ghost function SumOver<K>(d: map<K, nat>, keys: set<K>): nat
    requires keys <= d.Keys
    decreases keys
  {
    if keys == {} then 0 else d[Pick(keys)] + SumOver(d, keys - {Pick(keys)})
  }

  lemma {:induction false} SumOverRemove<K>(d: map<K, nat>, keys: set<K>, k: K)
    requires keys <= d.Keys && k in keys
    ensures SumOver(d, keys) == d[k] + SumOver(d, keys - {k})
    decreases keys
  {
    var j := Pick(keys);
    if j != k {
      SumOverRemove(d, keys - {j}, k);
      SumOverRemove(d, keys - {k}, j);
      assert keys - {j} - {k} == keys - {k} - {j};
    }
  }

  lemma {:induction false} SumOverBelow<K>(d1: map<K, nat>, d2: map<K, nat>, keys: set<K>)
    requires keys <= d1.Keys && keys <= d2.Keys
    requires forall k | k in keys :: d2[k] <= d1[k]
    ensures SumOver(d2, keys) <= SumOver(d1, keys)
    ensures (exists k | k in keys :: d2[k] < d1[k]) ==> SumOver(d2, keys) < SumOver(d1, keys)
    decreases keys
  {
    if keys != {} {
      var k := Pick(keys);
      SumOverRemove(d2, keys, k);
      SumOverBelow(d1, d2, keys - {k});
      if exists j | j in keys :: d2[j] < d1[j] {
        var j :| j in keys && d2[j] < d1[j];
        if j != k {
          assert j in keys - {k};
        }
      }
    }
  }

  ghost function Total(d: map<int, nat>): nat {
    SumOver(d, d.Keys)
  }

  /** Every label of `before` survives in `after`, no larger. */
  predicate Below(before: map<int, nat>, after: map<int, nat>) {
    forall y | y in before :: y in after && after[y] <= before[y]
  }

  lemma BelowKeys(before: map<int, nat>, after: map<int, nat>)
    requires Below(before, after)
    ensures before.Keys <= after.Keys
  {
    forall y | y in before.Keys
      ensures y in after.Keys
    {
      assert y in before;
    }
  }

  /** Some label of `after` is new or strictly smaller than in `before`. */
  predicate Lowered(before: map<int, nat>, after: map<int, nat>) {
    exists k | k in after :: k !in before || after[k] < before[k]
  }

  /** With the same labelled vertices, lowering labels lowers their sum. */
  lemma TotalDecreases(before: map<int, nat>, after: map<int, nat>)
    requires before.Keys == after.Keys && Below(before, after) && Lowered(before, after)
    ensures Total(after) < Total(before)
  {
    forall k | k in before.Keys
      ensures after[k] <= before[k]
    {
    }
    var k :| k in after && (k !in before || after[k] < before[k]);
    assert k in before.Keys && after[k] < before[k];
    SumOverBelow(before, after, before.Keys);
  }

  lemma LoweredTrans(a: map<int, nat>, b: map<int, nat>, c: map<int, nat>)
    requires Below(a, b) && Below(b, c)
    requires a == b || Lowered(a, b)
    requires b == c || Lowered(b, c)
    ensures Below(a, c)
    ensures a == c || Lowered(a, c)
  {
    if a != b {
      var k :| k in b && (k !in a || b[k] < a[k]);
      assert k in c && (k !in a || c[k] < a[k]);
    } else if b != c {
      var k :| k in c && (k !in b || c[k] < b[k]);
    }
  }

  // ---------------------------------------------------------------------------
  // Label invariants

  /** Relaxation is complete at `u`: every out-neighbour is labelled, and no
      heavier than u's label plus the edge weight. */
  predicate Settled(g: DiGraph, dist: map<int, nat>, u: int)
    requires u in g.nodes && u in dist
  {
    forall v | v in g.nodes[u].outEdges :: v in dist && dist[v] <= dist[u] + g.nodes[u].outEdges[v]
  }

  /** Every labelled vertex except the source has a labelled parent with an
      edge to it, whose label plus that edge's weight does not exceed its own. */
  predicate ParentsSound(g: DiGraph, src: int, dist: map<int, nat>, parent: map<int, int>)
    requires dist.Keys <= g.nodes.Keys
  {
    && parent.Keys == dist.Keys - {src}
    && forall v | v in parent ::
         && parent[v] in dist
         && v in g.nodes[parent[v]].outEdges
         && dist[v] >= dist[parent[v]] + g.nodes[parent[v]].outEdges[v]
  }

  /** The bookkeeping facts that hold between pops: labels live on vertices
      of the store, the source keeps label 0, black vertices are labelled,
      the queue is sorted and holds labelled vertices, and parents are sound. */
  predicate Labels(g: DiGraph, src: int, dist: map<int, nat>, parent: map<int, int>, queue: seq<int>, black: set<int>) {
    && dist.Keys <= g.nodes.Keys && src in dist && dist[src] == 0
    && black <= dist.Keys
    && Sorted(queue)
    && (forall y | y in queue :: y in dist)
    && ParentsSound(g, src, dist, parent)
  }

  lemma SettledLower(g: DiGraph, dist: map<int, nat>, dist': map<int, nat>, x: int)
    requires x in g.nodes && x in dist && x in dist' && dist'[x] == dist[x]
    requires Below(dist, dist') && Settled(g, dist, x)
    ensures Settled(g, dist', x)
  {
  }

  /** Relaxing the edge u -> v to a strictly better label keeps every label
      invariant, and never touches the source or `u` itself. */
  lemma Relaxed(g: DiGraph, src: int, dist: map<int, nat>, parent: map<int, int>, queue: seq<int>, black: set<int>, u: int, v: int)
    requires OutMirrored(g.nodes) && u in g.nodes && v in g.nodes[u].outEdges && u in dist
    requires v !in dist || dist[v] > dist[u] + g.nodes[u].outEdges[v]
    requires Labels(g, src, dist, parent, queue, black)
    ensures v != u
    ensures var dist' := dist[v := dist[u] + g.nodes[u].outEdges[v]];
      && Labels(g, src, dist', parent[v := u], queue, black)
      && Below(dist, dist')
      && Lowered(dist, dist')
  {
    var w := g.nodes[u].outEdges[v];
    assert v in g.nodes && v != u;
    var dist' := dist[v := dist[u] + w];
    var parent' := parent[v := u];
    forall x | x in parent'
      ensures parent'[x] in dist' && x in g.nodes[parent'[x]].outEdges
      ensures dist'[x] >= dist'[parent'[x]] + g.nodes[parent'[x]].outEdges[x]
    {
      if x != v {
        assert x in parent;
      }
    }
    assert v in dist';
  }

  /** Queueing a labelled vertex keeps the bookkeeping. */
  lemma Enqueued(g: DiGraph, src: int, dist: map<int, nat>, parent: map<int, int>, queue: seq<int>, black: set<int>, v: int)
    requires Labels(g, src, dist, parent, queue, black) && v in dist
    ensures Labels(g, src, dist, parent, Insert(queue, v), black)
    ensures BlackCount(Insert(queue, v), black) == BlackCount(queue, black) + (if v in black then 1 else 0)
  {
    InsertBlackCount(queue, v, black);
  }

  /** Popping the front of the queue and blackening it keeps the
      bookkeeping, and removes one black entry when the front was black. */
  lemma Popped(g: DiGraph, src: int, dist: map<int, nat>, parent: map<int, int>, queue: seq<int>, black: set<int>)
    requires Labels(g, src, dist, parent, queue, black) && queue != []
    ensures queue[0] in dist
    ensures Labels(g, src, dist, parent, queue[1..], black + {queue[0]})
    ensures forall x | x !in queue[1..] && x != queue[0] :: x !in queue
    ensures queue[0] in black ==> BlackCount(queue[1..], black) + 1 == BlackCount(queue, black)
  {
    var a := queue[0];
    assert a in queue;
    assert queue == [a] + queue[1..];
  }

  /** Popping a vertex that is already black removes one black entry. */
  lemma PopBlack(q: seq<int>, black: set<int>)
    requires q != []
    ensures q[0] in black ==> BlackCount(q[1..], black + {q[0]}) < BlackCount(q, black)
  {
    if q[0] in black {
      assert black + {q[0]} == black;
    }
  }

  /** One pop of the worklist decreases the measure (vertices not yet
      black, vertices not yet labelled, sum of labels, black entries in the
      queue) lexicographically: popping a vertex that was not black blackens
      it; popping a black one creates a label, lowers one, or uses up a black
      entry. */
  lemma MeasureDrops(nodes: set<int>, u: int, black0: set<int>, black: set<int>, d0: map<int, nat>, d: map<int, nat>, c0: nat, c: nat)
    requires black0 <= nodes && d0.Keys <= nodes && d.Keys <= nodes && u in nodes
    requires black == black0 + {u} && Below(d0, d)
    requires u in black0 ==> (d == d0 && c < c0) || Lowered(d0, d)
    ensures || |nodes - black| < |nodes - black0|
            || (&& |nodes - black| == |nodes - black0|
                && (|| |nodes - d.Keys| < |nodes - d0.Keys|
                    || (&& |nodes - d.Keys| == |nodes - d0.Keys|
                        && (Total(d) < Total(d0) || (Total(d) == Total(d0) && c < c0)))))
  {
    if u !in black0 {
      assert |nodes - black| < |nodes - black0| by {
        ComplementShrinks(nodes, black0, black);
      }
    } else {
      assert |nodes - black| == |nodes - black0| by {
        assert black == black0;
      }
      if d.Keys != d0.Keys {
        assert |nodes - d.Keys| < |nodes - d0.Keys| by {
          BelowKeys(d0, d);
          ComplementShrinks(nodes, d0.Keys, d.Keys);
        }
      } else if Lowered(d0, d) {
        assert Total(d) < Total(d0) by {
          TotalDecreases(d0, d);
        }
      }
    }
  }

  // ---------------------------------------------------------------------------
  // The algorithm

  /** The treatment of one out-neighbour `v` of the popped vertex `u`. A
      neighbour that is not black is queued, and relabelled with `u` as parent
      when it had no label or the label improves; a neighbour whose label
      still improves through `u` (necessarily a black one) is relabelled and
      queued. Labels only fall, and a vertex that is labelled and off the
      queue afterwards was so before, with the same label. */
  method Step(g: DiGraph, src: int, u: int, v: int, dist: map<int, nat>, parent: map<int, int>, queue: seq<int>, black: set<int>)
    returns (dist': map<int, nat>, parent': map<int, int>, queue': seq<int>)
    requires OutMirrored(g.nodes)
    requires u in g.nodes && v in g.nodes[u].outEdges && u in dist
    requires Labels(g, src, dist, parent, queue, black)
    ensures Labels(g, src, dist', parent', queue', black)
    ensures u in dist' && dist'[u] == dist[u]
    ensures v in dist' && dist'[v] <= dist[u] + g.nodes[u].outEdges[v]
    ensures Below(dist, dist')
    ensures forall x | x in dist' && x !in queue' :: x in dist && x !in queue && dist'[x] == dist[x]
    ensures (dist' == dist && BlackCount(queue', black) == BlackCount(queue, black)) || Lowered(dist, dist')
  {
    var du := dist[u];
    var w := g.nodes[u].outEdges[v];
    dist', parent', queue' := dist, parent, queue;
    if v !in black {
      if v !in dist' || dist'[v] > du + w {
        Relaxed(g, src, dist', parent', queue', black, u, v);
        dist', parent' := dist'[v := du + w], parent'[v := u];
      }
      Enqueued(g, src, dist', parent', queue', black, v);
      queue' := Insert(queue', v);
    }
    if v in dist' && dist'[v] > du + w {
      Relaxed(g, src, dist', parent', queue', black, u, v);
      dist', parent' := dist'[v := du + w], parent'[v := u];
      Enqueued(g, src, dist', parent', queue', black, v);
      queue' := Insert(queue', v);
    }
  }

  /** The state of a visit of `u` with the neighbours in `todo` still to
      scan: the labels stay consistent, `u` keeps its label `du`, every
      scanned neighbour satisfies the edge from `u`, every dequeued vertex
      other than `u` is settled, and against the state on entry labels only
      fell and either some fell or no black entry was queued. */
  ghost predicate Visiting(g: DiGraph, src: int, u: int, du: nat, dist0: map<int, nat>, queue0: seq<int>, black: set<int>,
                           todo: set<int>, dist: map<int, nat>, parent: map<int, int>, queue: seq<int>)
    requires u in g.nodes
  {
    && todo <= g.nodes[u].outEdges.Keys
    && Labels(g, src, dist, parent, queue, black)
    && u in dist && dist[u] == du
    && (forall x | x in dist && x !in queue && x != u :: Settled(g, dist, x))
    && (forall v | v in g.nodes[u].outEdges && v !in todo :: v in dist && dist[v] <= du + g.nodes[u].outEdges[v])
    && Below(dist0, dist)
    && ((dist == dist0 && BlackCount(queue, black) == BlackCount(queue0, black)) || Lowered(dist0, dist))
  }

  /** A Step on neighbour `v` advances the visit by one neighbour. */
  lemma VisitAdvance(g: DiGraph, src: int, u: int, du: nat, dist0: map<int, nat>, queue0: seq<int>, black: set<int>,
                     todo: set<int>, v: int, dist: map<int, nat>, parent: map<int, int>, queue: seq<int>,
                     dist': map<int, nat>, parent': map<int, int>, queue': seq<int>)
    requires u in g.nodes && v in todo
    requires Visiting(g, src, u, du, dist0, queue0, black, todo, dist, parent, queue)
    requires Labels(g, src, dist', parent', queue', black)
    requires u in dist' && dist'[u] == dist[u]
    requires v in dist' && dist'[v] <= dist[u] + g.nodes[u].outEdges[v]
    requires Below(dist, dist')
    requires forall x | x in dist' && x !in queue' :: x in dist && x !in queue && dist'[x] == dist[x]
    requires (dist' == dist && BlackCount(queue', black) == BlackCount(queue, black)) || Lowered(dist, dist')
    ensures Visiting(g, src, u, du, dist0, queue0, black, todo - {v}, dist', parent', queue')
  {
    LoweredTrans(dist0, dist, dist');
    forall x | x in dist' && x !in queue' && x != u
      ensures Settled(g, dist', x)
    {
      SettledLower(g, dist, dist', x);
    }
    forall y | y in g.nodes[u].outEdges && y !in todo - {v}
      ensures y in dist' && dist'[y] <= du + g.nodes[u].outEdges[y]
    {
      if y != v {
        assert y in dist && dist[y] <= du + g.nodes[u].outEdges[y];
      }
    }
  }

  /** One visit of the popped vertex `u`: Step for every out-neighbour.
      Afterwards `u` is settled as well; labels only fall; and either some
      label changed or no black entry was added to the queue. */
  method Visit(g: DiGraph, src: int, u: int, dist0: map<int, nat>, parent0: map<int, int>, queue0: seq<int>, black: set<int>)
    returns (dist: map<int, nat>, parent: map<int, int>, queue: seq<int>)
    requires OutMirrored(g.nodes) && u in dist0 && u in black
    requires Labels(g, src, dist0, parent0, queue0, black)
    requires forall x | x in dist0 && x !in queue0 && x != u :: Settled(g, dist0, x)
    ensures Labels(g, src, dist, parent, queue, black)
    ensures forall x | x in dist && x !in queue :: Settled(g, dist, x)
    ensures Below(dist0, dist)
    ensures (dist == dist0 && BlackCount(queue, black) == BlackCount(queue0, black)) || Lowered(dist0, dist)
  {
    dist, parent, queue := dist0, parent0, queue0;
    var todo := g.nodes[u].outEdges.Keys;
    while todo != {}
      invariant Visiting(g, src, u, dist0[u], dist0, queue0, black, todo, dist, parent, queue)
      decreases todo
    {
      // Naming a member of `todo` lets the verifier see that the choice below exists.
      ghost var someV := Pick(todo);
      var v :| v in todo;
      var dist', parent', queue' := Step(g, src, u, v, dist, parent, queue, black);
      VisitAdvance(g, src, u, dist0[u], dist0, queue0, black, todo, v, dist, parent, queue, dist', parent', queue');
      dist, parent, queue := dist', parent', queue';
      todo := todo - {v};
    }
    assert Settled(g, dist, u);
  }

  // ---------------------------------------------------------------------------
  // What settled labels mean

  /** Following a path from a labelled vertex never beats the labels: the
      last vertex is labelled, at most the first label plus the path weight. */
  lemma {:induction false} NoShorterPath(g: DiGraph, dist: map<int, nat>, p: seq<int>)
    requires dist.Keys <= g.nodes.Keys && forall u | u in dist :: Settled(g, dist, u)
    requires IsPath(g, p) && p[0] in dist
    ensures p[|p| - 1] in dist && dist[p[|p| - 1]] <= dist[p[0]] + PathWeight(g, p)
    decreases |p|
  {
    if |p| > 1 {
      PathTail(g, p);
      var a, b := p[0], p[1];
      assert Settled(g, dist, a);
      assert b in g.nodes[a].outEdges;
      assert b in dist && dist[b] <= dist[a] + g.nodes[a].outEdges[b];
      assert p[1..][0] == b;
      NoShorterPath(g, dist, p[1..]);
      assert p[1..][|p| - 2] == p[|p| - 1];
    }
  }

  /** Once everything is settled, each parent link is tight: the label is
      exactly the parent's label plus the edge weight. */
  lemma TightParent(g: DiGraph, src: int, dist: map<int, nat>, parent: map<int, int>, v: int)
    requires dist.Keys <= g.nodes.Keys && forall u | u in dist :: Settled(g, dist, u)
    requires ParentsSound(g, src, dist, parent) && v in parent
    ensures parent[v] in dist && parent[v] in g.nodes && v in g.nodes[parent[v]].outEdges
    ensures dist[v] == dist[parent[v]] + g.nodes[parent[v]].outEdges[v]
  {
    var q := parent[v];
    assert q in dist;
    assert Settled(g, dist, q);
  }

  /** The parent links lead back from any labelled vertex to the source
      along a path whose weight is the label. */
  lemma {:induction false} TreePath(g: DiGraph, src: int, dist: map<int, nat>, parent: map<int, int>, v: int)
    returns (p: seq<int>)
    requires dist.Keys <= g.nodes.Keys && src in dist && dist[src] == 0
    requires forall u | u in dist :: Settled(g, dist, u)
    requires ParentsSound(g, src, dist, parent) && v in dist
    ensures IsPathFrom(g, p, src, v) && PathWeight(g, p) == dist[v]
    decreases dist[v]
  {
    if v == src {
      p := [src];
    } else {
      assert v in parent;
      TightParent(g, src, dist, parent, v);
      var q := parent[v];
      var p0 := TreePath(g, src, dist, parent, q);
      PathSnocWeight(g, p0, v);
      p := p0 + [v];
    }
  }

  /** Settled labels with sound parents are the shortest-path distances:
      labelled means reachable, and each label is the least weight of a path. */
  lemma Distances(g: DiGraph, src: int, dist: map<int, nat>, parent: map<int, int>)
    requires dist.Keys <= g.nodes.Keys && src in dist && dist[src] == 0
    requires forall u | u in dist :: Settled(g, dist, u)
    requires ParentsSound(g, src, dist, parent)
    ensures forall v :: v in dist <==> Reachable(g, src, v)
    ensures forall v, p | IsPathFrom(g, p, src, v) :: v in dist && dist[v] <= PathWeight(g, p)
    ensures forall v | v in dist :: exists p :: IsPathFrom(g, p, src, v) && PathWeight(g, p) == dist[v]
  {
    forall v, p | IsPathFrom(g, p, src, v)
      ensures v in dist && dist[v] <= PathWeight(g, p)
    {
      NoShorterPath(g, dist, p);
    }
    forall v | v in dist
      ensures exists p :: IsPathFrom(g, p, src, v) && PathWeight(g, p) == dist[v]
    {
      var p := TreePath(g, src, dist, parent, v);
    }
  }

  /** Runs the relaxation loop of `GraphAlgo.dijkstra` from `src` to exhaustion: pop the
      least id, blacken it, visit it. The loop ends even though black
      vertices are re-queued: each pop blackens a new vertex, labels a new
      vertex, lowers the sum of labels, or uses up a black entry. On exit
      every labelled vertex is settled and parents are sound. */
  method Relaxation(g: DiGraph, src: int) returns (dist: map<int, nat>, parent: map<int, int>)
    requires OutMirrored(g.nodes) && src in g.nodes
    ensures dist.Keys <= g.nodes.Keys && src in dist && dist[src] == 0
    ensures forall u | u in dist :: Settled(g, dist, u)
    ensures ParentsSound(g, src, dist, parent)
  {
    dist := map[src := 0];
    parent := map[];
    var black: set<int> := {};
    var queue := [src];
    while queue != []
      invariant Labels(g, src, dist, parent, queue, black)
      invariant forall x | x in dist && x !in queue :: Settled(g, dist, x)
      decreases |g.nodes.Keys - black|, |g.nodes.Keys - dist.Keys|, Total(dist), BlackCount(queue, black)
    {
      ghost var dist0, black0, queue0, count0 := dist, black, queue, BlackCount(queue, black);
      var u := queue[0];
      Popped(g, src, dist, parent, queue, black);
      queue := queue[1..];
      black := black + {u};
      PopBlack(queue0, black0);
      dist, parent, queue := Visit(g, src, u, dist, parent, queue, black);
      MeasureDrops(g.nodes.Keys, u, black0, black, dist0, dist, count0, BlackCount(queue, black));
    }
  }

  /** `GraphAlgo.dijkstra`: the relaxation loop, whose settled labels are
      the shortest-path distances. The labelled vertices are exactly those
      reachable from `src`, each label is the least weight of a path to its
      vertex and is attained by one, and the parent links are tight edges. */
  method Dijkstra(g: DiGraph, src: int) returns (dist: map<int, nat>, parent: map<int, int>)
    requires OutMirrored(g.nodes) && src in g.nodes
    ensures dist.Keys <= g.nodes.Keys && src in dist && dist[src] == 0
    ensures forall u | u in dist :: Settled(g, dist, u)
    ensures ParentsSound(g, src, dist, parent)
    ensures forall v :: v in dist <==> Reachable(g, src, v)
    ensures forall v, p | IsPathFrom(g, p, src, v) :: v in dist && dist[v] <= PathWeight(g, p)
    ensures forall v | v in dist :: exists p :: IsPathFrom(g, p, src, v) && PathWeight(g, p) == dist[v]
    ensures forall v | v in parent ::
      parent[v] in dist && v in g.nodes[parent[v]].outEdges
      && dist[v] == dist[parent[v]] + g.nodes[parent[v]].outEdges[v]
  {
    dist, parent := Relaxation(g, src);
    Distances(g, src, dist, parent);
    forall v | v in parent
      ensures parent[v] in dist && v in g.nodes[parent[v]].outEdges
      ensures dist[v] == dist[parent[v]] + g.nodes[parent[v]].outEdges[v]
    {
      TightParent(g, src, dist, parent, v);
    }
  }

  // ---------------------------------------------------------------------------
  // Shortest path between two vertices

  /** The path rebuilding of `GraphAlgo.shortest_path`: start from `target`, prepend parents
      until the source is reached, then prepend the source. The result is a
      path from the source whose weight is the target's label. */
  method WalkBack(g: DiGraph, src: int, dist: map<int, nat>, parent: map<int, int>, target: int)
    returns (path: seq<int>)
    requires dist.Keys <= g.nodes.Keys && src in dist && dist[src] == 0
    requires forall u | u in dist :: Settled(g, dist, u)
    requires ParentsSound(g, src, dist, parent)
    requires target in dist && target != src
    ensures IsPathFrom(g, path, src, target) && PathWeight(g, path) == dist[target]
  {
    path := [target];
    var prev := parent[target];
    TightParent(g, src, dist, parent, target);
    PathCons(g, prev, path);
    while prev != src
      invariant prev in dist && |path| > 0 && path[|path| - 1] == target
      invariant IsPath(g, [prev] + path)
      invariant dist[prev] + PathWeight(g, [prev] + path) == dist[target]
      decreases dist[prev]
    {
      path := [prev] + path;
      TightParent(g, src, dist, parent, prev);
      prev := parent[prev];
      PathCons(g, prev, path);
    }
    path := [src] + path;
  }

  /** The distance and vertex list from `id1` to `id2`. `None` stands for the
      infinite distance of `GraphAlgo.shortest_path`, returned with an empty list when either
      vertex is missing or `id2` cannot be reached; equal ids give distance 0
      and the one-vertex path. Otherwise the list is a path of least weight. */
  method ShortestPath(g: DiGraph, id1: int, id2: int) returns (d: Option<nat>, path: seq<int>)
    requires OutMirrored(g.nodes)
    ensures id1 !in g.nodes || id2 !in g.nodes ==> d == None && path == []
    ensures id1 in g.nodes && id1 == id2 ==> d == Some(0) && path == [id1]
    ensures d == None <==> id1 !in g.nodes || id2 !in g.nodes || !Reachable(g, id1, id2)
    ensures d == None ==> path == []
    ensures d.Some? ==> IsPathFrom(g, path, id1, id2) && PathWeight(g, path) == d.value
    ensures d.Some? ==> forall p | IsPathFrom(g, p, id1, id2) :: d.value <= PathWeight(g, p)
  {
    if id1 !in g.nodes || id2 !in g.nodes {
      return None, [];
    }
    if id1 == id2 {
      ReachRefl(g, id1);
      return Some(0), [id1];
    }
    var dist, parent := Dijkstra(g, id1);
    if id2 !in dist {
      return None, [];
    }
    path := WalkBack(g, id1, dist, parent, id2);
    d := Some(dist[id2]);
  }
}
