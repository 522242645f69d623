/** Small indexes are exact: while no list can outgrow 2m, layer 0 stays strongly connected, and a
    beam as wide as the index finds what the linear scan over everything inserted finds. */
module HnswExact {
  import opened Sequences
  import opened Heaps
  import opened HnswSearch
  import opened HnswIndex
  import opened SemanticSearch
  import opened SearchHits

  // ---------- layer 0 stays connected ----------

  /** The layer-0 links of a node, as a search on layer 0 sees them. */
  function Ground(g: Graph, n: nat): seq<nat> {
    if LivesOn(g, n, 0) then g[n].neighbors[0] else []
  }

  ghost predicate Closed(g: Graph, s: set<nat>) {
    forall n, k :: n in s && k in Ground(g, n) && k in g ==> k in s
  }

  /** Whatever contains `a` and follows the layer-0 links contains every node. */
  ghost predicate Spans(g: Graph, a: nat) {
    forall s: set<nat> :: a in s && Closed(g, s) ==> g.Keys <= s
  }

  ghost predicate Connected(g: Graph) {
    forall a :: a in g ==> Spans(g, a)
  }

  /** `h` adds the node `id` to `g`: every old link is kept, and `id` and `n` link to each other. */
  ghost predicate Grown(g: Graph, h: Graph, id: nat, n: nat) {
    && h.Keys == g.Keys + {id} && id !in g && n in g
    && (forall k, x :: k in g && x in Ground(g, k) ==> x in Ground(h, k))
    && n in Ground(h, id) && id in Ground(h, n)
  }

  lemma GrownConnected(g: Graph, h: Graph, id: nat, n: nat)
    requires Connected(g) && Grown(g, h, id, n)
    ensures Connected(h)
  {
    forall a, s: set<nat> | a in h && a in s && Closed(h, s) ensures h.Keys <= s {
      var b := if a == id then n else a;
      assert b in s;
      var was := s * g.Keys;
      assert Closed(g, was);
      assert Spans(g, b);
      assert id in s;
    }
  }

  /** A list of distinct other nodes is shorter than the graph. */
  lemma ListFits(g: Graph, m: nat, n: nat, layer: nat)
    requires GraphOk(g, m) && LivesOn(g, n, layer)
    ensures |g[n].neighbors[layer]| < |g.Keys|
  {
    var links := g[n].neighbors[layer];
    assert LinksOk(g, m, n, layer, links);
    NoDupCardinality(links);
    assert Elements(links) <= g.Keys - {n};
    SubsetCardinality(Elements(links), g.Keys - {n});
  }

  lemma {:induction false} SubsetCardinality(a: set<nat>, b: set<nat>)
    requires a <= b
    ensures |a| <= |b|
  {
    if a != {} {
      var x :| x in a;
      SubsetCardinality(a - {x}, b - {x});
    }
  }

  /** `g` is `was` with a new node `id`, and every list of `was` on layer 0 has room for one more. */
  ghost predicate Roomy(was: Graph, g: Graph, id: nat, m: nat) {
    && id !in was && g.Keys == was.Keys + {id}
    && (forall n :: n in was ==> g[n] == was[n] && |was[n].neighbors| >= 1)
    && GraphOk(was, m) && |was.Keys| <= 2 * m
  }

  /** While every list has room for one more, joining prunes nothing. */
  lemma ListAfter(was: Graph, g: Graph, h: Graph, fd: Finder, id: nat, m: nat, n: nat)
    requires Roomy(was, g, id, m) && SameShape(g, h) && Joined(g, h, fd, id, 0, m) && n in was
    ensures Ground(h, n) == Ground(was, n) + if n in Ground(h, id) then [id] else []
  {
    assert LivesOn(g, n, 0) && LivesOn(h, n, 0) && LivesOn(was, n, 0);
    ListFits(was, m, n, 0);
    ListJoined(g, h, fd, id, m, n);
  }

  lemma ListJoined(g: Graph, h: Graph, fd: Finder, id: nat, m: nat, n: nat)
    requires SameShape(g, h) && Joined(g, h, fd, id, 0, m) && n in g && n != id && LivesOn(g, n, 0)
    requires |Ground(g, n)| < 2 * m
    ensures Ground(h, n) == Ground(g, n) + if n in Ground(h, id) then [id] else []
  {
    var before, after := LayerOf(g, 0), LayerOf(h, 0);
    assert n in before && n in after && id in after;
    if n in after[id] { assert Reciprocal(g, fd, g[n].vector, before[n], after[n], id, m); }
  }

  lemma FirstChosen(g: Graph, h: Graph, fd: Finder, id: nat, m: nat)
    requires SameShape(g, h) && Joined(g, h, fd, id, 0, m)
    ensures Ground(h, id) != [] && Ground(h, id)[0] in g && Ground(h, id)[0] != id
  {
    var after := LayerOf(h, 0);
    assert after[id] == Ground(h, id);
    assert after[id][0] in after[id];
  }

  lemma JoinedGrows(was: Graph, g: Graph, h: Graph, fd: Finder, id: nat, m: nat)
    requires Roomy(was, g, id, m) && SameShape(g, h) && Joined(g, h, fd, id, 0, m)
    ensures Ground(h, id) != [] && Grown(was, h, id, Ground(h, id)[0])
  {
    FirstChosen(g, h, fd, id, m);
    forall n | n in was ensures Ground(h, n) == Ground(was, n) + if n in Ground(h, id) then [id] else [] {
      ListAfter(was, g, h, fd, id, m, n);
    }
  }

  lemma OrderCovers(ix: Index)
    requires IdsOk(ix)
    ensures NoDup(ix.order) && Elements(ix.order) == ix.nodes.Keys && |ix.nodes.Keys| == ix.nextId
  {
    NoDupCardinality(ix.order);
    forall n | n in ix.nodes.Keys ensures n in Elements(ix.order) { assert ix.order[n] == n; }
  }

  lemma AloneConnected(g: Graph, id: nat)
    requires g.Keys == {id}
    ensures Connected(g)
  {
  }

  lemma InsertRoomy(ix: Index, e: Entry)
    requires Valid(ix) && ix.nextId <= 2 * ix.config.m
    ensures Roomy(ix.nodes, ix.nodes[ix.nextId := Node(e.chunkId, e.vector, EmptyLists(e.layer + 1))],
                  ix.nextId, ix.config.m)
  {
    OrderCovers(ix);
  }

  /** Inserting into a connected index of at most 2m nodes leaves it connected. */
  lemma InsertKeepsConnected(ix: Index, fd: Finder, e: Entry)
    requires Sound(fd) && Valid(ix) && Connected(ix.nodes) && ix.nextId <= 2 * ix.config.m && e.vector != []
    ensures Connected(Insert(ix, fd, e.chunkId, e.vector, e.layer).nodes)
  {
    var g := ix.nodes[ix.nextId := Node(e.chunkId, e.vector, EmptyLists(e.layer + 1))];
    if ix.entry.None? {
      AloneConnected(g, ix.nextId);
    } else {
      InsertJoins(ix, fd, e.chunkId, e.vector, e.layer, 0);
      InsertRoomy(ix, e);
      JoinedConnected(ix.nodes, g, Insert(ix, fd, e.chunkId, e.vector, e.layer).nodes, fd, ix.nextId, ix.config.m);
    }
  }

  lemma JoinedConnected(was: Graph, g: Graph, h: Graph, fd: Finder, id: nat, m: nat)
    requires Connected(was) && Roomy(was, g, id, m) && SameShape(g, h) && Joined(g, h, fd, id, 0, m)
    ensures Connected(h)
  {
    JoinedGrows(was, g, h, fd, id, m);
    GrownConnected(was, h, id, Ground(h, id)[0]);
  }

  // ---------- whom a new node is linked to ----------

  /** From any old node exactly the old nodes can be reached, while nothing links to the new one. */
  lemma OldReachable(ix: Index, sc: Scope, node: Node, a: nat)
    requires Valid(ix) && Connected(ix.nodes) && a in ix.nodes
    requires sc.layer == 0 && sc.nodes == ix.nodes[ix.nextId := node]
    requires |node.neighbors| >= 1 && node.neighbors[0] == []
    ensures sc.Reachable(a) == ix.nodes.Keys
  {
    sc.ReachableClosed(a);
    forall n, k | n in ix.nodes && k in sc.Links(n) && k in sc.nodes ensures k in ix.nodes {
      assert LinksOk(ix.nodes, ix.config.m, n, 0, ix.nodes[n].neighbors[0]);
    }
    sc.ReachableLeast(a, ix.nodes.Keys);
    var s := sc.Reachable(a);
    assert Closed(ix.nodes, s) by {
      forall n, k | n in s && k in Ground(ix.nodes, n) && k in ix.nodes ensures k in s {
        assert Ground(ix.nodes, n) == sc.Links(n);
      }
    }
    assert Spans(ix.nodes, a);
  }

  /** `links` are `count` of the nodes of the index, and none of the others is nearer to `v`. */
  ghost predicate NearestNodes(ix: Index, fd: Finder, v: Vector, links: seq<nat>, count: nat) {
    && |links| == count && NoDup(links) && (forall x :: x in links ==> x in ix.nodes)
    && forall x, y :: x in ix.nodes && x !in links && y in links && y in ix.nodes ==>
         fd.sim(v, ix.nodes[y].vector) >= fd.sim(v, ix.nodes[x].vector)
  }

  /** A node inserted into a connected index that a construction beam can hold is linked on layer 0 to
      the nearest of all nodes, as many as `m` allows. */
  lemma InsertTakesNearest(ix: Index, fd: Finder, e: Entry)
    requires Sound(fd) && Valid(ix) && ix.entry.Some? && Connected(ix.nodes) && e.vector != []
    requires ix.nextId <= ix.config.efConstruction
    ensures var h := Insert(ix, fd, e.chunkId, e.vector, e.layer).nodes;
      NearestNodes(ix, fd, e.vector, Ground(h, ix.nextId), Smaller(ix.config.m, ix.nextId))
  {
    var a := InsertLinks(ix, fd, e.chunkId, e.vector, e.layer, 0);
    var h := Insert(ix, fd, e.chunkId, e.vector, e.layer).nodes;
    NewListOk(ix, fd, e, h);
    LinkedTakesNearest(ix, fd, e.vector, Node(e.chunkId, e.vector, EmptyLists(e.layer + 1)), h, a);
  }

  lemma LinkedTakesNearest(ix: Index, fd: Finder, v: Vector, node: Node, h: Graph, a: nat)
    requires Valid(ix) && Connected(ix.nodes) && a in ix.nodes && ix.nextId <= ix.config.efConstruction
    requires |node.neighbors| >= 1 && node.neighbors[0] == [] && NoDup(Ground(h, ix.nextId))
    requires LinkedAt(ix.nodes[ix.nextId := node], h, fd, ix.nextId, v, ix.config, 0, a)
    requires Ground(h, ix.nextId) == LayerOf(h, 0)[ix.nextId]
    ensures NearestNodes(ix, fd, v, Ground(h, ix.nextId), Smaller(ix.config.m, ix.nextId))
  {
    var sc := Scope(ix.nodes[ix.nextId := node], fd.sim, v, ix.config.efConstruction, 0);
    OldReachable(ix, sc, node, a);
    OrderCovers(ix);
    NearestFromAll(ix, sc, a, Ground(h, ix.nextId), fd, v);
  }

  lemma NewListOk(ix: Index, fd: Finder, e: Entry, h: Graph)
    requires Sound(fd) && Valid(ix) && e.vector != [] && h == Insert(ix, fd, e.chunkId, e.vector, e.layer).nodes
    ensures NoDup(Ground(h, ix.nextId))
    ensures ix.nextId in LayerOf(h, 0) ==> Ground(h, ix.nextId) == LayerOf(h, 0)[ix.nextId]
  {
    InsertKeepsValid(ix, fd, e.chunkId, e.vector, e.layer);
    if LivesOn(h, ix.nextId, 0) { assert LinksOk(h, ix.config.m, ix.nextId, 0, h[ix.nextId].neighbors[0]); }
  }

  lemma NearestFromAll(ix: Index, sc: Scope, a: nat, links: seq<nat>, fd: Finder, v: Vector)
    requires sc.Reachable(a) == ix.nodes.Keys && |ix.nodes.Keys| == ix.nextId <= sc.ef && NoDup(links)
    requires sc.sim == fd.sim && sc.query == v
    requires forall n :: n in ix.nodes ==> n in sc.nodes && sc.nodes[n] == ix.nodes[n]
    requires NearestLinks(sc, a, links, ix.config.m)
    ensures NearestNodes(ix, fd, v, links, Smaller(ix.config.m, ix.nextId))
  {
    forall x | x in links ensures x in ix.nodes { assert x in Elements(links); }
    forall x, y | x in ix.nodes && x !in links && y in links && y in ix.nodes
      ensures fd.sim(v, ix.nodes[y].vector) >= fd.sim(v, ix.nodes[x].vector)
    {
      assert sc.Dist(y) <= sc.Dist(x);
    }
  }

  // ---------- what the index stores ----------

  /** What the index holds of the entries given to it: those with an embedding, in order. */
  function Stored(entries: seq<Entry>): seq<Row> {
    if entries == [] then []
    else (if entries[0].vector == [] then [] else [Row(entries[0].chunkId, entries[0].vector)]) + Stored(entries[1..])
  }

  /** The nodes of an index, by id, as rows. */
  ghost predicate Holds(ix: Index, rows: seq<Row>) {
    && |rows| == ix.nextId
    && forall i: nat :: i < |rows| ==> i in ix.nodes && rows[i] == Row(ix.nodes[i].chunkId, ix.nodes[i].vector)
  }

  lemma InsertHolds(ix: Index, fd: Finder, e: Entry, rows: seq<Row>)
    requires Sound(fd) && Valid(ix) && Holds(ix, rows)
    ensures Holds(Insert(ix, fd, e.chunkId, e.vector, e.layer), rows + Stored([e]))
  {
    assert Stored([e][1..]) == [];
    if e.vector != [] && ix.entry.Some? {
      InsertJoins(ix, fd, e.chunkId, e.vector, e.layer, 0);
    }
  }

  /** An index all of whose nodes are linked and which holds the given rows. */
  ghost predicate Complete(ix: Index, rows: seq<Row>) {
    Valid(ix) && Connected(ix.nodes) && Holds(ix, rows)
  }

  lemma InsertComplete(ix: Index, fd: Finder, e: Entry, rows: seq<Row>)
    requires Sound(fd) && Complete(ix, rows) && |rows| + |Stored([e])| <= 2 * ix.config.m + 1
    ensures Complete(Insert(ix, fd, e.chunkId, e.vector, e.layer), rows + Stored([e]))
  {
    InsertKeepsValid(ix, fd, e.chunkId, e.vector, e.layer);
    InsertHolds(ix, fd, e, rows);
    StoredFirst(e, []);
    if e.vector != [] { InsertKeepsConnected(ix, fd, e); }
  }

  lemma {:induction false} InsertAllComplete(ix: Index, fd: Finder, entries: seq<Entry>, rows: seq<Row>)
    requires Sound(fd) && Complete(ix, rows) && |rows| + |Stored(entries)| <= 2 * ix.config.m + 1
    ensures Complete(InsertAll(ix, fd, entries), rows + Stored(entries))
    decreases |entries|
  {
    if entries == [] {
      assert rows + Stored(entries) == rows;
    } else {
      HeadTail(entries);
      StoredFirst(entries[0], entries[1..]);
      InsertComplete(ix, fd, entries[0], rows);
      var next := Insert(ix, fd, entries[0].chunkId, entries[0].vector, entries[0].layer);
      InsertAllComplete(next, fd, entries[1..], rows + Stored([entries[0]]));
      Assoc(rows, Stored([entries[0]]), Stored(entries[1..]));
    }
  }

  lemma StoredFirst(e: Entry, rest: seq<Entry>)
    ensures Stored([e] + rest) == Stored([e]) + Stored(rest)
    ensures |Stored([e])| == if e.vector == [] then 0 else 1
  {
    assert ([e] + rest)[1..] == rest;
    assert Stored([e][1..]) == [];
  }

  /** While at most 2m embeddings, and no more than the construction beam holds, have been inserted, the
      next one is linked on layer 0 to the nearest of all of them. */
  lemma GrowthTakesNearest(modelName: string, config: Config, fd: Finder, before: seq<Entry>, e: Entry)
    requires IsBeam(fd) && config.m >= 1 && config.efConstruction >= 1 && e.vector != []
    requires 1 <= |Stored(before)| <= 2 * config.m && |Stored(before)| <= config.efConstruction
    ensures var ix := InsertAll(Empty(modelName, config), fd, before);
      && Complete(ix, Stored(before))
      && NearestNodes(ix, fd, e.vector, Ground(Insert(ix, fd, e.chunkId, e.vector, e.layer).nodes, ix.nextId),
                      Smaller(config.m, |Stored(before)|))
  {
    BeamIsSound(fd);
    InsertAllComplete(Empty(modelName, config), fd, before, []);
    assert [] + Stored(before) == Stored(before);
    var ix := InsertAll(Empty(modelName, config), fd, before);
    InsertAllConfig(Empty(modelName, config), fd, before);
    assert 0 in ix.nodes;
    InsertTakesNearest(ix, fd, e);
  }

  lemma {:induction false} InsertAllConfig(ix: Index, fd: Finder, entries: seq<Entry>)
    requires ix.config.efConstruction >= 1
    ensures InsertAll(ix, fd, entries).config == ix.config
    decreases |entries|
  {
    if entries != [] {
      var e := entries[0];
      InsertAllConfig(Insert(ix, fd, e.chunkId, e.vector, e.layer), fd, entries[1..]);
    }
  }

  // ---------- the index agrees with the scan ----------

  /** In a connected index every node is reachable on layer 0 from every node. */
  lemma AllReachable(sc: Scope, a: nat)
    requires sc.layer == 0 && a in sc.nodes && Connected(sc.nodes)
    ensures sc.Reachable(a) == sc.nodes.Keys
  {
    sc.ReachableClosed(a);
    assert Spans(sc.nodes, a);
    assert Closed(sc.nodes, sc.Reachable(a));
  }

  lemma OrderRows(ix: Index, rows: seq<Row>)
    requires IdsOk(ix) && Holds(ix, rows)
    ensures forall i :: 0 <= i < |ix.order| ==> ix.order[i] in ix.nodes
    ensures RowsOf(ix.nodes, ix.order) == rows
  {
  }

  /** A complete index answers like the linear scan over its rows when the beam is as wide as it. */
  lemma CompleteIsExact(ix: Index, fd: Finder, rows: seq<Row>, q: Vector, k: nat, ef: nat, minSim: real)
    requires IsBeam(fd) && Complete(ix, rows) && 1 <= |rows| <= Larger(ef, k)
    ensures Sims(IndexHits(ix, fd, q, k, ef, minSim)) == Sims(LinearScan(fd.sim, q, rows, k, minSim))
  {
    assert 0 in ix.nodes;
    LandingExists(ix, fd, q);
    OrderCovers(ix);
    AllReachable(Scope(ix.nodes, fd.sim, q, Larger(ef, k), 0), Landing(ix, fd, q));
    IndexAgreesWithScan(ix, fd, q, k, ef, minSim, ix.order);
    OrderRows(ix, rows);
  }

  /** Whatever at most 2m + 1 embeddings are inserted into an empty index, in whatever order and on
      whatever layers, a search with a beam at least that wide returns the similarities, in order,
      that the linear scan over all of them returns. */
  lemma SmallIndexIsExact(modelName: string, config: Config, fd: Finder, entries: seq<Entry>,
                          q: Vector, k: nat, ef: nat, minSim: real)
    requires IsBeam(fd) && config.m >= 1 && config.efConstruction >= 1 && Larger(ef, k) >= 1
    requires |Stored(entries)| <= 2 * config.m + 1 && |Stored(entries)| <= Larger(ef, k)
    ensures Sims(IndexHits(InsertAll(Empty(modelName, config), fd, entries), fd, q, k, ef, minSim))
         == Sims(LinearScan(fd.sim, q, Stored(entries), k, minSim))
  {
    var ix, rows := InsertAll(Empty(modelName, config), fd, entries), Stored(entries);
    BeamIsSound(fd);
    InsertAllComplete(Empty(modelName, config), fd, entries, []);
    assert [] + rows == rows;
    if rows != [] {
      CompleteIsExact(ix, fd, rows, q, k, ef, minSim);
    } else {
      assert forall n :: n !in ix.nodes;
    }
  }

  // ---------- and names the right chunks ----------

  lemma NodesAreRows(ix: Index, rows: seq<Row>, sim: Similarity, q: Vector, hits: seq<Hit>, ids: seq<nat>)
    requires IdsOk(ix) && Holds(ix, rows) && NodeHits(ix.nodes, sim, q, hits, ids)
    ensures RowHits(sim, q, rows, hits, ids)
  {
  }

  /** A row that was not found is no better than any that was, if the beam held everything. */
  lemma MissedIsWorse(ix: Index, fd: Finder, rows: seq<Row>, sc: Scope, c: nat, ids: seq<nat>, k: nat, j: nat)
    requires Holds(ix, rows) && IdsOk(ix) && sc.nodes == ix.nodes && sc.sim == fd.sim && |rows| <= sc.ef
    requires sc.Reachable(c) == ix.nodes.Keys && |ix.nodes.Keys| == |rows| && NoDup(ids)
    requires NearestLinks(sc, c, ids, k) && j < |rows| && j !in ids
    ensures |ids| == k
    ensures forall y :: y in ids ==> y < |rows| && fd.sim(sc.query, rows[y].vector) >= fd.sim(sc.query, rows[j].vector)
  {
    NoDupCardinality(ids);
    assert j in ix.nodes.Keys;
    if |ids| == |rows| { SubsetFull(Elements(ids), ix.nodes.Keys); }
    forall y | y in ids
      ensures y < |rows| && fd.sim(sc.query, rows[y].vector) >= fd.sim(sc.query, rows[j].vector)
    {
      assert y in Elements(ids);
      assert sc.Dist(y) <= sc.Dist(j);
    }
  }

  /** A complete index returns the best rows when the beam is as wide as it. */
  lemma CompleteIsTop(ix: Index, fd: Finder, rows: seq<Row>, q: Vector, k: nat, ef: nat, minSim: real)
    returns (at: seq<nat>)
    requires IsBeam(fd) && Complete(ix, rows) && 1 <= |rows| <= Larger(ef, k)
    ensures TopHitsAt(fd.sim, q, rows, k, minSim, IndexHits(ix, fd, q, k, ef, minSim), at)
  {
    assert 0 in ix.nodes;
    var all := Search(ix, fd, q, k, ef);
    var c, ids := SearchHitsAt(ix, fd, q, k, ef);
    var n := ThresholdCuts(all, minSim);
    var sc := Scope(ix.nodes, fd.sim, q, Larger(ef, k), 0);
    OrderCovers(ix);
    AllReachable(sc, c);
    NodesAreRows(ix, rows, fd.sim, q, all, ids);
    at := CutHits(ix, fd, rows, sc, c, k, minSim, all, ids, n);
  }

  lemma CutHits(ix: Index, fd: Finder, rows: seq<Row>, sc: Scope, c: nat, k: nat, minSim: real, all: seq<Hit>,
                ids: seq<nat>, n: nat) returns (at: seq<nat>)
    requires Holds(ix, rows) && IdsOk(ix) && sc.nodes == ix.nodes && sc.sim == fd.sim && |rows| <= sc.ef
    requires sc.Reachable(c) == ix.nodes.Keys && |ix.nodes.Keys| == |rows|
    requires NearestLinks(sc, c, ids, k) && RowHits(fd.sim, sc.query, rows, all, ids)
    requires Descending(Sims(all)) && |all| <= k && n <= |all|
    requires forall i :: 0 <= i < n ==> all[i].similarity >= minSim
    requires forall i :: n <= i < |all| ==> all[i].similarity < minSim
    ensures TopHitsAt(fd.sim, sc.query, rows, k, minSim, all[..n], at)
  {
    at := ids[..n];
    assert Sims(all[..n]) == Sims(all)[..n];
    forall j: nat | j < |rows| && j !in at && fd.sim(sc.query, rows[j].vector) >= minSim
      ensures n == k && forall i :: 0 <= i < n ==> all[i].similarity >= fd.sim(sc.query, rows[j].vector)
    {
      CutBelow(fd.sim, sc.query, rows, all, ids, n, minSim, j);
      MissedIsWorse(ix, fd, rows, sc, c, ids, k, j);
      NothingCut(fd.sim, sc.query, rows, all, ids, n, minSim, j);
    }
  }

  /** What was cut off is below the threshold. */
  lemma CutBelow(sim: Similarity, q: Vector, rows: seq<Row>, all: seq<Hit>, ids: seq<nat>, n: nat, minSim: real, j: nat)
    requires RowHits(sim, q, rows, all, ids) && n <= |all| && j < |rows|
    requires forall i :: n <= i < |all| ==> all[i].similarity < minSim
    ensures j in ids ==> j in ids[..n] || sim(q, rows[j].vector) < minSim
  {
    if j in ids {
      var p :| 0 <= p < |ids| && ids[p] == j;
      InPrefix(ids, n, p);
      assert p >= n ==> all[p].similarity < minSim;
    }
  }

  lemma NothingCut(sim: Similarity, q: Vector, rows: seq<Row>, all: seq<Hit>, ids: seq<nat>, n: nat, minSim: real,
                   j: nat)
    requires RowHits(sim, q, rows, all, ids) && n <= |all| && j < |rows| && sim(q, rows[j].vector) >= minSim
    requires forall y :: y in ids ==> y < |rows| && sim(q, rows[y].vector) >= sim(q, rows[j].vector)
    requires forall i :: n <= i < |all| ==> all[i].similarity < minSim
    ensures n == |all| && forall i :: 0 <= i < n ==> all[i].similarity >= sim(q, rows[j].vector)
  {
    assert n < |all| ==> all[n].similarity < minSim;
    forall i | 0 <= i < |all| ensures all[i].similarity >= sim(q, rows[j].vector) {
      assert ids[i] in ids;
    }
  }

  /** Whatever at most 2m + 1 embeddings are inserted into an empty index, a search with a beam at least
      that wide returns true hits of the best of them. */
  lemma SmallIndexIsTop(modelName: string, config: Config, fd: Finder, entries: seq<Entry>,
                        q: Vector, k: nat, ef: nat, minSim: real) returns (at: seq<nat>)
    requires IsBeam(fd) && config.m >= 1 && config.efConstruction >= 1 && Larger(ef, k) >= 1
    requires |Stored(entries)| <= 2 * config.m + 1 && |Stored(entries)| <= Larger(ef, k)
    ensures TopHitsAt(fd.sim, q, Stored(entries), k, minSim,
                      IndexHits(InsertAll(Empty(modelName, config), fd, entries), fd, q, k, ef, minSim), at)
  {
    var ix, rows := InsertAll(Empty(modelName, config), fd, entries), Stored(entries);
    BeamIsSound(fd);
    InsertAllComplete(Empty(modelName, config), fd, entries, []);
    assert [] + rows == rows;
    if rows != [] {
      at := CompleteIsTop(ix, fd, rows, q, k, ef, minSim);
    } else {
      assert forall n :: n !in ix.nodes;
      at := [];
    }
  }

  /** If no two of them are equally similar to the query, these are the hits of the linear scan. */
  lemma SmallIndexIsScan(modelName: string, config: Config, fd: Finder, entries: seq<Entry>,
                         q: Vector, k: nat, ef: nat, minSim: real)
    requires IsBeam(fd) && config.m >= 1 && config.efConstruction >= 1 && Larger(ef, k) >= 1
    requires |Stored(entries)| <= 2 * config.m + 1 && |Stored(entries)| <= Larger(ef, k)
    requires NoTies(fd.sim, q, Stored(entries))
    ensures IndexHits(InsertAll(Empty(modelName, config), fd, entries), fd, q, k, ef, minSim)
         == LinearScan(fd.sim, q, Stored(entries), k, minSim)
  {
    var at := SmallIndexIsTop(modelName, config, fd, entries, q, k, ef, minSim);
    var bt := ScanIsTop(fd.sim, q, Stored(entries), k, minSim);
    SmallIndexIsExact(modelName, config, fd, entries, q, k, ef, minSim);
    SameSimsSameHits(fd.sim, q, Stored(entries),
                     IndexHits(InsertAll(Empty(modelName, config), fd, entries), fd, q, k, ef, minSim),
                     LinearScan(fd.sim, q, Stored(entries), k, minSim), at, bt);
  }
}
