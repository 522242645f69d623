/** The layered index: insertion with back-links and pruning, and the greedy descent. Functions say
    what one operation does to a whole index; the class in `HnswClass` runs the program's loops and
    is proved to compute them. */
module HnswIndex {
  import opened Sequences
  import opened Heaps
  import opened HnswSearch

  datatype Config = Config(m: nat, efConstruction: nat, efSearch: nat)

  const DEFAULT_CONFIG := Config(16, 200, 50)

  /** `order` lists the keys of `nodes` in insertion order, as the program's map does;
      `entry` is `None` where the program stores -1. */
  datatype Index = Index(
    nodes: Graph, order: seq<nat>, entry: Option<nat>, maxLayer: nat, nextId: nat,
    modelName: string, config: Config)

  /** How the index searches a layer: by a similarity, and a function from graph, query, entry node,
      beam width and layer to what it finds. */
  datatype Finder = Finder(sim: Similarity, find: (Graph, Vector, nat, nat, nat) -> seq<HeapItem>)

  /** The program's finder. */
  function BeamOf(sim: Similarity): Finder {
    Finder(sim, (g: Graph, q: Vector, entry: nat, ef: nat, layer: nat) =>
             if ef >= 1 then Scope(g, sim, q, ef, layer).Search(entry) else [])
  }

  ghost predicate BeamAt(fd: Finder, g: Graph, q: Vector, entry: nat, ef: nat, layer: nat) {
    ef >= 1 ==> fd.find(g, q, entry, ef, layer) == Scope(g, fd.sim, q, ef, layer).Search(entry)
  }

  /** What a finder must be to be the program's: it finds what the beam search finds. */
  ghost predicate IsBeam(fd: Finder) {
    forall g, q, entry, ef, layer :: BeamAt(fd, g, q, entry, ef, layer)
  }

  lemma BeamOfIsBeam(sim: Similarity)
    ensures IsBeam(BeamOf(sim))
  {
  }

  // ---------- operations on values ----------

  /** Where a greedy step on one layer moves to. */
  function Closest(g: Graph, fd: Finder, q: Vector, entry: nat, layer: nat): nat {
    var r := fd.find(g, q, entry, 1, layer);
    if r != [] then r[0].id else entry
  }

  /** Greedy descent through the layers `from`, `from - 1`, ..., `floor + 1`. */
  function Descend(g: Graph, fd: Finder, q: Vector, entry: nat, from: nat, floor: nat): nat
    decreases from
  {
    if from <= floor then entry
    else Descend(g, fd, q, Closest(g, fd, q, entry, from), from - 1, floor)
  }

  predicate LivesOn(g: Graph, n: nat, layer: int) {
    n in g && layer < |g[n].neighbors|
  }

  function SetLinks(g: Graph, n: nat, layer: nat, links: seq<nat>): Graph
    requires LivesOn(g, n, layer)
  {
    g[n := g[n].(neighbors := g[n].neighbors[layer := links])]
  }

  function Scored(g: Graph, fd: Finder, v: Vector, ids: seq<nat>): seq<HeapItem> {
    if ids == [] then []
    else
      var rest := Scored(g, fd, v, ids[1..]);
      if ids[0] in g then [HeapItem(ids[0], 1.0 - fd.sim(v, g[ids[0]].vector))] + rest else rest
  }

  /** The `m` nearest of the given nodes. */
  function Pruned(g: Graph, fd: Finder, v: Vector, ids: seq<nat>, m: nat): seq<nat> {
    Ids(Take(SortBy((x: HeapItem) => x.dist, Scored(g, fd, v, ids)), m))
  }

  /** The list of `n` with the link to `id`, pruned when it outgrows 2m. */
  function Extended(g: Graph, fd: Finder, id: nat, n: nat, layer: nat, m: nat): seq<nat>
    requires LivesOn(g, n, layer)
  {
    var links := g[n].neighbors[layer] + [id];
    if |links| > m * 2 then Pruned(g, fd, g[n].vector, links, m) else links
  }

  /** Adds the link from `n` to `id`. */
  function BackLink(g: Graph, fd: Finder, id: nat, n: nat, layer: nat, m: nat): Graph {
    if !LivesOn(g, n, layer) then g else SetLinks(g, n, layer, Extended(g, fd, id, n, layer, m))
  }

  function BackLinkAll(g: Graph, fd: Finder, id: nat, ns: seq<nat>, layer: nat, m: nat): Graph
    decreases |ns|
  {
    if ns == [] then g else BackLinkAll(BackLink(g, fd, id, ns[0], layer, m), fd, id, ns[1..], layer, m)
  }

  /** Links `id` into one layer; returns the graph and the entry for the layer below. */
  function ConnectLayer(g: Graph, fd: Finder, id: nat, v: Vector, entry: nat, layer: nat, config: Config): (Graph, nat)
    requires config.efConstruction >= 1
  {
    var found := fd.find(g, v, entry, config.efConstruction, layer);
    var selected := Ids(Take(found, config.m));
    var g1 := if LivesOn(g, id, layer) then SetLinks(g, id, layer, selected) else g;
    (BackLinkAll(g1, fd, id, selected, layer, config.m), if found != [] then found[0].id else entry)
  }

  function ConnectDown(g: Graph, fd: Finder, id: nat, v: Vector, entry: nat, layer: int, config: Config): Graph
    requires config.efConstruction >= 1
    decreases layer + 1
  {
    if layer < 0 then g
    else
      var (g', entry') := ConnectLayer(g, fd, id, v, entry, layer, config);
      ConnectDown(g', fd, id, v, entry', layer - 1, config)
  }

  function EmptyLists(n: nat): (r: seq<seq<nat>>)
    ensures |r| == n && forall i :: 0 <= i < n ==> r[i] == []
  {
    seq(n, _ => [])
  }

  /** `insertOne` with the randomly drawn layer as an argument. */
  function Insert(ix: Index, fd: Finder, chunkId: string, vector: Vector, nodeLayer: nat): Index
    requires ix.config.efConstruction >= 1
  {
    if vector == [] then ix
    else
      var id := ix.nextId;
      var g := ix.nodes[id := Node(chunkId, vector, EmptyLists(nodeLayer + 1))];
      var ix1 := ix.(nodes := g, order := if id in ix.nodes then ix.order else ix.order + [id], nextId := id + 1);
      if ix.entry.None? then ix1.(entry := Some(id), maxLayer := nodeLayer)
      else
        var start := Descend(g, fd, vector, ix.entry.value, ix.maxLayer, nodeLayer);
        var top := if nodeLayer < ix.maxLayer then nodeLayer else ix.maxLayer;
        var ix2 := ix1.(nodes := ConnectDown(g, fd, id, vector, start, top, ix.config));
        if nodeLayer > ix.maxLayer then ix2.(maxLayer := nodeLayer, entry := Some(id)) else ix2
  }

  datatype Entry = Entry(chunkId: string, vector: Vector, layer: nat)

  function InsertAll(ix: Index, fd: Finder, entries: seq<Entry>): Index
    requires ix.config.efConstruction >= 1
    decreases |entries|
  {
    if entries == [] then ix
    else InsertAll(Insert(ix, fd, entries[0].chunkId, entries[0].vector, entries[0].layer), fd, entries[1..])
  }

  function Empty(modelName: string, config: Config): Index {
    Index(map[], [], None, 0, 0, modelName, config)
  }

  // ---------- well-formed graphs ----------

  ghost predicate LinksOk(g: Graph, m: nat, n: nat, layer: nat, links: seq<nat>) {
    && |links| <= 2 * m && NoDup(links)
    && forall x :: x in links ==> x != n && LivesOn(g, x, layer)
  }

  ghost predicate GraphOk(g: Graph, m: nat) {
    forall n, layer: nat :: LivesOn(g, n, layer) ==> LinksOk(g, m, n, layer, g[n].neighbors[layer])
  }

  /** Ids are handed out in order and never lost. */
  ghost predicate IdsOk(ix: Index) {
    && (forall n: nat :: n in ix.nodes <==> n < ix.nextId)
    && |ix.order| == ix.nextId && (forall i :: 0 <= i < ix.nextId ==> ix.order[i] == i)
  }

  /** The entry point stands on the highest layer of all nodes. */
  ghost predicate EntryOk(g: Graph, entry: Option<nat>, maxLayer: nat) {
    && (entry.None? ==> g == map[])
    && (entry.Some? ==> entry.value in g && |g[entry.value].neighbors| == maxLayer + 1)
    && (forall n :: n in g ==> 1 <= |g[n].neighbors| <= maxLayer + 1)
  }

  /** The whole-index invariant. */
  ghost predicate Valid(ix: Index) {
    && ix.config.m >= 1 && ix.config.efConstruction >= 1
    && GraphOk(ix.nodes, ix.config.m)
    && IdsOk(ix)
    && EntryOk(ix.nodes, ix.entry, ix.maxLayer)
  }

  ghost predicate SameShape(g: Graph, h: Graph) {
    && g.Keys == h.Keys
    && forall n :: n in g ==>
         g[n].chunkId == h[n].chunkId && g[n].vector == h[n].vector && |g[n].neighbors| == |h[n].neighbors|
  }

  /** No list on the layers up to `layer` mentions `id` yet. */
  ghost predicate Unlinked(g: Graph, id: nat, layer: int) {
    forall n, l: nat :: l <= layer && LivesOn(g, n, l) ==> id !in g[n].neighbors[l]
  }

  /** No list mentions `id`. */
  ghost predicate NotMentioned(g: Graph, id: nat) {
    forall n, l: nat :: LivesOn(g, n, l) ==> id !in g[n].neighbors[l]
  }

  lemma {:induction false} ScoredOk(g: Graph, fd: Finder, v: Vector, ids: seq<nat>)
    requires NoDup(ids)
    ensures NoDup(Ids(Scored(g, fd, v, ids)))
    ensures forall x :: x in Scored(g, fd, v, ids) ==> x.id in ids
  {
    if ids != [] {
      ScoredOk(g, fd, v, ids[1..]);
      var rest := Scored(g, fd, v, ids[1..]);
      assert ids == [ids[0]] + ids[1..];
      forall i | 0 <= i < |rest| ensures rest[i].id != ids[0] {
        assert rest[i] in rest;
      }
    }
  }

  lemma PermutedIds(a: seq<HeapItem>, b: seq<HeapItem>)
    requires multiset(a) == multiset(b) && NoDup(Ids(a))
    ensures NoDup(Ids(b))
  {
    SameMembers(a, b);
    assert NoDup(a) by {
      forall i, j | 0 <= i < j < |a| ensures a[i] != a[j] { assert Ids(a)[i] != Ids(a)[j]; }
    }
    NoDupPermuted(a, b);
    forall i, j | 0 <= i < j < |b| ensures Ids(b)[i] != Ids(b)[j] {
      assert b[i] in a && b[j] in a;
      var p :| 0 <= p < |a| && a[p] == b[i];
      var q :| 0 <= q < |a| && a[q] == b[j];
      assert p != q;
      assert Ids(a)[p] != Ids(a)[q];
    }
  }

  lemma PrunedOk(g: Graph, fd: Finder, v: Vector, ids: seq<nat>, m: nat)
    requires NoDup(ids)
    ensures NoDup(Pruned(g, fd, v, ids, m)) && |Pruned(g, fd, v, ids, m)| <= m
    ensures forall x :: x in Pruned(g, fd, v, ids, m) ==> x in ids
  {
    var key := (x: HeapItem) => x.dist;
    var scored := Scored(g, fd, v, ids);
    ScoredOk(g, fd, v, ids);
    SortByOk(key, scored);
    var sorted := SortBy(key, scored);
    PermutedIds(scored, sorted);
    SameMembers(scored, sorted);
    var kept := Take(sorted, m);
    forall i, j | 0 <= i < j < |kept| ensures Ids(kept)[i] != Ids(kept)[j] {
      assert Ids(sorted)[i] != Ids(sorted)[j];
    }
    forall x | x in Ids(kept) ensures x in ids {
      var i :| 0 <= i < |kept| && Ids(kept)[i] == x;
      assert sorted[i] in scored;
    }
  }

  lemma SetLinksOk(g: Graph, m: nat, n: nat, layer: nat, links: seq<nat>)
    requires GraphOk(g, m) && LivesOn(g, n, layer) && LinksOk(g, m, n, layer, links)
    ensures GraphOk(SetLinks(g, n, layer, links), m) && SameShape(g, SetLinks(g, n, layer, links))
  {
    var h := SetLinks(g, n, layer, links);
    forall k, l: nat | LivesOn(h, k, l) ensures LinksOk(h, m, k, l, h[k].neighbors[l]) {
      assert LivesOn(g, k, l);
      if k != n || l != layer { assert h[k].neighbors[l] == g[k].neighbors[l]; }
    }
  }

  lemma BackLinkOk(g: Graph, fd: Finder, id: nat, n: nat, layer: nat, m: nat)
    requires GraphOk(g, m) && LivesOn(g, id, layer) && LivesOn(g, n, layer) && n != id && id !in g[n].neighbors[layer]
    ensures GraphOk(BackLink(g, fd, id, n, layer, m), m) && SameShape(g, BackLink(g, fd, id, n, layer, m))
  {
    var links := g[n].neighbors[layer] + [id];
    assert LinksOk(g, m, n, layer, g[n].neighbors[layer]);
    assert NoDup(links);
    PrunedOk(g, fd, g[n].vector, links, m);
    var kept := Extended(g, fd, id, n, layer, m);
    assert LinksOk(g, m, n, layer, kept);
    SetLinksOk(g, m, n, layer, kept);
  }

  lemma {:induction false} BackLinkAllOk(g: Graph, fd: Finder, id: nat, ns: seq<nat>, layer: nat, m: nat)
    requires GraphOk(g, m) && LivesOn(g, id, layer) && NoDup(ns) && Unlinked(g, id, layer - 1)
    requires forall n :: n in ns ==> n != id && LivesOn(g, n, layer) && id !in g[n].neighbors[layer]
    ensures var h := BackLinkAll(g, fd, id, ns, layer, m);
      GraphOk(h, m) && SameShape(g, h) && Unlinked(h, id, layer - 1)
    decreases |ns|
  {
    if ns != [] {
      var h := BackLink(g, fd, id, ns[0], layer, m);
      BackLinkOk(g, fd, id, ns[0], layer, m);
      forall n | n in ns[1..] ensures n != id && LivesOn(h, n, layer) && id !in h[n].neighbors[layer] {
        assert n in ns && n != ns[0];
        assert h[n] == g[n];
      }
      forall n, l: nat | l <= layer - 1 && LivesOn(h, n, l) ensures id !in h[n].neighbors[l] {
        assert LivesOn(g, n, l) && h[n].neighbors[l] == g[n].neighbors[l];
      }
      BackLinkAllOk(h, fd, id, ns[1..], layer, m);
    }
  }

  /** A search that starts on a layer stays on it, and cannot find a node no list mentions. */
  lemma SearchStays(sc: Scope, m: nat, entry: nat, id: nat)
    requires sc.ef >= 1 && GraphOk(sc.nodes, m) && LivesOn(sc.nodes, entry, sc.layer)
    requires entry != id && Unlinked(sc.nodes, id, sc.layer)
    ensures var r := sc.Search(entry);
      r != [] && NoDup(Ids(r)) && forall x :: x in Ids(r) ==> x != id && LivesOn(sc.nodes, x, sc.layer)
  {
    sc.SearchReturnsNearest(entry);
    var home := set n | n in sc.nodes && n != id && LivesOn(sc.nodes, n, sc.layer);
    forall n, k | n in home && k in sc.Links(n) && k in sc.nodes ensures k in home {
      assert LinksOk(sc.nodes, m, n, sc.layer, sc.nodes[n].neighbors[sc.layer]);
    }
    sc.ReachableLeast(entry, home);
    var r := sc.Search(entry);
    forall x | x in Ids(r) ensures x in home {
      var i :| 0 <= i < |r| && Ids(r)[i] == x;
      assert r[i] in r;
    }
  }

  /** What insertion relies on: started on a node of a layer, a search returns distinct nodes of that
      layer, nearest first, as many as it may or all it can reach, first one with no nearer neighbour,
      and never one that no list mentions. */
  ghost predicate FindsWell(fd: Finder, g: Graph, q: Vector, entry: nat, ef: nat, layer: nat, m: nat, id: nat) {
    ef >= 1 && GraphOk(g, m) && LivesOn(g, entry, layer) && entry != id && Unlinked(g, id, layer) ==>
      && Scope(g, fd.sim, q, ef, layer).Found(entry, fd.find(g, q, entry, ef, layer))
      && forall x :: x in Ids(fd.find(g, q, entry, ef, layer)) ==> x != id && LivesOn(g, x, layer)
  }

  ghost predicate Sound(fd: Finder) {
    forall g, q, entry, ef, layer, m, id :: FindsWell(fd, g, q, entry, ef, layer, m, id)
  }

  lemma BeamIsSound(fd: Finder)
    requires IsBeam(fd)
    ensures Sound(fd)
  {
    forall g, q, entry, ef, layer, m, id ensures FindsWell(fd, g, q, entry, ef, layer, m, id) {
      assert BeamAt(fd, g, q, entry, ef, layer);
      BeamFindsWell(fd, g, q, entry, ef, layer, m, id);
    }
  }

  lemma BeamFindsWell(fd: Finder, g: Graph, q: Vector, entry: nat, ef: nat, layer: nat, m: nat, id: nat)
    requires BeamAt(fd, g, q, entry, ef, layer)
    ensures FindsWell(fd, g, q, entry, ef, layer, m, id)
  {
    if ef >= 1 && GraphOk(g, m) && LivesOn(g, entry, layer) && entry != id && Unlinked(g, id, layer) {
      var sc := Scope(g, fd.sim, q, ef, layer);
      SearchStays(sc, m, entry, id);
      sc.SearchFinds(entry);
    }
  }

  /** Links fit for a new node: at most `m` other nodes of the layer, nearest first. */
  ghost predicate Chosen(g: Graph, fd: Finder, v: Vector, id: nat, layer: nat, sel: seq<nat>, m: nat) {
    && 1 <= |sel| <= m && NoDup(sel)
    && (forall x :: x in sel ==> x in g && x != id && LivesOn(g, x, layer))
    && (forall i, j :: 0 <= i < j < |sel| ==>
          sel[i] in g && sel[j] in g && fd.sim(v, g[sel[i]].vector) >= fd.sim(v, g[sel[j]].vector))
  }

  lemma ChosenFrom(sc: Scope, fd: Finder, m: nat, id: nat, found: seq<HeapItem>)
    requires m >= 1 && fd.sim == sc.sim && sc.Ranked(found)
    requires forall x :: x in Ids(found) ==> x != id && LivesOn(sc.nodes, x, sc.layer)
    ensures Chosen(sc.nodes, fd, sc.query, id, sc.layer, Ids(Take(found, m)), m)
  {
    var sel := Ids(Take(found, m));
    assert forall i :: 0 <= i < |sel| ==> sel[i] == Ids(found)[i] == found[i].id;
    forall x | x in sel ensures x in Ids(found) {
      var i :| 0 <= i < |sel| && sel[i] == x;
    }
    forall i, j | 0 <= i < j < |sel|
      ensures sel[i] in sc.nodes && sel[j] in sc.nodes
      ensures sc.sim(sc.query, sc.nodes[sel[i]].vector) >= sc.sim(sc.query, sc.nodes[sel[j]].vector)
    {
      assert found[i].dist <= found[j].dist && found[i] == sc.Item(sel[i]) && found[j] == sc.Item(sel[j]);
    }
  }

  /** The links of a new node on one layer, and the entry for the layer below. */
  lemma SelectedOk(fd: Finder, g: Graph, v: Vector, entry: nat, ef: nat, layer: nat, m: nat, id: nat)
    requires Sound(fd) && ef >= 1 && m >= 1 && GraphOk(g, m) && LivesOn(g, entry, layer)
    requires entry != id && Unlinked(g, id, layer)
    ensures var found := fd.find(g, v, entry, ef, layer);
      && Chosen(g, fd, v, id, layer, Ids(Take(found, m)), m)
      && found != [] && found[0].id != id && LivesOn(g, found[0].id, layer)
  {
    assert FindsWell(fd, g, v, entry, ef, layer, m, id);
    var found := fd.find(g, v, entry, ef, layer);
    ChosenFrom(Scope(g, fd.sim, v, ef, layer), fd, m, id, found);
    assert Ids(found)[0] in Ids(found);
  }

  /** The new node `id` can be linked into `layer` and the layers below, starting at `entry`. */
  ghost predicate Ready(g: Graph, id: nat, v: Vector, entry: nat, layer: int, m: nat) {
    && m >= 1 && GraphOk(g, m) && id in g && g[id].vector == v
    && LivesOn(g, id, layer) && LivesOn(g, entry, layer) && entry != id && Unlinked(g, id, layer)
  }

  /** Setting the links of the new node prepares its neighbours for the links back. */
  lemma OwnLinksOk(g: Graph, fd: Finder, v: Vector, id: nat, layer: nat, sel: seq<nat>, m: nat)
    requires GraphOk(g, m) && LivesOn(g, id, layer) && Unlinked(g, id, layer) && Chosen(g, fd, v, id, layer, sel, m)
    ensures var g1 := SetLinks(g, id, layer, sel);
      && GraphOk(g1, m) && SameShape(g, g1) && Unlinked(g1, id, layer - 1) && LivesOn(g1, id, layer)
      && forall n :: n in sel ==> n != id && LivesOn(g1, n, layer) && id !in g1[n].neighbors[layer]
  {
    SetLinksOk(g, m, id, layer, sel);
    var g1 := SetLinks(g, id, layer, sel);
    forall n, l: nat | l <= layer - 1 && LivesOn(g1, n, l) ensures id !in g1[n].neighbors[l] {
      assert LivesOn(g, n, l);
    }
    forall n | n in sel ensures n != id && LivesOn(g1, n, layer) && id !in g1[n].neighbors[layer] {
      assert LivesOn(g, n, layer);
    }
  }

  lemma ConnectLayerOk(g: Graph, fd: Finder, id: nat, v: Vector, entry: nat, layer: nat, config: Config)
    requires Sound(fd) && config.efConstruction >= 1 && Ready(g, id, v, entry, layer, config.m)
    ensures var step := ConnectLayer(g, fd, id, v, entry, layer, config);
      SameShape(g, step.0) && Ready(step.0, id, v, step.1, layer - 1, config.m)
  {
    SelectedOk(fd, g, v, entry, config.efConstruction, layer, config.m, id);
    var selected := Ids(Take(fd.find(g, v, entry, config.efConstruction, layer), config.m));
    OwnLinksOk(g, fd, v, id, layer, selected, config.m);
    BackLinkAllOk(SetLinks(g, id, layer, selected), fd, id, selected, layer, config.m);
  }

  lemma {:induction false} ConnectDownOk(g: Graph, fd: Finder, id: nat, v: Vector, entry: nat, layer: int,
                                         config: Config)
    requires Sound(fd) && config.efConstruction >= 1 && Ready(g, id, v, entry, layer, config.m)
    ensures GraphOk(ConnectDown(g, fd, id, v, entry, layer, config), config.m)
    ensures SameShape(g, ConnectDown(g, fd, id, v, entry, layer, config))
    decreases layer + 1
  {
    if layer >= 0 {
      var step := ConnectLayer(g, fd, id, v, entry, layer, config);
      ConnectLayerOk(g, fd, id, v, entry, layer, config);
      ConnectDownOk(step.0, fd, id, v, step.1, layer - 1, config);
    }
  }

  ghost predicate StartOk(g: Graph, entry: nat, id: nat, layer: int) {
    entry != id && LivesOn(g, entry, layer)
  }

  lemma ClosestOk(g: Graph, fd: Finder, q: Vector, entry: nat, layer: nat, m: nat, id: nat)
    requires Sound(fd) && GraphOk(g, m) && LivesOn(g, entry, layer) && entry != id && NotMentioned(g, id)
    ensures LivesOn(g, Closest(g, fd, q, entry, layer), layer) && Closest(g, fd, q, entry, layer) != id
  {
    assert FindsWell(fd, g, q, entry, 1, layer, m, id);
    var r := fd.find(g, q, entry, 1, layer);
    assert Ids(r)[0] == r[0].id && r[0].id in Ids(r);
  }

  lemma {:induction false} DescendOk(g: Graph, fd: Finder, q: Vector, entry: nat, from: nat, floor: nat, m: nat,
                                     id: nat)
    requires Sound(fd) && GraphOk(g, m) && LivesOn(g, entry, from) && entry != id && NotMentioned(g, id)
    ensures StartOk(g, Descend(g, fd, q, entry, from, floor), id, if from <= floor then from else floor)
    decreases from
  {
    if from > floor {
      ClosestOk(g, fd, q, entry, from, m, id);
      DescendOk(g, fd, q, Closest(g, fd, q, entry, from), from - 1, floor, m, id);
    }
  }

  /** A greedy step never moves away from the query, and ends where no neighbour is nearer. */
  lemma ClosestNearer(g: Graph, fd: Finder, q: Vector, entry: nat, layer: nat, m: nat, id: nat)
    requires Sound(fd) && GraphOk(g, m) && LivesOn(g, entry, layer) && entry != id && NotMentioned(g, id)
    ensures var c := Closest(g, fd, q, entry, layer);
      && c in g && fd.sim(q, g[c].vector) >= fd.sim(q, g[entry].vector)
      && Scope(g, fd.sim, q, 1, layer).LocalBest(c)
  {
    assert FindsWell(fd, g, q, entry, 1, layer, m, id);
  }

  /** The descent never moves away from the query, and on the last layer it went through it stopped
      where no neighbour is nearer. */
  lemma {:induction false} DescendNearer(g: Graph, fd: Finder, q: Vector, entry: nat, from: nat, floor: nat,
                                         m: nat, id: nat)
    requires Sound(fd) && GraphOk(g, m) && LivesOn(g, entry, from) && entry != id && NotMentioned(g, id)
    ensures var c := Descend(g, fd, q, entry, from, floor);
      && c in g && fd.sim(q, g[c].vector) >= fd.sim(q, g[entry].vector)
      && (from > floor ==> Scope(g, fd.sim, q, 1, floor + 1).LocalBest(c))
    decreases from
  {
    if from > floor {
      ClosestOk(g, fd, q, entry, from, m, id);
      ClosestNearer(g, fd, q, entry, from, m, id);
      DescendNearer(g, fd, q, Closest(g, fd, q, entry, from), from - 1, floor, m, id);
    }
  }

  /** A node without links keeps the graph well-formed, and no list mentions it. */
  lemma AddNodeOk(g: Graph, m: nat, id: nat, chunkId: string, vector: Vector, nodeLayer: nat)
    requires GraphOk(g, m) && id !in g
    ensures var h := g[id := Node(chunkId, vector, EmptyLists(nodeLayer + 1))];
      GraphOk(h, m) && NotMentioned(h, id)
  {
    var h := g[id := Node(chunkId, vector, EmptyLists(nodeLayer + 1))];
    forall n, l: nat | LivesOn(h, n, l) ensures LinksOk(h, m, n, l, h[n].neighbors[l]) && id !in h[n].neighbors[l] {
      if n != id {
        assert LivesOn(g, n, l);
        assert LinksOk(g, m, n, l, g[n].neighbors[l]);
      }
    }
  }

  lemma JoinOk(g: Graph, fd: Finder, id: nat, vector: Vector, entry: nat, maxLayer: nat, nodeLayer: nat, config: Config)
    requires Sound(fd) && config.m >= 1 && config.efConstruction >= 1 && GraphOk(g, config.m)
    requires LivesOn(g, id, nodeLayer) && g[id].vector == vector && LivesOn(g, entry, maxLayer) && entry != id
    requires NotMentioned(g, id)
    ensures var start := Descend(g, fd, vector, entry, maxLayer, nodeLayer);
      var h := ConnectDown(g, fd, id, vector, start, if nodeLayer < maxLayer then nodeLayer else maxLayer, config);
      GraphOk(h, config.m) && SameShape(g, h)
  {
    DescendOk(g, fd, vector, entry, maxLayer, nodeLayer, config.m, id);
    var start := Descend(g, fd, vector, entry, maxLayer, nodeLayer);
    ConnectDownOk(g, fd, id, vector, start, if nodeLayer < maxLayer then nodeLayer else maxLayer, config);
  }

  /** One insertion, on any layer, keeps the index valid. */
  lemma InsertKeepsValid(ix: Index, fd: Finder, chunkId: string, vector: Vector, nodeLayer: nat)
    requires Sound(fd) && Valid(ix)
    ensures Valid(Insert(ix, fd, chunkId, vector, nodeLayer))
  {
    if vector != [] {
      var id := ix.nextId;
      var g := ix.nodes[id := Node(chunkId, vector, EmptyLists(nodeLayer + 1))];
      AddNodeOk(ix.nodes, ix.config.m, id, chunkId, vector, nodeLayer);
      if ix.entry.Some? {
        JoinOk(g, fd, id, vector, ix.entry.value, ix.maxLayer, nodeLayer, ix.config);
      }
    }
  }

  lemma {:induction false} InsertsKeepValid(ix: Index, fd: Finder, entries: seq<Entry>)
    requires Sound(fd) && Valid(ix)
    ensures Valid(InsertAll(ix, fd, entries))
    decreases |entries|
  {
    if entries != [] {
      var e := entries[0];
      InsertKeepsValid(ix, fd, e.chunkId, e.vector, e.layer);
      InsertsKeepValid(Insert(ix, fd, e.chunkId, e.vector, e.layer), fd, entries[1..]);
    }
  }

  /** Whatever is inserted, in whatever order and on whatever layers, every link leads to another
      existing node of the same layer, no list repeats a link or exceeds 2m, and the entry point
      stands on the highest layer of all. */
  lemma InsertAllKeepsValid(ix: Index, fd: Finder, entries: seq<Entry>)
    requires IsBeam(fd) && Valid(ix)
    ensures Valid(InsertAll(ix, fd, entries))
  {
    BeamIsSound(fd);
    InsertsKeepValid(ix, fd, entries);
  }

  // ---------- what one insertion links ----------

  /** The lists of one layer. */
  ghost function LayerOf(g: Graph, layer: nat): map<nat, seq<nat>> {
    map n | n in g && LivesOn(g, n, layer) :: g[n].neighbors[layer]
  }

  /** What pruning keeps: as many links as allowed, and none of the dropped ones is nearer. */
  ghost predicate KeepsNearest(g: Graph, fd: Finder, v: Vector, links: seq<nat>, kept: seq<nat>, m: nat) {
    && (forall x :: x in kept ==> x in links)
    && (forall x :: x in links && x !in kept ==>
          |kept| == m && forall y :: y in kept ==> y in g && x in g && fd.sim(v, g[y].vector) >= fd.sim(v, g[x].vector))
  }

  lemma {:induction false} ScoredAll(g: Graph, fd: Finder, v: Vector, ids: seq<nat>)
    requires forall x :: x in ids ==> x in g
    ensures var r := Scored(g, fd, v, ids);
      |r| == |ids| && forall i :: 0 <= i < |ids| ==> r[i] == HeapItem(ids[i], 1.0 - fd.sim(v, g[ids[i]].vector))
  {
    if ids != [] {
      ScoredAll(g, fd, v, ids[1..]);
      assert forall i :: 1 <= i < |ids| ==> ids[i] == ids[1..][i - 1];
    }
  }

  /** The scored nodes by distance: `sorted` holds the given nodes, each at its own distance. */
  ghost predicate Scores(g: Graph, fd: Finder, v: Vector, ids: seq<nat>, sorted: seq<HeapItem>) {
    forall x :: x in sorted ==> x.id in ids && x.id in g && x.dist == 1.0 - fd.sim(v, g[x.id].vector)
  }

  lemma ScoresOf(g: Graph, fd: Finder, v: Vector, ids: seq<nat>)
    requires forall x :: x in ids ==> x in g
    ensures Scores(g, fd, v, ids, Scored(g, fd, v, ids))
    ensures forall x :: x in ids ==> x in Ids(Scored(g, fd, v, ids))
  {
    var scored := Scored(g, fd, v, ids);
    ScoredAll(g, fd, v, ids);
    forall x | x in ids ensures x in Ids(scored) {
      var i :| 0 <= i < |ids| && ids[i] == x;
      assert Ids(scored)[i] == x;
    }
  }

  lemma SortedIds(scored: seq<HeapItem>, sorted: seq<HeapItem>, x: nat)
    requires multiset(scored) == multiset(sorted) && x in Ids(scored)
    ensures x in Ids(sorted)
  {
    SameMembers(scored, sorted);
    var i :| 0 <= i < |scored| && Ids(scored)[i] == x;
    assert scored[i] in sorted;
    var p :| 0 <= p < |sorted| && sorted[p] == scored[i];
    assert Ids(sorted)[p] == x;
  }

  /** `sorted` lists the scored nodes `ids` nearest first. */
  ghost predicate SortedScores(g: Graph, fd: Finder, v: Vector, ids: seq<nat>, sorted: seq<HeapItem>) {
    && Scores(g, fd, v, ids, sorted)
    && (forall i, j :: 0 <= i < j < |sorted| ==> sorted[i].dist <= sorted[j].dist)
    && (forall x :: x in ids ==> x in Ids(sorted))
  }

  lemma SortScores(g: Graph, fd: Finder, v: Vector, ids: seq<nat>)
    requires forall x :: x in ids ==> x in g
    ensures SortedScores(g, fd, v, ids, SortBy((x: HeapItem) => x.dist, Scored(g, fd, v, ids)))
  {
    ScoresOf(g, fd, v, ids);
    SortKeepsScores(g, fd, v, ids, Scored(g, fd, v, ids));
  }

  lemma SortKeepsScores(g: Graph, fd: Finder, v: Vector, ids: seq<nat>, scored: seq<HeapItem>)
    requires Scores(g, fd, v, ids, scored) && forall x :: x in ids ==> x in Ids(scored)
    ensures SortedScores(g, fd, v, ids, SortBy((x: HeapItem) => x.dist, scored))
  {
    var key := (x: HeapItem) => x.dist;
    var sorted := SortBy(key, scored);
    SortByOk(key, scored);
    SameMembers(scored, sorted);
    forall x | x in ids ensures x in Ids(sorted) { SortedIds(scored, sorted, x); }
    forall i, j | 0 <= i < j < |sorted| ensures sorted[i].dist <= sorted[j].dist {
      assert key(sorted[i]) <= key(sorted[j]);
    }
  }

  lemma TopIsNearest(g: Graph, fd: Finder, v: Vector, ids: seq<nat>, sorted: seq<HeapItem>, m: nat)
    requires SortedScores(g, fd, v, ids, sorted)
    ensures KeepsNearest(g, fd, v, ids, Ids(Take(sorted, m)), m)
  {
    var kept := Ids(Take(sorted, m));
    assert kept == Ids(sorted)[..|kept|];
    forall y | y in kept ensures y in ids && y in g {
      var q :| 0 <= q < |kept| && kept[q] == y;
      assert sorted[q] in sorted;
    }
    forall x, y | x in ids && x !in kept && y in kept
      ensures x in g && y in g && fd.sim(v, g[y].vector) >= fd.sim(v, g[x].vector)
    {
      var p :| 0 <= p < |sorted| && Ids(sorted)[p] == x;
      var q :| 0 <= q < |kept| && kept[q] == y;
      assert sorted[p] in sorted && sorted[q] in sorted && sorted[q].dist <= sorted[p].dist;
    }
  }

  lemma PrunedKeepsNearest(g: Graph, fd: Finder, v: Vector, ids: seq<nat>, m: nat)
    requires forall x :: x in ids ==> x in g
    ensures KeepsNearest(g, fd, v, ids, Pruned(g, fd, v, ids, m), m)
  {
    SortScores(g, fd, v, ids);
    TopIsNearest(g, fd, v, ids, SortBy((x: HeapItem) => x.dist, Scored(g, fd, v, ids)), m);
  }

  /** How the list `prior` of a chosen neighbour looks after it was told about `id`. */
  ghost predicate Reciprocal(g: Graph, fd: Finder, v: Vector, prior: seq<nat>, links: seq<nat>, id: nat, m: nat) {
    if |prior| < 2 * m then links == prior + [id] else KeepsNearest(g, fd, v, prior + [id], links, m)
  }

  /** Layer `layer` of `h` is that of `g` with `id` joined: `id` links to at most m nodes in
      order of distance, each of them took up the link back or kept m links no farther than it,
      and nobody else's list changed. */
  ghost predicate Joined(g: Graph, h: Graph, fd: Finder, id: nat, layer: nat, m: nat) {
    var before, after := LayerOf(g, layer), LayerOf(h, layer);
    && id in before && id in g && before.Keys == after.Keys
    && Chosen(g, fd, g[id].vector, id, layer, after[id], m)
    && (forall n :: n in before && n != id && n !in after[id] ==> after[n] == before[n])
    && (forall n :: n in after[id] && n in before && n in g ==>
          Reciprocal(g, fd, g[n].vector, before[n], after[n], id, m))
  }

  ghost predicate JoinedIf(shared: bool, g: Graph, h: Graph, fd: Finder, id: nat, layer: nat, m: nat) {
    if shared then Joined(g, h, fd, id, layer, m) else LayerOf(h, layer) == LayerOf(g, layer)
  }

  /** The layers other than `layer` are the same. */
  ghost predicate OthersSame(g: Graph, h: Graph, layer: nat) {
    forall l: nat :: l != layer ==> LayerOf(h, l) == LayerOf(g, l)
  }

  /** Only layer `layer` differs, and there `id` is joined. */
  ghost predicate JoinedAt(g: Graph, h: Graph, fd: Finder, id: nat, layer: nat, m: nat) {
    && Joined(g, h, fd, id, layer, m)
    && OthersSame(g, h, layer)
  }

  lemma SetLinksLayers(g: Graph, n: nat, layer: nat, links: seq<nat>)
    requires LivesOn(g, n, layer)
    ensures var h := SetLinks(g, n, layer, links);
      LayerOf(h, layer) == LayerOf(g, layer)[n := links] && OthersSame(g, h, layer)
  {
    var h := SetLinks(g, n, layer, links);
    forall l: nat | l != layer ensures LayerOf(h, l) == LayerOf(g, l) {
      forall k ensures k in LayerOf(h, l) <==> k in LayerOf(g, l) { }
    }
  }

  /** The nodes `ns` of a layer can be told about `id`: none of them lists it yet. */
  ghost predicate Tellable(g0: Graph, g: Graph, id: nat, ns: seq<nat>, layer: nat, m: nat) {
    && SameShape(g0, g) && GraphOk(g, m) && m >= 1 && LivesOn(g, id, layer) && NoDup(ns)
    && forall n :: n in ns ==> n != id && LivesOn(g, n, layer) && id !in g[n].neighbors[layer]
  }

  /** The lists of one layer before and after the nodes `ns` were told about `id`. */
  ghost predicate Told(g: Graph, fd: Finder, before: map<nat, seq<nat>>, after: map<nat, seq<nat>>,
                       ns: seq<nat>, id: nat, m: nat)
  {
    && before.Keys == after.Keys
    && (forall n :: n in before && n !in ns ==> after[n] == before[n])
    && (forall n :: n in ns && n in before && n in g ==>
          Reciprocal(g, fd, g[n].vector, before[n], after[n], id, m))
  }

  /** Told first one node, then the rest. */
  lemma ToldStep(g: Graph, fd: Finder, before: map<nat, seq<nat>>, next: map<nat, seq<nat>>,
                 after: map<nat, seq<nat>>, n: nat, rest: seq<nat>, id: nat, m: nat)
    requires n !in rest && Told(g, fd, before, next, [n], id, m) && Told(g, fd, next, after, rest, id, m)
    ensures Told(g, fd, before, after, [n] + rest, id, m)
  {
    assert n in [n];
    forall k | k in before && k !in [n] + rest ensures after[k] == before[k] {
      assert k !in [n];
    }
    forall k | k in [n] + rest && k in before && k in g
      ensures Reciprocal(g, fd, g[k].vector, before[k], after[k], id, m)
    {
      if k in rest { assert k !in [n]; } else { assert k == n; }
    }
  }

  /** The list a back-link leaves behind depends on the vectors only. */
  lemma ExtendedIsReciprocal(g0: Graph, g: Graph, fd: Finder, id: nat, n: nat, layer: nat, m: nat)
    requires Tellable(g0, g, id, [n], layer, m) && LivesOn(g, n, layer)
    ensures Reciprocal(g0, fd, g0[n].vector, g[n].neighbors[layer], Extended(g, fd, id, n, layer, m), id, m)
  {
    assert n in [n];
    var prior := g[n].neighbors[layer];
    assert LinksOk(g, m, n, layer, prior);
    PrunedKeepsNearest(g, fd, g[n].vector, prior + [id], m);
    NearestSame(g0, g, fd, g[n].vector, prior + [id], Extended(g, fd, id, n, layer, m), m);
  }

  lemma NearestSame(g0: Graph, g: Graph, fd: Finder, v: Vector, links: seq<nat>, kept: seq<nat>, m: nat)
    requires SameShape(g0, g)
    ensures KeepsNearest(g, fd, v, links, kept, m) ==> KeepsNearest(g0, fd, v, links, kept, m)
  {
  }

  /** Changing one list tells one node. */
  lemma UpdateTells(g: Graph, fd: Finder, before: map<nat, seq<nat>>, n: nat, links: seq<nat>, id: nat, m: nat)
    requires n in before && n in g && Reciprocal(g, fd, g[n].vector, before[n], links, id, m)
    ensures Told(g, fd, before, before[n := links], [n], id, m)
  {
  }

  lemma BackLinkTells(g0: Graph, g: Graph, fd: Finder, id: nat, n: nat, layer: nat, m: nat)
    requires Tellable(g0, g, id, [n], layer, m)
    ensures var h := BackLink(g, fd, id, n, layer, m);
      Told(g0, fd, LayerOf(g, layer), LayerOf(h, layer), [n], id, m) && OthersSame(g, h, layer)
  {
    assert n in [n];
    ExtendedIsReciprocal(g0, g, fd, id, n, layer, m);
    var links := Extended(g, fd, id, n, layer, m);
    UpdateTells(g0, fd, LayerOf(g, layer), n, links, id, m);
    SetLinksLayers(g, n, layer, links);
  }

  /** Telling one node leaves the others to be told. */
  lemma TellOthers(g0: Graph, g: Graph, fd: Finder, id: nat, n: nat, rest: seq<nat>, layer: nat, m: nat)
    requires Tellable(g0, g, id, [n] + rest, layer, m)
    ensures n !in rest && Tellable(g0, g, id, [n], layer, m)
    ensures Tellable(g0, BackLink(g, fd, id, n, layer, m), id, rest, layer, m)
  {
    var ns := [n] + rest;
    assert ns[0] == n && rest == ns[1..];
    assert n in ns;
    BackLinkOk(g, fd, id, n, layer, m);
    var h := BackLink(g, fd, id, n, layer, m);
    forall k | k in rest ensures k != id && LivesOn(h, k, layer) && id !in h[k].neighbors[layer] {
      assert k in ns && k != n;
      assert h[k] == g[k];
    }
  }

  lemma {:induction false} BackLinkAllLayers(g0: Graph, g: Graph, fd: Finder, id: nat, ns: seq<nat>, layer: nat, m: nat)
    requires Tellable(g0, g, id, ns, layer, m)
    ensures var h := BackLinkAll(g, fd, id, ns, layer, m);
      Told(g0, fd, LayerOf(g, layer), LayerOf(h, layer), ns, id, m) && OthersSame(g, h, layer)
    decreases |ns|
  {
    if ns != [] {
      HeadTail(ns);
      var h := BackLink(g, fd, id, ns[0], layer, m);
      TellOthers(g0, g, fd, id, ns[0], ns[1..], layer, m);
      BackLinkTells(g0, g, fd, id, ns[0], layer, m);
      BackLinkAllLayers(g0, h, fd, id, ns[1..], layer, m);
      ToldStep(g0, fd, LayerOf(g, layer), LayerOf(h, layer),
               LayerOf(BackLinkAll(h, fd, id, ns[1..], layer, m), layer), ns[0], ns[1..], id, m);
    }
  }

  lemma ConnectLayerJoins(g: Graph, fd: Finder, id: nat, v: Vector, entry: nat, layer: nat, config: Config)
    requires Sound(fd) && config.efConstruction >= 1 && Ready(g, id, v, entry, layer, config.m)
    ensures JoinedAt(g, ConnectLayer(g, fd, id, v, entry, layer, config).0, fd, id, layer, config.m)
  {
    SelectedOk(fd, g, v, entry, config.efConstruction, layer, config.m, id);
    var selected := Ids(Take(fd.find(g, v, entry, config.efConstruction, layer), config.m));
    OwnLinksOk(g, fd, v, id, layer, selected, config.m);
    BackLinksJoin(g, fd, id, selected, layer, config.m);
  }

  lemma BackLinksJoin(g: Graph, fd: Finder, id: nat, sel: seq<nat>, layer: nat, m: nat)
    requires m >= 1 && GraphOk(g, m) && LivesOn(g, id, layer) && Unlinked(g, id, layer)
    requires Chosen(g, fd, g[id].vector, id, layer, sel, m)
    ensures JoinedAt(g, BackLinkAll(SetLinks(g, id, layer, sel), fd, id, sel, layer, m), fd, id, layer, m)
  {
    var g1 := SetLinks(g, id, layer, sel);
    OwnLinksOk(g, fd, g[id].vector, id, layer, sel, m);
    SetLinksLayers(g, id, layer, sel);
    BackLinkAllLayers(g, g1, fd, id, sel, layer, m);
    var h := BackLinkAll(g1, fd, id, sel, layer, m);
    assert id !in sel;
    assert LayerOf(h, layer)[id] == sel;
    forall n | n in sel && n in LayerOf(g, layer) && n in g
      ensures Reciprocal(g, fd, g[n].vector, LayerOf(g, layer)[n], LayerOf(h, layer)[n], id, m)
    {
      assert LayerOf(g1, layer)[n] == LayerOf(g, layer)[n];
    }
  }

  lemma {:induction false} ConnectDownJoins(g: Graph, fd: Finder, id: nat, v: Vector, entry: nat, layer: int,
                                            config: Config, l: nat)
    requires Sound(fd) && config.efConstruction >= 1 && Ready(g, id, v, entry, layer, config.m)
    ensures JoinedIf(l <= layer, g, ConnectDown(g, fd, id, v, entry, layer, config), fd, id, l, config.m)
    decreases layer + 1
  {
    if layer >= 0 {
      var step := ConnectLayer(g, fd, id, v, entry, layer, config);
      var h := ConnectDown(step.0, fd, id, v, step.1, layer - 1, config);
      ConnectLayerOk(g, fd, id, v, entry, layer, config);
      ConnectLayerJoins(g, fd, id, v, entry, layer, config);
      ConnectDownJoins(step.0, fd, id, v, step.1, layer - 1, config, l);
      JoinsCompose(g, step.0, h, fd, id, layer, l, config.m);
    }
  }

  lemma JoinsCompose(g: Graph, g': Graph, h: Graph, fd: Finder, id: nat, layer: nat, l: nat, m: nat)
    requires SameShape(g, g') && JoinedAt(g, g', fd, id, layer, m) && JoinedIf(l <= layer - 1, g', h, fd, id, l, m)
    ensures JoinedIf(l <= layer, g, h, fd, id, l, m)
  {
    if l < layer {
      JoinedFrom(g, g', h, fd, id, l, m);
    }
  }

  lemma JoinedFrom(g: Graph, g': Graph, h: Graph, fd: Finder, id: nat, l: nat, m: nat)
    requires SameShape(g, g') && Joined(g', h, fd, id, l, m) && LayerOf(g', l) == LayerOf(g, l)
    ensures Joined(g, h, fd, id, l, m)
  {
    var before, after := LayerOf(g, l), LayerOf(h, l);
    forall n | n in after[id] && n in before && n in g
      ensures Reciprocal(g, fd, g[n].vector, before[n], after[n], id, m)
    {
      assert Reciprocal(g', fd, g'[n].vector, before[n], after[n], id, m);
    }
  }

  /** Inserting into a valid non-empty index joins the new node to every layer it shares with the
      index and leaves all other layers, and everything else about the old nodes, alone. */
  lemma InsertJoins(ix: Index, fd: Finder, chunkId: string, vector: Vector, nodeLayer: nat, layer: nat)
    requires Sound(fd) && Valid(ix) && ix.entry.Some? && vector != []
    ensures var g := ix.nodes[ix.nextId := Node(chunkId, vector, EmptyLists(nodeLayer + 1))];
      var h := Insert(ix, fd, chunkId, vector, nodeLayer).nodes;
      && SameShape(g, h)
      && JoinedIf(layer <= nodeLayer && layer <= ix.maxLayer, g, h, fd, ix.nextId, layer, ix.config.m)
  {
    var id, entry := ix.nextId, ix.entry.value;
    var g := ix.nodes[id := Node(chunkId, vector, EmptyLists(nodeLayer + 1))];
    AddNodeOk(ix.nodes, ix.config.m, id, chunkId, vector, nodeLayer);
    JoinOk(g, fd, id, vector, entry, ix.maxLayer, nodeLayer, ix.config);
    DescendOk(g, fd, vector, entry, ix.maxLayer, nodeLayer, ix.config.m, id);
    var start := Descend(g, fd, vector, entry, ix.maxLayer, nodeLayer);
    var top := if nodeLayer < ix.maxLayer then nodeLayer else ix.maxLayer;
    ConnectDownJoins(g, fd, id, vector, start, top, ix.config, layer);
  }

  // ---------- how many links, and which ----------

  function Smaller(a: nat, b: nat): nat {
    if a < b then a else b
  }

  /** The links chosen for a query from what can be reached from `entry`: as many as `m` and the beam
      width allow; and with a beam that holds everything reachable, the nearest of it. */
  ghost predicate NearestLinks(sc: Scope, entry: nat, links: seq<nat>, m: nat) {
    var near := sc.Reachable(entry);
    && Elements(links) <= near && |links| >= Smaller(m, Smaller(sc.ef, |near|))
    && (|near| <= sc.ef ==> |links| == Smaller(m, |near|) && NoneNearer(sc, near, links))
  }

  /** Nothing left out is nearer than something taken. */
  ghost predicate NoneNearer(sc: Scope, near: set<nat>, links: seq<nat>) {
    forall x, y :: x in near && x !in links && y in links ==>
      x in sc.nodes && y in sc.nodes && sc.Dist(y) <= sc.Dist(x)
  }

  lemma FoundLinks(sc: Scope, entry: nat, found: seq<HeapItem>, m: nat)
    requires sc.ef >= 1 && entry in sc.nodes && sc.Found(entry, found)
    ensures NearestLinks(sc, entry, Ids(Take(found, m)), m)
  {
    var near, sel := sc.Reachable(entry), Ids(Take(found, m));
    assert sel == Ids(found)[..|sel|];
    NoDupCardinality(Ids(found));
    if |near| <= sc.ef {
      if |found| == sc.ef { SubsetFull(Elements(Ids(found)), near); }
      forall x, y | x in near && x !in sel && y in sel
        ensures x in sc.nodes && y in sc.nodes && sc.Dist(y) <= sc.Dist(x)
      {
        var p :| 0 <= p < |found| && Ids(found)[p] == x;
        var q :| 0 <= q < |sel| && sel[q] == y;
        assert found[q].dist <= found[p].dist && found[p] == sc.Item(x) && found[q] == sc.Item(y);
      }
    }
  }

  /** Which links a list has does not depend on the other layers. */
  lemma NearestLinksSame(g: Graph, g': Graph, fd: Finder, v: Vector, ef: nat, layer: nat, entry: nat,
                         links: seq<nat>, m: nat)
    requires SameShape(g, g') && LayerOf(g', layer) == LayerOf(g, layer) && entry in g
    requires NearestLinks(Scope(g', fd.sim, v, ef, layer), entry, links, m)
    ensures NearestLinks(Scope(g, fd.sim, v, ef, layer), entry, links, m)
  {
    var a, b := Scope(g, fd.sim, v, ef, layer), Scope(g', fd.sim, v, ef, layer);
    forall k ensures a.Links(k) == b.Links(k) {
      if LivesOn(g, k, layer) { assert LayerOf(g, layer)[k] == LayerOf(g', layer)[k]; }
    }
    ReachableSame(a, b, entry);
    forall x | x in g ensures a.Dist(x) == b.Dist(x) { }
  }

  /** After one layer the new node's list on it is what was chosen. */
  lemma OwnList(g: Graph, fd: Finder, id: nat, v: Vector, entry: nat, layer: nat, config: Config)
    requires Sound(fd) && config.efConstruction >= 1 && Ready(g, id, v, entry, layer, config.m)
    ensures var h := ConnectLayer(g, fd, id, v, entry, layer, config).0;
      && id in LayerOf(h, layer)
      && LayerOf(h, layer)[id] == Ids(Take(fd.find(g, v, entry, config.efConstruction, layer), config.m))
  {
    SelectedOk(fd, g, v, entry, config.efConstruction, layer, config.m, id);
    var selected := Ids(Take(fd.find(g, v, entry, config.efConstruction, layer), config.m));
    OwnLinksOk(g, fd, v, id, layer, selected, config.m);
    SetLinksLayers(g, id, layer, selected);
    BackLinkAllLayers(g, SetLinks(g, id, layer, selected), fd, id, selected, layer, config.m);
  }

  lemma ConnectLayerLinks(g: Graph, fd: Finder, id: nat, v: Vector, entry: nat, layer: nat, config: Config)
    requires Sound(fd) && config.efConstruction >= 1 && Ready(g, id, v, entry, layer, config.m)
    ensures var h := ConnectLayer(g, fd, id, v, entry, layer, config).0;
      && id in LayerOf(h, layer)
      && NearestLinks(Scope(g, fd.sim, v, config.efConstruction, layer), entry, LayerOf(h, layer)[id], config.m)
  {
    OwnList(g, fd, id, v, entry, layer, config);
    assert FindsWell(fd, g, v, entry, config.efConstruction, layer, config.m, id);
    FoundLinks(Scope(g, fd.sim, v, config.efConstruction, layer), entry,
               fd.find(g, v, entry, config.efConstruction, layer), config.m);
  }

  /** On layer `l` of `h` the new node is linked to the nearest of what can be reached there from `e`. */
  ghost predicate LinkedAt(g: Graph, h: Graph, fd: Finder, id: nat, v: Vector, config: Config, l: nat, e: nat) {
    && LivesOn(g, e, l) && e != id && id in LayerOf(h, l)
    && NearestLinks(Scope(g, fd.sim, v, config.efConstruction, l), e, LayerOf(h, l)[id], config.m)
  }

  lemma LinkedBelow(g: Graph, g': Graph, h: Graph, fd: Finder, id: nat, v: Vector, config: Config, l: nat, e: nat)
    requires LinkedAt(g', h, fd, id, v, config, l, e) && SameShape(g, g') && LayerOf(g', l) == LayerOf(g, l)
    ensures LinkedAt(g, h, fd, id, v, config, l, e)
  {
    NearestLinksSame(g, g', fd, v, config.efConstruction, l, e, LayerOf(h, l)[id], config.m);
  }

  /** The layer at hand: those below do not touch its lists. */
  lemma LinkedHere(g: Graph, fd: Finder, id: nat, v: Vector, entry: nat, layer: nat, config: Config,
                   g': Graph, next: nat)
    requires Sound(fd) && config.efConstruction >= 1 && Ready(g, id, v, entry, layer, config.m)
    requires (g', next) == ConnectLayer(g, fd, id, v, entry, layer, config)
    ensures LinkedAt(g, ConnectDown(g', fd, id, v, next, layer - 1, config), fd, id, v, config, layer, entry)
  {
    ConnectLayerOk(g, fd, id, v, entry, layer, config);
    ConnectLayerLinks(g, fd, id, v, entry, layer, config);
    ConnectDownJoins(g', fd, id, v, next, layer - 1, config, layer);
  }

  /** So it is from a node no farther than `entry`, where linking begins on layer `layer`; below that
      layer, from one that has no nearer neighbour one layer up. */
  ghost predicate LinkedFrom(g: Graph, h: Graph, fd: Finder, id: nat, v: Vector, config: Config, entry: nat, layer: int,
                             l: nat, e: nat)
  {
    && LinkedAt(g, h, fd, id, v, config, l, e)
    && entry in g && fd.sim(v, g[e].vector) >= fd.sim(v, g[entry].vector)
    && if l == layer then e == entry else Scope(g, fd.sim, v, 1, l + 1).LocalBest(e)
  }

  /** What linking one layer leaves for the next. */
  ghost predicate Lowered(g: Graph, g': Graph, fd: Finder, v: Vector, entry: nat, next: nat, layer: nat) {
    && SameShape(g, g') && OthersSame(g, g', layer) && entry in g && next in g
    && fd.sim(v, g[next].vector) >= fd.sim(v, g[entry].vector)
    && Scope(g, fd.sim, v, 1, layer).LocalBest(next)
  }

  lemma StepLowers(g: Graph, fd: Finder, id: nat, v: Vector, entry: nat, layer: nat, config: Config)
    requires Sound(fd) && config.efConstruction >= 1 && Ready(g, id, v, entry, layer, config.m)
    ensures var step := ConnectLayer(g, fd, id, v, entry, layer, config);
      Lowered(g, step.0, fd, v, entry, step.1, layer)
  {
    ConnectLayerOk(g, fd, id, v, entry, layer, config);
    ConnectLayerJoins(g, fd, id, v, entry, layer, config);
    StepNearer(g, fd, id, v, entry, layer, config);
  }

  lemma LinkedFromBelow(g: Graph, g': Graph, h: Graph, fd: Finder, id: nat, v: Vector, config: Config,
                        entry: nat, next: nat, layer: nat, l: nat, e: nat)
    requires l < layer && Lowered(g, g', fd, v, entry, next, layer)
    requires LinkedFrom(g', h, fd, id, v, config, next, layer - 1, l, e)
    ensures LinkedFrom(g, h, fd, id, v, config, entry, layer, l, e)
  {
    assert LayerOf(g', l) == LayerOf(g, l);
    LinkedBelow(g, g', h, fd, id, v, config, l, e);
    if l < layer - 1 {
      assert LayerOf(g', l + 1) == LayerOf(g, l + 1);
      LocalBestSame(g, g', fd, v, l + 1, e);
    }
  }

  /** On every layer that linking goes through, the new node is linked to the nearest of what can be
      reached there from a node no farther from it than where linking began. */
  lemma {:induction false} ConnectDownLinks(g: Graph, fd: Finder, id: nat, v: Vector, entry: nat, layer: int,
                                            config: Config, l: nat, h: Graph) returns (e: nat)
    requires Sound(fd) && config.efConstruction >= 1 && Ready(g, id, v, entry, layer, config.m) && l <= layer
    requires h == ConnectDown(g, fd, id, v, entry, layer, config)
    ensures LinkedFrom(g, h, fd, id, v, config, entry, layer, l, e)
    decreases layer + 1
  {
    var (g', next) := ConnectLayer(g, fd, id, v, entry, layer, config);
    if l == layer {
      e := entry;
      LinkedHere(g, fd, id, v, entry, layer, config, g', next);
    } else {
      ConnectLayerOk(g, fd, id, v, entry, layer, config);
      e := ConnectDownLinks(g', fd, id, v, next, layer - 1, config, l, h);
      StepLowers(g, fd, id, v, entry, layer, config);
      LinkedFromBelow(g, g', h, fd, id, v, config, entry, next, layer, l, e);
    }
  }

  lemma LocalBestSame(g: Graph, g': Graph, fd: Finder, v: Vector, layer: nat, e: nat)
    requires SameShape(g, g') && LayerOf(g', layer) == LayerOf(g, layer)
    requires Scope(g', fd.sim, v, 1, layer).LocalBest(e)
    ensures Scope(g, fd.sim, v, 1, layer).LocalBest(e)
  {
    var a, b := Scope(g, fd.sim, v, 1, layer), Scope(g', fd.sim, v, 1, layer);
    if LivesOn(g, e, layer) { assert LayerOf(g, layer)[e] == LayerOf(g', layer)[e]; }
    assert a.Links(e) == b.Links(e);
    forall k | k in a.Links(e) && k in g ensures a.Dist(e) <= a.Dist(k) { assert b.Dist(e) <= b.Dist(k); }
  }

  /** The entry handed to the next layer is no farther from the new node. */
  lemma StepNearer(g: Graph, fd: Finder, id: nat, v: Vector, entry: nat, layer: nat, config: Config)
    requires Sound(fd) && config.efConstruction >= 1 && Ready(g, id, v, entry, layer, config.m)
    ensures var next := ConnectLayer(g, fd, id, v, entry, layer, config).1;
      && next in g && fd.sim(v, g[next].vector) >= fd.sim(v, g[entry].vector)
      && Scope(g, fd.sim, v, 1, layer).LocalBest(next)
  {
    assert FindsWell(fd, g, v, entry, config.efConstruction, layer, config.m, id);
    var a, b := Scope(g, fd.sim, v, 1, layer), Scope(g, fd.sim, v, config.efConstruction, layer);
    var next := ConnectLayer(g, fd, id, v, entry, layer, config).1;
    assert a.Links(next) == b.Links(next);
    forall k | k in a.Links(next) && k in g ensures a.Dist(next) <= a.Dist(k) { assert b.Dist(next) <= b.Dist(k); }
  }

  /** Inserting into a valid non-empty index links the new node, on every layer it shares with the
      index, to the nearest of what can be reached there from some node that is no farther from it than
      the entry point and that, one layer up, has no nearer neighbour. */
  lemma InsertLinks(ix: Index, fd: Finder, chunkId: string, vector: Vector, nodeLayer: nat, layer: nat)
    returns (e: nat)
    requires Sound(fd) && Valid(ix) && ix.entry.Some? && vector != [] && layer <= nodeLayer && layer <= ix.maxLayer
    ensures var g := ix.nodes[ix.nextId := Node(chunkId, vector, EmptyLists(nodeLayer + 1))];
      var h := Insert(ix, fd, chunkId, vector, nodeLayer).nodes;
      && LinkedAt(g, h, fd, ix.nextId, vector, ix.config, layer, e) && e in ix.nodes
      && fd.sim(vector, ix.nodes[e].vector) >= fd.sim(vector, ix.nodes[ix.entry.value].vector)
      && (layer < ix.maxLayer ==> Scope(g, fd.sim, vector, 1, layer + 1).LocalBest(e))
  {
    var id, entry := ix.nextId, ix.entry.value;
    var g := ix.nodes[id := Node(chunkId, vector, EmptyLists(nodeLayer + 1))];
    AddNodeOk(ix.nodes, ix.config.m, id, chunkId, vector, nodeLayer);
    DescendOk(g, fd, vector, entry, ix.maxLayer, nodeLayer, ix.config.m, id);
    DescendNearer(g, fd, vector, entry, ix.maxLayer, nodeLayer, ix.config.m, id);
    var start := Descend(g, fd, vector, entry, ix.maxLayer, nodeLayer);
    var top := if nodeLayer < ix.maxLayer then nodeLayer else ix.maxLayer;
    e := ConnectDownLinks(g, fd, id, vector, start, top, ix.config, layer,
                          ConnectDown(g, fd, id, vector, start, top, ix.config));
  }
}
