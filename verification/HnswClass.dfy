/** The index object: mutable fields and the loops of insertion, search and persistence, each
    proved to compute the function that specifies it. */
module HnswClass {
  import opened Sequences
  import opened Heaps
  import opened HnswSearch
  import opened HnswIndex
  import opened HnswPersistence
  import SemanticSearch

  class Hnsw {
    var nodes: Graph
    var order: seq<nat>
    var entry: Option<nat>
    var maxLayer: nat
    var nextId: nat
    const modelName: string
    const config: Config
    const fd: Finder

    ghost function State(): Index
      reads this
    {
      Index(nodes, order, entry, maxLayer, nextId, modelName, config)
    }

    constructor (modelName: string, config: Config, sim: Similarity)
      ensures State() == Empty(modelName, config) && fd.sim == sim && IsBeam(fd)
    {
      this.modelName := modelName;
      this.config := config;
      fd := BeamOf(sim);
      nodes, order, entry, maxLayer, nextId := map[], [], None, 0, 0;
    }

    /** The beam search of one layer, on two heap objects and a visited set. */
    method RunBeam(q: Vector, entryId: nat, ef: nat, layer: nat) returns (found: seq<HeapItem>)
      requires ef >= 1
      ensures found == Scope(nodes, fd.sim, q, ef, layer).Search(entryId)
    {
      if entryId !in nodes { return []; }
      var sc := Scope(nodes, fd.sim, q, ef, layer);
      var visited := {entryId};
      var candidates := new Heap(Min);
      var results := new Heap(Max);
      candidates.Push(sc.Item(entryId));
      results.Push(sc.Item(entryId));
      while |candidates.data| > 0
        invariant fresh(candidates) && fresh(results) && candidates != results
        invariant candidates.order == Min && results.order == Max
        invariant sc.Run(Beam(visited, candidates.data, results.data)) == sc.Run(sc.Start(entryId))
        decreases nodes.Keys - visited, |candidates.data|
      {
        ghost var b := Beam(visited, candidates.data, results.data);
        var current := candidates.Pop();
        if |results.data| >= ef && current.value.dist > results.data[0].dist { break; }
        var links := sc.Links(current.value.id);
        ghost var target := sc.VisitAll(b.(cand := candidates.data), links);
        assert nodes.Keys - target.visited <= nodes.Keys - b.visited;
        assert sc.Run(b) == sc.Run(target);
        visited := VisitLinks(sc, links, visited, candidates, results);
      }
      found := SortBy((x: HeapItem) => x.dist, results.data);
    }

    method SearchLayer(q: Vector, entryId: nat, ef: nat, layer: nat) returns (found: seq<HeapItem>)
      requires IsBeam(fd) && ef >= 1
      ensures found == fd.find(nodes, q, entryId, ef, layer)
    {
      found := RunBeam(q, entryId, ef, layer);
      assert BeamAt(fd, nodes, q, entryId, ef, layer);
    }

    /** The inner loop: look at every link once, admit what belongs in the beam. */
    static method VisitLinks(sc: Scope, links: seq<nat>, seen: set<nat>, candidates: Heap, results: Heap)
      returns (visited: set<nat>)
      requires sc.ef >= 1 && candidates != results && candidates.order == Min && results.order == Max
      modifies candidates, results
      ensures Beam(visited, candidates.data, results.data)
           == sc.VisitAll(Beam(seen, old(candidates.data), old(results.data)), links)
    {
      visited := seen;
      ghost var target := sc.VisitAll(Beam(seen, candidates.data, results.data), links);
      for i := 0 to |links|
        invariant sc.VisitAll(Beam(visited, candidates.data, results.data), links[i..]) == target
      {
        var n := links[i];
        assert links[i..][0] == n && links[i..][1..] == links[i + 1..];
        if n in visited { continue; }
        ghost var b := Beam(visited, candidates.data, results.data);
        visited := visited + {n};
        if n !in sc.nodes { continue; }
        if |results.data| < sc.ef || sc.Dist(n) < results.data[0].dist {
          candidates.Push(sc.Item(n));
          results.Push(sc.Item(n));
          if |results.data| > sc.ef {
            var dropped := results.Pop();
          }
          assert Beam(visited, candidates.data, results.data) == sc.Admit(b, n);
        }
      }
    }

    method InsertOne(chunkId: string, vector: Vector, nodeLayer: nat)
      requires IsBeam(fd) && config.efConstruction >= 1
      modifies this
      ensures State() == Insert(old(State()), fd, chunkId, vector, nodeLayer)
    {
      if |vector| == 0 { return; }
      var id := nextId;
      nextId := nextId + 1;
      order := if id in nodes then order else order + [id];
      nodes := nodes[id := Node(chunkId, vector, EmptyLists(nodeLayer + 1))];
      if entry.None? {
        entry, maxLayer := Some(id), nodeLayer;
      } else {
        Join(id, vector, entry.value, nodeLayer);
      }
    }

    /** Links the new node below the entry point and moves the entry point up to it if it is higher. */
    method Join(id: nat, vector: Vector, start: nat, nodeLayer: nat)
      requires IsBeam(fd) && config.efConstruction >= 1
      modifies this`nodes, this`maxLayer, this`entry
      ensures nodes == ConnectDown(old(nodes), fd, id, vector,
                                   Descend(old(nodes), fd, vector, start, old(maxLayer), nodeLayer),
                                   if nodeLayer < old(maxLayer) then nodeLayer else old(maxLayer), config)
      ensures if nodeLayer > old(maxLayer) then maxLayer == nodeLayer && entry == Some(id)
              else maxLayer == old(maxLayer) && entry == old(entry)
    {
      var current := DescendTo(vector, start, nodeLayer);
      Connect(id, vector, current, if nodeLayer < maxLayer then nodeLayer else maxLayer);
      if nodeLayer > maxLayer {
        maxLayer, entry := nodeLayer, Some(id);
      }
    }

    method DescendTo(q: Vector, start: nat, floor: nat) returns (current: nat)
      requires IsBeam(fd)
      ensures current == Descend(nodes, fd, q, start, maxLayer, floor)
    {
      current := start;
      var lc: nat := maxLayer;
      ghost var target := Descend(nodes, fd, q, start, maxLayer, floor);
      while lc > floor
        invariant Descend(nodes, fd, q, current, lc, floor) == target
      {
        ghost var next := Closest(nodes, fd, q, current, lc);
        assert Descend(nodes, fd, q, next, lc - 1, floor) == target;
        var closest := SearchLayer(q, current, 1, lc);
        if |closest| > 0 { current := closest[0].id; }
        assert current == next;
        lc := lc - 1;
      }
    }

    /** Links the new node into the layers from `top` down to 0. */
    method Connect(id: nat, vector: Vector, start: nat, top: nat)
      requires IsBeam(fd) && config.efConstruction >= 1
      modifies this`nodes
      ensures nodes == ConnectDown(old(nodes), fd, id, vector, start, top, config)
    {
      var current, lc := start, top as int;
      while lc >= 0
        invariant ConnectDown(nodes, fd, id, vector, current, lc, config)
            == ConnectDown(old(nodes), fd, id, vector, start, top, config)
        decreases lc + 1
      {
        var found := SearchLayer(vector, current, config.efConstruction, lc);
        var selected := Ids(Take(found, config.m));
        ghost var step := ConnectLayer(nodes, fd, id, vector, current, lc, config);
        if LivesOn(nodes, id, lc) {
          nodes := SetLinks(nodes, id, lc, selected);
        }
        ConnectBack(id, selected, lc);
        if |found| > 0 { current := found[0].id; }
        assert step == (nodes, current);
        lc := lc - 1;
      }
    }

    method ConnectBack(id: nat, selected: seq<nat>, layer: nat)
      modifies this`nodes
      ensures nodes == BackLinkAll(old(nodes), fd, id, selected, layer, config.m)
    {
      for i := 0 to |selected|
        invariant BackLinkAll(nodes, fd, id, selected[i..], layer, config.m)
            == BackLinkAll(old(nodes), fd, id, selected, layer, config.m)
      {
        var n := selected[i];
        assert selected[i..][0] == n && selected[i..][1..] == selected[i + 1..];
        if LivesOn(nodes, n, layer) {
          var links := nodes[n].neighbors[layer] + [id];
          if |links| > config.m * 2 {
            links := Pruned(nodes, fd, nodes[n].vector, links, config.m);
          }
          nodes := SetLinks(nodes, n, layer, links);
        }
      }
    }

    method Query(q: Vector, k: nat, ef: nat) returns (hits: seq<SemanticSearch.Hit>)
      requires IsBeam(fd) && SemanticSearch.Larger(ef, k) >= 1
      ensures hits == SemanticSearch.Search(State(), fd, q, k, ef)
    {
      if entry.None? { return []; }
      var current := DescendTo(q, entry.value, 0);
      var beam := SemanticSearch.Larger(ef, k);
      var found := RunBeam(q, current, beam, 0);
      if current !in nodes { return []; }
      Scope(nodes, fd.sim, q, beam, 0).SearchReturnsNearest(current);
      hits := SemanticSearch.HitsOf(nodes, Take(found, k));
    }

    method Save() returns (s: Serial)
      requires forall i :: 0 <= i < |order| ==> order[i] in nodes
      ensures s == Serialize(State())
    {
      var list: seq<SerialNode> := [];
      for i := 0 to |order|
        invariant list == Serialize(State()).nodes[..i]
      {
        list := list + [SerialOf(order[i], nodes[order[i]])];
      }
      s := Serial(1, modelName, config.m, config.efConstruction, entry, maxLayer, list);
    }

    static method Load(s: Serial, sim: Similarity) returns (h: Hnsw)
      ensures fresh(h) && h.State() == Deserialize(s) && h.fd.sim == sim && IsBeam(h.fd)
    {
      ghost var target := Deserialize(s);
      h := new Hnsw(s.modelName, DEFAULT_CONFIG.(m := s.m, efConstruction := s.efConstruction), sim);
      h.entry, h.maxLayer, h.nextId := s.entry, s.maxLayer, 0;
      for i := 0 to |s.nodes|
        invariant fresh(h) && h.fd.sim == sim && IsBeam(h.fd)
        invariant StoreAll(h.State(), s.nodes[i..]) == target
      {
        ghost var next := Store(h.State(), s.nodes[i]);
        var sn := s.nodes[i];
        assert s.nodes[i..][0] == sn && s.nodes[i..][1..] == s.nodes[i + 1..];
        h.order := if sn.id in h.nodes then h.order else h.order + [sn.id];
        h.nodes := h.nodes[sn.id := Node(sn.chunkId, sn.vector, sn.neighbors)];
        if sn.id >= h.nextId { h.nextId := sn.id + 1; }
        assert h.State() == next;
      }
    }
  }
}
