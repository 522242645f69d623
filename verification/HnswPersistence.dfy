/** Writing an index out and reading it back. */
module HnswPersistence {
  import opened Sequences
  import opened HnswSearch
  import opened HnswIndex
  import SemanticSearch

  datatype SerialNode = SerialNode(id: nat, chunkId: string, vector: Vector, neighbors: seq<seq<nat>>)

  datatype Serial = Serial(
    version: nat, modelName: string, m: nat, efConstruction: nat,
    entry: Option<nat>, maxLayer: nat, nodes: seq<SerialNode>)

  function SerialOf(id: nat, n: Node): SerialNode {
    SerialNode(id, n.chunkId, n.vector, n.neighbors)
  }

  function Serialize(ix: Index): Serial
    requires forall i :: 0 <= i < |ix.order| ==> ix.order[i] in ix.nodes
  {
    Serial(1, ix.modelName, ix.config.m, ix.config.efConstruction, ix.entry, ix.maxLayer,
           seq(|ix.order|, i requires 0 <= i < |ix.order| => SerialOf(ix.order[i], ix.nodes[ix.order[i]])))
  }

  /** Stores one node, as the loading loop does. */
  function Store(ix: Index, sn: SerialNode): Index {
    ix.(nodes := ix.nodes[sn.id := Node(sn.chunkId, sn.vector, sn.neighbors)],
        order := if sn.id in ix.nodes then ix.order else ix.order + [sn.id],
        nextId := if sn.id >= ix.nextId then sn.id + 1 else ix.nextId)
  }

  function StoreAll(ix: Index, sns: seq<SerialNode>): Index
    decreases |sns|
  {
    if sns == [] then ix else StoreAll(Store(ix, sns[0]), sns[1..])
  }

  /** The beam width for queries is not stored; reading back takes the default. */
  function Deserialize(s: Serial): Index {
    var config := DEFAULT_CONFIG.(m := s.m, efConstruction := s.efConstruction);
    StoreAll(Empty(s.modelName, config).(entry := s.entry, maxLayer := s.maxLayer), s.nodes)
  }

  /** The index as it looks after the first `k` insertions were stored. */
  ghost function Prefix(ix: Index, k: nat): Index {
    ix.(nodes := map n: nat | n in ix.nodes && n < k :: ix.nodes[n], order := Take(ix.order, k), nextId := k,
        config := ix.config.(efSearch := DEFAULT_CONFIG.efSearch))
  }

  lemma {:induction false} StoreAllPrefix(ix: Index, k: nat)
    requires IdsOk(ix) && k <= ix.nextId
    ensures StoreAll(Prefix(ix, k), Serialize(ix).nodes[k..]) == Prefix(ix, ix.nextId)
    decreases ix.nextId - k
  {
    var sns := Serialize(ix).nodes;
    if k < ix.nextId {
      assert Store(Prefix(ix, k), sns[k]) == Prefix(ix, k + 1) by {
        assert Prefix(ix, k).nodes[k := ix.nodes[k]] == Prefix(ix, k + 1).nodes;
        assert ix.order[..k] + [k] == Take(ix.order, k + 1);
      }
      assert sns[k..][0] == sns[k] && sns[k..][1..] == sns[k + 1..];
      StoreAllPrefix(ix, k + 1);
    }
  }

  /** Reading back gives the same graph, key order, entry point, top layer, next id and build
      parameters; only the query beam width is reset. */
  lemma RoundTrip(ix: Index)
    requires Valid(ix)
    ensures Deserialize(Serialize(ix)) == ix.(config := ix.config.(efSearch := DEFAULT_CONFIG.efSearch))
  {
    StoreAllPrefix(ix, 0);
    assert Serialize(ix).nodes[0..] == Serialize(ix).nodes;
    assert Prefix(ix, 0).nodes == map[];
    assert Prefix(ix, ix.nextId).nodes == ix.nodes;
  }

  function WithBeam(ix: Index, ef: nat): Index {
    ix.(config := ix.config.(efSearch := ef))
  }

  /** Linking never looks at the query beam width. */
  lemma {:induction false} ConnectDownIgnoresBeam(g: Graph, fd: Finder, id: nat, v: Vector, entry: nat, layer: int,
                                                  config: Config, ef: nat)
    requires config.efConstruction >= 1
    ensures ConnectDown(g, fd, id, v, entry, layer, config.(efSearch := ef))
        == ConnectDown(g, fd, id, v, entry, layer, config)
    decreases layer + 1
  {
    if layer >= 0 {
      var step := ConnectLayer(g, fd, id, v, entry, layer, config);
      assert ConnectLayer(g, fd, id, v, entry, layer, config.(efSearch := ef)) == step;
      ConnectDownIgnoresBeam(step.0, fd, id, v, step.1, layer - 1, config, ef);
    }
  }

  lemma InsertIgnoresBeam(ix: Index, fd: Finder, e: Entry, ef: nat)
    requires ix.config.efConstruction >= 1
    ensures Insert(WithBeam(ix, ef), fd, e.chunkId, e.vector, e.layer)
         == WithBeam(Insert(ix, fd, e.chunkId, e.vector, e.layer), ef)
  {
    if e.vector != [] && ix.entry.Some? {
      var g := ix.nodes[ix.nextId := Node(e.chunkId, e.vector, EmptyLists(e.layer + 1))];
      var start := Descend(g, fd, e.vector, ix.entry.value, ix.maxLayer, e.layer);
      ConnectDownIgnoresBeam(g, fd, ix.nextId, e.vector, start,
                             if e.layer < ix.maxLayer then e.layer else ix.maxLayer, ix.config, ef);
    }
  }

  lemma {:induction false} InsertAllIgnoresBeam(ix: Index, fd: Finder, entries: seq<Entry>, ef: nat)
    requires ix.config.efConstruction >= 1
    ensures InsertAll(WithBeam(ix, ef), fd, entries) == WithBeam(InsertAll(ix, fd, entries), ef)
    decreases |entries|
  {
    if entries != [] {
      var e := entries[0];
      InsertIgnoresBeam(ix, fd, e, ef);
      InsertAllIgnoresBeam(Insert(ix, fd, e.chunkId, e.vector, e.layer), fd, entries[1..], ef);
    }
  }

  /** An index that was saved and loaded at any point of its growth ends up, after any further
      insertions on the same layers, as the one that never left memory. */
  lemma RestartIsInvisible(modelName: string, config: Config, fd: Finder, before: seq<Entry>, after: seq<Entry>)
    requires IsBeam(fd) && config.m >= 1 && config.efConstruction >= 1
    ensures var saved := InsertAll(Empty(modelName, config), fd, before);
      && Valid(saved)
      && Deserialize(Serialize(saved)).config.efConstruction >= 1
      && InsertAll(Deserialize(Serialize(saved)), fd, after)
         == WithBeam(InsertAll(saved, fd, after), DEFAULT_CONFIG.efSearch)
  {
    var saved := InsertAll(Empty(modelName, config), fd, before);
    InsertAllKeepsValid(Empty(modelName, config), fd, before);
    RoundTrip(saved);
    InsertAllIgnoresBeam(saved, fd, after, DEFAULT_CONFIG.efSearch);
  }

  /** A search with a given beam width asks the graph only. */
  lemma SearchIgnoresBeam(ix: Index, fd: Finder, q: Vector, k: nat, ef: nat, beam: nat)
    requires SemanticSearch.Larger(ef, k) >= 1
    ensures SemanticSearch.Search(WithBeam(ix, beam), fd, q, k, ef) == SemanticSearch.Search(ix, fd, q, k, ef)
  {
  }

  /** And it answers every query with a given beam width as the one that never left memory does. */
  lemma RestartKeepsAnswers(modelName: string, config: Config, fd: Finder, before: seq<Entry>, after: seq<Entry>,
                            q: Vector, k: nat, ef: nat)
    requires IsBeam(fd) && config.m >= 1 && config.efConstruction >= 1 && SemanticSearch.Larger(ef, k) >= 1
    ensures var saved := InsertAll(Empty(modelName, config), fd, before);
      && Valid(saved)
      && Deserialize(Serialize(saved)).config.efConstruction >= 1
      && SemanticSearch.Search(InsertAll(Deserialize(Serialize(saved)), fd, after), fd, q, k, ef)
         == SemanticSearch.Search(InsertAll(saved, fd, after), fd, q, k, ef)
  {
    RestartIsInvisible(modelName, config, fd, before, after);
    var saved := InsertAll(Empty(modelName, config), fd, before);
    SearchIgnoresBeam(InsertAll(saved, fd, after), fd, q, k, ef, DEFAULT_CONFIG.efSearch);
  }

  /** An index made with a query beam of 10 is loaded with one of 50. */
  lemma BeamIsReset(modelName: string)
    ensures var ix := Empty(modelName, Config(16, 200, 10));
      ix.config.efSearch == 10 && Deserialize(Serialize(ix)).config.efSearch == 50
  {
    RoundTrip(Empty(modelName, Config(16, 200, 10)));
  }
}
