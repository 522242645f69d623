/** Queries: the index path against the linear scan it replaces. */
module SemanticSearch {
  import opened Sequences
  import opened Heaps
  import opened HnswSearch
  import opened HnswIndex

  datatype Hit = Hit(chunkId: string, similarity: real)

  /** A stored embedding row, as the linear scan reads it. */
  datatype Row = Row(chunkId: string, vector: Vector)

  function Larger(a: nat, b: nat): nat {
    if a < b then b else a
  }

  function HitOf(g: Graph, x: HeapItem): Hit
    requires x.id in g
  {
    Hit(g[x.id].chunkId, 1.0 - x.dist)
  }

  function HitsOf(g: Graph, items: seq<HeapItem>): (r: seq<Hit>)
    requires forall i :: 0 <= i < |items| ==> items[i].id in g
    ensures |r| == |items| && forall i :: 0 <= i < |r| ==> r[i] == HitOf(g, items[i])
  {
    seq(|items|, i requires 0 <= i < |items| => HitOf(g, items[i]))
  }

  /** `search`: greedy descent to layer 1, then a beam of max(ef, k) on layer 0, cut to k hits. */
  function Search(ix: Index, fd: Finder, q: Vector, k: nat, ef: nat): seq<Hit>
    requires Larger(ef, k) >= 1
  {
    if ix.entry.None? then []
    else
      var entry := Descend(ix.nodes, fd, q, ix.entry.value, ix.maxLayer, 0);
      var sc := Scope(ix.nodes, fd.sim, q, Larger(ef, k), 0);
      if entry !in ix.nodes then []
      else
        sc.SearchReturnsNearest(entry);
        HitsOf(ix.nodes, Take(sc.Search(entry), k))
  }

  function AtLeast(hits: seq<Hit>, minSim: real): seq<Hit> {
    if hits == [] then []
    else (if hits[0].similarity >= minSim then [hits[0]] else []) + AtLeast(hits[1..], minSim)
  }

  /** The index path of a semantic search: search, then drop the hits below the threshold. */
  function IndexHits(ix: Index, fd: Finder, q: Vector, k: nat, ef: nat, minSim: real): seq<Hit>
    requires Larger(ef, k) >= 1
  {
    AtLeast(Search(ix, fd, q, k, ef), minSim)
  }

  function Scored(sim: Similarity, q: Vector, rows: seq<Row>): (r: seq<Hit>)
    ensures |r| == |rows| && forall i :: 0 <= i < |r| ==> r[i] == Hit(rows[i].chunkId, sim(q, rows[i].vector))
  {
    seq(|rows|, i requires 0 <= i < |rows| => Hit(rows[i].chunkId, sim(q, rows[i].vector)))
  }

  function ByDescendingSimilarity(hits: seq<Hit>): seq<Hit> {
    SortBy((h: Hit) => -h.similarity, hits)
  }

  /** `linearScan`: keep the rows above the threshold, best first, cut to k. */
  function LinearScan(sim: Similarity, q: Vector, rows: seq<Row>, k: nat, minSim: real): seq<Hit> {
    Take(ByDescendingSimilarity(AtLeast(Scored(sim, q, rows), minSim)), k)
  }

  method LinearScanLoop(sim: Similarity, q: Vector, rows: seq<Row>, k: nat, minSim: real) returns (hits: seq<Hit>)
    ensures hits == LinearScan(sim, q, rows, k, minSim)
  {
    var scored: seq<Hit> := [];
    for i := 0 to |rows|
      invariant scored + AtLeast(Scored(sim, q, rows)[i..], minSim) == AtLeast(Scored(sim, q, rows), minSim)
    {
      var s := sim(q, rows[i].vector);
      var rest := Scored(sim, q, rows)[i..];
      assert rest[0] == Hit(rows[i].chunkId, s) && rest[1..] == Scored(sim, q, rows)[i + 1..];
      if s >= minSim {
        scored := scored + [Hit(rows[i].chunkId, s)];
      }
    }
    assert scored == AtLeast(Scored(sim, q, rows), minSim);
    return Take(ByDescendingSimilarity(scored), k);
  }

  function Sims(hits: seq<Hit>): (r: seq<real>)
    ensures |r| == |hits| && forall i :: 0 <= i < |r| ==> r[i] == hits[i].similarity
  {
    seq(|hits|, i requires 0 <= i < |hits| => hits[i].similarity)
  }

  // ---------- thresholds commute with cutting a ranked list ----------

  predicate Descending(s: seq<real>) {
    forall i, j :: 0 <= i < j < |s| ==> s[i] >= s[j]
  }

  function Above(s: seq<real>, minSim: real): seq<real> {
    if s == [] then [] else (if s[0] >= minSim then [s[0]] else []) + Above(s[1..], minSim)
  }

  lemma {:induction false} SimsAtLeast(hits: seq<Hit>, minSim: real)
    ensures Sims(AtLeast(hits, minSim)) == Above(Sims(hits), minSim)
  {
    if hits != [] {
      SimsAtLeast(hits[1..], minSim);
      assert Sims(hits)[1..] == Sims(hits[1..]);
      var head := if hits[0].similarity >= minSim then [hits[0]] else [];
      assert Sims(head + AtLeast(hits[1..], minSim)) == Sims(head) + Sims(AtLeast(hits[1..], minSim));
    }
  }

  lemma {:induction false} AboveNone(s: seq<real>, minSim: real)
    requires forall i :: 0 <= i < |s| ==> s[i] < minSim
    ensures Above(s, minSim) == []
  {
    if s != [] { AboveNone(s[1..], minSim); }
  }

  /** On a descending list, keeping the top k and keeping the large values commute. */
  lemma {:induction false} AboveOfTop(s: seq<real>, k: nat, minSim: real)
    requires Descending(s)
    ensures Above(Take(s, k), minSim) == Take(Above(s, minSim), k)
  {
    if s == [] || k == 0 {
    } else if s[0] < minSim {
      AboveNone(s, minSim);
      AboveNone(Take(s, k), minSim);
    } else {
      AboveOfTop(s[1..], k - 1, minSim);
      assert Take(s, k) == [s[0]] + Take(s[1..], k - 1);
      assert Take(s, k)[1..] == Take(s[1..], k - 1);
      assert Take([s[0]] + Above(s[1..], minSim), k) == [s[0]] + Take(Above(s[1..], minSim), k - 1);
    }
  }

  lemma {:induction false} AboveDescending(s: seq<real>, minSim: real)
    requires Descending(s)
    ensures Descending(Above(s, minSim)) && forall x :: x in Above(s, minSim) ==> x in s
  {
    if s != [] {
      AboveDescending(s[1..], minSim);
      var rest := Above(s[1..], minSim);
      forall i | 0 <= i < |rest| ensures s[0] >= rest[i] {
        assert rest[i] in rest;
      }
    }
  }

  lemma {:induction false} AboveMultiset(a: seq<real>, b: seq<real>, minSim: real)
    requires multiset(a) == multiset(b)
    ensures multiset(Above(a, minSim)) == multiset(Above(b, minSim))
  {
    forall x: real ensures multiset(Above(a, minSim))[x] == multiset(Above(b, minSim))[x] {
      AboveCount(a, minSim, x);
      AboveCount(b, minSim, x);
    }
  }

  lemma {:induction false} AboveCount(s: seq<real>, minSim: real, x: real)
    ensures multiset(Above(s, minSim))[x] == if x >= minSim then multiset(s)[x] else 0
  {
    if s != [] {
      AboveCount(s[1..], minSim, x);
      assert s == [s[0]] + s[1..];
      assert multiset(s) == multiset{s[0]} + multiset(s[1..]);
    }
  }

  lemma DescendingUnique(a: seq<real>, b: seq<real>)
    requires Descending(a) && Descending(b) && multiset(a) == multiset(b)
    ensures a == b
  {
    var neg := (x: real) => -x;
    KeysOfSame(neg, a, b);
    AscendingUnique(Keys(neg, a), Keys(neg, b));
    assert forall i :: 0 <= i < |a| ==> Keys(neg, a)[i] == -a[i];
    assert forall i :: 0 <= i < |b| ==> Keys(neg, b)[i] == -b[i];
    assert forall i :: 0 <= i < |a| ==> a[i] == -Keys(neg, a)[i] == b[i];
  }

  /** The similarities a linear scan returns: the k largest that reach the threshold. */
  lemma ScanSims(sim: Similarity, q: Vector, rows: seq<Row>, k: nat, minSim: real, ranked: seq<real>)
    requires Descending(ranked) && multiset(ranked) == multiset(Sims(Scored(sim, q, rows)))
    ensures Sims(LinearScan(sim, q, rows, k, minSim)) == Take(Above(ranked, minSim), k)
  {
    var kept := AtLeast(Scored(sim, q, rows), minSim);
    var sorted := ByDescendingSimilarity(kept);
    var key := (h: Hit) => -h.similarity;
    SortByOk(key, kept);
    forall i, j | 0 <= i < j < |sorted| ensures Sims(sorted)[i] >= Sims(sorted)[j] {
      assert key(sorted[i]) <= key(sorted[j]);
    }
    var similarity := (h: Hit) => h.similarity;
    KeysOfSame(similarity, sorted, kept);
    assert Keys(similarity, sorted) == Sims(sorted) && Keys(similarity, kept) == Sims(kept);
    SimsAtLeast(Scored(sim, q, rows), minSim);
    AboveMultiset(ranked, Sims(Scored(sim, q, rows)), minSim);
    AboveDescending(ranked, minSim);
    DescendingUnique(Sims(sorted), Above(ranked, minSim));
    assert Sims(Take(sorted, k)) == Take(Sims(sorted), k);
  }

  // ---------- the index agrees with the scan ----------

  function RowsOf(g: Graph, ids: seq<nat>): (r: seq<Row>)
    requires forall i :: 0 <= i < |ids| ==> ids[i] in g
    ensures |r| == |ids| && forall i :: 0 <= i < |r| ==> r[i] == Row(g[ids[i]].chunkId, g[ids[i]].vector)
  {
    seq(|ids|, i requires 0 <= i < |ids| => Row(g[ids[i]].chunkId, g[ids[i]].vector))
  }

  lemma RankedSims(sc: Scope, found: seq<HeapItem>, ids: seq<nat>)
    requires sc.Ranked(found) && multiset(Ids(found)) == multiset(ids)
    requires forall i :: 0 <= i < |ids| ==> ids[i] in sc.nodes
    ensures var ranked := Sims(HitsOf(sc.nodes, found));
      Descending(ranked) && multiset(ranked) == multiset(Sims(Scored(sc.sim, sc.query, RowsOf(sc.nodes, ids))))
  {
    var score := (n: nat) => if n in sc.nodes then sc.sim(sc.query, sc.nodes[n].vector) else 0.0;
    KeysOfSame(score, Ids(found), ids);
    var ranked := Sims(HitsOf(sc.nodes, found));
    forall i | 0 <= i < |found| ensures ranked[i] == Keys(score, Ids(found))[i] {
      assert found[i] == sc.Item(found[i].id);
    }
    assert ranked == Keys(score, Ids(found));
    assert Keys(score, ids) == Sims(Scored(sc.sim, sc.query, RowsOf(sc.nodes, ids)));
  }

  /** Cutting and filtering a ranked result gives the similarities of a scan over the same nodes. */
  lemma FoundAgrees(sc: Scope, found: seq<HeapItem>, ids: seq<nat>, k: nat, minSim: real)
    requires sc.Ranked(found) && multiset(Ids(found)) == multiset(ids)
    requires forall i :: 0 <= i < |ids| ==> ids[i] in sc.nodes
    ensures Sims(AtLeast(HitsOf(sc.nodes, Take(found, k)), minSim))
         == Sims(LinearScan(sc.sim, sc.query, RowsOf(sc.nodes, ids), k, minSim))
  {
    RankedSims(sc, found, ids);
    var ranked := Sims(HitsOf(sc.nodes, found));
    ScanSims(sc.sim, sc.query, RowsOf(sc.nodes, ids), k, minSim, ranked);
    var hits := HitsOf(sc.nodes, Take(found, k));
    assert Sims(hits) == Take(ranked, k);
    SimsAtLeast(hits, minSim);
    AboveOfTop(ranked, k, minSim);
  }

  lemma WideBeamFinds(sc: Scope, entry: nat, ids: seq<nat>)
    requires sc.ef >= 1 && entry in sc.nodes && |sc.Reachable(entry)| <= sc.ef
    requires NoDup(ids) && Elements(ids) == sc.Reachable(entry)
    ensures sc.Ranked(sc.Search(entry)) && multiset(Ids(sc.Search(entry))) == multiset(ids)
    ensures forall i :: 0 <= i < |ids| ==> ids[i] in sc.nodes
  {
    sc.SearchReturnsNearest(entry);
    sc.WideBeamIsExact(entry);
    NoDupMultiset(Ids(sc.Search(entry)));
    NoDupMultiset(ids);
    assert forall i :: 0 <= i < |ids| ==> ids[i] in Elements(ids);
  }

  /** The node of layer 0 where the greedy descent of a query ends. */
  function Landing(ix: Index, fd: Finder, q: Vector): nat
    requires ix.entry.Some?
  {
    Descend(ix.nodes, fd, q, ix.entry.value, ix.maxLayer, 0)
  }

  /** When the layer-0 beam is as wide as the set of nodes reachable from the node where the
      descent ends, the index path returns the similarities, in order, that the linear scan
      returns over exactly those nodes, listed in any order. */
  lemma IndexAgreesWithScan(ix: Index, fd: Finder, q: Vector, k: nat, ef: nat, minSim: real, ids: seq<nat>)
    requires Larger(ef, k) >= 1 && ix.entry.Some? && Landing(ix, fd, q) in ix.nodes
    requires |Scope(ix.nodes, fd.sim, q, Larger(ef, k), 0).Reachable(Landing(ix, fd, q))| <= Larger(ef, k)
    requires NoDup(ids) && Elements(ids) == Scope(ix.nodes, fd.sim, q, Larger(ef, k), 0).Reachable(Landing(ix, fd, q))
    ensures forall i :: 0 <= i < |ids| ==> ids[i] in ix.nodes
    ensures Sims(IndexHits(ix, fd, q, k, ef, minSim))
         == Sims(LinearScan(fd.sim, q, RowsOf(ix.nodes, ids), k, minSim))
  {
    var sc := Scope(ix.nodes, fd.sim, q, Larger(ef, k), 0);
    WideBeamFinds(sc, Landing(ix, fd, q), ids);
    FoundAgrees(sc, sc.Search(Landing(ix, fd, q)), ids, k, minSim);
  }

  /** In an index built by insertions the descent always lands on an existing node. */
  lemma LandingExists(ix: Index, fd: Finder, q: Vector)
    requires IsBeam(fd) && Valid(ix) && ix.entry.Some?
    ensures Landing(ix, fd, q) in ix.nodes
  {
    forall n, l: nat | LivesOn(ix.nodes, n, l) ensures ix.nextId !in ix.nodes[n].neighbors[l] {
      assert LinksOk(ix.nodes, ix.config.m, n, l, ix.nodes[n].neighbors[l]);
    }
    BeamIsSound(fd);
    DescendOk(ix.nodes, fd, q, ix.entry.value, ix.maxLayer, 0, ix.config.m, ix.nextId);
  }
}
