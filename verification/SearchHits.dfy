/** Which chunks a query returns: hits name the rows they are the similarity of. */
module SearchHits {
  import opened Sequences
  import opened Heaps
  import opened HnswSearch
  import opened HnswIndex
  import opened SemanticSearch

  // ---------- hits and rows ----------

  /** The hits are those of the rows at the places `at`, each row once. */
  ghost predicate RowHits(sim: Similarity, q: Vector, rows: seq<Row>, hits: seq<Hit>, at: seq<nat>) {
    && |at| == |hits| && NoDup(at)
    && forall i :: 0 <= i < |hits| ==>
         at[i] < |rows| && hits[i] == Hit(rows[at[i]].chunkId, sim(q, rows[at[i]].vector))
  }

  /** A row is left out only below the threshold, or for want of room behind hits that are no worse. */
  ghost predicate NoneBetter(sim: Similarity, q: Vector, rows: seq<Row>, k: nat, minSim: real,
                             hits: seq<Hit>, at: seq<nat>)
  {
    forall j: nat :: j < |rows| && j !in at ==>
      || sim(q, rows[j].vector) < minSim
      || (|hits| == k && forall i :: 0 <= i < |hits| ==> hits[i].similarity >= sim(q, rows[j].vector))
  }

  /** At most `k` hits, each of a row of its own, best first, none below the threshold and none worse
      than a row left out. */
  ghost predicate TopHitsAt(sim: Similarity, q: Vector, rows: seq<Row>, k: nat, minSim: real,
                            hits: seq<Hit>, at: seq<nat>)
  {
    && RowHits(sim, q, rows, hits, at) && |hits| <= k && Descending(Sims(hits))
    && (forall i :: 0 <= i < |hits| ==> hits[i].similarity >= minSim)
    && NoneBetter(sim, q, rows, k, minSim, hits, at)
  }

  ghost predicate NoTies(sim: Similarity, q: Vector, rows: seq<Row>) {
    forall i, j :: 0 <= i < j < |rows| ==> sim(q, rows[i].vector) != sim(q, rows[j].vector)
  }

  /** Without ties the similarities tell the hits. */
  lemma SameSimsSameHits(sim: Similarity, q: Vector, rows: seq<Row>, a: seq<Hit>, b: seq<Hit>,
                         at: seq<nat>, bt: seq<nat>)
    requires RowHits(sim, q, rows, a, at) && RowHits(sim, q, rows, b, bt) && NoTies(sim, q, rows) && Sims(a) == Sims(b)
    ensures a == b
  {
    assert |a| == |Sims(a)| == |b|;
    forall i | 0 <= i < |a| ensures a[i] == b[i] {
      assert Sims(a)[i] == Sims(b)[i];
      SameRow(sim, q, rows, at[i], bt[i]);
    }
  }

  lemma SameRow(sim: Similarity, q: Vector, rows: seq<Row>, i: nat, j: nat)
    requires NoTies(sim, q, rows) && i < |rows| && j < |rows| && sim(q, rows[i].vector) == sim(q, rows[j].vector)
    ensures i == j
  {
  }

  // ---------- the scan ----------

  /** The elements of `b` stand in `a` at the places `at`, each at a place of its own. */
  ghost predicate ComesFrom<T>(a: seq<T>, b: seq<T>, at: seq<nat>) {
    |at| == |b| && NoDup(at) && forall i :: 0 <= i < |b| ==> at[i] < |a| && a[at[i]] == b[i]
  }

  /** Where the elements of a rearrangement come from. */
  lemma {:induction false} Origins<T(!new)>(a: seq<T>, b: seq<T>) returns (at: seq<nat>)
    requires multiset(a) == multiset(b)
    ensures ComesFrom(a, b, at)
    decreases |b|
  {
    SameMembers(a, b);
    if b == [] {
      at := [];
    } else {
      assert b[0] in a;
      var p :| 0 <= p < |a| && a[p] == b[0];
      BothWithout(a, b, p);
      var rest := Origins(RemoveAt(a, p), b[1..]);
      at := [p] + Shifted(rest, p);
      OriginStep(a, b, p, rest);
    }
  }

  lemma BothWithout<T>(a: seq<T>, b: seq<T>, p: nat)
    requires multiset(a) == multiset(b) && b != [] && p < |a| && a[p] == b[0]
    ensures multiset(RemoveAt(a, p)) == multiset(b[1..])
  {
    RemoveAtMultiset(a, p);
    RemoveAtMultiset(b, 0);
    assert RemoveAt(b, 0) == b[1..];
  }

  /** The places before the element at `p` was taken out. */
  function Shifted(places: seq<nat>, p: nat): (r: seq<nat>)
    ensures |r| == |places| && forall i :: 0 <= i < |r| ==> r[i] == if places[i] < p then places[i] else places[i] + 1
  {
    seq(|places|, i requires 0 <= i < |places| => if places[i] < p then places[i] else places[i] + 1)
  }

  lemma OriginStep<T>(a: seq<T>, b: seq<T>, p: nat, rest: seq<nat>)
    requires p < |a| && b != [] && a[p] == b[0] && ComesFrom(RemoveAt(a, p), b[1..], rest)
    ensures ComesFrom(a, b, [p] + Shifted(rest, p))
  {
    var at, less := [p] + Shifted(rest, p), RemoveAt(a, p);
    forall i | 0 <= i < |b| ensures at[i] < |a| && a[at[i]] == b[i] {
      if i > 0 {
        var k := rest[i - 1];
        assert less[k] == b[1..][i - 1] == b[i];
        assert less[k] == a[if k < p then k else k + 1];
      }
    }
    forall i, j | 0 <= i < j < |at| ensures at[i] != at[j] {
      if i > 0 { assert rest[i - 1] != rest[j - 1]; }
    }
  }

  function UpTo(n: nat): (s: set<nat>)
    ensures |s| == n && forall x: nat :: x in s <==> x < n
  {
    if n == 0 then {} else UpTo(n - 1) + {n - 1}
  }

  /** Distinct indices, as many as there are, are all of them. */
  lemma AllTaken(at: seq<nat>, n: nat, j: nat)
    requires NoDup(at) && |at| == n && j < n && forall i :: 0 <= i < n ==> at[i] < n
    ensures j in at
  {
    NoDupCardinality(at);
    SubsetFull(Elements(at), UpTo(n));
    assert j in Elements(at);
  }

  /** The places of the hits that reach the threshold. */
  function Reaching(hits: seq<Hit>, minSim: real, from: nat): (r: seq<nat>)
    requires from <= |hits|
    ensures forall i :: 0 <= i < |r| ==> from <= r[i] < |hits| && hits[r[i]].similarity >= minSim
    decreases |hits| - from
  {
    if from == |hits| then []
    else (if hits[from].similarity >= minSim then [from] else []) + Reaching(hits, minSim, from + 1)
  }

  lemma {:induction false} ReachingOk(hits: seq<Hit>, minSim: real, from: nat)
    requires from <= |hits|
    ensures ComesFrom(hits, AtLeast(hits[from..], minSim), Reaching(hits, minSim, from))
    ensures forall j: nat :: from <= j < |hits| && hits[j].similarity >= minSim ==> j in Reaching(hits, minSim, from)
    decreases |hits| - from
  {
    if from < |hits| {
      ReachingOk(hits, minSim, from + 1);
      assert hits[from..][0] == hits[from] && hits[from..][1..] == hits[from + 1..];
      var head := if hits[from].similarity >= minSim then [from] else [];
      var kept := if hits[from].similarity >= minSim then [hits[from]] else [];
      ComesFromCons(hits, kept, AtLeast(hits[from + 1..], minSim), head, Reaching(hits, minSim, from + 1));
    }
  }

  lemma ComesFromCons<T>(a: seq<T>, b: seq<T>, c: seq<T>, bt: seq<nat>, ct: seq<nat>)
    requires ComesFrom(a, b, bt) && ComesFrom(a, c, ct) && forall x :: x in bt ==> x !in ct
    ensures ComesFrom(a, b + c, bt + ct)
  {
    var at := bt + ct;
    forall i, j | 0 <= i < j < |at| ensures at[i] != at[j] {
      if i < |bt| <= j { assert bt[i] in bt && ct[j - |bt|] in ct; }
    }
  }

  function Through(places: seq<nat>, from: seq<nat>): (r: seq<nat>)
    requires forall i :: 0 <= i < |from| ==> from[i] < |places|
    ensures |r| == |from| && forall i :: 0 <= i < |r| ==> r[i] == places[from[i]]
  {
    seq(|from|, i requires 0 <= i < |from| => places[from[i]])
  }

  lemma ThroughComesFrom<T>(a: seq<T>, b: seq<T>, c: seq<T>, places: seq<nat>, from: seq<nat>)
    requires ComesFrom(a, b, places) && ComesFrom(b, c, from)
    ensures ComesFrom(a, c, Through(places, from))
  {
  }

  lemma KeptPlaces(all: seq<Hit>, minSim: real)
    ensures ComesFrom(all, AtLeast(all, minSim), Reaching(all, minSim, 0))
    ensures forall j: nat :: j < |all| && all[j].similarity >= minSim ==> j in Reaching(all, minSim, 0)
  {
    assert all[0..] == all;
    ReachingOk(all, minSim, 0);
  }

  lemma SortedPlaces(all: seq<Hit>, kept: seq<Hit>, sorted: seq<Hit>, minSim: real) returns (at: seq<nat>)
    requires kept == AtLeast(all, minSim) && multiset(kept) == multiset(sorted)
    ensures ComesFrom(all, sorted, at) && forall j: nat :: j < |all| && all[j].similarity >= minSim ==> j in at
    ensures forall i :: 0 <= i < |sorted| ==> sorted[i].similarity >= minSim
  {
    KeptPlaces(all, minSim);
    var places := Reaching(all, minSim, 0);
    var from := Origins(kept, sorted);
    SameMembers(kept, sorted);
    at := Through(places, from);
    ThroughComesFrom(all, kept, sorted, places, from);
    forall j: nat | j < |all| && all[j].similarity >= minSim ensures j in at {
      var p :| 0 <= p < |places| && places[p] == j;
      AllTaken(from, |kept|, p);
      var i :| 0 <= i < |from| && from[i] == p;
      assert at[i] == j;
    }
    forall i | 0 <= i < |sorted| ensures sorted[i].similarity >= minSim {
      assert kept[from[i]] == all[places[from[i]]];
    }
  }

  lemma ScoredHits(sim: Similarity, q: Vector, rows: seq<Row>, minSim: real, kept: seq<Hit>, sorted: seq<Hit>)
    returns (at: seq<nat>)
    requires kept == AtLeast(SemanticSearch.Scored(sim, q, rows), minSim) && multiset(kept) == multiset(sorted)
    ensures RowHits(sim, q, rows, sorted, at) && forall i :: 0 <= i < |sorted| ==> sorted[i].similarity >= minSim
    ensures forall j: nat :: j < |rows| && sim(q, rows[j].vector) >= minSim ==> j in at
  {
    at := SortedPlaces(SemanticSearch.Scored(sim, q, rows), kept, sorted, minSim);
  }

  /** The linear scan returns the best rows: at most `k`, each once, best first, none below the
      threshold, and none left out that is better. */
  lemma ScanIsTop(sim: Similarity, q: Vector, rows: seq<Row>, k: nat, minSim: real) returns (at: seq<nat>)
    ensures TopHitsAt(sim, q, rows, k, minSim, LinearScan(sim, q, rows, k, minSim), at)
  {
    var kept := AtLeast(SemanticSearch.Scored(sim, q, rows), minSim);
    var key := (h: Hit) => -h.similarity;
    var sorted := ByDescendingSimilarity(kept);
    SortByOk(key, kept);
    forall i, j | 0 <= i < j < |sorted| ensures sorted[i].similarity >= sorted[j].similarity {
      assert key(sorted[i]) <= key(sorted[j]);
    }
    var all := ScoredHits(sim, q, rows, minSim, kept, sorted);
    at := TopOfRanked(sim, q, rows, k, minSim, sorted, all);
  }

  lemma InPrefix(all: seq<nat>, n: nat, p: nat)
    requires p < |all| && n <= |all|
    ensures p < n ==> all[p] in all[..n]
  {
    if p < n { assert all[..n][p] == all[p]; }
  }

  lemma TopOfRanked(sim: Similarity, q: Vector, rows: seq<Row>, k: nat, minSim: real, sorted: seq<Hit>, all: seq<nat>)
    returns (at: seq<nat>)
    requires RowHits(sim, q, rows, sorted, all) && forall i :: 0 <= i < |sorted| ==> sorted[i].similarity >= minSim
    requires forall i, j :: 0 <= i < j < |sorted| ==> sorted[i].similarity >= sorted[j].similarity
    requires forall j: nat :: j < |rows| && sim(q, rows[j].vector) >= minSim ==> j in all
    ensures TopHitsAt(sim, q, rows, k, minSim, Take(sorted, k), at)
  {
    var hits := Take(sorted, k);
    at := all[..|hits|];
    forall j: nat | j < |rows| && j !in at && sim(q, rows[j].vector) >= minSim
      ensures |hits| == k && forall i :: 0 <= i < |hits| ==> hits[i].similarity >= sim(q, rows[j].vector)
    {
      var p :| 0 <= p < |all| && all[p] == j;
      InPrefix(all, |hits|, p);
      assert sorted[p].similarity == sim(q, rows[j].vector);
    }
  }

  // ---------- the index ----------

  /** The hits are those of the nodes `ids`, each node once. */
  ghost predicate NodeHits(g: Graph, sim: Similarity, q: Vector, hits: seq<Hit>, ids: seq<nat>) {
    && |ids| == |hits| && NoDup(ids)
    && forall i :: 0 <= i < |hits| ==>
         ids[i] in g && hits[i] == Hit(g[ids[i]].chunkId, sim(q, g[ids[i]].vector))
  }

  lemma FoundHits(sc: Scope, entry: nat, found: seq<HeapItem>, k: nat)
    requires sc.ef >= 1 && entry in sc.nodes && sc.Found(entry, found)
    ensures var hits, ids := HitsOf(sc.nodes, Take(found, k)), Ids(Take(found, k));
      && NodeHits(sc.nodes, sc.sim, sc.query, hits, ids) && Descending(Sims(hits))
      && (k >= 1 ==> hits != [] && hits[0].similarity >= sc.sim(sc.query, sc.nodes[entry].vector))
  {
    var hits, ids := HitsOf(sc.nodes, Take(found, k)), Ids(Take(found, k));
    forall i | 0 <= i < |hits|
      ensures ids[i] in sc.nodes && hits[i] == Hit(sc.nodes[ids[i]].chunkId, sc.sim(sc.query, sc.nodes[ids[i]].vector))
    {
      assert found[i] == sc.Item(found[i].id);
    }
  }

  /** Where the layer-0 search of a query starts: no farther from the query than the entry point, and,
      if there is a layer above, where no neighbour on it is nearer. */
  ghost predicate GoodStart(ix: Index, fd: Finder, q: Vector, c: nat) {
    && ix.entry.Some? && ix.entry.value in ix.nodes && c in ix.nodes
    && fd.sim(q, ix.nodes[c].vector) >= fd.sim(q, ix.nodes[ix.entry.value].vector)
    && (ix.maxLayer >= 1 ==> Scope(ix.nodes, fd.sim, q, 1, 1).LocalBest(c))
  }

  lemma LandingIsGood(ix: Index, fd: Finder, q: Vector)
    requires IsBeam(fd) && Valid(ix) && ix.entry.Some?
    ensures GoodStart(ix, fd, q, Landing(ix, fd, q))
  {
    BeamIsSound(fd);
    forall n, l: nat | LivesOn(ix.nodes, n, l) ensures ix.nextId !in ix.nodes[n].neighbors[l] {
      assert LinksOk(ix.nodes, ix.config.m, n, l, ix.nodes[n].neighbors[l]);
    }
    DescendNearer(ix.nodes, fd, q, ix.entry.value, ix.maxLayer, 0, ix.config.m, ix.nextId);
  }

  /** A query of any valid index returns true hits of distinct nodes, best first: at most `k`, as many as
      the beam and what can be reached allow, the nearest of it if the beam holds it all, and the first
      no farther than where the search started. */
  lemma SearchHitsAt(ix: Index, fd: Finder, q: Vector, k: nat, ef: nat) returns (c: nat, ids: seq<nat>)
    requires IsBeam(fd) && Valid(ix) && ix.entry.Some? && Larger(ef, k) >= 1
    ensures GoodStart(ix, fd, q, c)
    ensures var hits := Search(ix, fd, q, k, ef);
      && NodeHits(ix.nodes, fd.sim, q, hits, ids) && Descending(Sims(hits)) && |hits| <= k
      && (k >= 1 ==> hits != [] && hits[0].similarity >= fd.sim(q, ix.nodes[c].vector))
    ensures NearestLinks(Scope(ix.nodes, fd.sim, q, Larger(ef, k), 0), c, ids, k)
  {
    c := Landing(ix, fd, q);
    LandingIsGood(ix, fd, q);
    var sc := Scope(ix.nodes, fd.sim, q, Larger(ef, k), 0);
    sc.SearchFinds(c);
    ids := Ids(Take(sc.Search(c), k));
    FoundHits(sc, c, sc.Search(c), k);
    FoundLinks(sc, c, sc.Search(c), k);
  }

  /** Of hits that come best first, dropping those below the threshold keeps a front part. */
  lemma {:induction false} ThresholdCuts(hits: seq<Hit>, minSim: real) returns (n: nat)
    requires Descending(Sims(hits))
    ensures n <= |hits| && AtLeast(hits, minSim) == hits[..n]
    ensures (forall i :: 0 <= i < n ==> hits[i].similarity >= minSim)
    ensures (forall i :: n <= i < |hits| ==> hits[i].similarity < minSim)
  {
    if hits == [] {
      n := 0;
    } else if hits[0].similarity < minSim {
      TailBelow(hits, minSim);
      NoneReaches(hits, minSim);
      n := 0;
    } else {
      assert Sims(hits[1..]) == Sims(hits)[1..];
      var rest := ThresholdCuts(hits[1..], minSim);
      n := rest + 1;
      assert hits[..n] == [hits[0]] + hits[1..][..rest];
    }
  }

  lemma {:induction false} NoneReaches(hits: seq<Hit>, minSim: real)
    requires forall i :: 0 <= i < |hits| ==> hits[i].similarity < minSim
    ensures AtLeast(hits, minSim) == []
  {
    if hits != [] { NoneReaches(hits[1..], minSim); }
  }

  lemma TailBelow(hits: seq<Hit>, minSim: real)
    requires Descending(Sims(hits)) && hits != [] && hits[0].similarity < minSim
    ensures forall i :: 0 <= i < |hits| ==> hits[i].similarity < minSim
  {
    forall i | 0 < i < |hits| ensures hits[i].similarity < minSim {
      assert Sims(hits)[0] >= Sims(hits)[i];
    }
  }
}
