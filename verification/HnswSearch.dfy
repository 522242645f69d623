/** Beam search over one layer of a navigable-small-world graph: the best-first loop of
    `_searchLayer`, with its visited set, its min-heap of candidates and its bounded
    max-heap of results. */
module HnswSearch {
  import opened Sequences
  import opened Heaps

  type Vector = seq<real>
  type Similarity = (Vector, Vector) -> real

  /** A stored embedding; `neighbors[layer]` lists the ids it links to on that layer. */
  datatype Node = Node(chunkId: string, vector: Vector, neighbors: seq<seq<nat>>)

  type Graph = map<nat, Node>

  datatype Beam = Beam(visited: set<nat>, cand: seq<HeapItem>, res: seq<HeapItem>)

  /** What one search holds fixed. The similarity measure is a parameter. */
  datatype Scope = Scope(nodes: Graph, sim: Similarity, query: Vector, ef: nat, layer: nat) {

    function Dist(n: nat): real
      requires n in nodes
    {
      1.0 - sim(query, nodes[n].vector)
    }

    function Item(n: nat): HeapItem
      requires n in nodes
    {
      HeapItem(n, Dist(n))
    }

    /** The links of `n` on the searched layer; none when `n` does not live there. */
    function Links(n: nat): seq<nat> {
      if n in nodes && layer < |nodes[n].neighbors| then nodes[n].neighbors[layer] else []
    }

    // ---------- the search ----------

    function Admit(b: Beam, n: nat): Beam
      requires n in nodes
    {
      var res := Pushed(Max, b.res, Item(n));
      Beam(b.visited + {n}, Pushed(Min, b.cand, Item(n)), if |res| > ef then Popped(Max, res) else res)
    }

    function Visit(b: Beam, n: nat): (r: Beam)
      requires ef >= 1
      ensures r.visited == b.visited + {n}
      ensures n in b.visited || n !in nodes ==> r.cand == b.cand
    {
      if n in b.visited then b
      else if n in nodes && (|b.res| < ef || Dist(n) < b.res[0].dist) then Admit(b, n)
      else b.(visited := b.visited + {n})
    }

    function VisitAll(b: Beam, ns: seq<nat>): (r: Beam)
      requires ef >= 1
      ensures r.visited == b.visited + Elements(ns)
      ensures nodes.Keys - r.visited == nodes.Keys - b.visited ==> r.cand == b.cand
      decreases |ns|
    {
      if ns == [] then b
      else
        var b1 := Visit(b, ns[0]);
        assert ns == [ns[0]] + ns[1..];
        assert nodes.Keys - VisitAll(b1, ns[1..]).visited <= nodes.Keys - b1.visited <= nodes.Keys - b.visited;
        assert nodes.Keys - b1.visited == nodes.Keys - b.visited && ns[0] in nodes ==>
            ns[0] !in nodes.Keys - b1.visited;
        VisitAll(b1, ns[1..])
    }

    predicate Stops(b: Beam)
      requires b.cand != [] && ef >= 1
    {
      |b.res| >= ef && b.cand[0].dist > b.res[0].dist
    }

    function Run(b: Beam): Beam
      requires ef >= 1
      decreases nodes.Keys - b.visited, |b.cand|
    {
      if b.cand == [] then b
      else
        var next := b.(cand := Popped(Min, b.cand));
        if Stops(b) then next
        else
          var grown := VisitAll(next, Links(b.cand[0].id));
          assert nodes.Keys - grown.visited <= nodes.Keys - b.visited;
          Run(grown)
    }

    function Start(entry: nat): Beam
      requires entry in nodes
    {
      Beam({entry}, Pushed(Min, [], Item(entry)), Pushed(Max, [], Item(entry)))
    }

    /** `_searchLayer`: the beam left at the end, nearest first. */
    function Search(entry: nat): seq<HeapItem>
      requires ef >= 1
    {
      if entry !in nodes then [] else SortBy((x: HeapItem) => x.dist, Run(Start(entry)).res)
    }

    // ---------- what the loop keeps ----------

    ghost predicate Genuine(items: seq<HeapItem>, visited: set<nat>) {
      forall x :: x in items ==> x.id in nodes && x.id in visited && x == Item(x.id)
    }

    /** Every visited node is a result, unless the beam is full of results no farther away. */
    ghost predicate Judged(b: Beam) {
      forall n :: n in b.visited && n in nodes && Item(n) !in b.res ==>
        |b.res| == ef && b.res != [] && Dist(n) >= b.res[0].dist
    }

    /** Every result outside `pending` still waits as a candidate or had all its links visited. */
    ghost predicate Expanded(b: Beam, pending: set<nat>) {
      forall x :: x in b.res && x !in b.cand && x.id !in pending ==> Elements(Links(x.id)) <= b.visited
    }

    ghost predicate Inv(b: Beam, pending: set<nat>) {
      && IsHeap(Min, b.cand) && IsHeap(Max, b.res)
      && 1 <= |b.res| <= ef
      && Genuine(b.cand, b.visited) && Genuine(b.res, b.visited)
      && (forall x :: multiset(b.res)[x] <= 1)
      && Judged(b)
      && Expanded(b, pending)
    }

    /** The invariant at the end of the loop: nothing is left to expand. */
    ghost predicate Final(b: Beam) {
      && IsHeap(Max, b.res) && 1 <= |b.res| <= ef && Genuine(b.res, b.visited)
      && (forall x :: multiset(b.res)[x] <= 1)
      && Judged(b)
      && (forall x :: x in b.res ==> Elements(Links(x.id)) <= b.visited)
    }

    lemma AdmitKeepsInv(b: Beam, n: nat, pending: set<nat>)
      requires ef >= 1 && Inv(b, pending) && n in nodes && n !in b.visited
      requires |b.res| < ef || Dist(n) < b.res[0].dist
      ensures Inv(Admit(b, n), pending)
    {
      var it, r, res := Item(n), Admit(b, n), Pushed(Max, b.res, Item(n));
      PushedOk(Min, b.cand, it);
      PushedOk(Max, b.res, it);
      assert it !in b.res;
      if |res| > ef {
        PoppedOk(Max, res);
        AdmitJudged(b, n, pending);
      } else {
        assert Judged(r);
      }
    }

    lemma AdmitJudged(b: Beam, n: nat, pending: set<nat>)
      requires ef >= 1 && Inv(b, pending) && n in nodes && n !in b.visited
      requires |b.res| == ef && Dist(n) < b.res[0].dist
      ensures Judged(Admit(b, n))
    {
      var it, r, res := Item(n), Admit(b, n), Pushed(Max, b.res, Item(n));
      PushedOk(Max, b.res, it);
      PoppedOk(Max, res);
      RootFirstOfAll(Max, b.res);
      assert r.res[0] in res;
      assert r.res[0].dist <= b.res[0].dist;
      assert r.res[0].dist <= res[0].dist;
    }

    lemma VisitKeepsInv(b: Beam, n: nat, pending: set<nat>)
      requires ef >= 1 && Inv(b, pending)
      ensures Inv(Visit(b, n), pending)
    {
      if n !in b.visited && n in nodes {
        if |b.res| < ef || Dist(n) < b.res[0].dist {
          AdmitKeepsInv(b, n, pending);
        }
      }
    }

    lemma {:induction false} VisitAllKeepsInv(b: Beam, ns: seq<nat>, pending: set<nat>)
      requires ef >= 1 && Inv(b, pending)
      ensures Inv(VisitAll(b, ns), pending)
      decreases |ns|
    {
      if ns != [] {
        VisitKeepsInv(b, ns[0], pending);
        VisitAllKeepsInv(Visit(b, ns[0]), ns[1..], pending);
      }
    }

    lemma StepKeepsInv(b: Beam)
      requires ef >= 1 && Inv(b, {}) && b.cand != []
      ensures Inv(VisitAll(b.(cand := Popped(Min, b.cand)), Links(b.cand[0].id)), {})
    {
      var top, next := b.cand[0], b.(cand := Popped(Min, b.cand));
      PoppedOk(Min, b.cand);
      assert Inv(next, {top.id});
      VisitAllKeepsInv(next, Links(top.id), {top.id});
    }

    /** When the loop stops early, no result is waiting any more. */
    lemma StopIsFinal(b: Beam)
      requires ef >= 1 && Inv(b, {}) && b.cand != [] && Stops(b)
      ensures forall x :: x in b.res ==> x !in b.cand
    {
      PoppedOk(Min, b.cand);
      RootFirstOfAll(Max, b.res);
    }

    lemma {:induction false} RunKeepsInv(b: Beam)
      requires ef >= 1 && Inv(b, {})
      ensures Final(Run(b))
      decreases nodes.Keys - b.visited, |b.cand|
    {
      if b.cand != [] {
        if Stops(b) {
          StopIsFinal(b);
        } else {
          var next := b.(cand := Popped(Min, b.cand));
          var grown := VisitAll(next, Links(b.cand[0].id));
          assert nodes.Keys - grown.visited <= nodes.Keys - b.visited;
          StepKeepsInv(b);
          RunKeepsInv(grown);
        }
      }
    }

    lemma StartInv(entry: nat)
      requires ef >= 1 && entry in nodes
      ensures Inv(Start(entry), {})
    {
      var it := Item(entry);
      PushedOk(Min, [], it);
      PushedOk(Max, [], it);
    }

    // ---------- reachability ----------

    ghost predicate IsPath(p: seq<nat>, a: nat, b: nat) {
      && p != [] && p[0] == a && p[|p| - 1] == b
      && (forall i :: 0 <= i < |p| ==> p[i] in nodes)
      && (forall i :: 0 <= i < |p| - 1 ==> p[i + 1] in Links(p[i]))
    }

    ghost predicate Reaches(a: nat, b: nat) {
      exists p :: IsPath(p, a, b)
    }

    /** The existing nodes that links on the layer lead to from `a`, and `a` itself. */
    ghost function Reachable(a: nat): (r: set<nat>)
      ensures forall n :: n in r <==> n in nodes && Reaches(a, n)
    {
      set n | n in nodes && Reaches(a, n)
    }

    ghost predicate Closed(s: set<nat>) {
      forall n, k :: n in s && k in Links(n) && k in nodes ==> k in s
    }

    lemma ReachableClosed(a: nat)
      requires a in nodes
      ensures a in Reachable(a) && Closed(Reachable(a))
    {
      assert IsPath([a], a, a);
      forall n, k | n in Reachable(a) && k in Links(n) && k in nodes ensures k in Reachable(a) {
        var p :| IsPath(p, a, n);
        assert IsPath(p + [k], a, k);
      }
    }

    lemma {:induction false} PathStaysIn(p: seq<nat>, a: nat, b: nat, s: set<nat>)
      requires IsPath(p, a, b) && a in s && Closed(s)
      ensures b in s
      decreases |p|
    {
      if |p| > 1 {
        assert p[0 + 1] in Links(p[0]);
        var q := p[1..];
        forall i | 0 <= i < |q| - 1 ensures q[i + 1] in Links(q[i]) {
          assert p[(i + 1) + 1] in Links(p[i + 1]);
        }
        PathStaysIn(q, p[1], b, s);
      }
    }

    lemma ReachableLeast(a: nat, s: set<nat>)
      requires a in s && Closed(s)
      ensures Reachable(a) <= s
    {
      forall n | n in Reachable(a) ensures n in s {
        var p :| IsPath(p, a, n);
        PathStaysIn(p, a, n, s);
      }
    }

    ghost predicate Within(b: Beam, s: set<nat>) {
      && (forall n :: n in b.visited && n in nodes ==> n in s)
      && Genuine(b.cand, b.visited)
    }

    lemma {:induction false} VisitAllWithin(b: Beam, ns: seq<nat>, pending: set<nat>, s: set<nat>)
      requires ef >= 1 && Inv(b, pending) && Within(b, s)
      requires forall n :: n in ns && n in nodes ==> n in s
      ensures Within(VisitAll(b, ns), s)
      decreases |ns|
    {
      VisitAllKeepsInv(b, ns, pending);
    }

    lemma {:induction false} RunWithin(b: Beam, s: set<nat>)
      requires ef >= 1 && Inv(b, {}) && Within(b, s) && Closed(s)
      ensures forall n :: n in Run(b).visited && n in nodes ==> n in s
      ensures b.visited <= Run(b).visited
      decreases nodes.Keys - b.visited, |b.cand|
    {
      if b.cand != [] && !Stops(b) {
        var top, next := b.cand[0], b.(cand := Popped(Min, b.cand));
        var grown := VisitAll(next, Links(top.id));
        assert nodes.Keys - grown.visited <= nodes.Keys - b.visited;
        StepKeepsInv(b);
        PoppedOk(Min, b.cand);
        assert Inv(next, {top.id});
        VisitAllWithin(next, Links(top.id), {top.id}, s);
        RunWithin(grown, s);
      }
    }

    // ---------- what a layer search returns ----------

    /** The nodes whose distance the search looked at. */
    ghost function Visited(entry: nat): set<nat>
      requires ef >= 1 && entry in nodes
    {
      Run(Start(entry)).visited * nodes.Keys
    }

    /** Between 1 and `ef` existing nodes, distinct, with their true distances, nearest first. */
    ghost predicate Ranked(r: seq<HeapItem>) {
      && 1 <= |r| <= ef
      && (forall i :: 0 <= i < |r| ==> r[i].id in nodes && r[i] == Item(r[i].id))
      && (forall i, j :: 0 <= i < j < |r| ==> r[i].id != r[j].id && r[i].dist <= r[j].dist)
    }

    /** A node of `seen` is missing only when the result is full of nodes no farther away. */
    ghost predicate NearestOf(r: seq<HeapItem>, seen: set<nat>) {
      forall n :: n in seen && n in nodes && Item(n) !in r ==> |r| == ef && r != [] && Dist(n) >= r[|r| - 1].dist
    }

    ghost predicate LinksSeen(r: seq<HeapItem>, seen: set<nat>) {
      forall x, n :: x in r && n in Links(x.id) && n in nodes ==> n in seen
    }

    /** A layer search returns at most `ef` distinct nodes, nearest first; they are the nearest
        of all nodes it visited; and it visited every existing neighbour of a returned node, so
        each such neighbour is returned or, the result being full, is no nearer than the
        farthest returned node. */
    lemma SearchReturnsNearest(entry: nat)
      requires ef >= 1 && entry in nodes
      ensures Ranked(Search(entry))
      ensures NearestOf(Search(entry), Visited(entry))
      ensures LinksSeen(Search(entry), Visited(entry))
      ensures forall x :: x in Search(entry) ==> x.id in Visited(entry)
      ensures entry in Visited(entry) && Visited(entry) <= Reachable(entry)
    {
      var start := Start(entry);
      StartInv(entry);
      RunKeepsInv(start);
      SortedResults(Run(start), Search(entry));
      VisitsReachable(entry, start);
    }

    lemma VisitsReachable(entry: nat, start: Beam)
      requires ef >= 1 && entry in nodes && start == Start(entry)
      ensures entry in Run(start).visited && Run(start).visited * nodes.Keys <= Reachable(entry)
    {
      StartInv(entry);
      ReachableClosed(entry);
      RunWithin(start, Reachable(entry));
    }

    lemma SortedResults(b: Beam, r: seq<HeapItem>)
      requires r == SortBy((x: HeapItem) => x.dist, b.res)
      requires Final(b)
      ensures Ranked(r) && NearestOf(r, b.visited * nodes.Keys) && LinksSeen(r, b.visited * nodes.Keys)
      ensures forall x :: x in r ==> x.id in b.visited * nodes.Keys
    {
      var key := (x: HeapItem) => x.dist;
      SortByOk(key, b.res);
      SameMembers(r, b.res);
      forall i, j | 0 <= i < j < |r| ensures r[i] != r[j] { OnceOnly(r, i, j); }
      forall i | 0 <= i < |r| ensures r[i].id in nodes && r[i] == Item(r[i].id) {
        assert r[i] in b.res;
      }
      forall i, j | 0 <= i < j < |r| ensures r[i].id != r[j].id && r[i].dist <= r[j].dist {
        assert key(r[i]) <= key(r[j]);
        assert r[i] == Item(r[i].id) && r[j] == Item(r[j].id);
      }
      RootFirstOfAll(Max, b.res);
      assert r[|r| - 1] in b.res;
      forall x, n | x in r && n in Links(x.id) && n in nodes ensures n in b.visited * nodes.Keys {
        assert n in Elements(Links(x.id));
      }
    }

    /** A layer search returns only reachable nodes, and is full or returns them all. */
    lemma FullOrAll(entry: nat)
      requires ef >= 1 && entry in nodes
      ensures NoDup(Ids(Search(entry))) && Elements(Ids(Search(entry))) <= Reachable(entry)
      ensures |Search(entry)| == ef || Elements(Ids(Search(entry))) == Reachable(entry)
    {
      SearchReturnsNearest(entry);
      ReachableClosed(entry);
      var r, seen := Search(entry), Visited(entry);
      var ids := Elements(Ids(r));
      forall n | n in ids ensures n in Reachable(entry) {
        var i :| 0 <= i < |r| && Ids(r)[i] == n;
        assert r[i] in r;
      }
      if |r| != ef {
        forall n | n in seen ensures n in ids {
          var i :| 0 <= i < |r| && r[i] == Item(n);
          assert Ids(r)[i] == n;
        }
        forall n, k | n in ids && k in Links(n) && k in nodes ensures k in ids {
          var i :| 0 <= i < |r| && Ids(r)[i] == n;
          assert r[i] in r;
        }
        ReachableLeast(entry, ids);
      }
    }

    /** With room for every reachable node, a layer search returns exactly the reachable nodes. */
    lemma WideBeamIsExact(entry: nat)
      requires ef >= 1 && entry in nodes && |Reachable(entry)| <= ef
      ensures Elements(Ids(Search(entry))) == Reachable(entry)
      ensures NoDup(Ids(Search(entry)))
    {
      FullOrAll(entry);
      NoDupCardinality(Ids(Search(entry)));
      if |Search(entry)| == ef { SubsetFull(Elements(Ids(Search(entry))), Reachable(entry)); }
    }

    /** No existing neighbour of the node is nearer than it. */
    ghost predicate LocalBest(n: nat) {
      n in nodes && forall k :: k in Links(n) && k in nodes ==> Dist(n) <= Dist(k)
    }

    /** The first node found is no farther than the entry and has no nearer neighbour. */
    lemma FirstIsLocalBest(entry: nat)
      requires ef >= 1 && entry in nodes
      ensures Search(entry) != [] && LocalBest(Search(entry)[0].id) && Dist(Search(entry)[0].id) <= Dist(entry)
    {
      SearchReturnsNearest(entry);
      var r, seen := Search(entry), Visited(entry);
      forall n | n in seen ensures n in nodes && r[0].dist <= Dist(n) {
        if Item(n) in r { var i :| 0 <= i < |r| && r[i] == Item(n); }
      }
      assert r[0] in r;
      forall k | k in Links(r[0].id) && k in nodes ensures r[0].dist <= Dist(k) {
        assert k in seen;
      }
    }

    /** All that is known of a search from `entry`, whatever the graph. */
    ghost predicate Found(entry: nat, r: seq<HeapItem>)
      requires entry in nodes
    {
      && Ranked(r)
      && Elements(Ids(r)) <= Reachable(entry) && (|r| == ef || Elements(Ids(r)) == Reachable(entry))
      && LocalBest(r[0].id) && Dist(r[0].id) <= Dist(entry)
    }

    lemma SearchFinds(entry: nat)
      requires ef >= 1 && entry in nodes
      ensures Found(entry, Search(entry))
    {
      SearchReturnsNearest(entry);
      FullOrAll(entry);
      FirstIsLocalBest(entry);
    }
  }

  /** What a layer search can reach depends on that layer only. */
  lemma ReachableSame(a: Scope, b: Scope, n: nat)
    requires a.nodes.Keys == b.nodes.Keys && n in a.nodes && forall k :: a.Links(k) == b.Links(k)
    ensures a.Reachable(n) == b.Reachable(n)
  {
    a.ReachableClosed(n);
    b.ReachableClosed(n);
    a.ReachableLeast(n, b.Reachable(n));
    b.ReachableLeast(n, a.Reachable(n));
  }

  function Ids(items: seq<HeapItem>): (r: seq<nat>)
    ensures |r| == |items| && forall i :: 0 <= i < |r| ==> r[i] == items[i].id
  {
    seq(|items|, i requires 0 <= i < |items| => items[i].id)
  }

  lemma SubsetFull(a: set<nat>, b: set<nat>)
    requires a <= b && |b| <= |a|
    ensures a == b
  {
    assert b == a + (b - a);
    assert |b - a| == 0;
  }
}
