/** The binary heaps of the vector index: an array kept in heap order by swapping
    elements on the way up (`push`) and on the way down (`pop`). The min-heap and the
    max-heap of the program differ only in the direction of their comparisons, so both
    are one class with an `Order`. */
module Heaps {
  import opened Sequences

  datatype HeapItem = HeapItem(id: nat, dist: real)

  datatype Order = Min | Max {
    /** May an item at distance `a` sit above one at distance `b`? */
    predicate Le(a: real, b: real) {
      if Min? then a <= b else a >= b
    }
  }

  function Parent(i: nat): (p: nat)
    requires 0 < i
    ensures p < i && (i == 2 * p + 1 || i == 2 * p + 2)
  {
    (i - 1) / 2
  }

  function Swap(data: seq<HeapItem>, i: nat, j: nat): (r: seq<HeapItem>)
    requires i < |data| && j < |data|
    ensures |r| == |data| && multiset(r) == multiset(data)
  {
    data[i := data[j]][j := data[i]]
  }

  function BubbleUp(ord: Order, data: seq<HeapItem>, i: nat): (r: seq<HeapItem>)
    requires i < |data|
    ensures |r| == |data|
    decreases i
  {
    if i == 0 || ord.Le(data[Parent(i)].dist, data[i].dist) then data
    else BubbleUp(ord, Swap(data, Parent(i), i), Parent(i))
  }

  /** The index among `i` and its two children that belongs on top; `i` wins ties,
      then the left child. */
  function TopOf(ord: Order, data: seq<HeapItem>, i: nat): (t: nat)
    requires i < |data|
    ensures t < |data| && (t == i || t == 2 * i + 1 || t == 2 * i + 2)
    ensures forall c :: (c == 2 * i + 1 || c == 2 * i + 2 || c == i) && c < |data| ==>
        ord.Le(data[t].dist, data[c].dist)
    ensures t != i ==> !ord.Le(data[i].dist, data[t].dist)
  {
    var left, right := 2 * i + 1, 2 * i + 2;
    var top := if left < |data| && !ord.Le(data[i].dist, data[left].dist) then left else i;
    if right < |data| && !ord.Le(data[top].dist, data[right].dist) then right else top
  }

  function SinkDown(ord: Order, data: seq<HeapItem>, i: nat): (r: seq<HeapItem>)
    requires i < |data|
    ensures |r| == |data|
    decreases |data| - i
  {
    var t := TopOf(ord, data, i);
    if t == i then data else SinkDown(ord, Swap(data, t, i), t)
  }

  function Pushed(ord: Order, data: seq<HeapItem>, item: HeapItem): seq<HeapItem> {
    BubbleUp(ord, data + [item], |data|)
  }

  function Popped(ord: Order, data: seq<HeapItem>): (r: seq<HeapItem>)
    requires data != []
    ensures |r| == |data| - 1
  {
    var rest := data[..|data| - 1];
    if rest == [] then [] else SinkDown(ord, rest[0 := data[|data| - 1]], 0)
  }

  // ---------- heap order ----------

  ghost predicate Ordered(ord: Order, data: seq<HeapItem>, i: nat) {
    0 < i < |data| ==> ord.Le(data[Parent(i)].dist, data[i].dist)
  }

  ghost predicate IsHeap(ord: Order, data: seq<HeapItem>) {
    forall i: nat :: Ordered(ord, data, i)
  }

  /** Heap order except above `k`, whose children still fit under its parent. */
  ghost predicate HeapButAbove(ord: Order, data: seq<HeapItem>, k: nat) {
    && (forall i: nat :: i != k ==> Ordered(ord, data, i))
    && (forall i: nat :: 0 < i < |data| && 0 < k && Parent(i) == k ==> ord.Le(data[Parent(k)].dist, data[i].dist))
  }

  /** Heap order except below `k`, whose children still fit under its parent. */
  ghost predicate HeapButBelow(ord: Order, data: seq<HeapItem>, k: nat) {
    && (forall i: nat :: 0 < i && Parent(i) != k ==> Ordered(ord, data, i))
    && (forall i: nat :: 0 < i < |data| && 0 < k && Parent(i) == k ==> ord.Le(data[Parent(k)].dist, data[i].dist))
  }

  lemma {:induction false} BubbleUpOk(ord: Order, data: seq<HeapItem>, i: nat)
    requires i < |data| && HeapButAbove(ord, data, i)
    ensures IsHeap(ord, BubbleUp(ord, data, i))
    ensures multiset(BubbleUp(ord, data, i)) == multiset(data)
    decreases i
  {
    if i == 0 || ord.Le(data[Parent(i)].dist, data[i].dist) {
      assert Ordered(ord, data, i);
    } else {
      var p := Parent(i);
      var next := Swap(data, p, i);
      forall j: nat | j != p && 0 < j < |next| ensures Ordered(ord, next, j) {
        if j != i { assert Ordered(ord, data, j); }
      }
      forall j: nat | 0 < j < |next| && 0 < p && Parent(j) == p
        ensures ord.Le(next[Parent(p)].dist, next[j].dist)
      {
        if j != i { assert Ordered(ord, data, j); }
        assert Ordered(ord, data, p);
      }
      BubbleUpOk(ord, next, p);
    }
  }

  lemma {:induction false} SinkDownOk(ord: Order, data: seq<HeapItem>, i: nat)
    requires i < |data| && HeapButBelow(ord, data, i)
    ensures IsHeap(ord, SinkDown(ord, data, i))
    ensures multiset(SinkDown(ord, data, i)) == multiset(data)
    decreases |data| - i
  {
    var t := TopOf(ord, data, i);
    if t == i {
      forall j: nat | 0 < j < |data| ensures Ordered(ord, data, j) {
        if Parent(j) != i { assert Ordered(ord, data, j); }
      }
    } else {
      var next := Swap(data, t, i);
      assert Parent(t) == i;
      forall j: nat | 0 < j < |next| && Parent(j) != t ensures Ordered(ord, next, j) {
        if Parent(j) != i { assert Ordered(ord, data, j); }
      }
      forall j: nat | 0 < j < |next| && Parent(j) == t ensures ord.Le(next[Parent(t)].dist, next[j].dist) {
        assert Ordered(ord, data, j);
      }
      SinkDownOk(ord, next, t);
    }
  }

  /** The root of a heap comes before every element. */
  lemma {:induction false} RootFirst(ord: Order, data: seq<HeapItem>, i: nat)
    requires IsHeap(ord, data) && i < |data|
    ensures ord.Le(data[0].dist, data[i].dist)
  {
    if i > 0 {
      RootFirst(ord, data, Parent(i));
      assert Ordered(ord, data, i);
    }
  }

  lemma RootFirstOfAll(ord: Order, data: seq<HeapItem>)
    requires IsHeap(ord, data) && data != []
    ensures forall x :: x in data ==> ord.Le(data[0].dist, x.dist)
  {
    forall x | x in data ensures ord.Le(data[0].dist, x.dist) {
      var i: nat :| i < |data| && data[i] == x;
      RootFirst(ord, data, i);
    }
  }

  /** Pushing keeps heap order and adds exactly the item. */
  lemma PushedOk(ord: Order, data: seq<HeapItem>, item: HeapItem)
    requires IsHeap(ord, data)
    ensures IsHeap(ord, Pushed(ord, data, item))
    ensures multiset(Pushed(ord, data, item)) == multiset(data) + multiset{item}
    ensures forall x :: x in Pushed(ord, data, item) <==> x in data || x == item
  {
    var next := data + [item];
    forall j: nat | j != |data| ensures Ordered(ord, next, j) {
      assert Ordered(ord, data, j);
    }
    BubbleUpOk(ord, next, |data|);
    SameMembers(BubbleUp(ord, next, |data|), next);
  }

  lemma MembersOfSum(a: seq<HeapItem>, b: seq<HeapItem>, item: HeapItem)
    requires multiset(a) == multiset(b) + multiset{item}
    ensures forall x :: x in a <==> x in b || x == item
  {
    forall x ensures x in a <==> x in b || x == item {
      assert x in a <==> x in multiset(a);
      assert x in b <==> x in multiset(b);
    }
  }

  /** Taking away the root leaves a heap except below the root, with one item less. */
  lemma RootRemoved(ord: Order, data: seq<HeapItem>)
    requires IsHeap(ord, data) && |data| >= 2
    ensures var next := data[..|data| - 1][0 := data[|data| - 1]];
      HeapButBelow(ord, next, 0) && multiset(data) == multiset(next) + multiset{data[0]}
  {
    var last := |data| - 1;
    var next := data[..last][0 := data[last]];
    forall j: nat | 0 < j && Parent(j) != 0 ensures Ordered(ord, next, j) {
      assert Ordered(ord, data, j);
    }
    assert data == [data[0]] + data[1..last] + [data[last]] && next == [data[last]] + data[1..last];
  }

  /** Popping keeps heap order, takes away exactly the root, and the root was first. */
  lemma PoppedOk(ord: Order, data: seq<HeapItem>)
    requires IsHeap(ord, data) && data != []
    ensures IsHeap(ord, Popped(ord, data))
    ensures multiset(data) == multiset(Popped(ord, data)) + multiset{data[0]}
    ensures forall x :: x in data ==> ord.Le(data[0].dist, x.dist)
    ensures forall x :: x in data <==> x in Popped(ord, data) || x == data[0]
  {
    RootFirstOfAll(ord, data);
    if |data| == 1 {
      assert data == [data[0]];
    } else {
      RootRemoved(ord, data);
      SinkDownOk(ord, data[..|data| - 1][0 := data[|data| - 1]], 0);
    }
    MembersOfSum(data, Popped(ord, data), data[0]);
  }

  class Heap {
    const order: Order
    var data: seq<HeapItem>

    constructor (order: Order)
      ensures this.order == order && data == []
    {
      this.order := order;
      data := [];
    }

    method Push(item: HeapItem)
      modifies this
      ensures data == Pushed(order, old(data), item)
    {
      data := data + [item];
      SiftUp(|data| - 1);
    }

    method Pop() returns (top: Option<HeapItem>)
      modifies this
      ensures old(data) == [] ==> top == None && data == []
      ensures old(data) != [] ==> top == Some(old(data)[0]) && data == Popped(order, old(data))
    {
      if |data| == 0 { return None; }
      top := Some(data[0]);
      var last := data[|data| - 1];
      data := data[..|data| - 1];
      if |data| > 0 {
        data := data[0 := last];
        SiftDown(0);
      }
    }

    method SiftUp(start: nat)
      requires start < |data|
      modifies this
      ensures data == BubbleUp(order, old(data), start)
    {
      var i: nat := start;
      while i > 0
        invariant i < |data|
        invariant BubbleUp(order, data, i) == BubbleUp(order, old(data), start)
      {
        var parent := Parent(i);
        if order.Le(data[parent].dist, data[i].dist) { break; }
        data := Swap(data, parent, i);
        i := parent;
      }
    }

    method SiftDown(start: nat)
      requires start < |data|
      modifies this
      ensures data == SinkDown(order, old(data), start)
    {
      var i: nat := start;
      var done := false;
      while !done
        invariant i < |data|
        invariant !done ==> SinkDown(order, data, i) == SinkDown(order, old(data), start)
        invariant done ==> data == SinkDown(order, old(data), start)
        decreases !done, |data| - i
      {
        var top := TopOf(order, data, i);
        if top == i {
          done := true;
        } else {
          data := Swap(data, top, i);
          i := top;
        }
      }
    }
  }
}
