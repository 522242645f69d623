/** Facts about sequences that several components share: options, duplicate-free
    sequences, and the stable sort behind JavaScript's `Array.prototype.sort`. */
module Sequences {

  datatype Option<+T> = None | Some(value: T)

  predicate NoDup<T(==)>(s: seq<T>) {
    forall i, j :: 0 <= i < j < |s| ==> s[i] != s[j]
  }

  function Elements<T(!new)>(s: seq<T>): (e: set<T>)
    ensures forall x :: x in e <==> x in s
  {
    set x | x in s
  }

  function Take<T>(s: seq<T>, n: nat): (r: seq<T>)
    ensures r <= s && |r| == if n < |s| then n else |s|
  {
    if n < |s| then s[..n] else s
  }

  lemma Assoc<T>(a: seq<T>, b: seq<T>, c: seq<T>)
    ensures (a + b) + c == a + (b + c)
  {
  }

  lemma ConsParts<T>(x: T, s: seq<T>)
    ensures ([x] + s)[0] == x && ([x] + s)[1..] == s
  {
  }

  lemma HeadTail<T>(s: seq<T>)
    requires s != []
    ensures [s[0]] + s[1..] == s
  {
  }

  /** What a loop has gathered and what is still to come make up its target. */
  ghost predicate Completes<T>(done: seq<T>, rest: seq<T>, target: seq<T>) {
    done + rest == target
  }

  lemma CompletesAtStart<T>(target: seq<T>)
    ensures Completes([], target, target)
  {
    assert [] + target == target;
  }

  lemma CompletesStep<T>(done: seq<T>, piece: seq<T>, rest: seq<T>, target: seq<T>)
    requires Completes(done, piece + rest, target)
    ensures Completes(done + piece, rest, target)
  {
    Assoc(done, piece, rest);
  }

  lemma CompletesAtEnd<T>(done: seq<T>, target: seq<T>)
    requires Completes(done, [], target)
    ensures done == target
  {
    assert done + [] == done;
  }

  function Filter<T>(p: T -> bool, s: seq<T>): (r: seq<T>)
    ensures |r| <= |s|
  {
    if s == [] then [] else (if p(s[0]) then [s[0]] else []) + Filter(p, s[1..])
  }

  lemma {:induction false} FilterMembers<T>(p: T -> bool, s: seq<T>, i: nat)
    requires i < |Filter(p, s)|
    ensures p(Filter(p, s)[i]) && Filter(p, s)[i] in s
  {
    if p(s[0]) {
      if i > 0 { FilterMembers(p, s[1..], i - 1); }
    } else {
      assert [] + Filter(p, s[1..]) == Filter(p, s[1..]);
      FilterMembers(p, s[1..], i);
    }
  }

  lemma {:induction false} FilterAll<T>(p: T -> bool, s: seq<T>)
    requires forall i :: 0 <= i < |s| ==> p(s[i])
    ensures Filter(p, s) == s
  {
    if s != [] {
      FilterAll(p, s[1..]);
      HeadTail(s);
    }
  }

  function FlatMap<T, U>(f: T -> seq<U>, s: seq<T>): seq<U> {
    if s == [] then [] else f(s[0]) + FlatMap(f, s[1..])
  }

  lemma {:induction false} FlatMapConcat<T, U>(f: T -> seq<U>, a: seq<T>, b: seq<T>)
    ensures FlatMap(f, a + b) == FlatMap(f, a) + FlatMap(f, b)
  {
    if a == [] {
      assert a + b == b;
    } else {
      FlatMapConcat(f, a[1..], b);
      assert (a + b)[0] == a[0] && (a + b)[1..] == a[1..] + b;
      Assoc(f(a[0]), FlatMap(f, a[1..]), FlatMap(f, b));
    }
  }

  /** What maps to nothing may be left out. */
  lemma {:induction false} FlatMapFilter<T(!new), U>(f: T -> seq<U>, p: T -> bool, s: seq<T>)
    requires forall x :: !p(x) ==> f(x) == []
    ensures FlatMap(f, Filter(p, s)) == FlatMap(f, s)
  {
    if s != [] {
      var rest := Filter(p, s[1..]);
      FlatMapFilter(f, p, s[1..]);
      if p(s[0]) { assert ([s[0]] + rest)[1..] == rest; } else { assert [] + rest == rest; }
    }
  }

  /** Filtering keeps every copy of what passes and nothing else. */
  lemma {:induction false} FilterCount<T>(p: T -> bool, s: seq<T>, x: T)
    ensures multiset(Filter(p, s))[x] == if p(x) then multiset(s)[x] else 0
  {
    if s != [] {
      FilterCount(p, s[1..], x);
      assert s == [s[0]] + s[1..];
      assert multiset(s) == multiset{s[0]} + multiset(s[1..]);
    }
  }

  lemma FilterSame<T(!new)>(p: T -> bool, a: seq<T>, b: seq<T>)
    requires multiset(a) == multiset(b)
    ensures multiset(Filter(p, a)) == multiset(Filter(p, b))
  {
    forall x ensures multiset(Filter(p, a))[x] == multiset(Filter(p, b))[x] {
      FilterCount(p, a, x);
      FilterCount(p, b, x);
    }
  }

  lemma {:induction false} NoDupCardinality<T(!new)>(s: seq<T>)
    requires NoDup(s)
    ensures |Elements(s)| == |s|
  {
    if s != [] {
      var front := s[..|s| - 1];
      NoDupCardinality(front);
      assert s == front + [s[|s| - 1]];
      assert Elements(s) == Elements(front) + {s[|s| - 1]};
    }
  }

  lemma OnceOnly<T>(s: seq<T>, i: nat, j: nat)
    requires i < j < |s| && multiset(s)[s[j]] <= 1
    ensures s[i] != s[j]
  {
    assert s == s[..j] + [s[j]] + s[j + 1..];
    assert multiset(s)[s[j]] >= multiset(s[..j])[s[j]] + 1;
    assert multiset(s[..j])[s[j]] == 0;
    assert s[i] in s[..j];
  }

  lemma NoDupCount<T>(s: seq<T>, x: T)
    requires NoDup(s)
    ensures multiset(s)[x] <= 1
  {
    if x in s {
      var k :| 0 <= k < |s| && s[k] == x;
      assert s == s[..k] + [x] + s[k + 1..];
      assert x !in s[..k] && x !in s[k + 1..];
    }
  }

  /** Rearranging a sequence introduces no duplicates. */
  lemma NoDupPermuted<T>(a: seq<T>, b: seq<T>)
    requires multiset(a) == multiset(b) && NoDup(a)
    ensures NoDup(b)
  {
    forall i, j | 0 <= i < j < |b| ensures b[i] != b[j] {
      NoDupCount(a, b[j]);
      OnceOnly(b, i, j);
    }
  }

  /** A duplicate-free sequence holds each of its elements once. */
  lemma {:induction false} NoDupMultiset<T(!new)>(s: seq<T>)
    requires NoDup(s)
    ensures multiset(s) == multiset(Elements(s))
  {
    if s == [] {
      assert Elements(s) == {};
    } else {
      var front, last := s[..|s| - 1], s[|s| - 1];
      NoDupMultiset(front);
      assert s == front + [last];
      assert Elements(s) == Elements(front) + {last};
    }
  }

  /** Stable insertion of `x` in a list sorted by ascending key. */
  function InsertBy<T>(key: T -> real, x: T, s: seq<T>): seq<T> {
    if s == [] then [x]
    else if key(x) < key(s[0]) then [x] + s
    else [s[0]] + InsertBy(key, x, s[1..])
  }

  /** The stable sort by ascending key; the input order breaks ties. */
  function SortBy<T>(key: T -> real, s: seq<T>): seq<T> {
    if s == [] then [] else InsertBy(key, s[|s| - 1], SortBy(key, s[..|s| - 1]))
  }

  ghost predicate Ascending<T>(key: T -> real, s: seq<T>) {
    forall i, j :: 0 <= i < j < |s| ==> key(s[i]) <= key(s[j])
  }

  lemma {:induction false} InsertByMultiset<T>(key: T -> real, x: T, s: seq<T>)
    ensures multiset(InsertBy(key, x, s)) == multiset(s) + multiset{x}
  {
    if s != [] && key(x) >= key(s[0]) {
      InsertByMultiset(key, x, s[1..]);
      HeadTail(s);
    }
  }

  lemma AscendingCons<T>(key: T -> real, x: T, r: seq<T>)
    requires Ascending(key, r) && forall y :: y in r ==> key(x) <= key(y)
    ensures Ascending(key, [x] + r)
  {
    var s := [x] + r;
    forall i, j | 0 <= i < j < |s| ensures key(s[i]) <= key(s[j]) {
      assert s[j] == r[j - 1];
      if i > 0 { assert s[i] == r[i - 1]; }
    }
  }

  lemma {:induction false} InsertByOk<T>(key: T -> real, x: T, s: seq<T>)
    requires Ascending(key, s)
    ensures Ascending(key, InsertBy(key, x, s))
    ensures multiset(InsertBy(key, x, s)) == multiset(s) + multiset{x}
  {
    InsertByMultiset(key, x, s);
    if s != [] {
      if key(x) < key(s[0]) {
        AscendingCons(key, x, s);
      } else {
        InsertByOk(key, x, s[1..]);
        var r := InsertBy(key, x, s[1..]);
        forall y | y in r ensures key(s[0]) <= key(y) {
          assert y in multiset(r);
          assert y == x || y in multiset(s[1..]);
        }
        AscendingCons(key, s[0], r);
      }
    }
  }

  lemma {:induction false} SortByOk<T>(key: T -> real, s: seq<T>)
    ensures Ascending(key, SortBy(key, s))
    ensures multiset(SortBy(key, s)) == multiset(s)
  {
    if s != [] {
      SortByOk(key, s[..|s| - 1]);
      InsertByOk(key, s[|s| - 1], SortBy(key, s[..|s| - 1]));
      assert s == s[..|s| - 1] + [s[|s| - 1]];
    }
  }

  /** In order of `key`, and among equal keys in order of `tie`. */
  ghost predicate Lexical<T>(key: T -> real, tie: T -> real, s: seq<T>) {
    forall i, j :: 0 <= i < j < |s| ==> key(s[i]) < key(s[j]) || (key(s[i]) == key(s[j]) && tie(s[i]) <= tie(s[j]))
  }

  lemma LexicalCons<T>(key: T -> real, tie: T -> real, x: T, s: seq<T>)
    requires Lexical(key, tie, s)
    requires forall y :: y in s ==> key(x) < key(y) || (key(x) == key(y) && tie(x) <= tie(y))
    ensures Lexical(key, tie, [x] + s)
  {
    var r := [x] + s;
    forall i, j | 0 <= i < j < |r|
      ensures key(r[i]) < key(r[j]) || (key(r[i]) == key(r[j]) && tie(r[i]) <= tie(r[j]))
    {
      assert r[j] == s[j - 1];
      if i > 0 { assert r[i] == s[i - 1]; }
    }
  }

  lemma {:induction false} InsertByStable<T>(key: T -> real, tie: T -> real, x: T, s: seq<T>)
    requires Lexical(key, tie, s) && forall y :: y in s ==> tie(y) <= tie(x)
    ensures Lexical(key, tie, InsertBy(key, x, s))
  {
    if s == [] {
    } else if key(x) >= key(s[0]) {
      InsertByStable(key, tie, x, s[1..]);
      InsertByMultiset(key, x, s[1..]);
      var r := InsertBy(key, x, s[1..]);
      forall y | y in r ensures key(s[0]) < key(y) || (key(s[0]) == key(y) && tie(s[0]) <= tie(y)) {
        assert y in multiset(r);
        if y != x {
          assert y in multiset(s[1..]);
          var k :| 0 <= k < |s[1..]| && s[1..][k] == y;
          assert s[k + 1] == y;
        }
      }
      LexicalCons(key, tie, s[0], r);
    } else {
      forall y | y in s ensures key(x) < key(y) {
        var k :| 0 <= k < |s| && s[k] == y;
      }
      LexicalCons(key, tie, x, s);
    }
  }

  /** Sorting is stable: what was in order of `tie` stays so among equal keys. */
  lemma {:induction false} SortByStable<T>(key: T -> real, tie: T -> real, s: seq<T>)
    requires Ascending(tie, s)
    ensures Lexical(key, tie, SortBy(key, s))
  {
    if s != [] {
      var n := |s| - 1;
      SortByStable(key, tie, s[..n]);
      SortByOk(key, s[..n]);
      forall y | y in SortBy(key, s[..n]) ensures tie(y) <= tie(s[n]) {
        assert y in multiset(SortBy(key, s[..n]));
        var k :| 0 <= k < n && s[k] == y;
      }
      InsertByStable(key, tie, s[n], SortBy(key, s[..n]));
    }
  }

  lemma SameMembers<T(!new)>(a: seq<T>, b: seq<T>)
    requires multiset(a) == multiset(b)
    ensures |a| == |b| && forall x :: x in a <==> x in b
  {
    assert |a| == |multiset(a)| == |multiset(b)| == |b|;
    forall x ensures x in a <==> x in b {
      assert x in a <==> x in multiset(a);
    }
  }

  function RemoveAt<T>(s: seq<T>, k: nat): seq<T>
    requires k < |s|
  {
    s[..k] + s[k + 1..]
  }

  lemma RemoveAtMultiset<T>(s: seq<T>, k: nat)
    requires k < |s|
    ensures multiset(RemoveAt(s, k)) == multiset(s) - multiset{s[k]}
  {
    assert s == s[..k] + [s[k]] + s[k + 1..];
  }

  function Keys<T>(key: T -> real, s: seq<T>): (r: seq<real>)
    ensures |r| == |s| && forall i :: 0 <= i < |s| ==> r[i] == key(s[i])
  {
    seq(|s|, i requires 0 <= i < |s| => key(s[i]))
  }

  lemma KeysRemoveAt<T>(key: T -> real, s: seq<T>, k: nat)
    requires k < |s|
    ensures multiset(Keys(key, RemoveAt(s, k))) == multiset(Keys(key, s)) - multiset{key(s[k])}
  {
    RemoveAtMultiset(Keys(key, s), k);
    assert Keys(key, RemoveAt(s, k)) == RemoveAt(Keys(key, s), k);
  }

  lemma {:induction false} KeysOfSame<T(!new)>(key: T -> real, a: seq<T>, b: seq<T>)
    requires multiset(a) == multiset(b)
    ensures multiset(Keys(key, a)) == multiset(Keys(key, b))
  {
    SameMembers(a, b);
    if a == [] {
      assert Keys(key, a) == Keys(key, b);
    } else {
      assert a[0] in b;
      var k: nat :| k < |b| && b[k] == a[0];
      RemoveAtMultiset(a, 0);
      RemoveAtMultiset(b, k);
      KeysOfSame(key, RemoveAt(a, 0), RemoveAt(b, k));
      KeysRemoveAt(key, a, 0);
      KeysRemoveAt(key, b, k);
      SameAfterRemoval(Keys(key, a), Keys(key, b), 0, k);
    }
  }

  lemma SameAfterRemoval<T>(a: seq<T>, b: seq<T>, i: nat, j: nat)
    requires i < |a| && j < |b| && a[i] == b[j]
    requires multiset(a) - multiset{a[i]} == multiset(b) - multiset{b[j]}
    ensures multiset(a) == multiset(b)
  {
    assert a[i] in multiset(a) && b[j] in multiset(b);
    assert multiset(a) == multiset(a) - multiset{a[i]} + multiset{a[i]};
    assert multiset(b) == multiset(b) - multiset{b[j]} + multiset{b[j]};
  }

  predicate AscendingReals(s: seq<real>) {
    forall i, j :: 0 <= i < j < |s| ==> s[i] <= s[j]
  }

  /** A multiset of reals has one ascending listing. */
  lemma {:induction false} AscendingUnique(a: seq<real>, b: seq<real>)
    requires AscendingReals(a) && AscendingReals(b) && multiset(a) == multiset(b)
    ensures a == b
    decreases |a|, 1
  {
    SameMembers(a, b);
    if a != [] {
      FirstIsLeast(a, b[0]);
      FirstIsLeast(b, a[0]);
      RestUnique(a, b);
    }
  }

  lemma FirstIsLeast(a: seq<real>, x: real)
    requires AscendingReals(a) && x in a
    ensures a[0] <= x
  {
  }

  lemma RestUnique(a: seq<real>, b: seq<real>)
    requires a != [] && b != [] && a[0] == b[0] && multiset(a) == multiset(b)
    requires AscendingReals(a) && AscendingReals(b)
    ensures a == b
    decreases |a|, 0
  {
    RemoveAtMultiset(a, 0);
    RemoveAtMultiset(b, 0);
    assert RemoveAt(a, 0) == a[1..] && RemoveAt(b, 0) == b[1..];
    AscendingUnique(a[1..], b[1..]);
  }
}
