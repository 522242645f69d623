/** Diff accounting: what an edit is reported to add and delete. */
module DiffSummary {
  import opened Sequences
  import opened Text

  datatype Summary = Summary(filesChanged: nat, additions: int, deletions: int, paths: seq<string>)

  /** How far two lists agree from the front, from index `i` on. */
  function PrefixFrom(a: seq<string>, b: seq<string>, i: nat): (n: nat)
    requires i <= |a| && i <= |b|
    ensures i <= n <= |a| && n <= |b|
    decreases |a| - i
  {
    if i < |a| && i < |b| && a[i] == b[i] then PrefixFrom(a, b, i + 1) else i
  }

  /** How far they agree from the back, from distance `i` on, not reaching into the first `p`. */
  function SuffixFrom(a: seq<string>, b: seq<string>, p: nat, i: nat): (n: nat)
    requires p + i <= |a| && p + i <= |b|
    ensures i <= n && p + n <= |a| && p + n <= |b|
    decreases |a| - i
  {
    if i < |a| - p && i < |b| - p && a[|a| - 1 - i] == b[|b| - 1 - i] then SuffixFrom(a, b, p, i + 1) else i
  }

  function CommonPrefix(a: seq<string>, b: seq<string>): (n: nat)
    ensures n <= |a| && n <= |b|
  {
    PrefixFrom(a, b, 0)
  }

  function CommonSuffix(a: seq<string>, b: seq<string>): (n: nat)
    ensures CommonPrefix(a, b) + n <= |a| && CommonPrefix(a, b) + n <= |b|
  {
    SuffixFrom(a, b, CommonPrefix(a, b), 0)
  }

  /** `summarizeTextDiff`. */
  function Summarize(path: string, before: string, after: string): Summary {
    if before == after then Summary(0, 0, 0, [])
    else
      var a, b := FileLines(before), FileLines(after);
      var common := CommonPrefix(a, b) + CommonSuffix(a, b);
      Summary(1, |b| - common, |a| - common, [path])
  }

  method SummarizeTextDiff(path: string, before: string, after: string) returns (s: Summary)
    ensures s == Summarize(path, before, after)
  {
    if before == after { return Summary(0, 0, 0, []); }
    var a, b := FileLines(before), FileLines(after);
    var prefix, suffix := MeasureEnds(a, b);
    return Summary(1, |b| - prefix - suffix, |a| - prefix - suffix, [path]);
  }

  method MeasureEnds(a: seq<string>, b: seq<string>) returns (prefix: nat, suffix: nat)
    ensures prefix == CommonPrefix(a, b) && suffix == CommonSuffix(a, b)
  {
    prefix := 0;
    while prefix < |a| && prefix < |b| && a[prefix] == b[prefix]
      invariant prefix <= |a| && prefix <= |b| && PrefixFrom(a, b, prefix) == CommonPrefix(a, b)
    {
      prefix := prefix + 1;
    }
    suffix := 0;
    while suffix < |a| - prefix && suffix < |b| - prefix && a[|a| - 1 - suffix] == b[|b| - 1 - suffix]
      invariant prefix + suffix <= |a| && prefix + suffix <= |b|
      invariant SuffixFrom(a, b, prefix, suffix) == CommonSuffix(a, b)
    {
      suffix := suffix + 1;
    }
  }

  /** Additions minus deletions is the change in the number of lines, for any two texts. */
  lemma SummaryBalances(path: string, before: string, after: string)
    ensures var s := Summarize(path, before, after);
      && s.additions - s.deletions == |FileLines(after)| - |FileLines(before)|
      && s.additions >= 0 && s.deletions >= 0
  {
  }

  lemma {:induction false} PrefixIsMaximal(a: seq<string>, b: seq<string>, i: nat)
    requires i <= |a| && i <= |b|
    ensures var n := PrefixFrom(a, b, i);
      (forall k :: i <= k < n ==> a[k] == b[k]) && (n < |a| && n < |b| ==> a[n] != b[n])
    decreases |a| - i
  {
    if i < |a| && i < |b| && a[i] == b[i] { PrefixIsMaximal(a, b, i + 1); }
  }

  lemma {:induction false} SuffixIsMaximal(a: seq<string>, b: seq<string>, p: nat, i: nat, k: nat)
    requires p + i <= |a| && p + i <= |b|
    ensures var n := SuffixFrom(a, b, p, i);
      && (i <= k < n ==> a[|a| - 1 - k] == b[|b| - 1 - k])
      && (p + n < |a| && p + n < |b| ==> a[|a| - 1 - n] != b[|b| - 1 - n])
    decreases |a| - i
  {
    if i < |a| - p && i < |b| - p && a[|a| - 1 - i] == b[|b| - 1 - i] { SuffixIsMaximal(a, b, p, i + 1, k); }
  }

  /** Replacing `del` lines after the first `p` by `add` lines of `b` turns `a` into `b`; no longer
      prefix is common, and given that prefix no longer suffix is. */
  ghost predicate MinimalReplacement(a: seq<string>, b: seq<string>, p: nat, del: int, add: int) {
    && 0 <= del && p + del <= |a| && 0 <= add && p + add <= |b|
    && b == a[..p] + b[p..p + add] + a[p + del..]
    && (p < |a| && p < |b| ==> a[p] != b[p])
    && (del > 0 && add > 0 ==> a[p + del - 1] != b[p + add - 1])
  }

  lemma ReplacementOfLines(a: seq<string>, b: seq<string>, p: nat, del: int, add: int)
    requires p == CommonPrefix(a, b) && del == |a| - p - CommonSuffix(a, b) && add == |b| - p - CommonSuffix(a, b)
    ensures MinimalReplacement(a, b, p, del, add)
  {
    PrefixParts(a, b);
    SuffixParts(a, b, p);
    Replacement(a, b, p, CommonSuffix(a, b), del, add);
  }

  lemma PrefixParts(a: seq<string>, b: seq<string>)
    ensures var p := CommonPrefix(a, b); a[..p] == b[..p] && (p < |a| && p < |b| ==> a[p] != b[p])
  {
    PrefixIsMaximal(a, b, 0);
  }

  lemma SuffixParts(a: seq<string>, b: seq<string>, p: nat)
    requires p <= |a| && p <= |b|
    ensures var n := SuffixFrom(a, b, p, 0);
      a[|a| - n..] == b[|b| - n..] && (p + n < |a| && p + n < |b| ==> a[|a| - 1 - n] != b[|b| - 1 - n])
  {
    var n := SuffixFrom(a, b, p, 0);
    SuffixIsMaximal(a, b, p, 0, 0);
    var endA, endB := a[|a| - n..], b[|b| - n..];
    forall j | 0 <= j < n ensures endA[j] == endB[j] { SuffixIsMaximal(a, b, p, 0, n - 1 - j); }
    assert endA == endB;
  }

  lemma Replacement(a: seq<string>, b: seq<string>, p: nat, n: nat, del: nat, add: nat)
    requires p + del + n == |a| && p + add + n == |b| && a[..p] == b[..p] && a[|a| - n..] == b[|b| - n..]
    requires p < |a| && p < |b| ==> a[p] != b[p]
    requires p + n < |a| && p + n < |b| ==> a[|a| - 1 - n] != b[|b| - 1 - n]
    ensures MinimalReplacement(a, b, p, del, add)
  {
    assert b == b[..p] + b[p..p + add] + b[p + add..];
  }

  /** The reported numbers are those of a replacement of the middle that turns the old lines into
      the new ones and cannot be narrowed from the front, nor then from the back. */
  lemma SummaryReplacesMiddle(path: string, before: string, after: string)
    requires before != after
    ensures var s, a, b := Summarize(path, before, after), FileLines(before), FileLines(after);
      MinimalReplacement(a, b, CommonPrefix(a, b), s.deletions, s.additions)
  {
    var s, a, b := Summarize(path, before, after), FileLines(before), FileLines(after);
    ReplacementOfLines(a, b, CommonPrefix(a, b), s.deletions, s.additions);
  }

  /** Replacing the middle and writing the lines back turns one text into the other, whenever the
      new text has no CR LF. */
  lemma SummaryRebuilds(path: string, before: string, after: string)
    requires before != after && !HasCrlf(after)
    ensures var s, a, b := Summarize(path, before, after), FileLines(before), FileLines(after);
      var p := CommonPrefix(a, b);
      && MinimalReplacement(a, b, p, s.deletions, s.additions)
      && Rebuild(a[..p] + b[p..p + s.additions] + a[p + s.deletions..], EndsInNewline(after)) == after
  {
    SummaryReplacesMiddle(path, before, after);
    RebuildFileLines(after);
    DropCrIdentity(after);
  }

  // ---------- several files ----------

  function Total(summaries: seq<Summary>): Summary {
    if summaries == [] then Summary(0, 0, 0, [])
    else
      var t, last := Total(summaries[..|summaries| - 1]), summaries[|summaries| - 1];
      var paths := AddAll(t.paths, last.paths);
      Summary(|paths|, t.additions + last.additions, t.deletions + last.deletions, paths)
  }

  /** Insertion into an ordered set. */
  function AddAll(paths: seq<string>, more: seq<string>): seq<string>
    decreases |more|
  {
    if more == [] then paths
    else AddAll(if more[0] in paths then paths else paths + [more[0]], more[1..])
  }

  method CombineDiffSummaries(summaries: seq<Summary>) returns (s: Summary)
    ensures s == Total(summaries)
  {
    var paths: seq<string> := [];
    var additions, deletions := 0, 0;
    for i := 0 to |summaries|
      invariant Summary(|paths|, additions, deletions, paths) == Total(summaries[..i])
    {
      var summary := summaries[i];
      assert summaries[..i + 1][..i] == summaries[..i];
      additions := additions + summary.additions;
      deletions := deletions + summary.deletions;
      ghost var target := AddAll(paths, summary.paths);
      for j := 0 to |summary.paths|
        invariant AddAll(paths, summary.paths[j..]) == target
      {
        assert summary.paths[j..][1..] == summary.paths[j + 1..];
        if summary.paths[j] !in paths { paths := paths + [summary.paths[j]]; }
      }
    }
    assert summaries[..|summaries|] == summaries;
    return Summary(|paths|, additions, deletions, paths);
  }

  lemma {:induction false} AddAllIsUnion(paths: seq<string>, more: seq<string>)
    requires NoDup(paths)
    ensures NoDup(AddAll(paths, more)) && Elements(AddAll(paths, more)) == Elements(paths) + Elements(more)
    decreases |more|
  {
    if more != [] {
      AddAllIsUnion(if more[0] in paths then paths else paths + [more[0]], more[1..]);
    }
  }

  function SumAdditions(summaries: seq<Summary>): int {
    if summaries == [] then 0 else summaries[0].additions + SumAdditions(summaries[1..])
  }

  function SumDeletions(summaries: seq<Summary>): int {
    if summaries == [] then 0 else summaries[0].deletions + SumDeletions(summaries[1..])
  }

  lemma {:induction false} SumsSnoc(summaries: seq<Summary>, s: Summary)
    ensures SumAdditions(summaries + [s]) == SumAdditions(summaries) + s.additions
    ensures SumDeletions(summaries + [s]) == SumDeletions(summaries) + s.deletions
  {
    if summaries != [] {
      SumsSnoc(summaries[1..], s);
      assert (summaries + [s])[1..] == summaries[1..] + [s];
    }
  }

  /** Some summary names the path. */
  ghost predicate Names(summaries: seq<Summary>, p: string) {
    exists i :: 0 <= i < |summaries| && p in summaries[i].paths
  }

  lemma NamesSnoc(front: seq<Summary>, last: Summary, p: string)
    ensures Names(front + [last], p) <==> Names(front, p) || p in last.paths
  {
    var all := front + [last];
    if Names(front, p) {
      var i :| 0 <= i < |front| && p in front[i].paths;
      assert all[i] == front[i];
    }
    if p in last.paths { assert all[|front|] == last; }
  }

  /** Combining conserves both totals and counts each changed path once. */
  lemma {:induction false} CombiningConserves(summaries: seq<Summary>)
    ensures var t := Total(summaries);
      && t.additions == SumAdditions(summaries) && t.deletions == SumDeletions(summaries)
      && NoDup(t.paths) && t.filesChanged == |Elements(t.paths)|
      && forall p :: p in t.paths <==> Names(summaries, p)
  {
    if summaries != [] {
      var n := |summaries| - 1;
      var front := summaries[..n];
      CombiningConserves(front);
      SumsSnoc(front, summaries[n]);
      assert front + [summaries[n]] == summaries;
      AddAllIsUnion(Total(front).paths, summaries[n].paths);
      forall p ensures p in Total(summaries).paths <==> Names(summaries, p) {
        assert p in Total(summaries).paths <==> p in Elements(Total(summaries).paths);
        NamesSnoc(front, summaries[n], p);
      }
    }
    NoDupCardinality(Total(summaries).paths);
  }
}
