/** Applying the hunks of an update to a file: each hunk is matched at or after a moving cursor
    and spliced in. */
module PatchHunks {
  import opened Sequences
  import opened Text

  datatype Hunk = Hunk(oldLines: seq<string>, newLines: seq<string>)

  predicate MatchesAt(lines: seq<string>, sequence: seq<string>, i: nat) {
    i + |sequence| <= |lines| && lines[i..i + |sequence|] == sequence
  }

  /** The first match at or after `start`; the empty sequence matches at `start` itself. */
  function Find(lines: seq<string>, sequence: seq<string>, start: nat): (r: Option<nat>)
    ensures r.Some? && start <= |lines| ==> start <= r.value <= r.value + |sequence| <= |lines|
    decreases |lines| - start
  {
    if sequence == [] then Some(start)
    else if start + |sequence| > |lines| then None
    else if MatchesAt(lines, sequence, start) then Some(start)
    else Find(lines, sequence, start + 1)
  }

  /** The match found is a match, and there is no earlier one; none found means there is none. */
  lemma {:induction false} FindIsFirst(lines: seq<string>, sequence: seq<string>, start: nat)
    requires start <= |lines|
    ensures match Find(lines, sequence, start)
      case None => forall j: nat :: start <= j ==> !MatchesAt(lines, sequence, j)
      case Some(p) =>
        MatchesAt(lines, sequence, p) && forall j: nat :: start <= j < p ==> !MatchesAt(lines, sequence, j)
    decreases |lines| - start
  {
    if sequence != [] && start + |sequence| <= |lines| && !MatchesAt(lines, sequence, start) {
      FindIsFirst(lines, sequence, start + 1);
    }
  }

  method FindLineSequence(lines: seq<string>, sequence: seq<string>, start: nat) returns (r: Option<nat>)
    ensures r == Find(lines, sequence, start)
  {
    if |sequence| == 0 { return Some(start); }
    var index := start;
    while index + |sequence| <= |lines|
      invariant start <= index && Find(lines, sequence, index) == Find(lines, sequence, start)
    {
      var matched, offset := true, 0;
      while offset < |sequence| && matched
        invariant 0 <= offset <= |sequence|
        invariant matched ==> forall k :: 0 <= k < offset ==> lines[index + k] == sequence[k]
        invariant !matched ==> !MatchesAt(lines, sequence, index)
        decreases |sequence| - offset, matched
      {
        if lines[index + offset] != sequence[offset] {
          assert lines[index..index + |sequence|][offset] != sequence[offset];
          matched := false;
        } else {
          offset := offset + 1;
        }
      }
      if matched {
        assert lines[index..index + |sequence|] == sequence;
        return Some(index);
      }
      index := index + 1;
    }
    return None;
  }

  function Replace(lines: seq<string>, at: nat, h: Hunk): seq<string>
    requires at + |h.oldLines| <= |lines|
  {
    lines[..at] + h.newLines + lines[at + |h.oldLines|..]
  }

  /** The hunk loop on the current lines and cursor. */
  function ApplyFrom(lines: seq<string>, cursor: nat, hunks: seq<Hunk>): Option<seq<string>>
    requires cursor <= |lines|
    decreases |hunks|
  {
    if hunks == [] then Some(lines)
    else
      match Find(lines, hunks[0].oldLines, cursor)
      case None => None
      case Some(at) => ApplyFrom(Replace(lines, at, hunks[0]), at + |hunks[0].newLines|, hunks[1..])
  }

  /** `applyUpdateHunks`; `None` where the program throws. */
  function ApplyUpdate(content: string, hunks: seq<Hunk>): Option<string> {
    match ApplyFrom(FileLines(content), 0, hunks)
    case None => None
    case Some(lines) => Some(Rebuild(lines, EndsInNewline(content)))
  }

  method ApplyUpdateHunks(content: string, hunks: seq<Hunk>) returns (r: Option<string>)
    ensures r == ApplyUpdate(content, hunks)
  {
    var lines := ReplaceHunks(FileLines(content), hunks);
    if lines.None? { return None; }
    return Some(Rebuild(lines.value, EndsInNewline(content)));
  }

  method ReplaceHunks(original: seq<string>, hunks: seq<Hunk>) returns (r: Option<seq<string>>)
    ensures r == ApplyFrom(original, 0, hunks)
  {
    var lines := original;
    var cursor: nat := 0;
    ghost var target := ApplyFrom(lines, 0, hunks);
    for i := 0 to |hunks|
      invariant cursor <= |lines|
      invariant ApplyFrom(lines, cursor, hunks[i..]) == target
    {
      var hunk := hunks[i];
      assert hunks[i..][0] == hunk && hunks[i..][1..] == hunks[i + 1..];
      var start := FindLineSequence(lines, hunk.oldLines, cursor);
      if start.None? { return None; }
      lines := Replace(lines, start.value, hunk);
      cursor := start.value + |hunk.newLines|;
    }
    return Some(lines);
  }

  // ---------- placements in the original file ----------

  /** `at[i]` is where hunk i stands in `lines`: the hunks match there, in order and without
      overlap, from line `from` on. */
  ghost predicate Placed(lines: seq<string>, hunks: seq<Hunk>, at: seq<nat>, from: nat)
    decreases |hunks|
  {
    |at| == |hunks| && (hunks != [] ==>
      && from <= at[0] && MatchesAt(lines, hunks[0].oldLines, at[0])
      && Placed(lines, hunks[1..], at[1..], at[0] + |hunks[0].oldLines|))
  }

  /** A placement in the whole file. */
  ghost predicate Fits(lines: seq<string>, hunks: seq<Hunk>, at: seq<nat>) {
    Placed(lines, hunks, at, 0)
  }

  /** Every hunk stands at its first match after the hunk before it. */
  ghost predicate Leftmost(lines: seq<string>, hunks: seq<Hunk>, at: seq<nat>, from: nat)
    decreases |hunks|
  {
    |at| == |hunks| && (hunks != [] ==>
      && (forall j: nat :: from <= j < at[0] ==> !MatchesAt(lines, hunks[0].oldLines, j))
      && Leftmost(lines, hunks[1..], at[1..], at[0] + |hunks[0].oldLines|))
  }

  /** All placed ranges replaced at once, from line `from` on; everything between them is kept. */
  ghost function Splice(lines: seq<string>, hunks: seq<Hunk>, at: seq<nat>, from: nat): seq<string>
    requires Placed(lines, hunks, at, from) && from <= |lines|
    decreases |hunks|
  {
    if hunks == [] then lines[from..]
    else
      var rest := Splice(lines, hunks[1..], at[1..], at[0] + |hunks[0].oldLines|);
      lines[from..at[0]] + hunks[0].newLines + rest
  }

  lemma SpliceFirst(lines: seq<string>, hunks: seq<Hunk>, at: seq<nat>, from: nat, rest: seq<string>)
    requires hunks != [] && Placed(lines, hunks, at, from) && from <= |lines|
    requires rest == Splice(lines, hunks[1..], at[1..], at[0] + |hunks[0].oldLines|)
    ensures Splice(lines, hunks, at, from) == lines[from..at[0]] + hunks[0].newLines + rest
  {
  }

  /** The placement that greedy matching finds in the original file. */
  ghost function Greedy(lines: seq<string>, hunks: seq<Hunk>, from: nat): Option<seq<nat>>
    requires from <= |lines|
    decreases |hunks|
  {
    if hunks == [] then Some([])
    else
      match Find(lines, hunks[0].oldLines, from)
      case None => None
      case Some(p) =>
        match Greedy(lines, hunks[1..], p + |hunks[0].oldLines|)
        case None => None
        case Some(rest) => Some([p] + rest)
  }

  lemma {:induction false} GreedyPlaces(lines: seq<string>, hunks: seq<Hunk>, from: nat)
    requires from <= |lines| && Greedy(lines, hunks, from).Some?
    ensures Placed(lines, hunks, Greedy(lines, hunks, from).value, from)
    ensures Leftmost(lines, hunks, Greedy(lines, hunks, from).value, from)
    decreases |hunks|
  {
    if hunks != [] {
      var p := Find(lines, hunks[0].oldLines, from).value;
      var rest := Greedy(lines, hunks[1..], p + |hunks[0].oldLines|).value;
      FindIsFirst(lines, hunks[0].oldLines, from);
      GreedyPlaces(lines, hunks[1..], p + |hunks[0].oldLines|);
      assert ([p] + rest)[1..] == rest;
    }
  }

  /** Greedy matching never misses: if the hunks fit anywhere in order, it finds a placement. */
  lemma {:induction false} GreedyComplete(lines: seq<string>, hunks: seq<Hunk>, at: seq<nat>, from: nat, from': nat)
    requires from <= from' <= |lines| && Placed(lines, hunks, at, from')
    ensures Greedy(lines, hunks, from).Some?
    decreases |hunks|
  {
    if hunks != [] {
      FindIsFirst(lines, hunks[0].oldLines, from);
      var p := Find(lines, hunks[0].oldLines, from).value;
      GreedyComplete(lines, hunks[1..], at[1..], p + |hunks[0].oldLines|, at[0] + |hunks[0].oldLines|);
    }
  }

  // ---------- the loop against the original file ----------

  /** Searching the edited lines after the cursor is searching the original after the last range. */
  lemma {:induction false} FindShift(done: seq<string>, lines: seq<string>, from: nat, sequence: seq<string>,
                                     start: nat)
    requires from <= start <= |lines|
    ensures var r := Find(done + lines[from..], sequence, |done| + (start - from));
      match Find(lines, sequence, start) case None => r == None case Some(p) => r == Some(|done| + (p - from))
    decreases |lines| - start
  {
    var cur := done + lines[from..];
    var i := |done| + (start - from);
    if sequence != [] && start + |sequence| <= |lines| {
      assert cur[i..i + |sequence|] == lines[start..start + |sequence|];
      if !MatchesAt(lines, sequence, start) {
        FindShift(done, lines, from, sequence, start + 1);
      }
    }
  }

  lemma ReplaceAfter(done: seq<string>, lines: seq<string>, from: nat, p: nat, h: Hunk, cur: seq<string>,
                     next: seq<string>)
    requires from <= p && p + |h.oldLines| <= |lines|
    requires cur == done + lines[from..] && next == (done + lines[from..p] + h.newLines) + lines[p + |h.oldLines|..]
    ensures Replace(cur, |done| + (p - from), h) == next
  {
    var i := |done| + (p - from);
    assert cur[..i] == done + lines[from..p];
    assert cur[i + |h.oldLines|..] == lines[p + |h.oldLines|..];
  }

  /** The text that greedy matching leaves from line `from` on. */
  ghost function GreedyText(lines: seq<string>, hunks: seq<Hunk>, from: nat): Option<seq<string>>
    requires from <= |lines|
    decreases |hunks|
  {
    if hunks == [] then Some(lines[from..])
    else
      match Find(lines, hunks[0].oldLines, from)
      case None => None
      case Some(p) =>
        match GreedyText(lines, hunks[1..], p + |hunks[0].oldLines|)
        case None => None
        case Some(rest) => Some(lines[from..p] + hunks[0].newLines + rest)
  }

  lemma {:induction false} GreedyTextIsSplice(lines: seq<string>, hunks: seq<Hunk>, from: nat)
    requires from <= |lines|
    ensures GreedyText(lines, hunks, from).Some? <==> Greedy(lines, hunks, from).Some?
    ensures Greedy(lines, hunks, from).Some? ==>
      && Placed(lines, hunks, Greedy(lines, hunks, from).value, from)
      && GreedyText(lines, hunks, from).value == Splice(lines, hunks, Greedy(lines, hunks, from).value, from)
    decreases |hunks|
  {
    if hunks != [] {
      var found := Find(lines, hunks[0].oldLines, from);
      if found.Some? {
        var next := found.value + |hunks[0].oldLines|;
        GreedyTextIsSplice(lines, hunks[1..], next);
        if Greedy(lines, hunks[1..], next).Some? {
          GreedyPlaces(lines, hunks, from);
          var at, rest := Greedy(lines, hunks, from).value, Greedy(lines, hunks[1..], next).value;
          assert at[0] == found.value && at[1..] == rest;
          SpliceFirst(lines, hunks, at, from, Splice(lines, hunks[1..], rest, next));
        }
      }
    }
  }

  lemma ApplyFirst(cur: seq<string>, cursor: nat, hunks: seq<Hunk>, at: nat, next: seq<string>, after: nat)
    requires hunks != [] && cursor <= |cur| && Find(cur, hunks[0].oldLines, cursor) == Some(at)
    requires next == Replace(cur, at, hunks[0]) && after == at + |hunks[0].newLines|
    ensures ApplyFrom(cur, cursor, hunks) == ApplyFrom(next, after, hunks[1..])
  {
  }

  lemma ApplyStep(done: seq<string>, cur: seq<string>, lines: seq<string>, from: nat, p: nat, hunks: seq<Hunk>,
                  done': seq<string>, cur': seq<string>)
    requires hunks != [] && from <= p && p + |hunks[0].oldLines| <= |lines| && cur == done + lines[from..]
    requires Find(cur, hunks[0].oldLines, |done|) == Some(|done| + (p - from))
    requires done' == done + lines[from..p] + hunks[0].newLines && cur' == done' + lines[p + |hunks[0].oldLines|..]
    ensures ApplyFrom(cur, |done|, hunks) == ApplyFrom(cur', |done'|, hunks[1..])
  {
    ReplaceAfter(done, lines, from, p, hunks[0], cur, cur');
    ApplyFirst(cur, |done|, hunks, |done| + (p - from), cur', |done'|);
  }

  lemma Regroup<T>(a: seq<T>, b: seq<T>, c: seq<T>, d: seq<T>)
    ensures (a + b + c) + d == a + (b + c + d)
  {
  }

  /** Where greedy matching on the original succeeds, the loop leaves the same text. */
  lemma {:induction false} ApplyIsGreedy(done: seq<string>, cur: seq<string>, lines: seq<string>, from: nat,
                                         hunks: seq<Hunk>, text: seq<string>)
    requires from <= |lines| && cur == done + lines[from..] && GreedyText(lines, hunks, from) == Some(text)
    ensures ApplyFrom(cur, |done|, hunks) == Some(done + text)
    decreases |hunks|
  {
    if hunks != [] {
      var h := hunks[0];
      FindShift(done, lines, from, h.oldLines, from);
      var p := Find(lines, h.oldLines, from).value;
      var next := p + |h.oldLines|;
      var done', rest := done + lines[from..p] + h.newLines, GreedyText(lines, hunks[1..], next).value;
      var cur' := done' + lines[next..];
      ApplyIsGreedy(done', cur', lines, next, hunks[1..], rest);
      ApplyStep(done, cur, lines, from, p, hunks, done', cur');
      Regroup(done, lines[from..p], h.newLines, rest);
    }
  }

  /** Where it fails, the loop fails. */
  lemma {:induction false} ApplyFails(done: seq<string>, cur: seq<string>, lines: seq<string>, from: nat,
                                      hunks: seq<Hunk>)
    requires from <= |lines| && cur == done + lines[from..] && GreedyText(lines, hunks, from) == None
    ensures ApplyFrom(cur, |done|, hunks) == None
    decreases |hunks|
  {
    var h := hunks[0];
    FindShift(done, lines, from, h.oldLines, from);
    var found := Find(lines, h.oldLines, from);
    if found.Some? {
      var p, next := found.value, found.value + |h.oldLines|;
      var done' := done + lines[from..p] + h.newLines;
      var cur' := done' + lines[next..];
      ApplyFails(done', cur', lines, next, hunks[1..]);
      ApplyStep(done, cur, lines, from, p, hunks, done', cur');
    }
  }

  /** Updating succeeds exactly when the hunks can be found in order on disjoint ranges of the
      original file, and then replaces the leftmost such ranges simultaneously. */
  lemma UpdateIsSplice(lines: seq<string>, hunks: seq<Hunk>)
    ensures ApplyFrom(lines, 0, hunks).Some? <==> exists at :: Fits(lines, hunks, at)
    ensures ApplyFrom(lines, 0, hunks).Some? ==>
      exists at :: Fits(lines, hunks, at) && Leftmost(lines, hunks, at, 0)
        && ApplyFrom(lines, 0, hunks).value == Splice(lines, hunks, at, 0)
  {
    if ApplyFrom(lines, 0, hunks).Some? {
      var at := AppliedAt(lines, hunks);
      assert Fits(lines, hunks, at);
    } else if exists at :: Fits(lines, hunks, at) {
      var at :| Fits(lines, hunks, at);
      PlacedApplies(lines, hunks, at);
    }
  }

  lemma PlacedApplies(lines: seq<string>, hunks: seq<Hunk>, at: seq<nat>)
    requires Placed(lines, hunks, at, 0)
    ensures ApplyFrom(lines, 0, hunks).Some?
  {
    var none: seq<string> := [];
    assert none + lines[0..] == lines;
    GreedyComplete(lines, hunks, at, 0, 0);
    GreedyTextIsSplice(lines, hunks, 0);
    ApplyIsGreedy(none, lines, lines, 0, hunks, GreedyText(lines, hunks, 0).value);
  }

  /** Where a successful update found its hunks. */
  lemma AppliedAt(lines: seq<string>, hunks: seq<Hunk>) returns (at: seq<nat>)
    requires ApplyFrom(lines, 0, hunks).Some?
    ensures Placed(lines, hunks, at, 0) && Leftmost(lines, hunks, at, 0) && Greedy(lines, hunks, 0) == Some(at)
    ensures ApplyFrom(lines, 0, hunks).value == Splice(lines, hunks, at, 0)
  {
    var none: seq<string> := [];
    assert none + lines[0..] == lines;
    if GreedyText(lines, hunks, 0).None? {
      ApplyFails(none, lines, lines, 0, hunks);
    }
    ApplyIsGreedy(none, lines, lines, 0, hunks, GreedyText(lines, hunks, 0).value);
    GreedyTextIsSplice(lines, hunks, 0);
    GreedyPlaces(lines, hunks, 0);
    at := Greedy(lines, hunks, 0).value;
  }

  // ---------- what an update keeps ----------

  lemma ThreeParts(lines: seq<string>, i: nat, j: nat, k: nat)
    requires i <= j <= k <= |lines|
    ensures lines[i..j] + lines[j..k] + lines[k..] == lines[i..]
  {
  }

  lemma {:induction false} ContextSplice(lines: seq<string>, hunks: seq<Hunk>, at: seq<nat>, from: nat)
    requires Placed(lines, hunks, at, from) && from <= |lines|
    requires forall i :: 0 <= i < |hunks| ==> hunks[i].oldLines == hunks[i].newLines
    ensures Splice(lines, hunks, at, from) == lines[from..]
    decreases |hunks|
  {
    if hunks != [] {
      var p, next := at[0], at[0] + |hunks[0].oldLines|;
      ContextSplice(lines, hunks[1..], at[1..], next);
      SpliceFirst(lines, hunks, at, from, lines[next..]);
      assert hunks[0].newLines == lines[p..next];
      ThreeParts(lines, from, p, next);
    }
  }

  /** Hunks that change no line give the file back with its line breaks normalised, so it is
      unchanged byte for byte exactly when it contains no CR LF. */
  lemma ContextOnlyUnchangedIff(content: string, hunks: seq<Hunk>)
    requires forall i :: 0 <= i < |hunks| ==> hunks[i].oldLines == hunks[i].newLines
    requires ApplyUpdate(content, hunks).Some?
    ensures ApplyUpdate(content, hunks).value == DropCr(content)
    ensures ApplyUpdate(content, hunks).value == content <==> !HasCrlf(content)
  {
    var lines := FileLines(content);
    var at := AppliedAt(lines, hunks);
    ContextSplice(lines, hunks, at, 0);
    RebuildFileLines(content);
    DropCrIdentity(content);
  }

  /** The lines the hunks add minus the lines they remove. */
  function NetLines(hunks: seq<Hunk>): int {
    if hunks == [] then 0 else |hunks[0].newLines| - |hunks[0].oldLines| + NetLines(hunks[1..])
  }

  lemma {:induction false} SpliceLength(lines: seq<string>, hunks: seq<Hunk>, at: seq<nat>, from: nat)
    requires Placed(lines, hunks, at, from) && from <= |lines|
    ensures |Splice(lines, hunks, at, from)| == |lines| - from + NetLines(hunks)
    decreases |hunks|
  {
    if hunks != [] {
      SpliceLength(lines, hunks[1..], at[1..], at[0] + |hunks[0].oldLines|);
    }
  }

  ghost predicate HunksNoLf(hunks: seq<Hunk>) {
    forall i, j :: 0 <= i < |hunks| && 0 <= j < |hunks[i].newLines| ==> NoLf(hunks[i].newLines[j])
  }

  lemma {:induction false} SpliceNoLf(lines: seq<string>, hunks: seq<Hunk>, at: seq<nat>, from: nat)
    requires Placed(lines, hunks, at, from) && from <= |lines|
    requires HunksNoLf(hunks) && forall i :: 0 <= i < |lines| ==> NoLf(lines[i])
    ensures forall i :: 0 <= i < |Splice(lines, hunks, at, from)| ==> NoLf(Splice(lines, hunks, at, from)[i])
    decreases |hunks|
  {
    if hunks != [] {
      assert forall i, j :: 0 <= i < |hunks[1..]| && 0 <= j < |hunks[1..][i].newLines| ==>
        hunks[1..][i].newLines[j] == hunks[i + 1].newLines[j];
      SpliceNoLf(lines, hunks[1..], at[1..], at[0] + |hunks[0].oldLines|);
    }
  }

  function Last(lines: seq<string>): Option<string> {
    if lines == [] then None else Some(lines[|lines| - 1])
  }

  function LastOr(line: Option<string>, added: seq<string>, kept: seq<string>): Option<string> {
    if line.Some? then line else if added != [] then Last(added) else Last(kept)
  }

  /** The line that stands last when the placed ranges have been replaced, from line `from` on: a
      kept line behind the last range, or else the last new line, or else a kept line before. */
  ghost function LastFrom(lines: seq<string>, hunks: seq<Hunk>, at: seq<nat>, from: nat): Option<string>
    requires Placed(lines, hunks, at, from) && from <= |lines|
    decreases |hunks|
  {
    if hunks == [] then Last(lines[from..])
    else
      LastOr(LastFrom(lines, hunks[1..], at[1..], at[0] + |hunks[0].oldLines|), hunks[0].newLines, lines[from..at[0]])
  }

  lemma LastOfThree(a: seq<string>, b: seq<string>, c: seq<string>)
    ensures Last(a + b + c) == LastOr(Last(c), b, a)
  {
  }

  lemma {:induction false} SpliceLast(lines: seq<string>, hunks: seq<Hunk>, at: seq<nat>, from: nat)
    requires Placed(lines, hunks, at, from) && from <= |lines|
    ensures Last(Splice(lines, hunks, at, from)) == LastFrom(lines, hunks, at, from)
    decreases |hunks|
  {
    if hunks != [] {
      var next := at[0] + |hunks[0].oldLines|;
      var rest := Splice(lines, hunks[1..], at[1..], next);
      SpliceLast(lines, hunks[1..], at[1..], next);
      SpliceFirst(lines, hunks, at, from, rest);
      LastOfThree(lines[from..at[0]], hunks[0].newLines, rest);
    }
  }

  /** Does the edited file lose an empty last line? It does when the file had no final line break
      and an empty line comes to stand last, seen from where the hunks match in the file as it is. */
  ghost predicate LosesLine(content: string, hunks: seq<Hunk>) {
    var lines := FileLines(content);
    && !EndsInNewline(content) && Greedy(lines, hunks, 0).Some?
    && Placed(lines, hunks, Greedy(lines, hunks, 0).value, 0)
    && LastFrom(lines, hunks, Greedy(lines, hunks, 0).value, 0) == Some("")
  }

  lemma RebuiltCount(result: seq<string>, trailing: bool)
    requires forall i :: 0 <= i < |result| ==> NoLf(result[i])
    ensures |FileLines(Rebuild(result, trailing))|
         == |result| - if !trailing && Last(result) == Some("") then 1 else 0
  {
    RebuiltLineCount(result, trailing);
  }

  lemma EditedLineCount(lines: seq<string>, hunks: seq<Hunk>, trailing: bool, at: seq<nat>, result: seq<string>)
    requires HunksNoLf(hunks) && forall i :: 0 <= i < |lines| ==> NoLf(lines[i])
    requires Placed(lines, hunks, at, 0) && result == Splice(lines, hunks, at, 0)
    ensures |FileLines(Rebuild(result, trailing))|
         == |lines| + NetLines(hunks) - if !trailing && LastFrom(lines, hunks, at, 0) == Some("") then 1 else 0
  {
    SpliceNoLf(lines, hunks, at, 0);
    SpliceLength(lines, hunks, at, 0);
    SpliceLast(lines, hunks, at, 0);
    RebuiltCount(result, trailing);
  }

  /** The line count of the file changes by exactly what the hunks add and remove, but for one line
      that is lost exactly when an empty line comes to stand last in a file without final break. */
  lemma UpdateLineCount(content: string, hunks: seq<Hunk>)
    requires HunksNoLf(hunks) && ApplyUpdate(content, hunks).Some?
    ensures |FileLines(ApplyUpdate(content, hunks).value)| - |FileLines(content)|
         == NetLines(hunks) - if LosesLine(content, hunks) then 1 else 0
  {
    var lines := FileLines(content);
    RawLinesNoLf(content);
    var at := AppliedAt(lines, hunks);
    EditedLineCount(lines, hunks, EndsInNewline(content), at, ApplyFrom(lines, 0, hunks).value);
  }

  // ---------- two updates that show it ----------

  lemma OneLine(s: string)
    requires Clean(s) && s != ""
    ensures FileLines(s) == [s] && FileLines(s + "\n") == [s]
  {
    RawLinesOne(s);
    assert s + "\n" == s + "\n" + "";
    RawLinesFirst(s, "");
    RawLinesOne("");
  }

  lemma OneHunk(lines: seq<string>, h: Hunk, result: seq<string>)
    requires h.oldLines == lines && result == h.newLines
    ensures ApplyFrom(lines, 0, [h]) == Some(result) && NetLines([h]) == |result| - |lines|
  {
    var hunks := [h];
    assert hunks[1..] == [];
    assert MatchesAt(lines, h.oldLines, 0);
    assert Replace(lines, 0, h) == result;
    assert NetLines(hunks) == |result| - |lines| + NetLines(hunks[1..]);
    ApplyFirst(lines, 0, hunks, 0, result, |result|);
  }

  /** One hunk of context alone turns CR LF into LF. */
  lemma ContextRewritesCrLf()
    ensures var content, hunks := "a\r\n", [Hunk(["a"], ["a"])];
      ApplyUpdate(content, hunks) == Some("a\n") && content != "a\n"
  {
    var content, line := "a\r\n", "\r\n";
    assert line[2..] == "" && RawLines(line) == [""] + RawLines("");
    assert content[1..] == line && BreakLength(content) == 0;
    assert RawLines(content) == [['a'] + ""] + RawLines("");
    assert ['a'] + "" == "a" && RawLines("") == [""];
    var lines := RawLines(content);
    assert lines == ["a", ""] && lines[..1] == ["a"];
    OneHunk(["a"], Hunk(["a"], ["a"]), ["a"]);
    assert "a" + "\n" == "a\n" && content[1] != "a\n"[1];
  }

  /** A blank line added at the end of a file without final line break is not counted. */
  lemma AddedBlankIsLost()
    ensures var content, hunks := "a", [Hunk(["a"], ["a", ""])];
      ApplyUpdate(content, hunks) == Some("a\n") && NetLines(hunks) == 1
      && |FileLines("a\n")| == |FileLines(content)|
  {
    var result := ["a", ""];
    OneLine("a");
    OneHunk(["a"], Hunk(["a"], result), result);
    assert result[1..] == [""];
    assert Join(result) == "a" + "\n" + Join([""]);
    assert "a" + "\n" + "" == "a\n" && Join(result) + "" == "a\n";
    assert !EndsInNewline("a");
  }
}
