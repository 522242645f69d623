/** Running a patch against a file system, modelled as a map from path to text. */
module PatchTool {
  import opened Sequences
  import opened Text
  import opened PatchHunks
  import opened PatchParser
  import opened DiffSummary

  type Files = map<string, string>

  /** How a path in a patch is resolved inside the repository; `None` when it leads outside. */
  type Resolver = string -> Option<string>

  datatype Effect = Effect(files: Files, summary: Summary)

  function FormatLines(lines: seq<string>): string {
    if lines == [] then "" else Join(lines) + "\n"
  }

  /** `applyOperation`; `None` where the program throws. */
  function ApplyOne(files: Files, resolve: Resolver, op: Operation): Option<Effect> {
    match resolve(op.path)
    case None => None
    case Some(path) =>
      match op
      case AddFile(_, lines) =>
        if path in files then None
        else Some(Effect(files[path := FormatLines(lines)], Summarize(path, "", FormatLines(lines))))
      case DeleteFile(_) =>
        if path !in files then None
        else Some(Effect(files - {path}, Summarize(path, files[path], "")))
      case UpdateFile(_, hunks) =>
        if path !in files then None
        else
          match ApplyUpdate(files[path], hunks)
          case None => None
          case Some(after) => Some(Effect(files[path := after], Summarize(path, files[path], after)))
  }

  /** The files after the run, the summaries so far, and whether every operation succeeded. */
  datatype Outcome = Outcome(files: Files, summaries: seq<Summary>, ok: bool)

  /** Operations run one by one; a failure stops the run and undoes nothing. */
  function ApplyAll(files: Files, resolve: Resolver, ops: seq<Operation>, done: seq<Summary>): Outcome
    decreases |ops|
  {
    if ops == [] then Outcome(files, done, true)
    else
      match ApplyOne(files, resolve, ops[0])
      case None => Outcome(files, done, false)
      case Some(e) => ApplyAll(e.files, resolve, ops[1..], done + [e.summary])
  }

  /** `executeApplyPatchTool`: the summary of a successful run, and the files either way. */
  function ExecutePatch(files: Files, resolve: Resolver, patch: string): (Files, Option<Summary>) {
    match ParsePatch(patch)
    case None => (files, None)
    case Some(ops) =>
      var r := ApplyAll(files, resolve, ops, []);
      (r.files, if r.ok then Some(DiffSummary.Total(r.summaries)) else None)
  }

  method ApplyOperations(files: Files, resolve: Resolver, ops: seq<Operation>) returns (r: Outcome)
    ensures r == ApplyAll(files, resolve, ops, [])
  {
    var current := files;
    var summaries: seq<Summary> := [];
    for i := 0 to |ops|
      invariant ApplyAll(current, resolve, ops[i..], summaries) == ApplyAll(files, resolve, ops, [])
    {
      assert ops[i..][0] == ops[i] && ops[i..][1..] == ops[i + 1..];
      var e := ApplyOne(current, resolve, ops[i]);
      if e.None? { return Outcome(current, summaries, false); }
      current, summaries := e.value.files, summaries + [e.value.summary];
    }
    return Outcome(current, summaries, true);
  }

  // ---------- conservation of lines ----------

  function LineCount(text: string): nat {
    |FileLines(text)|
  }

  /** All lines of all files. */
  ghost function TotalLines(files: Files): nat {
    if files == map[] then 0
    else
      var p :| p in files;
      LineCount(files[p]) + TotalLines(files - {p})
  }

  lemma {:induction false} TotalWithout(files: Files, p: string)
    requires p in files
    ensures TotalLines(files) == LineCount(files[p]) + TotalLines(files - {p})
    decreases |files|
  {
    var q :| q in files && TotalLines(files) == LineCount(files[q]) + TotalLines(files - {q});
    if q != p {
      TotalWithout(files - {q}, p);
      TotalWithout(files - {p}, q);
      assert files - {q} - {p} == files - {p} - {q};
    }
  }

  lemma TotalWith(files: Files, p: string, text: string)
    ensures TotalLines(files[p := text]) == LineCount(text) + TotalLines(files - {p})
  {
    TotalWithout(files[p := text], p);
    assert files[p := text] - {p} == files - {p};
  }

  /** Writing, rewriting or removing one file changes the total by that file's difference. */
  lemma WriteBalances(files: Files, path: string, after: string)
    ensures TotalLines(files[path := after]) - TotalLines(files)
         == LineCount(after) - (if path in files then LineCount(files[path]) else 0)
  {
    TotalWith(files, path, after);
    if path in files { TotalWithout(files, path); } else { assert files - {path} == files; }
  }

  lemma ApplyOneBalances(files: Files, resolve: Resolver, op: Operation)
    requires ApplyOne(files, resolve, op).Some?
    ensures var e := ApplyOne(files, resolve, op).value;
      TotalLines(e.files) - TotalLines(files) == e.summary.additions - e.summary.deletions
  {
    var path := resolve(op.path).value;
    match op
    case AddFile(_, lines) =>
      WriteBalances(files, path, FormatLines(lines));
      SummaryBalances(path, "", FormatLines(lines));
    case DeleteFile(_) =>
      TotalWithout(files, path);
      SummaryBalances(path, files[path], "");
    case UpdateFile(_, hunks) =>
      WriteBalances(files, path, ApplyUpdate(files[path], hunks).value);
      SummaryBalances(path, files[path], ApplyUpdate(files[path], hunks).value);
  }

  lemma {:induction false} ApplyAllBalances(files: Files, resolve: Resolver, ops: seq<Operation>, done: seq<Summary>)
    ensures var r := ApplyAll(files, resolve, ops, done);
      TotalLines(r.files) - TotalLines(files)
      == SumAdditions(r.summaries) - SumDeletions(r.summaries) - (SumAdditions(done) - SumDeletions(done))
    decreases |ops|
  {
    if ops != [] && ApplyOne(files, resolve, ops[0]).Some? {
      var e := ApplyOne(files, resolve, ops[0]).value;
      ApplyOneBalances(files, resolve, ops[0]);
      SumsSnoc(done, e.summary);
      ApplyAllBalances(e.files, resolve, ops[1..], done + [e.summary]);
    }
  }

  /** For every patch and every file system, the reported additions minus deletions are exactly the
      change in the number of lines of all files together. */
  lemma PatchConservesLines(files: Files, resolve: Resolver, patch: string)
    requires ExecutePatch(files, resolve, patch).1.Some?
    ensures var (files', s) := ExecutePatch(files, resolve, patch);
      TotalLines(files') - TotalLines(files) == s.value.additions - s.value.deletions
  {
    var ops := ParsePatch(patch).value;
    ApplyAllBalances(files, resolve, ops, []);
    CombiningConserves(ApplyAll(files, resolve, ops, []).summaries);
  }

  lemma ApplyOneTouches(files: Files, resolve: Resolver, op: Operation, p: string)
    requires ApplyOne(files, resolve, op).Some? && resolve(op.path) != Some(p)
    ensures var e := ApplyOne(files, resolve, op).value;
      (p in e.files <==> p in files) && (p in files ==> e.files[p] == files[p])
  {
  }

  /** A path that no operation of the patch names keeps its file, whether the run succeeds or not. */
  lemma {:induction false} OtherFilesUntouched(files: Files, resolve: Resolver, ops: seq<Operation>,
                                               done: seq<Summary>, p: string)
    requires forall i :: 0 <= i < |ops| ==> resolve(ops[i].path) != Some(p)
    ensures var r := ApplyAll(files, resolve, ops, done);
      (p in r.files <==> p in files) && (p in files ==> r.files[p] == files[p])
    decreases |ops|
  {
    if ops != [] && ApplyOne(files, resolve, ops[0]).Some? {
      ApplyOneTouches(files, resolve, ops[0], p);
      OtherFilesUntouched(ApplyOne(files, resolve, ops[0]).value.files, resolve, ops[1..],
                          done + [ApplyOne(files, resolve, ops[0]).value.summary], p);
    }
  }

  /** A failed run leaves the files exactly as the operations before the failing one left them. */
  lemma {:induction false} FailureKeepsPrefix(files: Files, resolve: Resolver, ops: seq<Operation>, done: seq<Summary>)
    returns (k: nat)
    requires !ApplyAll(files, resolve, ops, done).ok
    ensures k < |ops|
    ensures var prefix := ApplyAll(files, resolve, ops[..k], done);
      && prefix.ok && prefix.files == ApplyAll(files, resolve, ops, done).files
      && ApplyOne(prefix.files, resolve, ops[k]) == None
    decreases |ops|
  {
    var first := ApplyOne(files, resolve, ops[0]);
    if first.None? {
      k := 0;
    } else {
      var j := FailureKeepsPrefix(first.value.files, resolve, ops[1..], done + [first.value.summary]);
      k := j + 1;
      assert ops[..k][0] == ops[0] && ops[..k][1..] == ops[1..][..j];
    }
  }

  // ---------- all or nothing ----------

  /** No two operations resolve to the same file. */
  ghost predicate DistinctPaths(resolve: Resolver, ops: seq<Operation>) {
    forall i, j :: 0 <= i < j < |ops| && resolve(ops[i].path).Some? ==> resolve(ops[i].path) != resolve(ops[j].path)
  }

  predicate Applies(files: Files, resolve: Resolver, op: Operation) {
    ApplyOne(files, resolve, op).Some?
  }

  /** An update that leaves its file as it is. */
  predicate Idle(files: Files, resolve: Resolver, op: Operation) {
    && op.UpdateFile? && resolve(op.path).Some? && resolve(op.path).value in files
    && ApplyUpdate(files[resolve(op.path).value], op.hunks) == Some(files[resolve(op.path).value])
  }

  /** The first operation that cannot be applied to these files. */
  function FirstFailing(files: Files, resolve: Resolver, ops: seq<Operation>): (k: nat)
    ensures k <= |ops| && (k < |ops| ==> !Applies(files, resolve, ops[k]))
    ensures forall i :: 0 <= i < k ==> Applies(files, resolve, ops[i])
    decreases |ops|
  {
    if ops == [] || !Applies(files, resolve, ops[0]) then 0
    else
      var k := FirstFailing(files, resolve, ops[1..]);
      assert forall i :: 0 < i < |ops| ==> ops[i] == ops[1..][i - 1];
      k + 1
  }

  /** An operation on one file does not change how an operation on another one goes. */
  lemma OtherFileSame(files: Files, resolve: Resolver, op: Operation, other: Operation)
    requires Applies(files, resolve, op) && resolve(op.path) != resolve(other.path)
    ensures var after := ApplyOne(files, resolve, op).value.files;
      && Applies(after, resolve, other) == Applies(files, resolve, other)
      && Idle(after, resolve, other) == Idle(files, resolve, other)
  {
    if resolve(other.path).Some? { ApplyOneTouches(files, resolve, op, resolve(other.path).value); }
  }

  lemma AppliedChanges(files: Files, resolve: Resolver, op: Operation)
    requires Applies(files, resolve, op)
    ensures var p, after := resolve(op.path).value, ApplyOne(files, resolve, op).value.files;
      && (Idle(files, resolve, op) ==> after == files)
      && (!Idle(files, resolve, op) ==>
            (p in after) != (p in files) || (p in files && p in after && after[p] != files[p]))
  {
  }

  lemma TailsDistinct(resolve: Resolver, ops: seq<Operation>, i: nat)
    requires DistinctPaths(resolve, ops) && ops != [] && i < |ops[1..]|
    ensures DistinctPaths(resolve, ops[1..])
    ensures resolve(ops[0].path).Some? ==> resolve(ops[1..][i].path) != resolve(ops[0].path)
  {
    assert forall k :: 0 <= k < |ops[1..]| ==> ops[1..][k] == ops[k + 1];
  }

  lemma {:induction false} SameFirstFailing(files: Files, resolve: Resolver, op: Operation, ops: seq<Operation>)
    requires Applies(files, resolve, op)
    requires forall i :: 0 <= i < |ops| ==> resolve(ops[i].path) != resolve(op.path)
    ensures var after := ApplyOne(files, resolve, op).value.files;
      && FirstFailing(after, resolve, ops) == FirstFailing(files, resolve, ops)
      && (forall i :: 0 <= i < |ops| ==> Idle(after, resolve, ops[i]) == Idle(files, resolve, ops[i]))
    decreases |ops|
  {
    if ops != [] {
      OtherFileSame(files, resolve, op, ops[0]);
      assert forall i :: 0 <= i < |ops[1..]| ==> ops[1..][i] == ops[i + 1];
      SameFirstFailing(files, resolve, op, ops[1..]);
    }
  }

  /** A patch with at most one operation per file succeeds exactly when every operation applies to
      the files as they were, and a failed one leaves them so exactly when every operation before
      the first that does not apply is an update that changes nothing. */
  lemma {:induction false} AllOrNothingIff(files: Files, resolve: Resolver, ops: seq<Operation>, done: seq<Summary>)
    requires DistinctPaths(resolve, ops)
    ensures var r, k := ApplyAll(files, resolve, ops, done), FirstFailing(files, resolve, ops);
      && (r.ok <==> k == |ops|)
      && (r.files == files <==> forall i :: 0 <= i < k ==> Idle(files, resolve, ops[i]))
    decreases |ops|
  {
    if ops != [] && Applies(files, resolve, ops[0]) {
      var e, rest := ApplyOne(files, resolve, ops[0]).value, ops[1..];
      forall i | 0 <= i < |rest| ensures resolve(rest[i].path) != resolve(ops[0].path) {
        TailsDistinct(resolve, ops, i);
      }
      assert DistinctPaths(resolve, rest) by { if rest != [] { TailsDistinct(resolve, ops, 0); } }
      SameFirstFailing(files, resolve, ops[0], rest);
      AllOrNothingIff(e.files, resolve, rest, done + [e.summary]);
      AppliedChanges(files, resolve, ops[0]);
      OtherFilesUntouched(e.files, resolve, rest, done + [e.summary], resolve(ops[0].path).value);
      IdleShift(files, resolve, ops);
    }
  }

  lemma IdleShift(files: Files, resolve: Resolver, ops: seq<Operation>)
    requires ops != [] && Applies(files, resolve, ops[0])
    ensures var k := FirstFailing(files, resolve, ops);
      && k == FirstFailing(files, resolve, ops[1..]) + 1
      && ((forall i :: 0 <= i < k ==> Idle(files, resolve, ops[i])) <==>
            Idle(files, resolve, ops[0]) && forall i :: 0 <= i < k - 1 ==> Idle(files, resolve, ops[1..][i]))
  {
    var k := FirstFailing(files, resolve, ops);
    assert forall i :: 0 <= i < |ops[1..]| ==> ops[1..][i] == ops[i + 1];
    if Idle(files, resolve, ops[0]) && forall i :: 0 <= i < k - 1 ==> Idle(files, resolve, ops[1..][i]) {
      forall i | 0 <= i < k ensures Idle(files, resolve, ops[i]) {
        if i > 0 { assert ops[i] == ops[1..][i - 1]; }
      }
    }
  }

  // ---------- each file for itself ----------

  function Content(files: Files, p: string): Option<string> {
    if p in files then Some(files[p]) else None
  }

  /** What an operation makes of the file it names; `None` where it fails. */
  function OpOn(content: Option<string>, op: Operation): Option<Option<string>> {
    match op
    case AddFile(_, lines) => if content.Some? then None else Some(Some(FormatLines(lines)))
    case DeleteFile(_) => if content.None? then None else Some(None)
    case UpdateFile(_, hunks) =>
      if content.None? then None
      else match ApplyUpdate(content.value, hunks) case None => None case Some(after) => Some(Some(after))
  }

  /** Operations on one file, one after the other. */
  function Thread(content: Option<string>, ops: seq<Operation>): Option<Option<string>>
    decreases |ops|
  {
    if ops == [] then Some(content)
    else match OpOn(content, ops[0]) case None => None case Some(next) => Thread(next, ops[1..])
  }

  /** The operations that resolve to the file `p`. */
  function Own(resolve: Resolver, ops: seq<Operation>, p: string): seq<Operation> {
    if ops == [] then []
    else if resolve(ops[0].path) == Some(p) then [ops[0]] + Own(resolve, ops[1..], p)
    else Own(resolve, ops[1..], p)
  }

  /** What the patch makes of the file `p`, looking at no other file. */
  function FileAlone(files: Files, resolve: Resolver, ops: seq<Operation>, p: string): Option<Option<string>> {
    Thread(Content(files, p), Own(resolve, ops, p))
  }

  /** Every path resolves, and every file for itself takes its own operations. */
  ghost predicate Fits(files: Files, resolve: Resolver, ops: seq<Operation>) {
    && (forall i :: 0 <= i < |ops| ==> resolve(ops[i].path).Some?)
    && (forall p :: FileAlone(files, resolve, ops, p).Some?)
  }

  lemma AppliesAlone(files: Files, resolve: Resolver, op: Operation)
    ensures Applies(files, resolve, op) <==>
      resolve(op.path).Some? && OpOn(Content(files, resolve(op.path).value), op).Some?
    ensures Applies(files, resolve, op) ==>
      forall p :: Content(ApplyOne(files, resolve, op).value.files, p)
        == if resolve(op.path) == Some(p) then OpOn(Content(files, p), op).value else Content(files, p)
  {
  }

  lemma AloneStep(files: Files, resolve: Resolver, ops: seq<Operation>, p: string)
    requires ops != [] && resolve(ops[0].path).Some?
    ensures Applies(files, resolve, ops[0]) ==>
      FileAlone(files, resolve, ops, p)
        == FileAlone(ApplyOne(files, resolve, ops[0]).value.files, resolve, ops[1..], p)
    ensures !Applies(files, resolve, ops[0]) ==> FileAlone(files, resolve, ops, resolve(ops[0].path).value).None?
  {
    AppliesAlone(files, resolve, ops[0]);
    ConsParts(ops[0], Own(resolve, ops[1..], p));
    ConsParts(ops[0], Own(resolve, ops[1..], resolve(ops[0].path).value));
  }

  lemma FitsStep(files: Files, resolve: Resolver, ops: seq<Operation>)
    requires ops != []
    ensures Fits(files, resolve, ops) <==>
      Applies(files, resolve, ops[0]) && Fits(ApplyOne(files, resolve, ops[0]).value.files, resolve, ops[1..])
  {
    AppliesAlone(files, resolve, ops[0]);
    assert forall i :: 0 < i < |ops| ==> ops[i] == ops[1..][i - 1];
    if Applies(files, resolve, ops[0]) {
      var after := ApplyOne(files, resolve, ops[0]).value.files;
      forall p ensures FileAlone(files, resolve, ops, p) == FileAlone(after, resolve, ops[1..], p) {
        AloneStep(files, resolve, ops, p);
      }
      assert (forall i :: 0 <= i < |ops| ==> resolve(ops[i].path).Some?) <==>
        forall i :: 0 <= i < |ops[1..]| ==> resolve(ops[1..][i].path).Some?;
    } else if resolve(ops[0].path).Some? {
      AloneStep(files, resolve, ops, resolve(ops[0].path).value);
    }
  }

  /** Whatever operations a patch has, in whatever order they interleave: it succeeds exactly when
      every file for itself takes its own operations, and then every file is what these make of it. */
  lemma {:induction false} SucceedsIff(files: Files, resolve: Resolver, ops: seq<Operation>, done: seq<Summary>)
    ensures ApplyAll(files, resolve, ops, done).ok <==> Fits(files, resolve, ops)
    ensures Fits(files, resolve, ops) ==>
      forall p :: Some(Content(ApplyAll(files, resolve, ops, done).files, p)) == FileAlone(files, resolve, ops, p)
    decreases |ops|
  {
    if ops != [] {
      FitsStep(files, resolve, ops);
      if Applies(files, resolve, ops[0]) {
        var e := ApplyOne(files, resolve, ops[0]).value;
        SucceedsIff(e.files, resolve, ops[1..], done + [e.summary]);
        forall p { AloneStep(files, resolve, ops, p); }
      }
    }
  }

  /** A patch fails at the first operation up to which not every file takes its own; it leaves the
      files alone exactly when for every file its operations before that one amount to nothing. */
  lemma FailureUnchangedIff(files: Files, resolve: Resolver, ops: seq<Operation>, done: seq<Summary>, k: nat)
    requires k < |ops| && Fits(files, resolve, ops[..k]) && !Fits(files, resolve, ops[..k + 1])
    ensures var r := ApplyAll(files, resolve, ops, done);
      && !r.ok
      && (r.files == files <==> forall p :: FileAlone(files, resolve, ops[..k], p) == Some(Content(files, p)))
  {
    SucceedsIff(files, resolve, ops[..k], done);
    SucceedsIff(files, resolve, ops[..k + 1], done);
    FailsAfter(files, resolve, ops, done, k);
    SameFiles(ApplyAll(files, resolve, ops, done).files, files);
  }

  lemma {:induction false} FailsAfter(files: Files, resolve: Resolver, ops: seq<Operation>, done: seq<Summary>, k: nat)
    requires k < |ops| && ApplyAll(files, resolve, ops[..k], done).ok
    requires !ApplyAll(files, resolve, ops[..k + 1], done).ok
    ensures !ApplyAll(files, resolve, ops, done).ok
    ensures ApplyAll(files, resolve, ops, done).files == ApplyAll(files, resolve, ops[..k], done).files
    decreases |ops|
  {
    assert ops[..k + 1][0] == ops[0] && ops[..k + 1][1..] == ops[1..][..k];
    if k > 0 {
      assert ops[..k][0] == ops[0] && ops[..k][1..] == ops[1..][..k - 1];
      var e := ApplyOne(files, resolve, ops[0]).value;
      FailsAfter(e.files, resolve, ops[1..], done + [e.summary], k - 1);
    }
  }

  lemma SameFiles(a: Files, b: Files)
    ensures a == b <==> forall p :: Content(a, p) == Content(b, p)
  {
    if forall p :: Content(a, p) == Content(b, p) {
      forall p ensures p in a <==> p in b { assert Content(a, p) == Content(b, p); }
      forall p | p in a ensures a[p] == b[p] { assert Content(a, p) == Content(b, p); }
    }
  }

  // ---------- what an added file holds ----------

  predicate CleanLines(lines: seq<string>) {
    forall i :: 0 <= i < |lines| ==> Clean(lines[i])
  }

  /** Written out and read back, lines are the same lines; the text ends in a line break unless there is
      none. */
  lemma FormattedLines(lines: seq<string>)
    requires CleanLines(lines)
    ensures FileLines(FormatLines(lines)) == lines && (EndsInNewline(FormatLines(lines)) <==> lines != [])
    ensures FormatLines(lines) == "" <==> lines == []
  {
    if lines != [] {
      var more := lines + [""];
      CutJoined(more);
      JoinLast(more);
      assert more[..|more| - 1] == lines;
      assert Join(more) == Join(lines) + "\n" + "" == FormatLines(lines);
    }
  }

  /** The text holds exactly these lines, each ended by a line break. */
  predicate HoldsLines(text: string, lines: seq<string>) {
    FileLines(text) == lines && (EndsInNewline(text) <==> lines != [])
  }

  /** Adding a file writes exactly its lines there, and reports one addition for each and no deletion. */
  lemma AddedFile(files: Files, resolve: Resolver, path: string, lines: seq<string>, p: string)
    requires CleanLines(lines) && resolve(path) == Some(p) && p !in files
    ensures var e := ApplyOne(files, resolve, AddFile(path, lines));
      && e.Some? && p in e.value.files && HoldsLines(e.value.files[p], lines)
      && e.value.files == files[p := e.value.files[p]]
      && e.value.summary.additions == |lines| && e.value.summary.deletions == 0
      && e.value.summary.paths == (if lines == [] then [] else [p])
  {
    FormattedLines(lines);
    FromNothing(p, FormatLines(lines));
  }

  lemma FromNothing(p: string, text: string)
    ensures var s := Summarize(p, "", text); s.additions == |FileLines(text)| && s.deletions == 0
  {
  }

  /** Executing the printed patch that adds a file to a repository without it leaves exactly the given
      lines at its path, every other file alone, and reports as many additions. */
  lemma PrintedAddIsWritten(files: Files, resolve: Resolver, path: string, lines: seq<string>, p: string)
    requires CleanEdit(Add(path, lines)) && resolve(path) == Some(p) && p !in files
    ensures var (after, report) := ExecutePatch(files, resolve, PrintPatch([Add(path, lines)]));
      && p in after && HoldsLines(after[p], lines) && after == files[p := after[p]]
      && report.Some? && report.value.additions == |lines| && report.value.deletions == 0
  {
    var es := [Add(path, lines)];
    PrintedPatchParses(es);
    assert es[1..] == [];
    var ops := [AddFile(path, lines)];
    assert Meanings(es) == ops + [] == ops;
    AddedFile(files, resolve, path, lines, p);
    OneOperation(files, resolve, ops[0]);
  }

  lemma OneOperation(files: Files, resolve: Resolver, op: Operation)
    requires Applies(files, resolve, op)
    ensures var e, r := ApplyOne(files, resolve, op).value, ApplyAll(files, resolve, [op], []);
      && r.ok && r.files == e.files
      && Total(r.summaries).additions == e.summary.additions && Total(r.summaries).deletions == e.summary.deletions
  {
    var e := ApplyOne(files, resolve, op).value;
    assert [op][1..] == [] && [] + [e.summary] == [e.summary];
    CombiningConserves([e.summary]);
    SumsSnoc([], e.summary);
    assert [] + [e.summary] == [e.summary];
  }

  // ---------- which files a run reports ----------

  function TextAt(files: Files, p: string): string {
    if p in files then files[p] else ""
  }

  /** An operation reports its file exactly when it changes the text there, a missing file counting as
      empty. */
  lemma ReportsChange(files: Files, resolve: Resolver, op: Operation)
    requires Applies(files, resolve, op)
    ensures var e, p := ApplyOne(files, resolve, op).value, resolve(op.path).value;
      e.summary.paths == if TextAt(files, p) == TextAt(e.files, p) then [] else [p]
  {
  }

  /** Some operation resolves to the path. */
  ghost predicate Aims(resolve: Resolver, ops: seq<Operation>, p: string) {
    exists i :: 0 <= i < |ops| && resolve(ops[i].path) == Some(p)
  }

  lemma OneReports(files: Files, resolve: Resolver, op: Operation, e: Effect, p: string)
    requires ApplyOne(files, resolve, op) == Some(e)
    ensures TextAt(e.files, p) != TextAt(files, p) ==> p in e.summary.paths
    ensures p in e.summary.paths ==> resolve(op.path) == Some(p)
  {
    ReportsChange(files, resolve, op);
    if resolve(op.path) != Some(p) { ApplyOneTouches(files, resolve, op, p); }
  }

  /** Every file whose text a successful run changed is reported, and what is reported some operation
      resolves to. */
  lemma {:induction false} RunReportsChanges(files: Files, resolve: Resolver, ops: seq<Operation>, done: seq<Summary>,
                                             p: string)
    requires ApplyAll(files, resolve, ops, done).ok
    ensures var r := ApplyAll(files, resolve, ops, done);
      && done <= r.summaries
      && (TextAt(r.files, p) != TextAt(files, p) ==> Names(r.summaries[|done|..], p))
      && (Names(r.summaries[|done|..], p) ==> Aims(resolve, ops, p))
    decreases |ops|
  {
    if ops != [] {
      var e := ApplyOne(files, resolve, ops[0]).value;
      var next := done + [e.summary];
      RunReportsChanges(e.files, resolve, ops[1..], next, p);
      OneReports(files, resolve, ops[0], e, p);
      var all := ApplyAll(files, resolve, ops, done).summaries;
      SummaryCons(done, e.summary, all);
      NamesCons(e.summary, all[|next|..], p);
      OpsCons(resolve, ops, p);
    }
  }

  lemma SummaryCons(done: seq<Summary>, s: Summary, all: seq<Summary>)
    requires done + [s] <= all
    ensures done <= all && all[|done|..] == [s] + all[|done + [s]|..]
  {
    assert all[|done|] == s;
  }

  lemma NamesCons(first: Summary, rest: seq<Summary>, p: string)
    ensures Names([first] + rest, p) <==> p in first.paths || Names(rest, p)
  {
    var all := [first] + rest;
    if p in first.paths { assert all[0] == first; }
    if Names(rest, p) {
      var i :| 0 <= i < |rest| && p in rest[i].paths;
      assert all[i + 1] == rest[i];
    }
  }

  lemma OpsCons(resolve: Resolver, ops: seq<Operation>, p: string)
    requires ops != []
    ensures Aims(resolve, ops, p) <==> resolve(ops[0].path) == Some(p) || Aims(resolve, ops[1..], p)
  {
    if i :| 0 <= i < |ops[1..]| && resolve(ops[1..][i].path) == Some(p) { assert ops[i + 1] == ops[1..][i]; }
    if i :| 0 <= i < |ops| && resolve(ops[i].path) == Some(p) { if i > 0 { assert ops[1..][i - 1] == ops[i]; } }
  }

  /** Adding an empty file creates it and reports nothing. */
  lemma EmptyFileUnreported(resolve: Resolver)
    requires resolve("a") == Some("a")
    ensures var e := ApplyOne(map[], resolve, AddFile("a", []));
      e.Some? && "a" in e.value.files && e.value.summary == Summary(0, 0, 0, [])
  {
  }

  const HALF_PATCH := [Add("a", []), Delete("b")]

  /** A patch that adds one file and deletes a missing one fails and leaves the added file. */
  lemma HalfAppliedPatch(resolve: Resolver)
    requires resolve("a") == Some("a") && resolve("b") == Some("b")
    ensures ExecutePatch(map[], resolve, PrintPatch(HALF_PATCH)) == (map["a" := ""], None)
  {
    assert CleanEdit(HALF_PATCH[0]) && CleanEdit(HALF_PATCH[1]);
    PrintedPatchParses(HALF_PATCH);
    var ops := [AddFile("a", []), DeleteFile("b")];
    var none: seq<Edit> := [];
    assert HALF_PATCH[1..] == [Delete("b")] && HALF_PATCH[1..][1..] == none;
    assert Meanings(HALF_PATCH[1..]) == [Meaning(HALF_PATCH[1])] + Meanings(none);
    assert Meanings(HALF_PATCH) == ops;
    assert ops[1..] == [DeleteFile("b")];
    var files: Files := map[];
    var e := ApplyOne(files, resolve, ops[0]).value;
    assert e.files == map["a" := ""];
    assert ApplyOne(e.files, resolve, ops[1]) == None;
  }

  /** For an update that a parsed patch carries, the reported difference is what its hunks add minus
      what they remove, but for one line that is lost exactly when an empty line comes to stand last
      in a file without final line break; so it is exact for every file that ends in one. */
  lemma UpdateReportsNet(patch: string, i: nat, path: string, content: string)
    requires ParsePatch(patch).Some? && i < |ParsePatch(patch).value| && ParsePatch(patch).value[i].UpdateFile?
    requires ApplyUpdate(content, ParsePatch(patch).value[i].hunks).Some?
    ensures var hunks := ParsePatch(patch).value[i].hunks;
      var s := Summarize(path, content, ApplyUpdate(content, hunks).value);
      && s.additions - s.deletions == NetLines(hunks) - (if LosesLine(content, hunks) then 1 else 0)
      && (EndsInNewline(content) ==> s.additions - s.deletions == NetLines(hunks))
  {
    var hunks := ParsePatch(patch).value[i].hunks;
    ParsedNoLf(patch);
    assert OpNoLf(ParsePatch(patch).value[i]);
    forall k, j | 0 <= k < |hunks| && 0 <= j < |hunks[k].newLines| ensures NoLf(hunks[k].newLines[j]) {
      assert HunkNoLf(hunks[k]);
    }
    UpdateLineCount(content, hunks);
    SummaryBalances(path, content, ApplyUpdate(content, hunks).value);
  }
}
