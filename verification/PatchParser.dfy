/** The patch language: a list of file operations between Begin and End markers. */
module PatchParser {
  import opened Sequences
  import opened Text
  import opened PatchHunks

  datatype Operation =
    | AddFile(path: string, lines: seq<string>)
    | DeleteFile(path: string)
    | UpdateFile(path: string, hunks: seq<Hunk>)

  const BEGIN := "*** Begin Patch"
  const END := "*** End Patch"
  const MARK := "*** "
  const ADD := "*** Add File: "
  const DELETE := "*** Delete File: "
  const UPDATE := "*** Update File: "

  // ---------- parsing ----------

  /** The text ends, or goes on with the next directive. */
  predicate Stops(lines: seq<string>) {
    lines == [] || StartsWith(lines[0], MARK)
  }

  /** The content lines of an added file, after those already read; `None` where the program
      throws. */
  function AddedLines(lines: seq<string>, content: seq<string>): (r: Option<seq<string>>)
    ensures r.Some? ==> |content| <= |r.value| <= |content| + |lines|
    decreases |lines|
  {
    if Stops(lines) then Some(content)
    else if !StartsWith(lines[0], "+") then None
    else AddedLines(lines[1..], content + [lines[0][1..]])
  }

  const EMPTY_HUNK := Hunk([], [])

  /** The hunk extended by one line of its body. */
  function Extend(h: Hunk, line: string): Option<Hunk> {
    if line == "" then None
    else if line[0] == ' ' then Some(Hunk(h.oldLines + [line[1..]], h.newLines + [line[1..]]))
    else if line[0] == '-' then Some(h.(oldLines := h.oldLines + [line[1..]]))
    else if line[0] == '+' then Some(h.(newLines := h.newLines + [line[1..]]))
    else None
  }

  datatype Body = Body(hunks: seq<Hunk>, used: nat)

  function Flush(hunks: seq<Hunk>, current: Option<Hunk>): seq<Hunk> {
    if current.None? then hunks else hunks + [current.value]
  }

  function Used(b: Option<Body>, n: nat): Option<Body> {
    match b case None => None case Some(v) => Some(Body(v.hunks, v.used + n))
  }

  /** The loop over the lines of an update, with the finished hunks and the current one. */
  function UpdateBody(lines: seq<string>, hunks: seq<Hunk>, current: Option<Hunk>): (r: Option<Body>)
    ensures r.Some? ==> r.value.used <= |lines|
    decreases |lines|
  {
    if Stops(lines) then Some(Body(Flush(hunks, current), 0))
    else if StartsWith(lines[0], "@@") then Used(UpdateBody(lines[1..], Flush(hunks, current), Some(EMPTY_HUNK)), 1)
    else
      var next := Extend(if current.None? then EMPTY_HUNK else current.value, lines[0]);
      if next.None? then None else Used(UpdateBody(lines[1..], hunks, next), 1)
  }

  function PathAfter(line: string, prefix: string): string
    requires StartsWith(line, prefix)
  {
    Trim(line[|prefix|..])
  }

  /** One operation and the number of lines it takes. */
  datatype Parsed = Parsed(op: Operation, used: nat)

  /** An update needs at least one hunk. */
  function UpdateOf(path: string, body: Option<Body>): Option<Parsed> {
    match body
    case None => None
    case Some(b) => if b.hunks == [] then None else Some(Parsed(UpdateFile(path, b.hunks), 1 + b.used))
  }

  function NextOperation(lines: seq<string>): (r: Option<Parsed>)
    requires lines != []
    ensures r.Some? ==> 1 <= r.value.used <= |lines|
  {
    var line, rest := lines[0], lines[1..];
    if StartsWith(line, ADD) then
      match AddedLines(rest, [])
      case None => None
      case Some(content) => Some(Parsed(AddFile(PathAfter(line, ADD), content), 1 + |content|))
    else if StartsWith(line, DELETE) then Some(Parsed(DeleteFile(PathAfter(line, DELETE)), 1))
    else if StartsWith(line, UPDATE) then
      UpdateOf(PathAfter(line, UPDATE), UpdateBody(rest, [], None))
    else None
  }

  /** The operations of the remaining lines, after those already read. */
  function Operations(lines: seq<string>, ops: seq<Operation>): Option<seq<Operation>>
    decreases |lines|
  {
    if lines == [] then Some(ops)
    else
      match NextOperation(lines)
      case None => None
      case Some(p) => Operations(lines[p.used..], ops + [p.op])
  }

  function DropBlankTail(lines: seq<string>): seq<string> {
    if lines != [] && lines[|lines| - 1] == "" then DropBlankTail(lines[..|lines| - 1]) else lines
  }

  /** The lines between the markers. */
  function Inside(lines: seq<string>): Option<seq<string>> {
    if lines == [] || lines[0] != BEGIN || lines[|lines| - 1] != END then None
    else if |lines| >= 2 then Some(lines[1..|lines| - 1])
    else Some([])
  }

  /** `parseApplyPatch`; `None` where the program throws. */
  function ParsePatch(patch: string): Option<seq<Operation>> {
    match Inside(DropBlankTail(RawLines(patch)))
    case None => None
    case Some(body) => if Operations(body, []) == Some([]) then None else Operations(body, [])
  }

  method ParseApplyPatch(patch: string) returns (r: Option<seq<Operation>>)
    ensures r == ParsePatch(patch)
  {
    var lines := RawLines(patch);
    ghost var trimmed := DropBlankTail(lines);
    while |lines| > 0 && lines[|lines| - 1] == ""
      invariant DropBlankTail(lines) == trimmed
      decreases |lines|
    {
      lines := lines[..|lines| - 1];
    }
    var inside := Inside(lines);
    if inside.None? { return None; }
    var operations := ReadOperations(inside.value);
    if operations == Some([]) { return None; }
    return operations;
  }

  method ReadOperations(body: seq<string>) returns (r: Option<seq<Operation>>)
    ensures r == Operations(body, [])
  {
    var operations: seq<Operation> := [];
    var index: nat := 0;
    while index < |body|
      invariant index <= |body|
      invariant Operations(body[index..], operations) == Operations(body, [])
      decreases |body| - index
    {
      var p := ReadOperation(body, index);
      if p.None? { return None; }
      assert body[index..][p.value.used..] == body[index + p.value.used..];
      operations := operations + [p.value.op];
      index := index + p.value.used;
    }
    return Some(operations);
  }

  method ReadOperation(body: seq<string>, index: nat) returns (r: Option<Parsed>)
    requires index < |body|
    ensures r == NextOperation(body[index..])
  {
    var line := body[index];
    assert body[index..][0] == line && body[index..][1..] == body[index + 1..];
    if StartsWith(line, ADD) {
      var content := ReadAddedLines(body, index + 1);
      if content.None? { return None; }
      return Some(Parsed(AddFile(PathAfter(line, ADD), content.value), 1 + |content.value|));
    }
    if StartsWith(line, DELETE) {
      return Some(Parsed(DeleteFile(PathAfter(line, DELETE)), 1));
    }
    if StartsWith(line, UPDATE) {
      var b := ReadUpdateBody(body, index + 1);
      if b.None? || |b.value.hunks| == 0 { return None; }
      return Some(Parsed(UpdateFile(PathAfter(line, UPDATE), b.value.hunks), 1 + b.value.used));
    }
    return None;
  }

  method ReadAddedLines(body: seq<string>, start: nat) returns (r: Option<seq<string>>)
    requires start <= |body|
    ensures r == AddedLines(body[start..], [])
  {
    var content: seq<string> := [];
    var index := start;
    while index < |body| && !StartsWith(body[index], MARK)
      invariant start <= index <= |body|
      invariant AddedLines(body[index..], content) == AddedLines(body[start..], [])
    {
      assert body[index..][0] == body[index] && body[index..][1..] == body[index + 1..];
      if !StartsWith(body[index], "+") { return None; }
      content := content + [body[index][1..]];
      index := index + 1;
    }
    return Some(content);
  }

  method ReadUpdateBody(body: seq<string>, start: nat) returns (r: Option<Body>)
    requires start <= |body|
    ensures r == UpdateBody(body[start..], [], None)
  {
    var hunks: seq<Hunk> := [];
    var current: Option<Hunk> := None;
    var index := start;
    while index < |body| && !StartsWith(body[index], MARK)
      invariant start <= index <= |body|
      invariant Used(UpdateBody(body[index..], hunks, current), index - start) == UpdateBody(body[start..], [], None)
    {
      assert body[index..][0] == body[index] && body[index..][1..] == body[index + 1..];
      if StartsWith(body[index], "@@") {
        if current.Some? { hunks := hunks + [current.value]; }
        current := Some(EMPTY_HUNK);
      } else {
        current := Extend(if current.None? then EMPTY_HUNK else current.value, body[index]);
        if current.None? { return None; }
      }
      index := index + 1;
    }
    return Some(Body(Flush(hunks, current), index - start));
  }

  // ---------- printing ----------

  datatype HunkLine = Context(text: string) | Removed(text: string) | Added(text: string)

  /** A patch as its author writes it; every update has at least one hunk. */
  datatype Edit =
    | Add(path: string, lines: seq<string>)
    | Delete(path: string)
    | Update(path: string, first: seq<HunkLine>, more: seq<seq<HunkLine>>)

  function PrintHunkLine(l: HunkLine): string {
    match l
    case Context(t) => " " + t
    case Removed(t) => "-" + t
    case Added(t) => "+" + t
  }

  function PrintLines(h: seq<HunkLine>): (r: seq<string>)
    ensures |r| == |h| && forall i :: 0 <= i < |r| ==> r[i] == PrintHunkLine(h[i])
  {
    seq(|h|, i requires 0 <= i < |h| => PrintHunkLine(h[i]))
  }

  function PrintHunk(h: seq<HunkLine>): (r: seq<string>)
    ensures |r| == |h| + 1
  {
    ["@@"] + PrintLines(h)
  }

  function PrintHunks(hs: seq<seq<HunkLine>>): seq<string> {
    if hs == [] then [] else PrintHunk(hs[0]) + PrintHunks(hs[1..])
  }

  function PrintAdded(lines: seq<string>): (r: seq<string>)
    ensures |r| == |lines| && forall i :: 0 <= i < |r| ==> r[i] == "+" + lines[i]
  {
    seq(|lines|, i requires 0 <= i < |lines| => "+" + lines[i])
  }

  function PrintEdit(e: Edit): seq<string> {
    match e
    case Add(path, lines) => [ADD + path] + PrintAdded(lines)
    case Delete(path) => [DELETE + path]
    case Update(path, first, more) => [UPDATE + path] + PrintHunks([first] + more)
  }

  function PrintEdits(es: seq<Edit>): seq<string> {
    if es == [] then [] else PrintEdit(es[0]) + PrintEdits(es[1..])
  }

  function PrintPatch(es: seq<Edit>): string {
    Join([BEGIN] + PrintEdits(es) + [END])
  }

  /** The two sides of a hunk. */
  function OldSide(h: seq<HunkLine>): seq<string> {
    if h == [] then [] else (if h[0].Added? then [] else [h[0].text]) + OldSide(h[1..])
  }

  function NewSide(h: seq<HunkLine>): seq<string> {
    if h == [] then [] else (if h[0].Removed? then [] else [h[0].text]) + NewSide(h[1..])
  }

  function Project(h: seq<HunkLine>): Hunk {
    Hunk(OldSide(h), NewSide(h))
  }

  function ProjectAll(hs: seq<seq<HunkLine>>): seq<Hunk> {
    if hs == [] then [] else [Project(hs[0])] + ProjectAll(hs[1..])
  }

  function Meaning(e: Edit): Operation {
    match e
    case Add(path, lines) => AddFile(path, lines)
    case Delete(path) => DeleteFile(path)
    case Update(path, first, more) => UpdateFile(path, ProjectAll([first] + more))
  }

  function Meanings(es: seq<Edit>): seq<Operation> {
    if es == [] then [] else [Meaning(es[0])] + Meanings(es[1..])
  }

  // ---------- printing and parsing ----------

  lemma StartsDifferently(s: string, prefix: string)
    requires s != "" && prefix != "" && s[0] != prefix[0]
    ensures !StartsWith(s, prefix)
  {
    assert |prefix| <= |s| ==> s[..|prefix|][0] != prefix[0];
  }

  lemma {:induction false} AddedRead(lines: seq<string>, rest: seq<string>, content: seq<string>)
    requires Stops(rest)
    ensures AddedLines(PrintAdded(lines) + rest, content) == Some(content + lines)
    decreases |lines|
  {
    var all := PrintAdded(lines) + rest;
    if lines == [] {
      assert all == rest && content + lines == content;
    } else {
      AddedRead(lines[1..], rest, content + [lines[0]]);
      assert all[1..] == PrintAdded(lines[1..]) + rest;
      assert all[0] == "+" + lines[0] && all[0][1..] == lines[0] && all[0][..1] == "+";
      StartsDifferently(all[0], MARK);
      assert content + [lines[0]] + lines[1..] == content + lines;
    }
  }

  /** The hunk `cur` with the two sides of `h` added. */
  function With(cur: Hunk, h: seq<HunkLine>): Hunk {
    Hunk(cur.oldLines + OldSide(h), cur.newLines + NewSide(h))
  }

  lemma ExtendPrinted(h: Hunk, l: HunkLine)
    ensures Extend(h, PrintHunkLine(l)) == Some(With(h, [l]))
    ensures !StartsWith(PrintHunkLine(l), MARK) && !StartsWith(PrintHunkLine(l), "@@")
  {
    assert PrintHunkLine(l)[1..] == l.text;
    OneLineSides(l);
    assert h.oldLines + [] == h.oldLines && h.newLines + [] == h.newLines;
    StartsDifferently(PrintHunkLine(l), MARK);
    StartsDifferently(PrintHunkLine(l), "@@");
  }

  lemma SidesStep(h: Hunk, l: seq<HunkLine>)
    requires l != []
    ensures h.oldLines + OldSide([l[0]]) + OldSide(l[1..]) == h.oldLines + OldSide(l)
    ensures h.newLines + NewSide([l[0]]) + NewSide(l[1..]) == h.newLines + NewSide(l)
  {
    SidesSplit(l);
    Assoc(h.oldLines, OldSide([l[0]]), OldSide(l[1..]));
    Assoc(h.newLines, NewSide([l[0]]), NewSide(l[1..]));
  }

  lemma SidesSplit(l: seq<HunkLine>)
    requires l != []
    ensures OldSide(l) == OldSide([l[0]]) + OldSide(l[1..]) && NewSide(l) == NewSide([l[0]]) + NewSide(l[1..])
  {
    OneLineSides(l[0]);
  }

  lemma OneLineSides(l: HunkLine)
    ensures OldSide([l]) == (if l.Added? then [] else [l.text]) && NewSide([l]) == (if l.Removed? then [] else [l.text])
  {
    var one := [l];
    assert one[1..] == [];
    assert OldSide(one[1..]) == [] && NewSide(one[1..]) == [];
  }

  /** One body line extends the current hunk. */
  lemma BodyLine(line: string, rest: seq<string>, hunks: seq<Hunk>, cur: Hunk, next: Hunk)
    requires !StartsWith(line, MARK) && !StartsWith(line, "@@") && Extend(cur, line) == Some(next)
    ensures UpdateBody([line] + rest, hunks, Some(cur)) == Used(UpdateBody(rest, hunks, Some(next)), 1)
  {
    ConsParts(line, rest);
  }

  /** A hunk header closes the current hunk and opens an empty one. */
  lemma BodyHeader(line: string, rest: seq<string>, hunks: seq<Hunk>, cur: Option<Hunk>)
    requires !StartsWith(line, MARK) && StartsWith(line, "@@")
    ensures UpdateBody([line] + rest, hunks, cur) == Used(UpdateBody(rest, Flush(hunks, cur), Some(EMPTY_HUNK)), 1)
  {
    ConsParts(line, rest);
  }

  lemma PrintLinesFirst(h: seq<HunkLine>, rest: seq<string>)
    requires h != []
    ensures PrintLines(h) + rest == [PrintHunkLine(h[0])] + (PrintLines(h[1..]) + rest)
  {
  }

  lemma UsedTwice(r: Option<Body>, a: nat, b: nat)
    ensures Used(Used(r, a), b) == Used(r, a + b)
  {
  }

  lemma WithStep(cur: Hunk, h: seq<HunkLine>)
    ensures With(cur, []) == cur
    ensures h != [] ==> With(With(cur, [h[0]]), h[1..]) == With(cur, h)
  {
    if h != [] { SidesStep(cur, h); }
  }

  /** Reading the printed lines of a hunk extends the current hunk by its two sides. */
  lemma {:induction false} HunkLinesRead(h: seq<HunkLine>, rest: seq<string>, hunks: seq<Hunk>, cur: Hunk)
    ensures UpdateBody(PrintLines(h) + rest, hunks, Some(cur)) == Used(UpdateBody(rest, hunks, Some(With(cur, h))), |h|)
    decreases |h|
  {
    WithStep(cur, h);
    if h == [] {
      assert PrintLines(h) + rest == rest;
    } else {
      var line, next := PrintHunkLine(h[0]), With(cur, [h[0]]);
      PrintLinesFirst(h, rest);
      ExtendPrinted(cur, h[0]);
      BodyLine(line, PrintLines(h[1..]) + rest, hunks, cur, next);
      HunkLinesRead(h[1..], rest, hunks, next);
      UsedTwice(UpdateBody(rest, hunks, Some(With(cur, h))), |h| - 1, 1);
    }
  }

  lemma HunkRead(h: seq<HunkLine>, tail: seq<string>, hunks: seq<Hunk>, cur: Option<Hunk>)
    ensures UpdateBody(PrintHunk(h) + tail, hunks, cur)
         == Used(UpdateBody(tail, Flush(hunks, cur), Some(Project(h))), |PrintHunk(h)|)
  {
    StartsDifferently("@@", MARK);
    Assoc(["@@"], PrintLines(h), tail);
    BodyHeader("@@", PrintLines(h) + tail, hunks, cur);
    HunkLinesRead(h, tail, Flush(hunks, cur), EMPTY_HUNK);
    assert With(EMPTY_HUNK, h) == Project(h);
    UsedTwice(UpdateBody(tail, Flush(hunks, cur), Some(Project(h))), |h|, 1);
  }

  lemma {:induction false} HunksRead(hs: seq<seq<HunkLine>>, rest: seq<string>, hunks: seq<Hunk>, cur: Option<Hunk>)
    requires Stops(rest)
    ensures UpdateBody(PrintHunks(hs) + rest, hunks, cur)
         == Some(Body(Flush(hunks, cur) + ProjectAll(hs), |PrintHunks(hs)|))
    decreases |hs|
  {
    if hs == [] {
      assert PrintHunks(hs) + rest == rest;
      assert Flush(hunks, cur) + ProjectAll(hs) == Flush(hunks, cur);
    } else {
      var h, more, done := hs[0], hs[1..], Flush(hunks, cur);
      Assoc(PrintHunk(h), PrintHunks(more), rest);
      HunkRead(h, PrintHunks(more) + rest, hunks, cur);
      HunksRead(more, rest, done, Some(Project(h)));
      UsedBody(done, Project(h), ProjectAll(more), |PrintHunks(more)|, |PrintHunk(h)|);
    }
  }

  lemma UsedBody(done: seq<Hunk>, p: Hunk, more: seq<Hunk>, n: nat, k: nat)
    ensures Used(Some(Body(Flush(done, Some(p)) + more, n)), k) == Some(Body(done + ([p] + more), k + n))
  {
    Assoc(done, [p], more);
  }

  /** A directive line and the path it names. */
  lemma DirectiveRead(prefix: string, path: string)
    requires StartsWith(prefix, MARK) && Trim(path) == path
    ensures StartsWith(prefix + path, prefix) && StartsWith(prefix + path, MARK)
        && PathAfter(prefix + path, prefix) == path
  {
    assert (prefix + path)[..|MARK|] == prefix[..|MARK|];
    assert (prefix + path)[|prefix|..] == path;
  }

  lemma DirectivesDiffer(path: string)
    ensures StartsWith(ADD, MARK) && StartsWith(DELETE, MARK) && StartsWith(UPDATE, MARK)
    ensures !StartsWith(DELETE + path, ADD) && !StartsWith(UPDATE + path, ADD) && !StartsWith(UPDATE + path, DELETE)
  {
    assert ADD[4] == 'A' && DELETE[4] == 'D' && UPDATE[4] == 'U';
    assert (DELETE + path)[4] == 'D' && (UPDATE + path)[4] == 'U';
    assert (DELETE + path)[..|ADD|][4] == 'D' && (UPDATE + path)[..|ADD|][4] == 'U'
        && (UPDATE + path)[..|DELETE|][4] == 'U';
  }

  lemma AddRead(path: string, content: seq<string>, rest: seq<string>)
    requires Trim(path) == path && Stops(rest)
    ensures NextOperation([ADD + path] + (PrintAdded(content) + rest))
        == Some(Parsed(AddFile(path, content), 1 + |content|))
  {
    DirectivesDiffer(path);
    DirectiveRead(ADD, path);
    assert AddedLines(PrintAdded(content) + rest, []) == Some(content) by {
      AddedRead(content, rest, []);
      assert [] + content == content;
    }
    assert ([ADD + path] + (PrintAdded(content) + rest))[1..] == PrintAdded(content) + rest;
  }

  lemma DeleteRead(path: string, rest: seq<string>)
    requires Trim(path) == path
    ensures NextOperation([DELETE + path] + rest) == Some(Parsed(DeleteFile(path), 1))
  {
    DirectivesDiffer(path);
    DirectiveRead(DELETE, path);
  }

  lemma UpdateRead(path: string, hs: seq<seq<HunkLine>>, rest: seq<string>)
    requires Trim(path) == path && Stops(rest) && hs != []
    ensures NextOperation([UPDATE + path] + (PrintHunks(hs) + rest))
        == Some(Parsed(UpdateFile(path, ProjectAll(hs)), 1 + |PrintHunks(hs)|))
  {
    DirectivesDiffer(path);
    DirectiveRead(UPDATE, path);
    assert UpdateBody(PrintHunks(hs) + rest, [], None) == Some(Body(ProjectAll(hs), |PrintHunks(hs)|)) by {
      var none: seq<Hunk> := [];
      HunksRead(hs, rest, none, None);
      assert none + ProjectAll(hs) == ProjectAll(hs);
    }
    NextUpdate(UPDATE + path, PrintHunks(hs) + rest, ProjectAll(hs), |PrintHunks(hs)|);
  }

  lemma NextUpdate(line: string, rest: seq<string>, hunks: seq<Hunk>, used: nat)
    requires StartsWith(line, UPDATE) && !StartsWith(line, ADD) && !StartsWith(line, DELETE)
    requires UpdateBody(rest, [], None) == Some(Body(hunks, used)) && hunks != []
    ensures NextOperation([line] + rest) == Some(Parsed(UpdateFile(PathAfter(line, UPDATE), hunks), 1 + used))
  {
    ConsParts(line, rest);
  }

  /** A printed edit begins with its directive. */
  lemma EditStarts(e: Edit, rest: seq<string>)
    requires Trim(e.path) == e.path
    ensures Stops(PrintEdit(e) + rest)
  {
    var prefix := if e.Add? then ADD else if e.Delete? then DELETE else UPDATE;
    DirectivesDiffer(e.path);
    DirectiveRead(prefix, e.path);
    assert (PrintEdit(e) + rest)[0] == prefix + e.path;
  }

  lemma AddEditRead(e: Edit, rest: seq<string>)
    requires e.Add? && Trim(e.path) == e.path && Stops(rest)
    ensures NextOperation(PrintEdit(e) + rest) == Some(Parsed(Meaning(e), |PrintEdit(e)|))
  {
    Assoc([ADD + e.path], PrintAdded(e.lines), rest);
    AddRead(e.path, e.lines, rest);
  }

  lemma UpdateEditRead(e: Edit, rest: seq<string>)
    requires e.Update? && Trim(e.path) == e.path && Stops(rest)
    ensures NextOperation(PrintEdit(e) + rest) == Some(Parsed(Meaning(e), |PrintEdit(e)|))
  {
    var hs := [e.first] + e.more;
    Assoc([UPDATE + e.path], PrintHunks(hs), rest);
    UpdateRead(e.path, hs, rest);
  }

  lemma EditRead(e: Edit, rest: seq<string>)
    requires Trim(e.path) == e.path && Stops(rest)
    ensures NextOperation(PrintEdit(e) + rest) == Some(Parsed(Meaning(e), |PrintEdit(e)|))
    ensures Stops(PrintEdit(e) + rest)
  {
    EditStarts(e, rest);
    match e
    case Add(_, _) => AddEditRead(e, rest);
    case Delete(path) => DeleteRead(path, rest);
    case Update(_, _, _) => UpdateEditRead(e, rest);
  }

  lemma {:induction false} EditsRead(es: seq<Edit>, ops: seq<Operation>)
    requires forall i :: 0 <= i < |es| ==> Trim(es[i].path) == es[i].path
    ensures Stops(PrintEdits(es)) && Operations(PrintEdits(es), ops) == Some(ops + Meanings(es))
    decreases |es|
  {
    if es == [] {
      assert ops + Meanings(es) == ops;
    } else {
      var rest := PrintEdits(es[1..]);
      EditsRead(es[1..], ops + [Meaning(es[0])]);
      EditRead(es[0], rest);
      assert (PrintEdit(es[0]) + rest)[|PrintEdit(es[0])|..] == rest;
      assert ops + [Meaning(es[0])] + Meanings(es[1..]) == ops + Meanings(es);
    }
  }

  // ---------- as text ----------

  predicate CleanEdit(e: Edit) {
    && Trim(e.path) == e.path && NoLf(e.path)
    && match e
       case Add(_, lines) => forall i :: 0 <= i < |lines| ==> Clean(lines[i])
       case Delete(_) => true
       case Update(_, first, more) => CleanHunk(first) && forall i :: 0 <= i < |more| ==> CleanHunk(more[i])
  }

  predicate CleanHunk(h: seq<HunkLine>) {
    forall i :: 0 <= i < |h| ==> Clean(h[i].text)
  }

  predicate AllClean(lines: seq<string>) {
    forall i :: 0 <= i < |lines| ==> Clean(lines[i])
  }

  lemma CleanWithPrefix(prefix: string, s: string)
    requires Clean(prefix) && Clean(s)
    ensures Clean(prefix + s)
  {
  }

  lemma {:induction false} TrimmedIsClean(s: string)
    requires Trim(s) == s && NoLf(s)
    ensures Clean(s)
  {
    TrimStartLength(s);
    if s != "" {
      assert TrimStart(s) == s || |TrimStart(s)| < |s|;
      TrimEndLength(TrimStart(s));
    }
  }

  lemma {:induction false} TrimStartLength(s: string)
    ensures |TrimStart(s)| <= |s| && (|TrimStart(s)| == |s| ==> TrimStart(s) == s)
  {
    if s != "" && IsSpace(s[0]) { TrimStartLength(s[1..]); }
  }

  lemma {:induction false} TrimEndLength(s: string)
    ensures |TrimEnd(s)| <= |s|
    ensures s != "" && IsSpace(s[|s| - 1]) ==> |TrimEnd(s)| < |s|
  {
    if s != "" && IsSpace(s[|s| - 1]) { TrimEndLength(s[..|s| - 1]); }
  }

  lemma {:induction false} PrintHunksClean(hs: seq<seq<HunkLine>>)
    requires forall i :: 0 <= i < |hs| ==> CleanHunk(hs[i])
    ensures AllClean(PrintHunks(hs))
  {
    if hs != [] {
      PrintHunksClean(hs[1..]);
      forall i | 0 <= i < |hs[0]| ensures Clean(PrintHunkLine(hs[0][i])) {
        CleanWithPrefix(" ", hs[0][i].text);
        CleanWithPrefix("-", hs[0][i].text);
        CleanWithPrefix("+", hs[0][i].text);
      }
    }
  }

  lemma PrintEditClean(e: Edit)
    requires CleanEdit(e)
    ensures AllClean(PrintEdit(e))
  {
    TrimmedIsClean(e.path);
    CleanWithPrefix(ADD, e.path);
    CleanWithPrefix(DELETE, e.path);
    CleanWithPrefix(UPDATE, e.path);
    match e
    case Add(_, lines) =>
      forall i | 0 <= i < |lines| ensures Clean("+" + lines[i]) { CleanWithPrefix("+", lines[i]); }
    case Delete(_) =>
    case Update(_, first, more) => PrintHunksClean([first] + more);
  }

  lemma {:induction false} PrintEditsClean(es: seq<Edit>)
    requires forall i :: 0 <= i < |es| ==> CleanEdit(es[i])
    ensures AllClean(PrintEdits(es))
  {
    if es != [] {
      PrintEditClean(es[0]);
      PrintEditsClean(es[1..]);
    }
  }

  lemma MarkersClean()
    ensures Clean(BEGIN) && Clean(END) && END != ""
  {
  }

  lemma InsideMarkers(body: seq<string>)
    requires AllClean(body)
    ensures Inside(DropBlankTail(RawLines(Join([BEGIN] + body + [END])))) == Some(body)
  {
    var lines := [BEGIN] + body + [END];
    MarkersClean();
    CutJoined(lines);
    assert lines[|lines| - 1] == END;
    assert DropBlankTail(lines) == lines;
    assert lines[1..|lines| - 1] == body;
  }

  /** Printing any non-empty list of edits and parsing the text gives back the operations they
      stand for, each hunk projected to its old and new side. */
  lemma PrintedPatchParses(es: seq<Edit>)
    requires es != [] && forall i :: 0 <= i < |es| ==> CleanEdit(es[i])
    ensures ParsePatch(PrintPatch(es)) == Some(Meanings(es))
  {
    TextOfEdits(es);
    BodyOfEdits(es);
    ParsesTo(PrintPatch(es), PrintEdits(es), Meanings(es));
  }

  lemma TextOfEdits(es: seq<Edit>)
    requires forall i :: 0 <= i < |es| ==> CleanEdit(es[i])
    ensures Inside(DropBlankTail(RawLines(PrintPatch(es)))) == Some(PrintEdits(es))
  {
    PrintEditsClean(es);
    InsideMarkers(PrintEdits(es));
  }

  lemma BodyOfEdits(es: seq<Edit>)
    requires es != [] && forall i :: 0 <= i < |es| ==> CleanEdit(es[i])
    ensures Operations(PrintEdits(es), []) == Some(Meanings(es)) && Meanings(es) != []
  {
    EditsRead(es, []);
    FromNothing(PrintEdits(es), Meanings(es));
  }

  lemma FromNothing(body: seq<string>, ops: seq<Operation>)
    requires Operations(body, []) == Some([] + ops)
    ensures Operations(body, []) == Some(ops)
  {
    assert [] + ops == ops;
  }

  lemma ParsesTo(text: string, body: seq<string>, ops: seq<Operation>)
    requires Inside(DropBlankTail(RawLines(text))) == Some(body) && Operations(body, []) == Some(ops) && ops != []
    ensures ParsePatch(text) == Some(ops)
  {
  }

  /** Whatever parses is a non-empty list of operations whose updates all carry a hunk. */
  lemma {:induction false} OperationsShape(lines: seq<string>, ops: seq<Operation>)
    requires Operations(lines, ops).Some?
    requires forall i :: 0 <= i < |ops| ==> ops[i].UpdateFile? ==> ops[i].hunks != []
    ensures var r := Operations(lines, ops).value;
      forall i :: 0 <= i < |r| ==> r[i].UpdateFile? ==> r[i].hunks != []
    decreases |lines|
  {
    if lines != [] {
      var p := NextOperation(lines).value;
      OperationsShape(lines[p.used..], ops + [p.op]);
    }
  }

  lemma ParsedShape(patch: string)
    requires ParsePatch(patch).Some?
    ensures var r := ParsePatch(patch).value;
      r != [] && forall i :: 0 <= i < |r| ==> r[i].UpdateFile? ==> r[i].hunks != []
  {
    OperationsShape(Inside(DropBlankTail(RawLines(patch))).value, []);
  }

  // ---------- parsed lines contain no line feed ----------

  predicate LinesNoLf(lines: seq<string>) {
    forall i :: 0 <= i < |lines| ==> NoLf(lines[i])
  }

  predicate HunkNoLf(h: Hunk) {
    LinesNoLf(h.oldLines) && LinesNoLf(h.newLines)
  }

  predicate HunksOk(hunks: seq<Hunk>) {
    forall i :: 0 <= i < |hunks| ==> HunkNoLf(hunks[i])
  }

  predicate OpNoLf(op: Operation) {
    && NoLf(op.path)
    && (op.AddFile? ==> LinesNoLf(op.lines))
    && (op.UpdateFile? ==> HunksOk(op.hunks))
  }

  lemma ExtendNoLf(h: Hunk, line: string)
    requires HunkNoLf(h) && NoLf(line) && Extend(h, line).Some?
    ensures HunkNoLf(Extend(h, line).value)
  {
    assert NoLf(line[1..]);
  }

  lemma {:induction false} AddedLinesNoLf(lines: seq<string>, content: seq<string>)
    requires LinesNoLf(lines) && LinesNoLf(content) && AddedLines(lines, content).Some?
    ensures LinesNoLf(AddedLines(lines, content).value)
    decreases |lines|
  {
    if !Stops(lines) {
      assert NoLf(lines[0][1..]);
      AddedLinesNoLf(lines[1..], content + [lines[0][1..]]);
    }
  }

  lemma {:induction false} UpdateBodyNoLf(lines: seq<string>, hunks: seq<Hunk>, current: Option<Hunk>)
    requires LinesNoLf(lines) && UpdateBody(lines, hunks, current).Some?
    requires HunksOk(hunks) && (current.Some? ==> HunkNoLf(current.value))
    ensures HunksOk(UpdateBody(lines, hunks, current).value.hunks)
    decreases |lines|
  {
    if !Stops(lines) {
      if StartsWith(lines[0], "@@") {
        UpdateBodyNoLf(lines[1..], Flush(hunks, current), Some(EMPTY_HUNK));
      } else {
        var h := if current.None? then EMPTY_HUNK else current.value;
        ExtendNoLf(h, lines[0]);
        UpdateBodyNoLf(lines[1..], hunks, Extend(h, lines[0]));
      }
    }
  }

  lemma NextOperationNoLf(lines: seq<string>)
    requires LinesNoLf(lines) && lines != [] && NextOperation(lines).Some?
    ensures OpNoLf(NextOperation(lines).value.op)
  {
    var line, op := lines[0], NextOperation(lines).value.op;
    var prefix := if op.AddFile? then ADD else if op.DeleteFile? then DELETE else UPDATE;
    assert NoLf(line[|prefix|..]);
    TrimNoLf(line[|prefix|..]);
    if op.AddFile? {
      AddedLinesNoLf(lines[1..], []);
    } else if op.UpdateFile? {
      UpdateBodyNoLf(lines[1..], [], None);
    }
  }

  lemma {:induction false} OperationsNoLf(lines: seq<string>, ops: seq<Operation>)
    requires LinesNoLf(lines) && Operations(lines, ops).Some? && forall i :: 0 <= i < |ops| ==> OpNoLf(ops[i])
    ensures forall i :: 0 <= i < |Operations(lines, ops).value| ==> OpNoLf(Operations(lines, ops).value[i])
    decreases |lines|
  {
    if lines != [] {
      var p := NextOperation(lines).value;
      NextOperationNoLf(lines);
      OperationsNoLf(lines[p.used..], ops + [p.op]);
    }
  }

  lemma {:induction false} DropBlankTailNoLf(lines: seq<string>)
    requires LinesNoLf(lines)
    ensures LinesNoLf(DropBlankTail(lines))
  {
    if lines != [] && lines[|lines| - 1] == "" { DropBlankTailNoLf(lines[..|lines| - 1]); }
  }

  lemma ParsedNoLf(patch: string)
    requires ParsePatch(patch).Some?
    ensures forall i :: 0 <= i < |ParsePatch(patch).value| ==> OpNoLf(ParsePatch(patch).value[i])
  {
    RawLinesNoLf(patch);
    DropBlankTailNoLf(RawLines(patch));
    OperationsNoLf(Inside(DropBlankTail(RawLines(patch))).value, []);
  }
}
