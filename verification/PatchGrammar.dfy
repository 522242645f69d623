/** The language the patch parser accepts, written as a grammar: a text is accepted exactly if it is written
    by one of these trees, and then it means what the tree says. */
module PatchGrammar {
  import opened Sequences
  import opened Text
  import opened PatchHunks
  import opened PatchParser

  /** A line of an update: a hunk header with any text after it, or a line of the hunk. */
  datatype Item = Header(text: string) | Line(line: HunkLine)

  /** A directive with the text after its colon, and its body. */
  datatype Section =
    | AddSection(raw: string, lines: seq<string>)
    | DeleteSection(raw: string)
    | UpdateSection(raw: string, items: seq<Item>)

  function WriteItem(i: Item): string {
    match i
    case Header(text) => "@@" + text
    case Line(l) => PrintHunkLine(l)
  }

  function WriteItems(items: seq<Item>): (r: seq<string>)
    ensures |r| == |items|
  {
    if items == [] then [] else [WriteItem(items[0])] + WriteItems(items[1..])
  }

  function WriteBody(s: Section): seq<string> {
    match s
    case AddSection(_, lines) => PrintAdded(lines)
    case DeleteSection(_) => []
    case UpdateSection(_, items) => WriteItems(items)
  }

  function Directive(s: Section): string {
    match s
    case AddSection(raw, _) => "*** Add File: " + raw
    case DeleteSection(raw) => "*** Delete File: " + raw
    case UpdateSection(raw, _) => "*** Update File: " + raw
  }

  function Write(s: Section): seq<string> {
    [Directive(s)] + WriteBody(s)
  }

  function WriteAll(sections: seq<Section>): seq<string> {
    if sections == [] then [] else Write(sections[0]) + WriteAll(sections[1..])
  }

  /** An update says something. */
  predicate Proper(s: Section) {
    s.UpdateSection? ==> s.items != []
  }

  predicate AllProper(sections: seq<Section>) {
    forall i :: 0 <= i < |sections| ==> Proper(sections[i])
  }

  // ---------- what a tree means ----------

  /** The lines up to the first header, and what follows them. */
  function Lead(items: seq<Item>): seq<HunkLine> {
    if items == [] || items[0].Header? then [] else [items[0].line] + Lead(items[1..])
  }

  function After(items: seq<Item>): (r: seq<Item>)
    ensures |r| <= |items|
  {
    if items == [] || items[0].Header? then items else After(items[1..])
  }

  /** Every header starts a hunk, and so do lines without one. */
  function HunksOf(items: seq<Item>): seq<Hunk>
    decreases |items|
  {
    if items == [] then []
    else if items[0].Header? then [Project(Lead(items[1..]))] + HunksOf(After(items[1..]))
    else [Project(Lead(items))] + HunksOf(After(items[1..]))
  }

  function OperationOf(s: Section): Operation {
    match s
    case AddSection(raw, lines) => AddFile(Trim(raw), lines)
    case DeleteSection(raw) => DeleteFile(Trim(raw))
    case UpdateSection(raw, items) => UpdateFile(Trim(raw), HunksOf(items))
  }

  function OperationsOf(sections: seq<Section>): (r: seq<Operation>)
    ensures |r| == |sections|
  {
    if sections == [] then [] else [OperationOf(sections[0])] + OperationsOf(sections[1..])
  }

  // ---------- what is written is read ----------

  /** The hunks that reading `items` adds to the finished ones, with `current` under way. */
  function HunksAfter(current: Option<Hunk>, items: seq<Item>): seq<Hunk> {
    match current
    case None => HunksOf(items)
    case Some(h) => [With(h, Lead(items))] + HunksOf(After(items))
  }

  lemma ItemIsBody(i: Item)
    ensures WriteItem(i) != "" && !StartsWith(WriteItem(i), MARK)
    ensures i.Header? <==> StartsWith(WriteItem(i), "@@")
  {
    StartsDifferently(WriteItem(i), MARK);
    match i
    case Header(text) => assert ("@@" + text)[..2] == "@@";
    case Line(l) => StartsDifferently(WriteItem(i), "@@");
  }

  lemma HeaderStep(tail: seq<Item>, h: string, hunks: seq<Hunk>, current: Option<Hunk>)
    ensures hunks + HunksAfter(current, [Header(h)] + tail)
         == Flush(hunks, current) + HunksAfter(Some(EMPTY_HUNK), tail)
  {
    var items := [Header(h)] + tail;
    ConsParts(Header(h), tail);
    assert With(EMPTY_HUNK, Lead(tail)) == Project(Lead(tail));
    assert HunksOf(items) == HunksAfter(Some(EMPTY_HUNK), tail);
    if current.Some? {
      assert Lead(items) == [] && After(items) == items;
      WithStep(current.value, []);
      Assoc(hunks, [current.value], HunksOf(items));
    }
  }

  lemma LineStep(l: HunkLine, tail: seq<Item>, current: Option<Hunk>, cur: Hunk)
    requires cur == if current.None? then EMPTY_HUNK else current.value
    ensures HunksAfter(current, [Line(l)] + tail) == HunksAfter(Some(With(cur, [l])), tail)
  {
    var items := [Line(l)] + tail;
    ConsParts(Line(l), tail);
    ConsParts(l, Lead(tail));
    assert Lead(items) == [l] + Lead(tail) && After(items) == After(tail);
    WithStep(cur, Lead(items));
    assert With(EMPTY_HUNK, Lead(items)) == Project(Lead(items));
  }

  lemma {:induction false} ItemsRead(items: seq<Item>, rest: seq<string>, hunks: seq<Hunk>, current: Option<Hunk>)
    requires Stops(rest)
    ensures UpdateBody(WriteItems(items) + rest, hunks, current)
         == Some(Body(hunks + HunksAfter(current, items), |items|))
    decreases |items|
  {
    if items == [] {
      assert WriteItems(items) + rest == rest;
      assert hunks + HunksAfter(current, items) == Flush(hunks, current) by {
        if current.Some? { WithStep(current.value, []); }
      }
    } else {
      var i, tail := items[0], items[1..];
      HeadTail(items);
      ItemIsBody(i);
      Assoc([WriteItem(i)], WriteItems(tail), rest);
      ConsParts(WriteItem(i), WriteItems(tail) + rest);
      if i.Header? {
        ItemsRead(tail, rest, Flush(hunks, current), Some(EMPTY_HUNK));
        HeaderStep(tail, i.text, hunks, current);
      } else {
        var cur := if current.None? then EMPTY_HUNK else current.value;
        ExtendPrinted(cur, i.line);
        ItemsRead(tail, rest, hunks, Some(With(cur, [i.line])));
        LineStep(i.line, tail, current, cur);
      }
    }
  }

  lemma DirectiveKind(s: Section)
    ensures StartsWith(Directive(s), MARK)
    ensures StartsWith(Directive(s), ADD) <==> s.AddSection?
    ensures StartsWith(Directive(s), DELETE) <==> s.DeleteSection?
    ensures StartsWith(Directive(s), UPDATE) <==> s.UpdateSection?
  {
    var d := Directive(s);
    var prefix := if s.AddSection? then ADD else if s.DeleteSection? then DELETE else UPDATE;
    assert d == prefix + s.raw && d[..|prefix|] == prefix && d[..|MARK|] == prefix[..|MARK|];
    assert d[4] == prefix[4];
    assert ADD[4] == 'A' && DELETE[4] == 'D' && UPDATE[4] == 'U';
  }

  lemma RawPath(prefix: string, raw: string)
    ensures StartsWith(prefix + raw, prefix) && PathAfter(prefix + raw, prefix) == Trim(raw)
  {
    assert (prefix + raw)[..|prefix|] == prefix && (prefix + raw)[|prefix|..] == raw;
  }

  lemma SectionRead(s: Section, rest: seq<string>)
    requires Proper(s) && Stops(rest)
    ensures NextOperation(Write(s) + rest) == Some(Parsed(OperationOf(s), |Write(s)|))
    ensures Stops(Write(s) + rest)
  {
    DirectiveKind(s);
    Assoc([Directive(s)], WriteBody(s), rest);
    ConsParts(Directive(s), WriteBody(s) + rest);
    match s
    case AddSection(raw, lines) =>
      RawPath(ADD, raw);
      AddedRead(lines, rest, []);
      assert [] + lines == lines;
    case DeleteSection(raw) => RawPath(DELETE, raw);
    case UpdateSection(raw, items) =>
      RawPath(UPDATE, raw);
      ItemsRead(items, rest, [], None);
      assert [] + HunksOf(items) == HunksOf(items);
  }

  lemma {:induction false} SectionsRead(sections: seq<Section>, ops: seq<Operation>)
    requires AllProper(sections)
    ensures Stops(WriteAll(sections)) && Operations(WriteAll(sections), ops) == Some(ops + OperationsOf(sections))
    decreases |sections|
  {
    if sections == [] {
      assert ops + OperationsOf(sections) == ops;
    } else {
      var s, rest := sections[0], WriteAll(sections[1..]);
      SectionsRead(sections[1..], ops + [OperationOf(s)]);
      SectionRead(s, rest);
      assert (Write(s) + rest)[|Write(s)|..] == rest;
      Assoc(ops, [OperationOf(s)], OperationsOf(sections[1..]));
    }
  }

  // ---------- what is read was written ----------

  lemma {:induction false} AddedWritten(lines: seq<string>, content: seq<string>) returns (added: seq<string>)
    requires AddedLines(lines, content).Some?
    ensures AddedLines(lines, content).value == content + added && |added| <= |lines|
    ensures lines == PrintAdded(added) + lines[|added|..] && Stops(lines[|added|..])
    decreases |lines|
  {
    if Stops(lines) {
      added := [];
      assert content + added == content && PrintAdded(added) + lines[0..] == lines;
    } else {
      var more := AddedWritten(lines[1..], content + [lines[0][1..]]);
      added := [lines[0][1..]] + more;
      Assoc(content, [lines[0][1..]], more);
      assert lines[0] == "+" + lines[0][1..];
      assert lines[1..][|more|..] == lines[|added|..];
      assert PrintAdded(added) == [lines[0]] + PrintAdded(more);
      Assoc([lines[0]], PrintAdded(more), lines[|added|..]);
      HeadTail(lines);
    }
  }

  /** A line of an update that the parser takes. */
  lemma ItemWritten(line: string, h: Hunk) returns (i: Item)
    requires StartsWith(line, "@@") || Extend(h, line).Some?
    ensures line == WriteItem(i)
  {
    if StartsWith(line, "@@") {
      i := Header(line[2..]);
      assert line == line[..2] + line[2..];
    } else {
      var text := line[1..];
      i := Line(if line[0] == ' ' then Context(text) else if line[0] == '-' then Removed(text) else Added(text));
      assert line == [line[0]] + text;
    }
  }

  lemma {:induction false} ItemsWritten(lines: seq<string>, hunks: seq<Hunk>, current: Option<Hunk>)
    returns (items: seq<Item>)
    requires UpdateBody(lines, hunks, current).Some?
    ensures UpdateBody(lines, hunks, current).value.used == |items| <= |lines|
    ensures lines == WriteItems(items) + lines[|items|..] && Stops(lines[|items|..])
    decreases |lines|
  {
    if Stops(lines) {
      items := [];
      assert WriteItems(items) + lines[0..] == lines;
    } else {
      var cur := if current.None? then EMPTY_HUNK else current.value;
      var i := ItemWritten(lines[0], cur);
      var more: seq<Item>;
      if StartsWith(lines[0], "@@") {
        more := ItemsWritten(lines[1..], Flush(hunks, current), Some(EMPTY_HUNK));
      } else {
        more := ItemsWritten(lines[1..], hunks, Extend(cur, lines[0]));
      }
      items := [i] + more;
      ConsParts(i, more);
      assert lines[1..][|more|..] == lines[|items|..];
      Assoc([lines[0]], WriteItems(more), lines[|items|..]);
      HeadTail(lines);
    }
  }

  lemma {:induction false} NoItemsNoHunks(lines: seq<string>)
    requires Stops(lines)
    ensures UpdateBody(lines, [], None) == Some(Body([], 0))
  {
  }

  lemma SectionWritten(lines: seq<string>) returns (s: Section)
    requires lines != [] && NextOperation(lines).Some?
    ensures Proper(s) && NextOperation(lines).value.used == |Write(s)| <= |lines|
    ensures lines == Write(s) + lines[|Write(s)|..]
  {
    var line, rest := lines[0], lines[1..];
    HeadTail(lines);
    if StartsWith(line, ADD) {
      var added := AddedWritten(rest, []);
      assert [] + added == added;
      s := AddSection(line[|ADD|..], added);
      assert line == ADD + line[|ADD|..];
      Assoc([line], PrintAdded(added), rest[|added|..]);
      assert rest[|added|..] == lines[1 + |added|..];
    } else if StartsWith(line, DELETE) {
      s := DeleteSection(line[|DELETE|..]);
      assert line == DELETE + line[|DELETE|..];
      assert Write(s) == [line];
    } else {
      var items := ItemsWritten(rest, [], None);
      s := UpdateSection(line[|UPDATE|..], items);
      assert line == UPDATE + line[|UPDATE|..];
      if items == [] { NoItemsNoHunks(rest); }
      Assoc([line], WriteItems(items), rest[|items|..]);
      assert rest[|items|..] == lines[1 + |items|..];
    }
  }

  lemma {:induction false} SectionsWritten(lines: seq<string>, ops: seq<Operation>) returns (sections: seq<Section>)
    requires Operations(lines, ops).Some?
    ensures AllProper(sections) && lines == WriteAll(sections)
    decreases |lines|
  {
    if lines == [] {
      sections := [];
    } else {
      var p := NextOperation(lines).value;
      var s := SectionWritten(lines);
      var more := SectionsWritten(lines[p.used..], ops + [p.op]);
      sections := [s] + more;
      ConsParts(s, more);
      assert lines == Write(s) + lines[p.used..];
    }
  }

  // ---------- the language ----------

  predicate Blank(lines: seq<string>) {
    forall i :: 0 <= i < |lines| ==> lines[i] == ""
  }

  /** The text as a tree: markers around the sections, and empty lines at the end. */
  ghost predicate WrittenBy(patch: string, sections: seq<Section>, blanks: seq<string>) {
    && AllProper(sections) && sections != [] && Blank(blanks)
    && RawLines(patch) == ["*** Begin Patch"] + WriteAll(sections) + ["*** End Patch"] + blanks
  }

  lemma {:induction false} DropBlanks(lines: seq<string>, blanks: seq<string>)
    requires Blank(blanks) && lines != [] && lines[|lines| - 1] != ""
    ensures DropBlankTail(lines + blanks) == lines
    decreases |blanks|
  {
    var all := lines + blanks;
    if blanks == [] {
      assert all == lines;
    } else {
      var n := |blanks| - 1;
      assert all[|all| - 1] == blanks[n] && all[..|all| - 1] == lines + blanks[..n];
      DropBlanks(lines, blanks[..n]);
    }
  }

  lemma {:induction false} DroppedBlanks(lines: seq<string>) returns (blanks: seq<string>)
    ensures Blank(blanks) && lines == DropBlankTail(lines) + blanks
    decreases |lines|
  {
    if lines != [] && lines[|lines| - 1] == "" {
      var n := |lines| - 1;
      var fewer := DroppedBlanks(lines[..n]);
      blanks := fewer + [""];
      Assoc(DropBlankTail(lines), fewer, [""]);
      assert lines == lines[..n] + [""];
    } else {
      blanks := [];
    }
  }

  /** What a tree writes is accepted and means what the tree means. */
  lemma WrittenIsParsed(patch: string, sections: seq<Section>, blanks: seq<string>)
    requires WrittenBy(patch, sections, blanks)
    ensures ParsePatch(patch) == Some(OperationsOf(sections))
  {
    var lines := [BEGIN] + WriteAll(sections) + [END];
    assert lines[|lines| - 1] == END && lines[0] == BEGIN;
    DropBlanks(lines, blanks);
    assert lines[1..|lines| - 1] == WriteAll(sections);
    SectionsRead(sections, []);
    FromNothing(WriteAll(sections), OperationsOf(sections));
    ParsesTo(patch, WriteAll(sections), OperationsOf(sections));
  }

  /** Whatever is accepted is written by a tree. */
  lemma ParsedIsWritten(patch: string) returns (sections: seq<Section>, blanks: seq<string>)
    requires ParsePatch(patch).Some?
    ensures WrittenBy(patch, sections, blanks) && ParsePatch(patch) == Some(OperationsOf(sections))
  {
    var lines := DropBlankTail(RawLines(patch));
    blanks := DroppedBlanks(RawLines(patch));
    var body := Inside(lines).value;
    sections := SectionsWritten(body, []);
    InsideIs(lines, body);
    SectionsRead(sections, []);
    FromNothing(WriteAll(sections), OperationsOf(sections));
  }

  lemma InsideIs(lines: seq<string>, body: seq<string>)
    requires Inside(lines) == Some(body)
    ensures lines == [BEGIN] + body + [END]
  {
    assert BEGIN[4] != END[4];
    assert |lines| >= 2;
  }

  /** The parser accepts exactly the language of the grammar, with the meaning of the tree. */
  lemma AcceptsExactly(patch: string, ops: seq<Operation>)
    ensures ParsePatch(patch) == Some(ops)
      <==> exists sections, blanks :: WrittenBy(patch, sections, blanks) && OperationsOf(sections) == ops
  {
    if ParsePatch(patch).Some? {
      var sections, blanks := ParsedIsWritten(patch);
      assert WrittenBy(patch, sections, blanks);
    }
    forall sections, blanks | WrittenBy(patch, sections, blanks)
      ensures ParsePatch(patch) == Some(OperationsOf(sections))
    {
      WrittenIsParsed(patch, sections, blanks);
    }
  }
}
