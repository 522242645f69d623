/** File globs compiled to regular expressions. As the expressions see them, patterns and paths are
    sequences of UTF-16 code units: a `char` stands for one, and one beyond U+FFFF for a surrogate. */
module Glob {
  import opened Sequences
  import opened Text

  /** The pieces of the expressions that globs compile to. */
  datatype Atom =
    | Lit(c: char)
    | AnyRun          // .*
    | SegmentRun      // [^/]*
    | SegmentChar     // [^/]
    | OptionalDirs    // (?:.*/)?

  /** The characters a dot does not match. */
  predicate LineTerminator(c: char) {
    c == '\n' || c == '\r' || c == '\U{2028}' || c == '\U{2029}'
  }

  // ---------- compiling ----------

  function Compile(p: string): seq<Atom> {
    if p == "" then []
    else if StartsWith(p, "**/") then [OptionalDirs] + Compile(p[3..])
    else if StartsWith(p, "**") then [AnyRun] + Compile(p[2..])
    else if p[0] == '*' then [SegmentRun] + Compile(p[1..])
    else if p[0] == '?' then [SegmentChar] + Compile(p[1..])
    else [Lit(p[0])] + Compile(p[1..])
  }

  predicate Escaped(c: char) {
    c in ".+^${}()|[]\\"
  }

  function EscapeRegex(c: char): string {
    if Escaped(c) then ['\\', c] else [c]
  }

  function Source(a: Atom): string {
    match a
    case Lit(c) => EscapeRegex(c)
    case AnyRun => ".*"
    case SegmentRun => "[^/]*"
    case SegmentChar => "[^/]"
    case OptionalDirs => "(?:.*/)?"
  }

  function SourceOf(atoms: seq<Atom>): string {
    if atoms == [] then "" else Source(atoms[0]) + SourceOf(atoms[1..])
  }

  /** Does the text have the character at the index? */
  predicate CharAt(p: string, i: nat, c: char) {
    i < |p| && p[i] == c
  }

  lemma CompileDirs(p: string, i: nat)
    requires CharAt(p, i, '*') && CharAt(p, i + 1, '*') && CharAt(p, i + 2, '/')
    ensures Compile(p[i..]) == [OptionalDirs] + Compile(p[i + 3..])
  {
    assert p[i..][..3] == "**/" && p[i..][3..] == p[i + 3..];
  }

  lemma CompileDeep(p: string, i: nat)
    requires CharAt(p, i, '*') && CharAt(p, i + 1, '*') && !CharAt(p, i + 2, '/')
    ensures Compile(p[i..]) == [AnyRun] + Compile(p[i + 2..])
  {
    var rest := p[i..];
    assert rest[..2] == "**" && rest[2..] == p[i + 2..];
    assert !StartsWith(rest, "**/") by { assert |rest| >= 3 ==> rest[..3][2] != '/'; }
  }

  lemma CompileOne(p: string, i: nat)
    requires i < |p| && !(CharAt(p, i, '*') && CharAt(p, i + 1, '*'))
    ensures Compile(p[i..])
         == [if p[i] == '*' then SegmentRun else if p[i] == '?' then SegmentChar else Lit(p[i])] + Compile(p[i + 1..])
  {
    var rest := p[i..];
    assert !StartsWith(rest, "**") by { assert |rest| >= 2 ==> rest[..2][0] != '*' || rest[..2][1] != '*'; }
    assert !StartsWith(rest, "**/") by { assert |rest| >= 3 ==> rest[..3][..2] == rest[..2]; }
    assert rest[1..] == p[i + 1..];
  }

  /** The loop that writes the expression. */
  method GlobSource(pattern: string) returns (source: string)
    ensures source == SourceOf(Compile(pattern))
  {
    source := "";
    var index: nat := 0;
    assert pattern[0..] == pattern;
    while index < |pattern|
      invariant index <= |pattern|
      invariant source + SourceOf(Compile(pattern[index..])) == SourceOf(Compile(pattern))
      decreases |pattern| - index
    {
      var current := pattern[index];
      if current == '*' && CharAt(pattern, index + 1, '*') && CharAt(pattern, index + 2, '/') {
        CompileDirs(pattern, index);
        Appended(source, OptionalDirs, Compile(pattern[index + 3..]));
        source := source + "(?:.*/)?";
        index := index + 3;
      } else if current == '*' && CharAt(pattern, index + 1, '*') {
        CompileDeep(pattern, index);
        Appended(source, AnyRun, Compile(pattern[index + 2..]));
        source := source + ".*";
        index := index + 2;
      } else {
        CompileOne(pattern, index);
        if current == '*' {
          Appended(source, SegmentRun, Compile(pattern[index + 1..]));
          source := source + "[^/]*";
        } else if current == '?' {
          Appended(source, SegmentChar, Compile(pattern[index + 1..]));
          source := source + "[^/]";
        } else {
          Appended(source, Lit(current), Compile(pattern[index + 1..]));
          source := source + EscapeRegex(current);
        }
        index := index + 1;
      }
    }
    assert pattern[index..] == "";
    assert source + "" == source;
  }

  lemma Appended(source: string, a: Atom, rest: seq<Atom>)
    ensures (source + Source(a)) + SourceOf(rest) == source + SourceOf([a] + rest)
  {
    assert ([a] + rest)[1..] == rest;
    Assoc(source, Source(a), SourceOf(rest));
  }

  // ---------- reading the written expression ----------

  predicate SyntaxChar(c: char) {
    Escaped(c) || c == '*' || c == '?'
  }

  /** The first atom of an expression of this kind and its length; `None` when it starts otherwise. */
  function ReadAtom(src: string): (r: Option<(Atom, nat)>)
    ensures r.Some? ==> 1 <= r.value.1 <= |src|
  {
    if StartsWith(src, "(?:.*/)?") then Some((OptionalDirs, 8))
    else if StartsWith(src, ".*") then Some((AnyRun, 2))
    else if StartsWith(src, "[^/]*") then Some((SegmentRun, 5))
    else if StartsWith(src, "[^/]") then Some((SegmentChar, 4))
    else if |src| >= 2 && src[0] == '\\' && SyntaxChar(src[1]) then Some((Lit(src[1]), 2))
    else if src != "" && !SyntaxChar(src[0]) then Some((Lit(src[0]), 1))
    else None
  }

  function ReadSource(src: string): Option<seq<Atom>>
    decreases |src|
  {
    if src == "" then Some([])
    else
      match ReadAtom(src)
      case None => None
      case Some((a, n)) => match ReadSource(src[n..]) case None => None case Some(rest) => Some([a] + rest)
  }

  /** No literal star or question mark: those are never left over by the compiler. */
  predicate Tame(atoms: seq<Atom>) {
    forall i :: 0 <= i < |atoms| ==> atoms[i] != Lit('*') && atoms[i] != Lit('?')
  }

  lemma {:induction false} CompileTame(p: string)
    ensures Tame(Compile(p))
  {
    if p != "" {
      if StartsWith(p, "**/") { CompileTame(p[3..]); }
      else if StartsWith(p, "**") { CompileTame(p[2..]); }
      else { CompileTame(p[1..]); }
    }
  }

  lemma NotStarFirst(atoms: seq<Atom>)
    requires Tame(atoms)
    ensures SourceOf(atoms) == "" || SourceOf(atoms)[0] != '*'
  {
  }

  lemma PrefixOf(a: string, b: string)
    ensures StartsWith(a + b, a) && (a + b)[|a|..] == b
  {
    assert (a + b)[..|a|] == a;
  }

  lemma OtherStart(s: string, prefix: string)
    requires s == "" || (prefix != "" && s[0] != prefix[0])
    requires prefix != ""
    ensures !StartsWith(s, prefix)
  {
    assert |prefix| <= |s| ==> s[..|prefix|][0] == s[0];
  }

  lemma ReadLit(c: char, tail: string)
    requires c != '*' && c != '?'
    ensures ReadAtom(Source(Lit(c)) + tail) == Some((Lit(c), |Source(Lit(c))|))
  {
    var src := Source(Lit(c)) + tail;
    assert src[0] == (if Escaped(c) then '\\' else c);
    assert Escaped('(') && Escaped('.') && Escaped('[');
    OtherStart(src, "(?:.*/)?");
    OtherStart(src, ".*");
    OtherStart(src, "[^/]*");
    OtherStart(src, "[^/]");
  }

  /** Each piece is read as written, whatever follows it. */
  lemma ReadWritten(a: Atom, tail: string)
    requires a != Lit('*') && a != Lit('?') && (tail == "" || tail[0] != '*')
    ensures ReadAtom(Source(a) + tail) == Some((a, |Source(a)|))
  {
    var src := Source(a) + tail;
    PrefixOf(Source(a), tail);
    match a
    case OptionalDirs =>
    case AnyRun => OtherStart(src, "(?:.*/)?");
    case SegmentRun =>
      OtherStart(src, "(?:.*/)?");
      OtherStart(src, ".*");
    case SegmentChar =>
      OtherStart(src, "(?:.*/)?");
      OtherStart(src, ".*");
      assert |src| >= 5 ==> src[..5][4] == tail[0];
    case Lit(c) => ReadLit(c, tail);
  }

  /** The expression text written for any pattern reads back as the intended pieces: escaping
      leaves no character with a meaning of its own. */
  lemma {:induction false} SourceReadsBack(atoms: seq<Atom>)
    requires Tame(atoms)
    ensures ReadSource(SourceOf(atoms)) == Some(atoms)
  {
    if atoms != [] {
      HeadTail(atoms);
      NotStarFirst(atoms[1..]);
      ReadWritten(atoms[0], SourceOf(atoms[1..]));
      PrefixOf(Source(atoms[0]), SourceOf(atoms[1..]));
      SourceReadsBack(atoms[1..]);
    }
  }

  // ---------- what expressions and globs accept ----------

  function Weight(atoms: seq<Atom>): nat {
    if atoms == [] then 0 else (if atoms[0].OptionalDirs? then 3 else 1) + Weight(atoms[1..])
  }

  /** The anchored expression matches the whole string. */
  predicate Accepts(atoms: seq<Atom>, s: string)
    decreases Weight(atoms), |s|
  {
    if atoms == [] then s == ""
    else
      var rest := atoms[1..];
      match atoms[0]
      case Lit(c) => s != "" && s[0] == c && Accepts(rest, s[1..])
      case SegmentChar => s != "" && s[0] != '/' && Accepts(rest, s[1..])
      case SegmentRun => Accepts(rest, s) || (s != "" && s[0] != '/' && Accepts(atoms, s[1..]))
      case AnyRun => Accepts(rest, s) || (s != "" && !LineTerminator(s[0]) && Accepts(atoms, s[1..]))
      case OptionalDirs => Accepts(rest, s) || Accepts(DirsThen(rest), s)
  }

  /** The body of the optional group, followed by the rest. */
  function DirsThen(rest: seq<Atom>): (r: seq<Atom>)
    ensures Weight(r) == Weight(rest) + 2
  {
    assert ([AnyRun, Lit('/')] + rest)[1..] == [Lit('/')] + rest;
    assert ([Lit('/')] + rest)[1..] == rest;
    [AnyRun, Lit('/')] + rest
  }

  function FirstSlash(s: string): (r: Option<nat>)
    ensures r.Some? ==> r.value < |s| && s[r.value] == '/'
  {
    if s == "" then None
    else if s[0] == '/' then Some(0)
    else match FirstSlash(s[1..]) case None => None case Some(k) => Some(k + 1)
  }

  /** Direct meaning of a glob: `**` before a slash skips any number of whole directories, other `**`
      any text, `*` any text within a segment, `?` one character of a segment. */
  predicate Matches(p: string, s: string)
    decreases |p|, |s|
  {
    if p == "" then s == ""
    else if StartsWith(p, "**/") then
      Matches(p[3..], s) || (FirstSlash(s).Some? && Matches(p, s[FirstSlash(s).value + 1..]))
    else if StartsWith(p, "**") then Matches(p[2..], s) || (s != "" && Matches(p, s[1..]))
    else if p[0] == '*' then Matches(p[1..], s) || (s != "" && s[0] != '/' && Matches(p, s[1..]))
    else s != "" && (if p[0] == '?' then s[0] != '/' else s[0] == p[0]) && Matches(p[1..], s[1..])
  }

  predicate OneLine(s: string) {
    forall i :: 0 <= i < |s| ==> !LineTerminator(s[i])
  }

  lemma DirsStep(rest: seq<Atom>, s: string)
    ensures Accepts(DirsThen(rest), s) <==>
      s != "" && ((s[0] == '/' && Accepts(rest, s[1..])) || (!LineTerminator(s[0]) && Accepts(DirsThen(rest), s[1..])))
  {
    var d, slash := DirsThen(rest), [Lit('/')] + rest;
    assert d[1..] == slash && slash[1..] == rest;
  }

  /** The optional group consumes whole directories: up to the first slash, or further. */
  lemma {:induction false} DirsConsume(rest: seq<Atom>, s: string)
    requires OneLine(s)
    ensures Accepts(DirsThen(rest), s) <==>
      FirstSlash(s).Some? && (Accepts(rest, s[FirstSlash(s).value + 1..])
        || Accepts(DirsThen(rest), s[FirstSlash(s).value + 1..]))
    decreases |s|
  {
    DirsStep(rest, s);
    if s != "" && s[0] != '/' {
      DirsConsume(rest, s[1..]);
      var k := FirstSlash(s[1..]);
      if k.Some? { assert s[1..][k.value + 1..] == s[k.value + 1 + 1..]; }
    }
  }

  /** On one-line paths the compiled expression accepts exactly what the glob means. */
  lemma {:induction false} CompiledMeansGlob(p: string, s: string)
    requires OneLine(s)
    ensures Accepts(Compile(p), s) <==> Matches(p, s)
    decreases |p|, |s|
  {
    if p != "" {
      var atoms := Compile(p);
      if StartsWith(p, "**/") {
        assert atoms[1..] == Compile(p[3..]);
        CompiledMeansGlob(p[3..], s);
        DirsConsume(Compile(p[3..]), s);
        if FirstSlash(s).Some? { CompiledMeansGlob(p, s[FirstSlash(s).value + 1..]); }
      } else if StartsWith(p, "**") {
        assert atoms[1..] == Compile(p[2..]);
        CompiledMeansGlob(p[2..], s);
        if s != "" { CompiledMeansGlob(p, s[1..]); }
      } else if p[0] == '*' {
        assert atoms[1..] == Compile(p[1..]);
        CompiledMeansGlob(p[1..], s);
        if s != "" { CompiledMeansGlob(p, s[1..]); }
      } else {
        assert atoms[1..] == Compile(p[1..]);
        if s != "" { CompiledMeansGlob(p[1..], s[1..]); }
      }
    }
  }

  /** `globMatcher`: the written expression, read back and run. */
  predicate Matcher(pattern: string, path: string) {
    var atoms := ReadSource(SourceOf(Compile(pattern)));
    atoms.Some? && Accepts(atoms.value, path)
  }

  lemma MatcherMeansGlob(pattern: string, path: string)
    requires OneLine(path)
    ensures Matcher(pattern, path) <==> Matches(pattern, path)
  {
    CompileTame(pattern);
    SourceReadsBack(Compile(pattern));
    CompiledMeansGlob(pattern, path);
  }

  lemma {:induction false} StarTakesSegment(s: string)
    requires FirstSlash(s).None?
    ensures Matches("*", s)
  {
    assert "*"[1..] == "";
    if s != "" { StarTakesSegment(s[1..]); }
  }

  /** The default include pattern accepts every one-line path. */
  lemma {:induction false} EverythingMatches(s: string)
    requires OneLine(s)
    ensures Matches("**/*", s)
    decreases |s|
  {
    var p := "**/*";
    assert StartsWith(p, "**/") && p[3..] == "*";
    if FirstSlash(s).None? {
      StarTakesSegment(s);
    } else {
      EverythingMatches(s[FirstSlash(s).value + 1..]);
    }
  }

  lemma {:induction false} AnyRunIsOneLine(s: string)
    ensures Accepts([AnyRun], s) <==> OneLine(s)
  {
    var atoms := [AnyRun];
    assert atoms[1..] == [];
    if s != "" {
      AnyRunIsOneLine(s[1..]);
      assert forall i :: 0 <= i < |s[1..]| ==> s[1..][i] == s[i + 1];
    }
  }

  lemma {:induction false} DeepMatchesAll(s: string)
    ensures Matches("**", s)
  {
    var p := "**";
    assert StartsWith(p, "**") && p[2..] == "";
    if s != "" { DeepMatchesAll(s[1..]); }
  }

  /** A dot does not match a line break, so `**` rejects what it means to accept. */
  lemma DeepRejectsLineBreaks(s: string)
    requires !OneLine(s)
    ensures !Matcher("**", s) && Matches("**", s)
  {
    var p := "**";
    assert p[2..] == "" && StartsWith(p, "**");
    assert Compile(p) == [AnyRun];
    CompileTame(p);
    SourceReadsBack(Compile(p));
    AnyRunIsOneLine(s);
    DeepMatchesAll(s);
  }

  /** Expression and glob agree on a path for every pattern exactly when the path is one line. */
  lemma AgreeIffOneLine(s: string)
    ensures OneLine(s) <==> forall p :: Matcher(p, s) <==> Matches(p, s)
  {
    if OneLine(s) {
      forall p ensures Matcher(p, s) <==> Matches(p, s) { MatcherMeansGlob(p, s); }
    } else {
      DeepRejectsLineBreaks(s);
      var p := "**";
      assert !(Matcher(p, s) <==> Matches(p, s));
    }
  }

  /** A file name with a line feed is not found even by `**`. */
  lemma NameWithLineFeed()
    ensures !Matcher("**", "a\nb") && Matches("**", "a\nb")
  {
    assert LineTerminator("a\nb"[1]);
    DeepRejectsLineBreaks("a\nb");
  }

  /** A question mark takes one code unit, so not a character that is a pair of surrogates. */
  lemma QuestionTakesOneUnit(s: string)
    ensures Matcher("?", s) <==> |s| == 1 && s[0] != '/'
  {
    var p := "?";
    assert !StartsWith(p, "**") && !StartsWith(p, "**/") && p[1..] == "" && Compile(p) == [SegmentChar];
    CompileTame(p);
    SourceReadsBack(Compile(p));
    assert Compile(p)[1..] == [];
    if s != "" { assert Accepts([], s[1..]) <==> |s| == 1; }
    assert Accepts([SegmentChar], s) <==> s != "" && s[0] != '/' && Accepts([], s[1..]);
  }

  // ---------- the glob tool ----------

  /** A walked file: its path relative to the search base and to the repository. */
  datatype Walked = Walked(fromBase: string, fromRepo: string)

  function Hit(pattern: string): Walked -> bool {
    (f: Walked) => Matcher(pattern, f.fromBase) || Matcher(pattern, f.fromRepo)
  }

  function HitPaths(hit: Walked -> bool, files: seq<Walked>): seq<string> {
    if files == [] then []
    else (if hit(files[0]) then [files[0].fromRepo] else []) + HitPaths(hit, files[1..])
  }

  lemma {:induction false} HitPathsSplit(hit: Walked -> bool, a: seq<Walked>, b: seq<Walked>)
    ensures HitPaths(hit, a + b) == HitPaths(hit, a) + HitPaths(hit, b)
    decreases |a|
  {
    if a == [] {
      assert a + b == b;
    } else {
      HitPathsSplit(hit, a[1..], b);
      assert (a + b)[1..] == a[1..] + b;
      Assoc(if hit(a[0]) then [a[0].fromRepo] else [], HitPaths(hit, a[1..]), HitPaths(hit, b));
    }
  }

  lemma OnePath(hit: Walked -> bool, f: Walked, rest: seq<Walked>)
    ensures HitPaths(hit, [f] + rest) == (if hit(f) then [f.fromRepo] else []) + HitPaths(hit, rest)
  {
    ConsParts(f, rest);
  }

  /** Every file walked puts its path in its place, exactly if it matches from either base. */
  lemma HitInPlace(pattern: string, before: seq<Walked>, f: Walked, after: seq<Walked>)
    ensures HitPaths(Hit(pattern), before + ([f] + after))
         == HitPaths(Hit(pattern), before)
          + ((if Matcher(pattern, f.fromBase) || Matcher(pattern, f.fromRepo) then [f.fromRepo] else [])
             + HitPaths(Hit(pattern), after))
  {
    HitPathsSplit(Hit(pattern), before, [f] + after);
    OnePath(Hit(pattern), f, after);
  }

  /** The tool returns the first `limit` paths that match from either base, and says that it cut
      the list exactly when there are more. */
  method ExecuteGlob(pattern: string, files: seq<Walked>, limit: nat) returns (matches: seq<string>, truncated: bool)
    ensures matches == Take(HitPaths(Hit(pattern), files), limit)
    ensures truncated <==> |HitPaths(Hit(pattern), files)| > limit
  {
    matches, truncated := CollectHits(Hit(pattern), files, limit);
  }

  method CollectHits(hit: Walked -> bool, files: seq<Walked>, limit: nat)
    returns (matches: seq<string>, truncated: bool)
    ensures matches == Take(HitPaths(hit, files), limit)
    ensures truncated <==> |HitPaths(hit, files)| > limit
  {
    matches, truncated := [], false;
    ghost var target := HitPaths(hit, files);
    CompletesAtStart(target);
    assert files[0..] == files;
    for i := 0 to |files|
      invariant |matches| <= limit && !truncated
      invariant Completes(matches, HitPaths(hit, files[i..]), target)
    {
      assert files[i..][0] == files[i] && files[i..][1..] == files[i + 1..];
      if hit(files[i]) {
        CompletesStep(matches, [files[i].fromRepo], HitPaths(hit, files[i + 1..]), target);
        if |matches| < limit {
          matches := matches + [files[i].fromRepo];
        } else {
          truncated := true;
          return;
        }
      }
    }
    CompletesAtEnd(matches, target);
  }
}
