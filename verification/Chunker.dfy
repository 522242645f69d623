/** Cutting a file into chunks for embedding: along its symbols, or by a sliding window. */
module Chunker {
  import opened Sequences
  import opened Text

  /** A symbol and its 1-based line range. */
  datatype Symbol = Symbol(id: string, lineStart: int, lineEnd: int)

  datatype Chunk = Chunk(symbolId: Option<string>, lineStart: int, lineEnd: int, content: string)

  // ---------- blank text ----------

  /** Some character is not white space. */
  predicate HasInk(s: string) {
    exists i :: 0 <= i < |s| && !IsSpace(s[i])
  }

  lemma {:induction false} TrimStartInk(s: string)
    ensures TrimStart(s) == "" <==> !HasInk(s)
    ensures TrimStart(s) != "" ==> HasInk(TrimStart(s))
  {
    if s != "" {
      if IsSpace(s[0]) {
        TrimStartInk(s[1..]);
        if HasInk(s) { var i :| 0 <= i < |s| && !IsSpace(s[i]); assert s[1..][i - 1] == s[i]; }
        if HasInk(s[1..]) { var i :| 0 <= i < |s[1..]| && !IsSpace(s[1..][i]); assert s[i + 1] == s[1..][i]; }
      } else {
        assert !IsSpace(s[0]);
      }
    }
  }

  lemma {:induction false} TrimEndInk(s: string)
    ensures TrimEnd(s) == "" <==> !HasInk(s)
  {
    if s != "" {
      var n := |s| - 1;
      if IsSpace(s[n]) {
        TrimEndInk(s[..n]);
        if HasInk(s) { var i :| 0 <= i < |s| && !IsSpace(s[i]); assert s[..n][i] == s[i]; }
        if HasInk(s[..n]) { var i :| 0 <= i < n && !IsSpace(s[..n][i]); assert s[i] == s[..n][i]; }
      } else {
        assert !IsSpace(s[n]);
      }
    }
  }

  /** Trimmed text is non-empty exactly when the text has ink. */
  lemma TrimInk(s: string)
    ensures Trim(s) != "" <==> HasInk(s)
  {
    TrimStartInk(s);
    TrimEndInk(TrimStart(s));
  }

  lemma InkConcat(a: string, b: string)
    ensures HasInk(a + b) <==> HasInk(a) || HasInk(b)
  {
    if HasInk(a) { var i :| 0 <= i < |a| && !IsSpace(a[i]); assert (a + b)[i] == a[i]; }
    if HasInk(b) { var i :| 0 <= i < |b| && !IsSpace(b[i]); assert (a + b)[|a| + i] == b[i]; }
    if HasInk(a + b) {
      var i :| 0 <= i < |a + b| && !IsSpace((a + b)[i]);
      if i >= |a| { assert b[i - |a|] == (a + b)[i]; } else { assert a[i] == (a + b)[i]; }
    }
  }

  /** Joined lines have ink when one of the lines has. */
  lemma {:induction false} InkJoin(lines: seq<string>, i: nat)
    requires i < |lines| && HasInk(lines[i])
    ensures HasInk(Join(lines))
  {
    if |lines| > 1 {
      InkConcat(lines[0] + "\n", Join(lines[1..]));
      InkConcat(lines[0], "\n");
      if i > 0 { InkJoin(lines[1..], i - 1); }
    }
  }

  // ---------- chunks along symbols ----------

  function Clamp(i: int, n: nat): (r: nat)
    ensures r <= n
  {
    if i < 0 then (if n + i < 0 then 0 else n + i) else if i < n then i else n
  }

  /** `Array.prototype.slice`: negative indices count from the end. */
  function Slice(lines: seq<string>, from: int, to: int): seq<string> {
    var a, b := Clamp(from, |lines|), Clamp(to, |lines|);
    if a < b then lines[a..b] else []
  }

  /** The text of the lines from index `from` to before `to`, unless it is blank. */
  function TextOf(lines: seq<string>, from: int, to: int): Option<string> {
    var content := Join(Slice(lines, from, to));
    if Trim(content) != "" then Some(content) else None
  }

  /** A file as the chunker sees it: so many lines, and the text between two of them if not blank. */
  function FileOf(lines: seq<string>): File {
    File(|lines|, (from, to) => TextOf(lines, from, to))
  }

  function ByStart(symbols: seq<Symbol>): seq<Symbol> {
    SortBy((s: Symbol) => s.lineStart as real, symbols)
  }

  lemma ByStartOk(symbols: seq<Symbol>)
    ensures multiset(ByStart(symbols)) == multiset(symbols)
    ensures forall i, j :: 0 <= i < j < |ByStart(symbols)| ==>
        ByStart(symbols)[i].lineStart <= ByStart(symbols)[j].lineStart
    ensures forall s :: s in ByStart(symbols) <==> s in symbols
  {
    var key := (s: Symbol) => s.lineStart as real;
    SortByOk(key, symbols);
    SameMembers(ByStart(symbols), symbols);
    forall i, j | 0 <= i < j < |ByStart(symbols)|
      ensures ByStart(symbols)[i].lineStart <= ByStart(symbols)[j].lineStart
    {
      assert key(ByStart(symbols)[i]) <= key(ByStart(symbols)[j]);
    }
  }

  predicate Covers(c: Chunk, i: int) {
    c.lineStart - 1 <= i < c.lineEnd
  }

  ghost predicate Covered(chunks: seq<Chunk>, i: int) {
    exists k :: 0 <= k < |chunks| && Covers(chunks[k], i)
  }

  lemma CoveredLeft(a: seq<Chunk>, b: seq<Chunk>, i: int)
    requires Covered(a, i)
    ensures Covered(a + b, i)
  {
    var k :| 0 <= k < |a| && Covers(a[k], i);
    assert Covers((a + b)[k], i);
  }

  lemma CoveredRight(a: seq<Chunk>, b: seq<Chunk>, i: int)
    requires Covered(b, i)
    ensures Covered(a + b, i)
  {
    var k :| 0 <= k < |b| && Covers(b[k], i);
    assert Covers((a + b)[|a| + k], i);
  }

  lemma NotCovered(a: seq<Chunk>, b: seq<Chunk>, i: int)
    requires !Covered(a, i) && !Covered(b, i)
    ensures !Covered(a + b, i)
  {
    forall k | 0 <= k < |a + b| ensures !Covers((a + b)[k], i) {
      if k < |a| { assert (a + b)[k] == a[k]; } else { assert (a + b)[k] == b[k - |a|]; }
    }
  }

  predicate OneBased(s: Symbol) {
    1 <= s.lineStart && 0 <= s.lineEnd
  }

  predicate Apart(a: Symbol, b: Symbol) {
    a.lineEnd < b.lineStart || b.lineEnd < a.lineStart
  }

  predicate Range(s: Symbol) {
    1 <= s.lineStart <= s.lineEnd
  }

  /** Sorting symbols on disjoint line ranges puts each after the end of the one before. */
  lemma SortedApart(symbols: seq<Symbol>)
    requires forall k :: 0 <= k < |symbols| ==> Range(symbols[k])
    requires forall i, j :: 0 <= i < j < |symbols| ==> Apart(symbols[i], symbols[j])
    ensures forall k :: 0 <= k < |ByStart(symbols)| ==> Range(ByStart(symbols)[k])
    ensures forall i, j :: 0 <= i < j < |ByStart(symbols)| ==>
        ByStart(symbols)[i].lineEnd < ByStart(symbols)[j].lineStart
  {
    ByStartOk(symbols);
    StaysApart(symbols, ByStart(symbols));
  }

  lemma StaysApart(symbols: seq<Symbol>, sorted: seq<Symbol>)
    requires forall k :: 0 <= k < |symbols| ==> Range(symbols[k])
    requires forall i, j :: 0 <= i < j < |symbols| ==> Apart(symbols[i], symbols[j])
    requires multiset(sorted) == multiset(symbols) && forall s :: s in sorted <==> s in symbols
    requires forall i, j :: 0 <= i < j < |sorted| ==> sorted[i].lineStart <= sorted[j].lineStart
    ensures forall k :: 0 <= k < |sorted| ==> Range(sorted[k])
    ensures forall i, j :: 0 <= i < j < |sorted| ==> sorted[i].lineEnd < sorted[j].lineStart
  {
    forall k | 0 <= k < |sorted| ensures Range(sorted[k]) { assert sorted[k] in symbols; }
    assert NoDup(symbols) by {
      forall i, j | 0 <= i < j < |symbols| ensures symbols[i] != symbols[j] {
        assert Apart(symbols[i], symbols[j]) && Range(symbols[i]);
      }
    }
    NoDupPermuted(symbols, sorted);
    forall i, j | 0 <= i < j < |sorted| ensures sorted[i].lineEnd < sorted[j].lineStart {
      assert sorted[i] in symbols && sorted[j] in symbols && sorted[i] != sorted[j];
      var p :| 0 <= p < |symbols| && symbols[p] == sorted[i];
      var q :| 0 <= q < |symbols| && symbols[q] == sorted[j];
      assert Apart(sorted[i], sorted[j]) || Apart(sorted[j], sorted[i]);
      assert Range(sorted[j]);
    }
  }

  /** Each chunk ends before the next begins, and all lie after line `after`. */
  ghost predicate InOrder(chunks: seq<Chunk>, after: int) {
    && (forall i :: 0 <= i < |chunks| ==> after < chunks[i].lineStart)
    && (forall i, j :: 0 <= i < j < |chunks| ==> chunks[i].lineEnd < chunks[j].lineStart)
  }

  lemma InOrderConcat(a: seq<Chunk>, b: seq<Chunk>, after: int, mid: int)
    requires InOrder(a, after) && InOrder(b, mid) && after <= mid && forall i :: 0 <= i < |a| ==> a[i].lineEnd <= mid
    ensures InOrder(a + b, after)
  {
  }

  // ---------- when the window loop ends ----------

  /** Does the window loop end within `fuel` further steps? */
  predicate EndsWithin(n: int, maxLines: int, overlap: int, start: int, fuel: nat)
    decreases fuel
  {
    || start >= n
    || start + maxLines >= n
    || (fuel > 0 && EndsWithin(n, maxLines, overlap, start + maxLines - overlap, fuel - 1))
  }

  lemma {:induction false} AdvancingEnds(n: int, maxLines: int, overlap: int, start: int, fuel: nat)
    requires overlap < maxLines && n - start <= fuel
    ensures EndsWithin(n, maxLines, overlap, start, fuel)
    decreases fuel
  {
    if start < n && start + maxLines < n { AdvancingEnds(n, maxLines, overlap, start + maxLines - overlap, fuel - 1); }
  }

  lemma {:induction false} StuckNeverEnds(n: int, maxLines: int, overlap: int, start: int, fuel: nat)
    requires maxLines <= overlap && start < n && start + maxLines < n
    ensures !EndsWithin(n, maxLines, overlap, start, fuel)
    decreases fuel
  {
    if fuel > 0 { StuckNeverEnds(n, maxLines, overlap, start + maxLines - overlap, fuel - 1); }
  }

  ghost predicate LoopEnds(n: nat, maxLines: int, overlap: int, fuel: nat) {
    EndsWithin(n, maxLines, overlap, 0, fuel)
  }

  /** The loop terminates exactly when the overlap is smaller than the window, or one window holds
      the whole file. */
  lemma WindowLoopEndsIff(n: nat, maxLines: int, overlap: int)
    ensures (exists fuel :: LoopEnds(n, maxLines, overlap, fuel)) <==> CanEnd(n, maxLines, overlap)
  {
    if overlap < maxLines {
      AdvancingEnds(n, maxLines, overlap, 0, n);
      assert LoopEnds(n, maxLines, overlap, n);
    } else if n == 0 || n <= maxLines {
      assert LoopEnds(n, maxLines, overlap, 0);
    } else {
      forall fuel: nat ensures !LoopEnds(n, maxLines, overlap, fuel) { StuckNeverEnds(n, maxLines, overlap, 0, fuel); }
    }
  }

  predicate CanEnd(n: nat, maxLines: int, overlap: int) {
    overlap < maxLines || n == 0 || n <= maxLines
  }

  datatype Window = Window(start: int, end: int)

  function Windows(n: nat, maxLines: int, overlap: int, start: nat): (r: seq<Window>)
    requires CanEnd(n, maxLines, overlap)
    decreases if n > start then n - start else 0
  {
    if start >= n then []
    else if start + maxLines >= n then [Window(start, n)]
    else [Window(start, start + maxLines)] + Windows(n, maxLines, overlap, start + maxLines - overlap)
  }

  /** The first window begins where asked. Each but the last holds exactly `maxLines` lines and
      shares exactly `overlap` lines with the next; the last ends with the file unless a negative
      overlap leads beyond it. */
  lemma {:induction false} WindowsOk(n: nat, maxLines: int, overlap: int, start: nat, i: nat)
    requires CanEnd(n, maxLines, overlap) && i < |Windows(n, maxLines, overlap, start)|
    ensures var ws := Windows(n, maxLines, overlap, start);
      && ws[0].start == start <= ws[i].start < n
      && ws[i].end == (if ws[i].start + maxLines < n then ws[i].start + maxLines else n)
      && (i + 1 == |ws| ==> ws[i].end == n || ws[i].end - overlap >= n)
      && (i + 1 < |ws| ==> ws[i].end == ws[i].start + maxLines && ws[i].end - ws[i + 1].start == overlap)
    decreases i
  {
    if start + maxLines < n {
      var next := start + maxLines - overlap;
      var ws, rest := Windows(n, maxLines, overlap, start), Windows(n, maxLines, overlap, next);
      assert ws == [Window(start, start + maxLines)] + rest;
      if i > 0 {
        WindowsOk(n, maxLines, overlap, next, i - 1);
      } else if rest != [] {
        assert rest[0].start == next;
      }
    }
  }

  // ---------- which lines are read ----------

  /** Line indices `from` to before `to`, read for a symbol or for none. */
  datatype Span = Span(from: int, to: int, symbol: Option<string>)

  function EndIn(n: nat, s: Symbol): int {
    if s.lineEnd < n then s.lineEnd else n
  }

  /** What is read of a file of `n` lines: the symbols, and the gaps before, between and after them. */
  function Spans(n: nat, sorted: seq<Symbol>, cursor: int): seq<Span>
    decreases |sorted|
  {
    if sorted == [] then (if cursor < n then [Span(cursor, n, None)] else [])
    else
      var s := sorted[0];
      (if cursor < s.lineStart - 1 then [Span(cursor, s.lineStart - 1, None)] else [])
      + [Span(s.lineStart - 1, EndIn(n, s), Some(s.id))] + Spans(n, sorted[1..], EndIn(n, s))
  }

  function WindowSpans(windows: seq<Window>): (r: seq<Span>)
    ensures |r| == |windows| && forall k :: 0 <= k < |r| ==> r[k] == Span(windows[k].start, windows[k].end, None)
  {
    seq(|windows|, k requires 0 <= k < |windows| => Span(windows[k].start, windows[k].end, None))
  }

  /** The span names line `i`, and cutting the file at its bounds takes that line in. */
  predicate Reads(n: nat, p: Span, i: int) {
    p.from <= i < p.to && Clamp(p.from, n) <= i < Clamp(p.to, n)
  }

  ghost predicate Reached(n: nat, spans: seq<Span>, i: int) {
    exists k :: 0 <= k < |spans| && Reads(n, spans[k], i)
  }

  /** The span takes in no line, or its bounds lie in the file. */
  predicate InFile(n: nat, p: Span) {
    Clamp(p.from, n) < Clamp(p.to, n) ==> 0 <= p.from < p.to <= n
  }

  predicate AllInFile(n: nat, spans: seq<Span>) {
    forall k :: 0 <= k < |spans| ==> InFile(n, spans[k])
  }

  lemma ReachedConcat(n: nat, a: seq<Span>, b: seq<Span>, i: int)
    ensures Reached(n, a + b, i) <==> Reached(n, a, i) || Reached(n, b, i)
  {
    if Reached(n, a, i) { var k :| 0 <= k < |a| && Reads(n, a[k], i); assert (a + b)[k] == a[k]; }
    if Reached(n, b, i) { var k :| 0 <= k < |b| && Reads(n, b[k], i); assert (a + b)[|a| + k] == b[k]; }
  }

  /** Where symbols count from 1, every line from the cursor on is read. */
  lemma {:induction false} OneBasedReached(n: nat, sorted: seq<Symbol>, cursor: int, i: int)
    requires 0 <= cursor <= i < n && forall k :: 0 <= k < |sorted| ==> OneBased(sorted[k])
    ensures Reached(n, Spans(n, sorted, cursor), i)
    decreases |sorted|
  {
    if sorted == [] {
      assert Reads(n, Spans(n, sorted, cursor)[0], i);
    } else {
      var s := sorted[0];
      var gap := if cursor < s.lineStart - 1 then [Span(cursor, s.lineStart - 1, None)] else [];
      var own, rest := [Span(s.lineStart - 1, EndIn(n, s), Some(s.id))], Spans(n, sorted[1..], EndIn(n, s));
      ReachedConcat(n, gap + own, rest, i);
      ReachedConcat(n, gap, own, i);
      if i < s.lineStart - 1 {
        assert Reads(n, gap[0], i);
        assert Reached(n, gap, i);
      } else if i < EndIn(n, s) {
        assert Reads(n, own[0], i);
        assert Reached(n, own, i);
      } else {
        OneBasedReached(n, sorted[1..], EndIn(n, s), i);
      }
    }
  }

  /** Where symbols count from 1 and start at most one line behind the file, nothing outside it is named. */
  lemma {:induction false} OneBasedInFile(n: nat, sorted: seq<Symbol>, cursor: int)
    requires 0 <= cursor <= n
    requires forall k :: 0 <= k < |sorted| ==> OneBased(sorted[k]) && sorted[k].lineStart <= n + 1
    ensures AllInFile(n, Spans(n, sorted, cursor))
    decreases |sorted|
  {
    if sorted != [] {
      OneBasedInFile(n, sorted[1..], EndIn(n, sorted[0]));
    }
  }

  // ---------- cutting a file ----------

  datatype File = File(size: nat, text: (int, int) -> Option<string>) {

    function Piece(from: int, to: int, symbol: Option<string>): seq<Chunk> {
      match text(from, to)
      case Some(content) => [Chunk(symbol, from + 1, to, content)]
      case None => []
    }

    function End(s: Symbol): int {
      EndIn(size, s)
    }

    function Gap(cursor: int, s: Symbol): seq<Chunk> {
      if cursor < s.lineStart - 1 then Piece(cursor, s.lineStart - 1, None) else []
    }

    function Own(s: Symbol): seq<Chunk> {
      Piece(s.lineStart - 1, End(s), Some(s.id))
    }

    function Tail(cursor: int): seq<Chunk> {
      if cursor < size then Piece(cursor, size, None) else []
    }

    /** The chunks of the symbols in order and of the gaps before, between and after them. */
    function ChunksFrom(sorted: seq<Symbol>, cursor: int): seq<Chunk>
      decreases |sorted|
    {
      if sorted == [] then Tail(cursor)
      else Gap(cursor, sorted[0]) + Own(sorted[0]) + ChunksFrom(sorted[1..], End(sorted[0]))
    }

    method ChunkBySymbols(symbols: seq<Symbol>) returns (chunks: seq<Chunk>)
      ensures chunks == ChunksFrom(ByStart(symbols), 0)
    {
      chunks := ChunkSorted(ByStart(symbols));
    }

    method ChunkSorted(sorted: seq<Symbol>) returns (chunks: seq<Chunk>)
      ensures chunks == ChunksFrom(sorted, 0)
    {
      chunks := [];
      var cursor: int := 0;
      ghost var target := ChunksFrom(sorted, 0);
      CompletesAtStart(target);
      assert sorted[0..] == sorted;
      for i := 0 to |sorted|
        invariant Completes(chunks, ChunksFrom(sorted[i..], cursor), target)
      {
        var s := sorted[i];
        SymbolStep(sorted, i, cursor, chunks, target);
        if cursor < s.lineStart - 1 {
          chunks := chunks + Piece(cursor, s.lineStart - 1, None);
        }
        chunks := chunks + Piece(s.lineStart - 1, End(s), Some(s.id));
        cursor := End(s);
      }
      TailStep(cursor, chunks, target);
      if cursor < size {
        chunks := chunks + Piece(cursor, size, None);
      }
    }

    lemma SymbolStep(sorted: seq<Symbol>, i: nat, cursor: int, chunks: seq<Chunk>, target: seq<Chunk>)
      requires i < |sorted| && Completes(chunks, ChunksFrom(sorted[i..], cursor), target)
      ensures var s := sorted[i];
        var withGap := if cursor < s.lineStart - 1 then chunks + Piece(cursor, s.lineStart - 1, None) else chunks;
        Completes(withGap + Piece(s.lineStart - 1, End(s), Some(s.id)), ChunksFrom(sorted[i + 1..], End(s)), target)
    {
      var s := sorted[i];
      var gap, own := Gap(cursor, s), Own(s);
      assert sorted[i..][0] == s && sorted[i..][1..] == sorted[i + 1..];
      CompletesStep(chunks, gap + own, ChunksFrom(sorted[i + 1..], End(s)), target);
      Assoc(chunks, gap, own);
      assert chunks + [] == chunks;
    }

    lemma TailStep(cursor: int, chunks: seq<Chunk>, target: seq<Chunk>)
      requires Completes(chunks, Tail(cursor), target)
      ensures target == if cursor < size then chunks + Piece(cursor, size, None) else chunks
    {
      assert chunks + [] == chunks;
    }

    function Chunked(p: Span): seq<Chunk> {
      Piece(p.from, p.to, p.symbol)
    }

    lemma {:induction false} ChunksOfSpans(sorted: seq<Symbol>, cursor: int)
      ensures ChunksFrom(sorted, cursor) == FlatMap(Chunked, Spans(size, sorted, cursor))
      decreases |sorted|
    {
      if sorted == [] {
        if cursor < size { OneSpan(Span(cursor, size, None)); }
      } else {
        var s := sorted[0];
        var rest := Spans(size, sorted[1..], End(s));
        var gap := if cursor < s.lineStart - 1 then [Span(cursor, s.lineStart - 1, None)] else [];
        var own := Span(s.lineStart - 1, End(s), Some(s.id));
        ChunksOfSpans(sorted[1..], End(s));
        if gap != [] { OneSpan(gap[0]); }
        OneSpan(own);
        FlatMapConcat(Chunked, gap, [own]);
        FlatMapConcat(Chunked, gap + [own], rest);
      }
    }

    lemma OneSpan(p: Span)
      ensures FlatMap(Chunked, [p]) == Chunked(p)
    {
      assert [p][1..] == [];
      assert Chunked(p) + [] == Chunked(p);
    }

    /** A span that is not blank, as the chunk made from it. */
    ghost predicate MadeFrom(spans: seq<Span>, k: int, c: Chunk) {
      && 0 <= k < |spans|
      && text(spans[k].from, spans[k].to) == Some(c.content)
      && c == Chunk(spans[k].symbol, spans[k].from + 1, spans[k].to, c.content)
    }

    lemma {:induction false} ChunkOfSpan(spans: seq<Span>, c: Chunk)
      ensures c in FlatMap(Chunked, spans) <==> exists k :: MadeFrom(spans, k, c)
      decreases |spans|
    {
      if spans != [] {
        ChunkOfSpan(spans[1..], c);
        assert c in Chunked(spans[0]) <==> MadeFrom(spans, 0, c);
        if exists k :: MadeFrom(spans[1..], k, c) {
          var k :| MadeFrom(spans[1..], k, c);
          assert MadeFrom(spans, k + 1, c);
        }
        if exists k :: MadeFrom(spans, k, c) {
          var k :| MadeFrom(spans, k, c);
          if k > 0 { assert MadeFrom(spans[1..], k - 1, c); }
        }
      }
    }

    /** A line lies in a chunk exactly when a span that is not blank names it. */
    lemma CoveredBySpan(spans: seq<Span>, i: int)
      ensures Covered(FlatMap(Chunked, spans), i) <==>
        exists k :: 0 <= k < |spans| && spans[k].from <= i < spans[k].to && text(spans[k].from, spans[k].to).Some?
    {
      var chunks := FlatMap(Chunked, spans);
      if Covered(chunks, i) {
        var j :| 0 <= j < |chunks| && Covers(chunks[j], i);
        ChunkOfSpan(spans, chunks[j]);
      }
      forall k | 0 <= k < |spans| && spans[k].from <= i < spans[k].to && text(spans[k].from, spans[k].to).Some?
        ensures Covered(chunks, i)
      {
        var c := Chunk(spans[k].symbol, spans[k].from + 1, spans[k].to, text(spans[k].from, spans[k].to).value);
        assert MadeFrom(spans, k, c);
        ChunkOfSpan(spans, c);
        var j :| 0 <= j < |chunks| && chunks[j] == c;
        assert Covers(chunks[j], i);
      }
    }

    function OwnChunk(s: Symbol, content: string): Chunk {
      Chunk(Some(s.id), s.lineStart, End(s), content)
    }

    /** Every symbol whose lines are not blank becomes a chunk of its own. */
    lemma {:induction false} SymbolHasChunk(sorted: seq<Symbol>, cursor: int, k: nat)
      requires k < |sorted| && text(sorted[k].lineStart - 1, End(sorted[k])).Some?
      ensures OwnChunk(sorted[k], text(sorted[k].lineStart - 1, End(sorted[k])).value) in ChunksFrom(sorted, cursor)
      decreases |sorted|
    {
      if k > 0 { SymbolHasChunk(sorted[1..], End(sorted[0]), k - 1); }
    }

    ghost predicate FromSymbol(sorted: seq<Symbol>, c: Chunk) {
      exists k :: 0 <= k < |sorted| && c == OwnChunk(sorted[k], c.content)
    }

    /** A chunk that names a symbol is that symbol's chunk. */
    lemma {:induction false} ChunkHasSymbol(sorted: seq<Symbol>, cursor: int, c: Chunk)
      requires c in ChunksFrom(sorted, cursor) && c.symbolId.Some?
      ensures FromSymbol(sorted, c)
      decreases |sorted|
    {
      if sorted != [] {
        if c in Own(sorted[0]) {
          assert c == OwnChunk(sorted[0], c.content);
        } else {
          ChunkHasSymbol(sorted[1..], End(sorted[0]), c);
          var k :| 0 <= k < |sorted[1..]| && c == OwnChunk(sorted[1..][k], c.content);
          assert sorted[1..][k] == sorted[k + 1];
        }
      }
    }

    /** No text that takes in line `i` is blank. */
    ghost predicate Shows(i: int) {
      forall from, to :: Clamp(from, size) <= i < Clamp(to, size) ==> text(from, to).Some?
    }

    /** Nor is any text not blank that does not take it in. */
    ghost predicate ShowsOnly(i: int) {
      forall from, to :: text(from, to).Some? ==> Clamp(from, size) <= i < Clamp(to, size)
    }

    lemma PieceCovers(from: int, to: int, symbol: Option<string>, i: int)
      requires 0 <= from <= i < to && i < size && Shows(i)
      ensures Covered(Piece(from, to, symbol), i)
    {
      assert Clamp(from, size) <= i < Clamp(to, size);
      assert Covers(Piece(from, to, symbol)[0], i);
    }

    lemma ReachedIsCovered(spans: seq<Span>, i: int)
      requires Shows(i) && Reached(size, spans, i)
      ensures Covered(FlatMap(Chunked, spans), i)
    {
      CoveredBySpan(spans, i);
    }

    lemma CoveredIsReached(spans: seq<Span>, i: int)
      requires ShowsOnly(i) && Covered(FlatMap(Chunked, spans), i)
      ensures Reached(size, spans, i)
    {
      CoveredBySpan(spans, i);
      var k :| 0 <= k < |spans| && spans[k].from <= i < spans[k].to && text(spans[k].from, spans[k].to).Some?;
      assert Reads(size, spans[k], i);
    }

    /** There is no text after the last line. */
    ghost predicate Ends() {
      forall from, to :: from >= size ==> text(from, to) == None
    }

    lemma PiecesInOrder(before: nat, s: Symbol)
      requires Ends() && Range(s) && before < s.lineStart
      ensures var p := Gap(if before < size then before else size, s) + Own(s);
        InOrder(p, before) && forall i :: 0 <= i < |p| ==> p[i].lineEnd <= s.lineEnd
    {
    }

    lemma {:induction false} ChunksInOrder(sorted: seq<Symbol>, before: nat)
      requires Ends()
      requires forall k :: 0 <= k < |sorted| ==> Range(sorted[k]) && before < sorted[k].lineStart
      requires forall i, j :: 0 <= i < j < |sorted| ==> sorted[i].lineEnd < sorted[j].lineStart
      ensures InOrder(ChunksFrom(sorted, if before < size then before else size), before)
      decreases |sorted|
    {
      var cursor := if before < size then before else size;
      if sorted != [] {
        var s := sorted[0];
        PiecesInOrder(before, s);
        ChunksInOrder(sorted[1..], s.lineEnd);
        InOrderConcat(Gap(cursor, s) + Own(s), ChunksFrom(sorted[1..], End(s)), before, s.lineEnd);
      }
    }

    // ---------- sliding windows ----------

    function WindowChunks(windows: seq<Window>): seq<Chunk> {
      if windows == [] then []
      else Piece(windows[0].start, windows[0].end, None) + WindowChunks(windows[1..])
    }

    lemma {:induction false} WindowsOfSpans(windows: seq<Window>)
      ensures WindowChunks(windows) == FlatMap(Chunked, WindowSpans(windows))
    {
      if windows != [] {
        WindowsOfSpans(windows[1..]);
        assert WindowSpans(windows)[1..] == WindowSpans(windows[1..]);
      }
    }

    /** No window from `start` on reaches back before it. */
    lemma {:induction false} WindowsBehind(maxLines: int, overlap: int, start: nat, i: int)
      requires CanEnd(size, maxLines, overlap) && i < start
      ensures !Covered(WindowChunks(Windows(size, maxLines, overlap, start)), i)
      decreases if size > start then size - start else 0
    {
      if start < size {
        var end := if start + maxLines < size then start + maxLines else size;
        FirstWindow(maxLines, overlap, start, end);
        if end < size {
          WindowsBehind(maxLines, overlap, end - overlap, i);
          NotCovered(Piece(start, end, None), WindowChunks(Windows(size, maxLines, overlap, end - overlap)), i);
        }
      }
    }

    /** A negative overlap skips the line behind the first window. */
    lemma LineSkipped(maxLines: int, overlap: int, i: nat)
      requires overlap < maxLines < size && overlap < 0 && i == (if maxLines < 0 then 0 else maxLines) < size
      ensures !Covered(WindowChunks(Windows(size, maxLines, overlap, 0)), i)
    {
      FirstWindow(maxLines, overlap, 0, maxLines);
      WindowsBehind(maxLines, overlap, maxLines - overlap, i);
      NotCovered(Piece(0, maxLines, None), WindowChunks(Windows(size, maxLines, overlap, maxLines - overlap)), i);
    }

    method ChunkByWindow(maxLines: int, overlap: int) returns (chunks: seq<Chunk>)
      requires CanEnd(size, maxLines, overlap)
      ensures chunks == WindowChunks(Windows(size, maxLines, overlap, 0))
    {
      chunks := [];
      var start: nat := 0;
      ghost var target := WindowChunks(Windows(size, maxLines, overlap, 0));
      CompletesAtStart(target);
      while start < size
        invariant Completes(chunks, WindowChunks(Windows(size, maxLines, overlap, start)), target)
        decreases size - start
      {
        var end := if start + maxLines < size then start + maxLines else size;
        WindowStep(maxLines, overlap, start, end, chunks, target);
        chunks := chunks + Piece(start, end, None);
        if end >= size { return; }
        start := end - overlap;
      }
      CompletesAtEnd(chunks, target);
    }

    lemma WindowStep(maxLines: int, overlap: int, start: nat, end: int, chunks: seq<Chunk>, target: seq<Chunk>)
      requires CanEnd(size, maxLines, overlap) && start < size
      requires end == if start + maxLines < size then start + maxLines else size
      requires Completes(chunks, WindowChunks(Windows(size, maxLines, overlap, start)), target)
      ensures var done := chunks + Piece(start, end, None);
        if end == size then done == target
        else Completes(done, WindowChunks(Windows(size, maxLines, overlap, end - overlap)), target)
    {
      FirstWindow(maxLines, overlap, start, end);
      if end < size {
        var rest := WindowChunks(Windows(size, maxLines, overlap, end - overlap));
        CompletesStep(chunks, Piece(start, end, None), rest, target);
      }
    }

    lemma FirstWindow(maxLines: int, overlap: int, start: nat, end: int)
      requires CanEnd(size, maxLines, overlap) && start < size
      requires end == if start + maxLines < size then start + maxLines else size
      ensures WindowChunks(Windows(size, maxLines, overlap, start))
           == if end == size then Piece(start, end, None)
              else Piece(start, end, None) + WindowChunks(Windows(size, maxLines, overlap, end - overlap))
    {
      var ws := Windows(size, maxLines, overlap, start);
      if end == size {
        assert ws == [Window(start, end)];
        assert ws[1..] == [];
        var piece := Piece(start, end, None);
        assert piece + [] == piece;
      } else {
        assert ws[1..] == Windows(size, maxLines, overlap, end - overlap);
      }
    }

    lemma {:induction false} WindowsCover(maxLines: int, overlap: int, start: nat, i: int)
      requires CanEnd(size, maxLines, overlap) && (overlap >= 0 || size <= maxLines)
      requires start <= i < size && Shows(i)
      ensures Covered(WindowChunks(Windows(size, maxLines, overlap, start)), i)
      decreases size - start
    {
      var end := if start + maxLines < size then start + maxLines else size;
      FirstWindow(maxLines, overlap, start, end);
      if i < end { PieceCovers(start, end, None, i); }
      if end < size {
        var rest := WindowChunks(Windows(size, maxLines, overlap, end - overlap));
        if i < end {
          CoveredLeft(Piece(start, end, None), rest, i);
        } else {
          WindowsCover(maxLines, overlap, end - overlap, i);
          CoveredRight(Piece(start, end, None), rest, i);
        }
      }
    }
  }

  // ---------- no text is lost ----------

  lemma InkShows(lines: seq<string>, i: nat)
    requires i < |lines| && HasInk(lines[i])
    ensures FileOf(lines).Shows(i)
  {
    forall from: int, to: int | Clamp(from, |lines|) <= i < Clamp(to, |lines|) ensures TextOf(lines, from, to).Some? {
      var slice, k := Slice(lines, from, to), i - Clamp(from, |lines|);
      assert slice[k] == lines[i];
      InkJoin(slice, k);
      TrimInk(Join(slice));
    }
  }

  /** A file of `n` lines, all blank but line `i`. */
  function Lone(n: nat, i: nat): (lines: seq<string>)
    ensures |lines| == n && forall k :: 0 <= k < n ==> lines[k] == if k == i then "x" else ""
  {
    seq(n, k => if k == i then "x" else "")
  }

  lemma {:induction false} BlankJoin(lines: seq<string>)
    requires forall k :: 0 <= k < |lines| ==> lines[k] == ""
    ensures !HasInk(Join(lines))
  {
    if |lines| > 1 {
      BlankJoin(lines[1..]);
      InkConcat(lines[0] + "\n", Join(lines[1..]));
    }
  }

  lemma LoneShows(n: nat, i: nat)
    requires i < n
    ensures HasInk(Lone(n, i)[i]) && FileOf(Lone(n, i)).ShowsOnly(i)
  {
    var lines := Lone(n, i);
    assert !IsSpace(lines[i][0]);
    forall from: int, to: int | !(Clamp(from, n) <= i < Clamp(to, n)) ensures TextOf(lines, from, to) == None {
      BlankJoin(Slice(lines, from, to));
      TrimInk(Join(Slice(lines, from, to)));
    }
  }

  function ChunksBySymbol(lines: seq<string>, symbols: seq<Symbol>): seq<Chunk> {
    FileOf(lines).ChunksFrom(ByStart(symbols), 0)
  }

  /** Whatever ink line `i` of a file of `n` lines has lies in a chunk, exactly when some gap or symbol
      that names the line also reads it. */
  lemma InkKeptIff(n: nat, symbols: seq<Symbol>, i: nat)
    requires i < n
    ensures (forall lines: seq<string> :: |lines| == n && HasInk(lines[i]) ==>
              Covered(ChunksBySymbol(lines, symbols), i)) <==>
      Reached(n, Spans(n, ByStart(symbols), 0), i)
  {
    var spans := Spans(n, ByStart(symbols), 0);
    if Reached(n, spans, i) {
      forall lines: seq<string> | |lines| == n && HasInk(lines[i]) ensures Covered(ChunksBySymbol(lines, symbols), i) {
        InkShows(lines, i);
        FileOf(lines).ChunksOfSpans(ByStart(symbols), 0);
        FileOf(lines).ReachedIsCovered(spans, i);
      }
    }
    var lone := Lone(n, i);
    LoneShows(n, i);
    if Covered(ChunksBySymbol(lone, symbols), i) {
      FileOf(lone).ChunksOfSpans(ByStart(symbols), 0);
      FileOf(lone).CoveredIsReached(spans, i);
    }
  }

  lemma SortedOneBased(symbols: seq<Symbol>)
    requires forall k :: 0 <= k < |symbols| ==> OneBased(symbols[k])
    ensures forall k :: 0 <= k < |ByStart(symbols)| ==> OneBased(ByStart(symbols)[k])
  {
    ByStartOk(symbols);
    forall k | 0 <= k < |ByStart(symbols)| ensures OneBased(ByStart(symbols)[k]) {
      assert ByStart(symbols)[k] in symbols;
    }
  }

  /** Symbols that count from 1 lose no line with ink, however they nest or overlap. */
  lemma NoInkLost(lines: seq<string>, symbols: seq<Symbol>, i: nat)
    requires i < |lines| && HasInk(lines[i])
    requires forall k :: 0 <= k < |symbols| ==> OneBased(symbols[k])
    ensures Covered(ChunksBySymbol(lines, symbols), i)
  {
    SortedOneBased(symbols);
    OneBasedReached(|lines|, ByStart(symbols), 0, i);
    InkKeptIff(|lines|, symbols, i);
  }

  lemma OneSorted(s: Symbol)
    ensures ByStart([s]) == [s]
  {
    ByStartOk([s]);
    SameMembers(ByStart([s]), [s]);
  }

  lemma OneSymbolReached(n: nat, s: Symbol, i: nat)
    requires s.lineEnd >= 0 && s.lineStart < 1 && i < n
    ensures Reached(n, Spans(n, [s], 0), i) <==> EndIn(n, s) <= i || Clamp(s.lineStart - 1, n) <= i
  {
    var end := EndIn(n, s);
    var own := [Span(s.lineStart - 1, end, Some(s.id))];
    var tail := if end < n then [Span(end, n, None)] else [];
    assert [s][1..] == [];
    assert Spans(n, [s][1..], end) == tail;
    assert Spans(n, [s], 0) == [] + own + tail == own + tail;
    ReachedConcat(n, own, tail, i);
    if end <= i { assert Reads(n, tail[0], i); }
    assert Reached(n, own, i) <==> Reads(n, own[0], i);
  }

  /** A single symbol loses a line exactly when it starts before line 1, ends behind line 0, and its
      start counted from the end of the file does not reach the first line. */
  lemma OneSymbolIff(n: nat, s: Symbol)
    requires s.lineEnd >= 0
    ensures (forall i: nat :: i < n ==> Reached(n, Spans(n, ByStart([s]), 0), i)) <==>
      s.lineStart >= 1 || s.lineEnd == 0 || n + s.lineStart <= 1
  {
    OneSorted(s);
    if s.lineStart >= 1 {
      forall i: nat | i < n ensures Reached(n, Spans(n, [s], 0), i) { OneBasedReached(n, [s], 0, i); }
    } else if s.lineEnd == 0 || n + s.lineStart <= 1 {
      forall i: nat | i < n ensures Reached(n, Spans(n, [s], 0), i) { OneSymbolReached(n, s, i); }
    } else {
      OneSymbolReached(n, s, 0);
    }
  }

  // ---------- chunks quote the file ----------

  /** The chunk names lines of the file and holds exactly their text. */
  predicate QuotesLines(lines: seq<string>, c: Chunk) {
    1 <= c.lineStart <= c.lineEnd <= |lines| && c.content == Join(lines[c.lineStart - 1..c.lineEnd])
  }

  predicate Quoted(lines: seq<string>, chunks: seq<Chunk>) {
    forall k :: 0 <= k < |chunks| ==> QuotesLines(lines, chunks[k])
  }

  lemma SpansQuote(lines: seq<string>, spans: seq<Span>)
    requires AllInFile(|lines|, spans)
    ensures Quoted(lines, FlatMap(FileOf(lines).Chunked, spans))
  {
    var f := FileOf(lines);
    var chunks := FlatMap(f.Chunked, spans);
    forall j | 0 <= j < |chunks| ensures QuotesLines(lines, chunks[j]) {
      f.ChunkOfSpan(spans, chunks[j]);
      var k :| f.MadeFrom(spans, k, chunks[j]);
      SpanQuotes(lines, spans[k], chunks[j].content);
    }
  }

  lemma SpanQuotes(lines: seq<string>, p: Span, content: string)
    requires InFile(|lines|, p) && TextOf(lines, p.from, p.to) == Some(content)
    ensures 0 <= p.from < p.to <= |lines| && content == Join(lines[p.from..p.to])
  {
    TrimInk(content);
    assert Slice(lines, p.from, p.to) != [];
  }

  /** No chunk is blank, along symbols or by windows. */
  lemma SpansHaveInk(lines: seq<string>, spans: seq<Span>)
    ensures forall c :: c in FlatMap(FileOf(lines).Chunked, spans) ==> HasInk(c.content)
  {
    var f := FileOf(lines);
    forall c | c in FlatMap(f.Chunked, spans) ensures HasInk(c.content) {
      f.ChunkOfSpan(spans, c);
      TrimInk(c.content);
    }
  }

  lemma NoChunkIsBlank(lines: seq<string>, symbols: seq<Symbol>, c: Chunk)
    requires c in ChunksBySymbol(lines, symbols)
    ensures HasInk(c.content)
  {
    FileOf(lines).ChunksOfSpans(ByStart(symbols), 0);
    SpansHaveInk(lines, Spans(|lines|, ByStart(symbols), 0));
  }

  lemma NoWindowIsBlank(lines: seq<string>, windows: seq<Window>, c: Chunk)
    requires c in FileOf(lines).WindowChunks(windows)
    ensures HasInk(c.content)
  {
    FileOf(lines).WindowsOfSpans(windows);
    SpansHaveInk(lines, WindowSpans(windows));
  }

  /** A file of `n` lines none of which is blank. */
  function Full(n: nat): (lines: seq<string>)
    ensures |lines| == n && forall k :: 0 <= k < n ==> lines[k] == "x"
  {
    seq(n, _ => "x")
  }

  lemma FullShows(n: nat, p: Span)
    requires !InFile(n, p)
    ensures TextOf(Full(n), p.from, p.to).Some?
  {
    var lines, i := Full(n), Clamp(p.from, n);
    assert !IsSpace(lines[i][0]);
    InkShows(lines, i);
    assert FileOf(lines).text(p.from, p.to).Some?;
  }

  /** All spans of every file of a given length are quoted exactly when none reads lines it does not name. */
  lemma SpansQuoteIff(n: nat, spans: seq<Span>)
    ensures (forall lines: seq<string> :: |lines| == n ==> Quoted(lines, FlatMap(FileOf(lines).Chunked, spans))) <==>
      AllInFile(n, spans)
  {
    if AllInFile(n, spans) {
      forall lines: seq<string> | |lines| == n ensures Quoted(lines, FlatMap(FileOf(lines).Chunked, spans)) {
        SpansQuote(lines, spans);
      }
    } else {
      var k :| 0 <= k < |spans| && !InFile(n, spans[k]);
      var f, p := FileOf(Full(n)), spans[k];
      FullShows(n, p);
      var c := Chunk(p.symbol, p.from + 1, p.to, f.text(p.from, p.to).value);
      assert f.MadeFrom(spans, k, c);
      f.ChunkOfSpan(spans, c);
      assert !QuotesLines(Full(n), c);
      assert !Quoted(Full(n), FlatMap(f.Chunked, spans));
    }
  }

  /** Every chunk holds exactly the lines it names, whatever the file of `n` lines says, exactly when no
      gap or symbol that reads something has a bound outside the file. */
  lemma ChunksQuoteIff(n: nat, symbols: seq<Symbol>)
    ensures (forall lines: seq<string> :: |lines| == n ==> Quoted(lines, ChunksBySymbol(lines, symbols))) <==>
      AllInFile(n, Spans(n, ByStart(symbols), 0))
  {
    var spans := Spans(n, ByStart(symbols), 0);
    SpansQuoteIff(n, spans);
    forall lines: seq<string> | |lines| == n
      ensures Quoted(lines, ChunksBySymbol(lines, symbols)) <==> Quoted(lines, FlatMap(FileOf(lines).Chunked, spans))
    {
      FileOf(lines).ChunksOfSpans(ByStart(symbols), 0);
    }
  }

  /** Symbols that count from 1 and start in the file, or right behind it, are quoted. */
  lemma ChunksQuote(lines: seq<string>, symbols: seq<Symbol>)
    requires forall k :: 0 <= k < |symbols| ==> OneBased(symbols[k]) && symbols[k].lineStart <= |lines| + 1
    ensures Quoted(lines, ChunksBySymbol(lines, symbols))
  {
    var n, sorted := |lines|, ByStart(symbols);
    ByStartOk(symbols);
    forall k | 0 <= k < |sorted| ensures OneBased(sorted[k]) && sorted[k].lineStart <= n + 1 {
      assert sorted[k] in symbols;
    }
    OneBasedInFile(n, sorted, 0);
    FileOf(lines).ChunksOfSpans(sorted, 0);
    SpansQuote(lines, Spans(n, sorted, 0));
  }

  /** Windows hold exactly the lines they name, whatever the file of `n` lines says, exactly when the
      window size is not negative, or so negative that no window takes in a line. */
  lemma WindowsQuoteIff(n: nat, maxLines: int, overlap: int)
    requires CanEnd(n, maxLines, overlap)
    ensures (forall lines: seq<string> :: |lines| == n ==>
              Quoted(lines, FileOf(lines).WindowChunks(Windows(n, maxLines, overlap, 0)))) <==>
      maxLines >= 0 || n + maxLines <= 0
  {
    var windows := Windows(n, maxLines, overlap, 0);
    SpansQuoteIff(n, WindowSpans(windows));
    WindowsInFileIff(n, maxLines, overlap);
    forall lines: seq<string> | |lines| == n
      ensures Quoted(lines, FileOf(lines).WindowChunks(windows)) <==>
        Quoted(lines, FlatMap(FileOf(lines).Chunked, WindowSpans(windows)))
    {
      FileOf(lines).WindowsOfSpans(windows);
    }
  }

  lemma WindowsInFileIff(n: nat, maxLines: int, overlap: int)
    requires CanEnd(n, maxLines, overlap)
    ensures AllInFile(n, WindowSpans(Windows(n, maxLines, overlap, 0))) <==> maxLines >= 0 || n + maxLines <= 0
  {
    var spans := WindowSpans(Windows(n, maxLines, overlap, 0));
    if maxLines >= 0 || n + maxLines <= 0 {
      forall k | 0 <= k < |spans| ensures InFile(n, spans[k]) { WindowsOk(n, maxLines, overlap, 0, k); }
    } else {
      assert !InFile(n, spans[0]);
    }
  }

  /** A window of minus one line reads all lines but the last and names none. */
  lemma NegativeWindowMisquotes()
    ensures !Quoted(["x", "y"], FileOf(["x", "y"]).WindowChunks(Windows(2, -1, -2, 0)))
  {
    var lines := ["x", "y"];
    var f := FileOf(lines);
    assert !IsSpace(lines[0][0]);
    InkShows(lines, 0);
    assert f.text(0, -1).Some?;
    f.FirstWindow(-1, -2, 0, -1);
    assert !QuotesLines(lines, f.WindowChunks(Windows(2, -1, -2, 0))[0]);
  }

  /** A symbol at line 10 of a two-line file: the gap before it is a chunk that names nine lines. */
  lemma SymbolBehindFile(id: string)
    ensures !Quoted(["x", "y"], ChunksBySymbol(["x", "y"], [Symbol(id, 10, 10)]))
  {
    var lines, s := ["x", "y"], Symbol(id, 10, 10);
    var f := FileOf(lines);
    OneSorted(s);
    assert !IsSpace(lines[0][0]);
    InkShows(lines, 0);
    assert f.text(0, 9).Some?;
    var c := f.ChunksFrom([s], 0)[0];
    assert c == f.Gap(0, s)[0] && c.lineEnd == 9;
    assert !QuotesLines(lines, c);
  }

  /** Symbols on disjoint line ranges give chunks on disjoint line ranges, in file order. */
  lemma DisjointChunks(lines: seq<string>, symbols: seq<Symbol>)
    requires forall k :: 0 <= k < |symbols| ==> Range(symbols[k])
    requires forall i, j :: 0 <= i < j < |symbols| ==> Apart(symbols[i], symbols[j])
    ensures InOrder(FileOf(lines).ChunksFrom(ByStart(symbols), 0), 0)
  {
    SortedApart(symbols);
    FileEnds(lines);
    FileOf(lines).ChunksInOrder(ByStart(symbols), 0);
  }

  lemma FileEnds(lines: seq<string>)
    ensures FileOf(lines).Ends()
  {
    forall from: int, to: int | from >= |lines| ensures TextOf(lines, from, to) == None {
      assert Slice(lines, from, to) == [];
    }
  }

  /** Every line with ink lies in some window's chunk. */
  lemma NoInkLostByWindow(lines: seq<string>, maxLines: int, overlap: int, i: nat)
    requires CanEnd(|lines|, maxLines, overlap) && (overlap >= 0 || |lines| <= maxLines)
    requires i < |lines| && HasInk(lines[i])
    ensures Covered(FileOf(lines).WindowChunks(Windows(|lines|, maxLines, overlap, 0)), i)
  {
    InkShows(lines, i);
    FileOf(lines).WindowsCover(maxLines, overlap, 0, i);
  }

  /** Every line with ink of this file lies in some window's chunk. */
  ghost predicate KeepsInk(lines: seq<string>, maxLines: int, overlap: int)
    requires CanEnd(|lines|, maxLines, overlap)
  {
    forall i :: 0 <= i < |lines| && HasInk(lines[i]) ==>
      Covered(FileOf(lines).WindowChunks(Windows(|lines|, maxLines, overlap, 0)), i)
  }

  /** The windows keep all ink of every file of a given length exactly when the overlap is not
      negative or one window holds the file. */
  lemma WindowsKeepInkIff(n: nat, maxLines: int, overlap: int)
    requires CanEnd(n, maxLines, overlap)
    ensures (forall lines: seq<string> :: |lines| == n ==> KeepsInk(lines, maxLines, overlap)) <==>
      overlap >= 0 || n == 0 || n <= maxLines
  {
    if overlap >= 0 || n == 0 || n <= maxLines {
      forall lines: seq<string> | |lines| == n ensures KeepsInk(lines, maxLines, overlap) {
        forall i | 0 <= i < n && HasInk(lines[i])
          ensures Covered(FileOf(lines).WindowChunks(Windows(n, maxLines, overlap, 0)), i)
        {
          NoInkLostByWindow(lines, maxLines, overlap, i);
        }
      }
    } else {
      var lines := seq(n, _ => "x");
      var i := if maxLines < 0 then 0 else maxLines;
      assert !IsSpace(lines[i][0]);
      FileOf(lines).LineSkipped(maxLines, overlap, i);
      assert !KeepsInk(lines, maxLines, overlap);
    }
  }

  /** One-line windows that overlap by minus one line pass over every second line. */
  lemma NegativeOverlapSkips()
    ensures !KeepsInk(["x", "y", "z"], 1, -1)
  {
    var lines := ["x", "y", "z"];
    assert !IsSpace(lines[1][0]);
    FileOf(lines).LineSkipped(1, -1, 1);
  }

  // ---------- symbols that do not count lines from 1 ----------

  /** A symbol from line 0 to 1 makes the program cut from the end of the file, and a line is lost. */
  lemma ZeroBasedLosesLine(id: string)
    ensures !Covered(FileOf(["x", "y"]).ChunksFrom(ByStart([Symbol(id, 0, 1)]), 0), 0)
  {
    var lines, s := ["x", "y"], Symbol(id, 0, 1);
    var f, sorted := FileOf(lines), [s];
    ByStartOk(sorted);
    SameMembers(ByStart(sorted), sorted);
    assert ByStart(sorted) == sorted;
    assert Slice(lines, -1, 1) == [];
    assert f.text(-1, 1) == None;
    assert f.Own(s) == [] && f.Gap(0, s) == [] && sorted[1..] == [];
    assert f.ChunksFrom(sorted, 0) == [] + [] + f.Tail(1);
    forall k | 0 <= k < |f.Tail(1)| ensures !Covers(f.Tail(1)[k], 0) { }
    assert [] + [] + f.Tail(1) == f.Tail(1);
  }

  /** Windows of one line that overlap by one: the loop stands still. */
  lemma OverlapEqualToWindowLoops(fuel: nat)
    ensures !LoopEnds(2, 1, 1, fuel)
  {
    StuckNeverEnds(2, 1, 1, 0, fuel);
  }
}
