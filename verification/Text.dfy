/** Text as the program handles it: trimming, and cutting files into lines and back. */
module Text {
  import opened Sequences

  /** White space in the sense of `String.prototype.trim`. */
  predicate IsSpace(c: char) {
    || c == ' ' || '\t' <= c <= '\r' || c == '\U{A0}' || c == '\U{1680}' || '\U{2000}' <= c <= '\U{200A}'
    || c == '\U{2028}' || c == '\U{2029}' || c == '\U{202F}' || c == '\U{205F}' || c == '\U{3000}' || c == '\U{FEFF}'
  }

  function TrimStart(s: string): string {
    if s != "" && IsSpace(s[0]) then TrimStart(s[1..]) else s
  }

  function TrimEnd(s: string): string {
    if s != "" && IsSpace(s[|s| - 1]) then TrimEnd(s[..|s| - 1]) else s
  }

  function Trim(s: string): string {
    TrimEnd(TrimStart(s))
  }

  /** ASCII lower case. */
  function LowerChar(c: char): char {
    if 'A' <= c <= 'Z' then (c as int + 32) as char else c
  }

  function Lower(s: string): (r: string)
    ensures |r| == |s| && forall i :: 0 <= i < |s| ==> r[i] == LowerChar(s[i])
  {
    seq(|s|, i requires 0 <= i < |s| => LowerChar(s[i]))
  }

  predicate StartsWith(s: string, prefix: string) {
    |prefix| <= |s| && s[..|prefix|] == prefix
  }

  // ---------- lines ----------

  /** Does a line break (LF, or CR LF as one) start here? Its length, or 0. */
  function BreakLength(s: string): (n: nat)
    ensures n <= |s| && n <= 2
  {
    if s != "" && s[0] == '\n' then 1
    else if |s| >= 2 && s[0] == '\r' && s[1] == '\n' then 2
    else 0
  }

  /** Splitting at every LF or CR LF. */
  function RawLines(s: string): (lines: seq<string>)
    ensures lines != []
  {
    if s == "" then [""]
    else if BreakLength(s) > 0 then [""] + RawLines(s[BreakLength(s)..])
    else
      var rest := RawLines(s[1..]);
      [[s[0]] + rest[0]] + rest[1..]
  }

  /** The lines of a file: a final line break does not start another line. */
  function FileLines(content: string): seq<string> {
    var lines := RawLines(content);
    if content == "" then []
    else if lines[|lines| - 1] == "" then lines[..|lines| - 1]
    else lines
  }

  function Join(lines: seq<string>): string {
    if lines == [] then ""
    else if |lines| == 1 then lines[0]
    else lines[0] + "\n" + Join(lines[1..])
  }

  predicate EndsInNewline(s: string) {
    s != "" && s[|s| - 1] == '\n'
  }

  /** How an edited file is written back. */
  function Rebuild(lines: seq<string>, trailing: bool): string {
    if lines == [] then "" else Join(lines) + (if trailing then "\n" else "")
  }

  // ---------- cutting and joining ----------

  /** The text with every CR LF turned into LF. */
  function DropCr(s: string): (r: string)
    ensures |r| <= |s|
  {
    if s == "" then ""
    else if BreakLength(s) == 2 then "\n" + DropCr(s[2..])
    else [s[0]] + DropCr(s[1..])
  }

  predicate HasCrlf(s: string) {
    exists i :: 0 <= i < |s| - 1 && s[i] == '\r' && s[i + 1] == '\n'
  }

  lemma {:induction false} JoinRawLines(s: string)
    ensures Join(RawLines(s)) == DropCr(s)
  {
    if s != "" {
      var k := BreakLength(s);
      if k > 0 {
        JoinRawLines(s[k..]);
        var rest := RawLines(s[k..]);
        assert ([""] + rest)[1..] == rest;
        assert Join([""] + rest) == "" + "\n" + Join(rest);
      } else {
        JoinRawLines(s[1..]);
        var rest := RawLines(s[1..]);
        JoinHead([s[0]], rest);
      }
    }
  }

  lemma JoinHead(head: string, rest: seq<string>)
    requires rest != []
    ensures Join([head + rest[0]] + rest[1..]) == head + Join(rest)
  {
    ConsParts(head + rest[0], rest[1..]);
    if |rest| > 1 {
      Assoc(head, rest[0], "\n");
      Assoc(head, rest[0] + "\n", Join(rest[1..]));
    }
  }

  lemma {:induction false} JoinLast(lines: seq<string>)
    requires |lines| >= 2
    ensures Join(lines) == Join(lines[..|lines| - 1]) + "\n" + lines[|lines| - 1]
  {
    var n := |lines|;
    if n == 2 {
      assert lines[1..] == [lines[1]] && lines[..1] == [lines[0]];
    } else {
      JoinLast(lines[1..]);
      assert lines[1..][..n - 2] == lines[..n - 1][1..];
      assert lines[1..][n - 2] == lines[n - 1];
      var mid := Join(lines[..n - 1][1..]);
      assert lines[0] + "\n" + (mid + "\n" + lines[n - 1]) == (lines[0] + "\n" + mid) + "\n" + lines[n - 1];
    }
  }

  lemma LastOfMore(first: seq<string>, rest: seq<string>)
    requires |first| == 1 && rest != []
    ensures (first + rest)[|first + rest| - 1] == rest[|rest| - 1]
  {
  }

  /** Putting a character before the first line changes the last line only if that is the first. */
  lemma LastOfLonger(c: char, rest: seq<string>)
    requires rest != []
    ensures var lines := [[c] + rest[0]] + rest[1..];
      && |lines| == |rest|
      && (lines[|lines| - 1] == "" <==> |rest| > 1 && rest[|rest| - 1] == "")
  {
    if |rest| > 1 { LastOfMore([[c] + rest[0]], rest[1..]); }
  }

  /** The last line is empty exactly after a final line break. */
  predicate EndsLike(s: string, lines: seq<string>) {
    && lines != []
    && (lines[|lines| - 1] == "" <==> s == "" || EndsInNewline(s))
    && (s == "" ==> |lines| == 1)
    && (EndsInNewline(s) ==> |lines| >= 2)
  }

  lemma BreakEnds(s: string, rest: seq<string>)
    requires s != "" && BreakLength(s) > 0 && EndsLike(s[BreakLength(s)..], rest)
    ensures EndsLike(s, [""] + rest)
  {
    LastOfMore([""], rest);
  }

  lemma CharEnds(s: string, rest: seq<string>)
    requires s != "" && BreakLength(s) == 0 && EndsLike(s[1..], rest)
    ensures EndsLike(s, [[s[0]] + rest[0]] + rest[1..])
  {
    LastOfLonger(s[0], rest);
  }

  lemma {:induction false} LastRawLine(s: string)
    ensures EndsLike(s, RawLines(s))
    decreases |s|
  {
    if s == "" {
    } else if BreakLength(s) > 0 {
      LastRawLine(s[BreakLength(s)..]);
      BreakEnds(s, RawLines(s[BreakLength(s)..]));
    } else {
      LastRawLine(s[1..]);
      CharEnds(s, RawLines(s[1..]));
    }
  }

  /** Cutting a file into lines and writing it back normalises its line breaks and nothing else. */
  lemma RebuildFileLines(c: string)
    ensures Rebuild(FileLines(c), EndsInNewline(c)) == DropCr(c)
  {
    if c != "" {
      var lines := RawLines(c);
      JoinRawLines(c);
      LastRawLine(c);
      if EndsInNewline(c) {
        JoinLast(lines);
        assert Join(lines) == Join(lines[..|lines| - 1]) + "\n" + "";
      }
    }
  }

  lemma {:induction false} DropCrIdentity(s: string)
    ensures DropCr(s) == s <==> !HasCrlf(s)
    ensures HasCrlf(s) ==> |DropCr(s)| < |s|
  {
    if s != "" {
      if BreakLength(s) == 2 {
        assert s[0] == '\r' && s[0 + 1] == '\n';
        assert HasCrlf(s);
      } else {
        DropCrIdentity(s[1..]);
        assert s == [s[0]] + s[1..];
        if HasCrlf(s) {
          var i :| 0 <= i < |s| - 1 && s[i] == '\r' && s[i + 1] == '\n';
          assert i > 0 && s[1..][i - 1] == '\r' && s[1..][i - 1 + 1] == '\n';
        }
        if HasCrlf(s[1..]) {
          var i :| 0 <= i < |s[1..]| - 1 && s[1..][i] == '\r' && s[1..][i + 1] == '\n';
          assert s[i + 1] == '\r' && s[i + 1 + 1] == '\n';
        }
      }
    }
  }

  // ---------- lines that survive ----------

  predicate NoLf(s: string) {
    '\n' !in s
  }

  lemma {:induction false} TrimNoLf(s: string)
    requires NoLf(s)
    ensures NoLf(Trim(s))
  {
    TrimStartNoLf(s);
    TrimEndNoLf(TrimStart(s));
  }

  lemma {:induction false} TrimStartNoLf(s: string)
    requires NoLf(s)
    ensures NoLf(TrimStart(s))
  {
    if s != "" && IsSpace(s[0]) { TrimStartNoLf(s[1..]); }
  }

  lemma {:induction false} TrimEndNoLf(s: string)
    requires NoLf(s)
    ensures NoLf(TrimEnd(s))
  {
    if s != "" && IsSpace(s[|s| - 1]) { TrimEndNoLf(s[..|s| - 1]); }
  }

  /** A line that can be joined and cut again: no LF, and no CR at its end. */
  predicate Clean(s: string) {
    NoLf(s) && (s == "" || s[|s| - 1] != '\r')
  }

  lemma CleanTail(a: string)
    requires Clean(a) && a != ""
    ensures a[0] != '\n' && Clean(a[1..])
    ensures |a| > 1 ==> a[1] != '\n'
    ensures a != "\r"
  {
    assert a[0] in a && (|a| > 1 ==> a[1] in a);
    assert forall c :: c in a[1..] ==> c in a;
  }

  lemma {:induction false} RawLinesFirst(a: string, b: string)
    requires Clean(a)
    ensures RawLines(a + "\n" + b) == [a] + RawLines(b)
  {
    var s := a + "\n" + b;
    if a == "" {
      assert s[1..] == b;
    } else {
      CleanTail(a);
      assert s[0] == a[0] && (|a| > 1 ==> s[1] == a[1]);
      RawLinesFirst(a[1..], b);
      assert s[1..] == a[1..] + "\n" + b;
      RawLinesStep(s, a, b);
    }
  }

  lemma RawLinesStep(s: string, a: string, b: string)
    requires a != "" && a <= s && BreakLength(s) == 0 && RawLines(s[1..]) == [a[1..]] + RawLines(b)
    ensures RawLines(s) == [a] + RawLines(b)
  {
    HeadTail(a);
    var rest := RawLines(s[1..]);
    assert rest[0] == a[1..] && rest[1..] == RawLines(b);
  }

  lemma {:induction false} RawLinesOne(a: string)
    requires NoLf(a)
    ensures RawLines(a) == [a]
  {
    if a != "" {
      assert a[0] in a && (|a| >= 2 ==> a[1] in a);
      assert forall c :: c in a[1..] ==> c in a;
      RawLinesOne(a[1..]);
      assert [a[0]] + a[1..] == a;
    }
  }

  /** Clean lines come back from their joined text. */
  lemma {:induction false} CutJoined(lines: seq<string>)
    requires lines != [] && forall i :: 0 <= i < |lines| ==> Clean(lines[i])
    ensures RawLines(Join(lines)) == lines
  {
    if |lines| == 1 {
      RawLinesOne(lines[0]);
    } else {
      CutJoined(lines[1..]);
      RawLinesFirst(lines[0], Join(lines[1..]));
    }
  }

  function CountLf(s: string): nat {
    if s == "" then 0 else (if s[0] == '\n' then 1 else 0) + CountLf(s[1..])
  }

  lemma {:induction false} CountRawLines(s: string)
    ensures |RawLines(s)| == CountLf(s) + 1
  {
    if s != "" {
      var k := BreakLength(s);
      if k == 2 {
        CountRawLines(s[2..]);
        assert s[1..][1..] == s[2..];
      } else {
        CountRawLines(s[1..]);
      }
    }
  }

  lemma {:induction false} CountLfConcat(a: string, b: string)
    ensures CountLf(a + b) == CountLf(a) + CountLf(b)
  {
    if a == "" {
      assert a + b == b;
    } else {
      CountLfConcat(a[1..], b);
      assert (a + b)[1..] == a[1..] + b;
    }
  }

  lemma {:induction false} CountLfNone(a: string)
    requires NoLf(a)
    ensures CountLf(a) == 0
  {
    if a != "" {
      assert a[0] in a;
      assert forall c :: c in a[1..] ==> c in a;
      CountLfNone(a[1..]);
    }
  }

  lemma {:induction false} CountLfJoin(lines: seq<string>)
    requires lines != [] && forall i :: 0 <= i < |lines| ==> NoLf(lines[i])
    ensures CountLf(Join(lines)) == |lines| - 1
  {
    CountLfNone(lines[0]);
    if |lines| > 1 {
      CountLfJoin(lines[1..]);
      CountLfConcat(lines[0] + "\n", Join(lines[1..]));
      CountLfConcat(lines[0], "\n");
    }
  }

  /** How many lines a written file has: all of them, except that an empty last line vanishes
      when no final line break is written after it. */
  lemma RebuiltLineCount(lines: seq<string>, trailing: bool)
    requires forall i :: 0 <= i < |lines| ==> NoLf(lines[i])
    ensures |FileLines(Rebuild(lines, trailing))|
         == |lines| - (if !trailing && lines != [] && lines[|lines| - 1] == "" then 1 else 0)
  {
    if lines != [] {
      var text := Rebuild(lines, trailing);
      CountLfJoin(lines);
      CountRawLines(text);
      LastRawLine(text);
      if trailing {
        CountLfConcat(Join(lines), "\n");
        assert EndsInNewline(text);
      } else {
        assert text == Join(lines);
        JoinEnds(lines);
      }
    }
  }

  lemma JoinEnds(lines: seq<string>)
    requires lines != [] && NoLf(lines[|lines| - 1])
    ensures Join(lines) == "" || EndsInNewline(Join(lines)) <==> lines[|lines| - 1] == ""
    ensures Join(lines) == "" ==> |lines| == 1
  {
    if |lines| == 1 {
      NoLfEnd(lines[0]);
    } else {
      JoinLast(lines);
      EndAfterBreak(Join(lines[..|lines| - 1]), lines[|lines| - 1]);
    }
  }

  lemma NoLfEnd(s: string)
    requires NoLf(s)
    ensures !EndsInNewline(s)
  {
    assert s != "" ==> s[|s| - 1] in s;
  }

  lemma EndAfterBreak(front: string, last: string)
    requires NoLf(last)
    ensures front + "\n" + last != "" && (EndsInNewline(front + "\n" + last) <==> last == "")
  {
    NoLfEnd(last);
    var text := front + "\n" + last;
    if last != "" { assert text[|text| - 1] == last[|last| - 1]; }
  }

  lemma {:induction false} RawLinesNoLf(s: string)
    ensures forall i :: 0 <= i < |RawLines(s)| ==> NoLf(RawLines(s)[i])
  {
    if s != "" {
      var k := BreakLength(s);
      if k > 0 { RawLinesNoLf(s[k..]); } else { RawLinesNoLf(s[1..]); }
    }
  }
}
