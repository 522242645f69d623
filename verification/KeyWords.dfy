/** What the conversions do to keys made of words. */
module KeyWords {
  import opened Sequences
  import opened Text
  import opened KeyCase

  predicate Word(w: string) {
    w != "" && forall i :: 0 <= i < |w| ==> LowOrDigit(w[i])
  }

  predicate AllWords(ws: seq<string>) {
    forall i :: 0 <= i < |ws| ==> Word(ws[i])
  }

  /** Words that begin with a letter. */
  predicate Lettered(ws: seq<string>) {
    AllWords(ws) && forall i :: 0 <= i < |ws| ==> LowerLetter(ws[i][0])
  }

  /** Only the last may consist of a single letter. */
  predicate Longish(ws: seq<string>) {
    forall i :: 0 <= i < |ws| - 1 ==> |ws[i]| >= 2
  }

  /** The words with a capital each, and with an underscore each. */
  function Humps(ws: seq<string>): string
    requires AllWords(ws)
  {
    if ws == [] then "" else [UpperChar(ws[0][0])] + (ws[0][1..] + Humps(ws[1..]))
  }

  function Scores(ws: seq<string>): string {
    if ws == [] then "" else "_" + (ws[0] + Scores(ws[1..]))
  }

  /** The words, each behind its separator. */
  function Apart(seps: seq<string>, ws: seq<string>): string
    requires |seps| == |ws|
  {
    if ws == [] then "" else seps[0] + ws[0] + Apart(seps[1..], ws[1..])
  }

  predicate Separator(s: string) {
    s != "" && forall i :: 0 <= i < |s| ==> Dash(s[i])
  }

  // ---------- from humps to underscores ----------

  /** What splitting makes of the humps. */
  function SplitHumps(ws: seq<string>): string
    requires AllWords(ws)
  {
    if ws == [] then "" else ['_', UpperChar(ws[0][0])] + (ws[0][1..] + SplitHumps(ws[1..]))
  }

  lemma SplitPass(c: char, rest: string)
    requires rest == "" || !Cap(rest[0])
    ensures SplitCaps([c] + rest) == [c] + SplitCaps(rest)
  {
    ConsParts(c, rest);
  }

  lemma SplitHere(c: char, d: char, rest: string, split: string)
    requires LowOrDigit(c) && Cap(d) && SplitCaps(rest) == split
    ensures SplitCaps([c] + ([d] + rest)) == [c] + (['_', d] + split)
  {
    var s := [c] + ([d] + rest);
    ConsParts(c, [d] + rest);
    ConsParts(d, rest);
    assert s[2..] == s[1..][1..];
    Assoc([c], ['_', d], split);
    assert [c] + ['_', d] == [c, '_', d];
  }

  /** A word passes unchanged, but for its last letter, which may stand before a capital. */
  lemma {:induction false} WordPasses(w: string, c: char, rest: string)
    requires (w == "" || Word(w)) && LowOrDigit(c)
    ensures SplitCaps(w + ([c] + rest)) == w + SplitCaps([c] + rest)
    decreases |w|
  {
    if w == "" {
      assert w + ([c] + rest) == [c] + rest;
      assert w + SplitCaps([c] + rest) == SplitCaps([c] + rest);
    } else {
      WordPasses(w[1..], c, rest);
      var next := w[1..] + ([c] + rest);
      assert w + ([c] + rest) == [w[0]] + next;
      assert next[0] == if |w| > 1 then w[1] else c;
      SplitPass(w[0], next);
      HeadTail(w);
      Assoc([w[0]], w[1..], SplitCaps([c] + rest));
    }
  }

  lemma {:induction false} SplitWords(w: string, ws: seq<string>)
    requires Word(w) && Lettered(ws) && Longish(ws)
    ensures SplitCaps(w + Humps(ws)) == w + SplitHumps(ws)
    decreases |ws|
  {
    var n := |w| - 1;
    var c := w[n];
    assert w == w[..n] + [c];
    Assoc(w[..n], [c], Humps(ws));
    WordPasses(w[..n], c, Humps(ws));
    Assoc(w[..n], [c], SplitHumps(ws));
    if ws == [] {
      SplitPass(c, "");
    } else {
      if |ws[0]| >= 2 {
        SplitWords(ws[0][1..], ws[1..]);
      } else {
        assert ws[1..] == [];
        assert ws[0][1..] + Humps(ws[1..]) == "" == ws[0][1..] + SplitHumps(ws[1..]);
      }
      HumpSplits(c, ws);
    }
  }

  lemma HumpSplits(c: char, ws: seq<string>)
    requires LowOrDigit(c) && ws != [] && Lettered(ws)
    requires SplitCaps(ws[0][1..] + Humps(ws[1..])) == ws[0][1..] + SplitHumps(ws[1..])
    ensures SplitCaps([c] + Humps(ws)) == [c] + SplitHumps(ws)
  {
    SplitHere(c, UpperChar(ws[0][0]), ws[0][1..] + Humps(ws[1..]), ws[0][1..] + SplitHumps(ws[1..]));
  }

  lemma LowerHump(v: string, rest: string)
    requires Word(v)
    ensures Lower(['_', UpperChar(v[0])] + (v[1..] + rest)) == "_" + (v + Lower(rest))
  {
    LowerConcat(['_', UpperChar(v[0])], v[1..] + rest);
    LowerConcat(v[1..], rest);
    assert Lower(['_', UpperChar(v[0])]) == ['_', v[0]] && Lower(v[1..]) == v[1..];
    HeadTail(v);
    Assoc([v[0]], v[1..], Lower(rest));
    Assoc("_", [v[0]], v[1..] + Lower(rest));
  }

  lemma {:induction false} LowerHumps(ws: seq<string>)
    requires Lettered(ws)
    ensures Lower(SplitHumps(ws)) == Scores(ws)
  {
    if ws != [] {
      LowerHumps(ws[1..]);
      LowerHump(ws[0], SplitHumps(ws[1..]));
    }
  }

  lemma {:induction false} HumpsDashFree(ws: seq<string>)
    requires Lettered(ws)
    ensures DashFree(SplitHumps(ws))
  {
    if ws != [] { HumpsDashFree(ws[1..]); }
  }

  /** `fooBar` to `foo_bar`: every capital becomes an underscore and the small letter. */
  lemma CamelToSnake(fold: Folding, w: string, ws: seq<string>)
    requires fold.Lawful() && Word(w) && Lettered(ws) && Longish(ws)
    ensures fold.Snake(w + Humps(ws)) == w + Scores(ws)
  {
    HumpsAscii(fold, ws);
    fold.PlainSnake(w + Humps(ws));
    SplitWords(w, ws);
    HumpsDashFree(ws);
    NoDashes(w + SplitHumps(ws));
    LowerConcat(w, SplitHumps(ws));
    LowerHumps(ws);
    assert Lower(w) == w;
  }

  lemma {:induction false} HumpsAscii(fold: Folding, ws: seq<string>)
    requires Lettered(ws)
    ensures fold.Plain(Humps(ws))
  {
    if ws != [] { HumpsAscii(fold, ws[1..]); }
  }

  // ---------- from underscores to humps ----------

  lemma {:induction false} WordComesBack(w: string, rest: string)
    requires w == "" || Word(w)
    ensures ToCamelCase(w + rest) == w + ToCamelCase(rest)
    decreases |w|
  {
    if w == "" {
      assert w + rest == rest;
    } else {
      WordComesBack(w[1..], rest);
      HeadTail(w);
      Assoc([w[0]], w[1..], rest);
      CamelOne(w[0], w[1..] + rest);
      Assoc([w[0]], w[1..], ToCamelCase(rest));
    }
  }

  /** `foo_bar` to `fooBar`: an underscore and the small letter behind it become the capital. */
  lemma {:induction false} SnakeToCamel(w: string, ws: seq<string>)
    requires (w == "" || Word(w)) && Lettered(ws)
    ensures ToCamelCase(w + Scores(ws)) == w + Humps(ws)
    decreases |ws|
  {
    WordComesBack(w, Scores(ws));
    if ws != [] {
      var v, more := ws[0], ws[1..];
      SnakeToCamel(v[1..], more);
      HeadTail(v);
      Assoc([v[0]], v[1..], Scores(more));
      Assoc("_", [v[0]], v[1..] + Scores(more));
      CamelJoin(v[0], v[1..] + Scores(more));
    }
  }

  // ---------- dashes and white space ----------

  lemma {:induction false} RunJoins(d: string, rest: string, inRun: bool)
    requires forall i :: 0 <= i < |d| ==> Dash(d[i])
    ensures JoinDashes(d + rest, inRun)
         == (if inRun || d == "" then "" else "_") + JoinDashes(rest, inRun || d != "")
    decreases |d|
  {
    if d == "" {
      assert d + rest == rest;
    } else {
      assert (d + rest)[1..] == d[1..] + rest;
      RunJoins(d[1..], rest, true);
    }
  }

  lemma {:induction false} WordJoins(w: string, rest: string, inRun: bool)
    requires Word(w)
    ensures JoinDashes(w + rest, inRun) == w + JoinDashes(rest, false)
    decreases |w|
  {
    assert (w + rest)[1..] == w[1..] + rest;
    if |w| > 1 { WordJoins(w[1..], rest, false); } else { assert w[1..] + rest == rest; }
  }

  lemma {:induction false} ApartJoins(seps: seq<string>, ws: seq<string>)
    requires |seps| == |ws| && AllWords(ws) && forall i :: 0 <= i < |seps| ==> Separator(seps[i])
    ensures JoinDashes(Apart(seps, ws), false) == Scores(ws)
    decreases |ws|
  {
    if ws != [] {
      var rest := Apart(seps[1..], ws[1..]);
      ApartJoins(seps[1..], ws[1..]);
      assert seps[0] + ws[0] + rest == seps[0] + (ws[0] + rest);
      RunJoins(seps[0], ws[0] + rest, false);
      WordJoins(ws[0], rest, true);
    }
  }

  predicate CapFree(s: string) {
    forall i :: 0 <= i < |s| ==> !Cap(s[i])
  }

  lemma {:induction false} NothingToSplit(s: string)
    requires CapFree(s)
    ensures SplitCaps(s) == s
  {
    if s != "" { NothingToSplit(s[1..]); }
  }

  lemma {:induction false} ApartCapFree(seps: seq<string>, ws: seq<string>)
    requires |seps| == |ws| && AllWords(ws) && forall i :: 0 <= i < |seps| ==> Separator(seps[i])
    ensures CapFree(Apart(seps, ws))
    decreases |ws|
  {
    if ws != [] { ApartCapFree(seps[1..], ws[1..]); }
  }

  lemma {:induction false} ScoresAreLow(fold: Folding, ws: seq<string>)
    requires AllWords(ws)
    ensures fold.Plain(Scores(ws)) && Lower(Scores(ws)) == Scores(ws)
  {
    if ws != [] {
      ScoresAreLow(fold, ws[1..]);
      LowerConcat("_", ws[0] + Scores(ws[1..]));
      LowerConcat(ws[0], Scores(ws[1..]));
      assert Lower(ws[0]) == ws[0] && Lower("_") == "_";
    }
  }

  /** `foo - bar` to `foo_bar`: whatever run of dashes and white space stands between two words becomes one
      underscore. */
  lemma DashedToSnake(fold: Folding, w: string, seps: seq<string>, ws: seq<string>)
    requires fold.Lawful() && Word(w) && |seps| == |ws| && AllWords(ws)
    requires forall i :: 0 <= i < |seps| ==> Separator(seps[i])
    ensures fold.Snake(w + Apart(seps, ws)) == w + Scores(ws)
  {
    ApartCapFree(seps, ws);
    NothingToSplit(w + Apart(seps, ws));
    WordJoins(w, Apart(seps, ws), false);
    ApartJoins(seps, ws);
    ScoresAreLow(fold, ws);
    LowerConcat(w, Scores(ws));
    assert Lower(w) == w;
  }
}
