/** Converting the keys of payloads between camelCase and snake_case. */
module KeyCase {
  import opened Sequences
  import opened Text
  import opened Json

  predicate Cap(c: char) { 'A' <= c <= 'Z' }
  predicate LowerLetter(c: char) { 'a' <= c <= 'z' }
  predicate LowOrDigit(c: char) { LowerLetter(c) || '0' <= c <= '9' }

  function UpperChar(c: char): char {
    if LowerLetter(c) then (c as int - 32) as char else c
  }

  /** An underscore between a lower-case letter or digit and a capital, left to right. */
  function SplitCaps(s: string): string {
    if s == "" then ""
    else if |s| >= 2 && LowOrDigit(s[0]) && Cap(s[1]) then [s[0], '_', s[1]] + SplitCaps(s[2..])
    else [s[0]] + SplitCaps(s[1..])
  }

  /** Every run of dashes and white space becomes one underscore. */
  function JoinDashes(s: string, inRun: bool): string {
    if s == "" then ""
    else if s[0] == '-' || IsSpace(s[0]) then (if inRun then "" else "_") + JoinDashes(s[1..], true)
    else [s[0]] + JoinDashes(s[1..], false)
  }

  /** Snake case of a key in which no letter beyond ASCII has a lower case of its own. */
  function ToSnakeCase(s: string): string {
    Lower(JoinDashes(SplitCaps(s), false))
  }

  function ToCamelCase(s: string): string {
    if s == "" then ""
    else if |s| >= 2 && s[0] == '_' && LowerLetter(s[1]) then [UpperChar(s[1])] + ToCamelCase(s[2..])
    else [s[0]] + ToCamelCase(s[1..])
  }

  // ---------- one key ----------

  predicate Letter(c: char) { Cap(c) || LowerLetter(c) }
  predicate Dash(c: char) { c == '-' || IsSpace(c) }

  /** No dash or white space, no capital but behind a lower-case letter or digit, and no underscore
      ahead of a letter. */
  predicate Proper(k: string) {
    forall i :: 0 <= i < |k| ==> ProperAt(k, i)
  }

  predicate ProperAt(k: string, i: nat)
    requires i < |k|
  {
    && !Dash(k[i])
    && (Cap(k[i]) ==> i > 0 && LowOrDigit(k[i - 1]))
    && (k[i] == '_' ==> i + 1 == |k| || !Letter(k[i + 1]))
  }

  predicate Pair(k: string) {
    |k| >= 2 && LowOrDigit(k[0]) && Cap(k[1])
  }

  /** The same, read off along the way the conversion takes through the key. */
  predicate Steady(k: string) {
    if k == "" then true
    else if Pair(k) then Steady(k[2..])
    else !Dash(k[0]) && !Cap(k[0]) && !(k[0] == '_' && |k| >= 2 && Letter(k[1])) && Steady(k[1..])
  }

  lemma {:induction false} SteadyMeans(k: string)
    ensures Steady(k) <==> Proper(k)
  {
    if k != "" {
      if Pair(k) {
        SteadyMeans(k[2..]);
        ProperPair(k);
      } else {
        SteadyMeans(k[1..]);
        ProperOne(k);
      }
    }
  }

  lemma ProperPair(k: string)
    requires Pair(k)
    ensures Proper(k) <==> Proper(k[2..])
  {
    var rest := k[2..];
    forall i | 0 <= i < |rest| ensures ProperAt(rest, i) <==> ProperAt(k, i + 2) { assert rest[i] == k[i + 2]; }
    assert ProperAt(k, 0) && ProperAt(k, 1);
    if Proper(rest) {
      forall i | 0 <= i < |k| ensures ProperAt(k, i) { if i >= 2 { assert ProperAt(rest, i - 2); } }
    }
  }

  lemma ProperOne(k: string)
    requires k != "" && !Pair(k)
    ensures Proper(k) <==> !Dash(k[0]) && !Cap(k[0]) && !(k[0] == '_' && |k| >= 2 && Letter(k[1])) && Proper(k[1..])
  {
    var rest := k[1..];
    forall i | 0 <= i < |rest| ensures ProperAt(rest, i) <==> ProperAt(k, i + 1) { assert rest[i] == k[i + 1]; }
    assert ProperAt(k, 0) <==> !Dash(k[0]) && !Cap(k[0]) && !(k[0] == '_' && |k| >= 2 && Letter(k[1]));
    if ProperAt(k, 0) && Proper(rest) {
      forall i | 0 <= i < |k| ensures ProperAt(k, i) { if i >= 1 { assert ProperAt(rest, i - 1); } }
    }
  }

  // ---------- proper keys come back ----------

  predicate DashFree(s: string) {
    forall i :: 0 <= i < |s| ==> !Dash(s[i])
  }

  lemma {:induction false} NoDashes(s: string)
    requires DashFree(s)
    ensures JoinDashes(s, false) == s
  {
    if s != "" {
      NoDashes(s[1..]);
      HeadTail(s);
    }
  }

  lemma {:induction false} SplitCapsDashFree(k: string)
    requires DashFree(k)
    ensures DashFree(SplitCaps(k))
  {
    if k != "" {
      if Pair(k) { SplitCapsDashFree(k[2..]); } else { SplitCapsDashFree(k[1..]); }
    }
  }

  lemma LowerConcat(a: string, b: string)
    ensures Lower(a + b) == Lower(a) + Lower(b)
  {
  }

  lemma SplitPair(k: string)
    requires Pair(k)
    ensures Lower(SplitCaps(k)) == [k[0]] + (['_', LowerChar(k[1])] + Lower(SplitCaps(k[2..])))
  {
    LowerConcat([k[0], '_', k[1]], SplitCaps(k[2..]));
    assert Lower([k[0], '_', k[1]]) == [k[0]] + ['_', LowerChar(k[1])];
    Assoc([k[0]], ['_', LowerChar(k[1])], Lower(SplitCaps(k[2..])));
  }

  lemma SplitHead(k: string)
    requires k != ""
    ensures SplitCaps(k) != "" && Lower(SplitCaps(k))[0] == LowerChar(k[0])
  {
  }

  lemma SplitOne(k: string)
    requires k != "" && !Pair(k)
    ensures Lower(SplitCaps(k)) == [LowerChar(k[0])] + Lower(SplitCaps(k[1..]))
  {
    LowerConcat([k[0]], SplitCaps(k[1..]));
    assert Lower([k[0]]) == [LowerChar(k[0])];
  }

  lemma CamelOne(c: char, rest: string)
    requires !(c == '_' && rest != "" && LowerLetter(rest[0]))
    ensures ToCamelCase([c] + rest) == [c] + ToCamelCase(rest)
  {
    assert ([c] + rest)[1..] == rest;
  }

  lemma CamelJoin(b: char, rest: string)
    requires LowerLetter(b)
    ensures ToCamelCase(['_', b] + rest) == [UpperChar(b)] + ToCamelCase(rest)
  {
    assert (['_', b] + rest)[2..] == rest;
  }

  lemma BackPair(k: string, rest: string)
    requires Pair(k) && rest == Lower(SplitCaps(k[2..])) && ToCamelCase(rest) == k[2..]
    ensures ToCamelCase(Lower(SplitCaps(k))) == k
  {
    var low := LowerChar(k[1]);
    SplitPair(k);
    CamelJoin(low, rest);
    CamelOne(k[0], ['_', low] + rest);
    HeadTail(k);
    HeadTail(k[1..]);
    assert k[1..][1..] == k[2..];
  }

  lemma BackOne(k: string, rest: string)
    requires k != "" && !Pair(k) && !Cap(k[0]) && !(k[0] == '_' && |k| >= 2 && Letter(k[1]))
    requires rest == Lower(SplitCaps(k[1..])) && ToCamelCase(rest) == k[1..]
    ensures ToCamelCase(Lower(SplitCaps(k))) == k
  {
    SplitOne(k);
    if |k| > 1 { SplitHead(k[1..]); }
    CamelOne(k[0], rest);
    HeadTail(k);
  }

  lemma {:induction false} SteadyComesBack(k: string)
    requires Steady(k)
    ensures ToCamelCase(Lower(SplitCaps(k))) == k
  {
    if k != "" {
      if Pair(k) {
        SteadyComesBack(k[2..]);
        BackPair(k, Lower(SplitCaps(k[2..])));
      } else {
        SteadyComesBack(k[1..]);
        BackOne(k, Lower(SplitCaps(k[1..])));
      }
    }
  }

  // ---------- only proper keys come back ----------

  function Caps(s: string): nat {
    if s == "" then 0 else (if Cap(s[0]) then 1 else 0) + Caps(s[1..])
  }

  /** How often the conversions insert an underscore, and remove one. */
  function Splits(k: string): nat {
    if k == "" then 0 else if Pair(k) then 1 + Splits(k[2..]) else Splits(k[1..])
  }

  function Merges(s: string): nat {
    if s == "" then 0
    else if |s| >= 2 && s[0] == '_' && LowerLetter(s[1]) then 1 + Merges(s[2..])
    else Merges(s[1..])
  }

  /** Capitals that no underscore is put before, and underscores of the key itself before letters. */
  function BareCaps(k: string): nat {
    if k == "" then 0 else if Pair(k) then BareCaps(k[2..]) else (if Cap(k[0]) then 1 else 0) + BareCaps(k[1..])
  }

  function OwnJoins(k: string): nat {
    if k == "" then 0
    else if Pair(k) then OwnJoins(k[2..])
    else (if k[0] == '_' && |k| >= 2 && Letter(k[1]) then 1 else 0) + OwnJoins(k[1..])
  }

  lemma {:induction false} CountsOfKey(k: string)
    ensures Caps(k) == Splits(k) + BareCaps(k) && |SplitCaps(k)| == |k| + Splits(k)
    ensures DashFree(k) && BareCaps(k) == 0 && OwnJoins(k) == 0 ==> Steady(k)
  {
    if k != "" {
      if Pair(k) {
        CountsOfKey(k[2..]);
        assert k[1..][1..] == k[2..] && Caps(k[1..]) == 1 + Caps(k[2..]);
      } else {
        CountsOfKey(k[1..]);
      }
    }
  }

  lemma {:induction false} CamelCounts(s: string)
    ensures |ToCamelCase(s)| == |s| - Merges(s) && Caps(ToCamelCase(s)) == Caps(s) + Merges(s)
  {
    if s != "" {
      if |s| >= 2 && s[0] == '_' && LowerLetter(s[1]) {
        CamelCounts(s[2..]);
        assert s[1..][1..] == s[2..] && Caps(s[1..]) == Caps(s[2..]);
        CapsCons(UpperChar(s[1]), ToCamelCase(s[2..]));
      } else {
        CamelCounts(s[1..]);
        CapsCons(s[0], ToCamelCase(s[1..]));
      }
    }
  }

  lemma CapsCons(c: char, rest: string)
    ensures Caps([c] + rest) == (if Cap(c) then 1 else 0) + Caps(rest)
  {
    assert ([c] + rest)[1..] == rest;
  }

  lemma {:induction false} LowerHasNoCaps(s: string)
    ensures Caps(Lower(s)) == 0
  {
    if s != "" {
      LowerHasNoCaps(s[1..]);
      assert Lower(s)[1..] == Lower(s[1..]);
    }
  }

  lemma MergesJoin(b: char, rest: string)
    requires LowerLetter(b)
    ensures Merges(['_', b] + rest) == 1 + Merges(rest)
  {
    assert (['_', b] + rest)[2..] == rest;
  }

  lemma MergesOne(c: char, rest: string)
    ensures Merges([c] + rest) == (if c == '_' && rest != "" && LowerLetter(rest[0]) then 1 else 0) + Merges(rest)
  {
    var all := [c] + rest;
    assert all[1..] == rest;
    if c == '_' && rest != "" && LowerLetter(rest[0]) { assert all[2..] == rest[1..]; }
  }

  lemma {:induction false} MergesOfSplit(k: string)
    ensures Merges(Lower(SplitCaps(k))) == Splits(k) + OwnJoins(k)
  {
    if k != "" {
      if Pair(k) {
        MergesOfSplit(k[2..]);
        SplitPair(k);
        MergesJoin(LowerChar(k[1]), Lower(SplitCaps(k[2..])));
        MergesOne(k[0], ['_', LowerChar(k[1])] + Lower(SplitCaps(k[2..])));
      } else {
        MergesOfSplit(k[1..]);
        SplitOne(k);
        if |k| > 1 { SplitHead(k[1..]); }
        MergesOne(LowerChar(k[0]), Lower(SplitCaps(k[1..])));
      }
    }
  }

  lemma {:induction false} JoinedDashFree(s: string, inRun: bool)
    ensures DashFree(JoinDashes(s, inRun))
  {
    if s != "" { JoinedDashFree(s[1..], s[0] == '-' || IsSpace(s[0])); }
  }

  lemma LowerDashFree(s: string)
    requires DashFree(s)
    ensures DashFree(Lower(s))
  {
    forall i | 0 <= i < |s| ensures !Dash(Lower(s)[i]) { assert Lower(s)[i] == LowerChar(s[i]); }
  }

  lemma {:induction false} CamelDashFree(s: string)
    requires DashFree(s)
    ensures DashFree(ToCamelCase(s))
  {
    if s != "" {
      if |s| >= 2 && s[0] == '_' && LowerLetter(s[1]) { CamelDashFree(s[2..]); } else { CamelDashFree(s[1..]); }
    }
  }

  lemma PlainRoundTripIff(k: string)
    ensures ToCamelCase(ToSnakeCase(k)) == k <==> Proper(k)
  {
    SteadyMeans(k);
    if Proper(k) {
      SteadyComesBack(k);
      assert DashFree(k) by { forall i | 0 <= i < |k| ensures !Dash(k[i]) { assert ProperAt(k, i); } }
      SplitCapsDashFree(k);
      NoDashes(SplitCaps(k));
    }
    if ToCamelCase(ToSnakeCase(k)) == k {
      JoinedDashFree(SplitCaps(k), false);
      LowerDashFree(JoinDashes(SplitCaps(k), false));
      CamelDashFree(ToSnakeCase(k));
      SplitCapsDashFree(k);
      NoDashes(SplitCaps(k));
      var s := Lower(SplitCaps(k));
      CountsOfKey(k);
      MergesOfSplit(k);
      LowerHasNoCaps(SplitCaps(k));
      CamelCounts(s);
    }
  }

  // ---------- letters beyond ASCII ----------

  predicate Ascii(c: char) { c < '\U{80}' }

  /** The runtime's conversion of text to lower case, and the characters it leaves alone. */
  datatype Folding = Folding(lower: string -> string, fixed: char -> bool) {

    /** No character beyond ASCII that the conversion changes. */
    predicate Plain(s: string) {
      forall i :: 0 <= i < |s| ==> Ascii(s[i]) || fixed(s[i])
    }

    /** What holds of the runtime's: only capitals of ASCII change, as usual, plain text changes nowhere
        else, the result is in lower case, and no dash or white space comes in. */
    ghost predicate Lawful() {
      && (forall c :: Ascii(c) ==> (fixed(c) <==> !Cap(c)))
      && (forall s :: Plain(s) ==> lower(s) == Lower(s))
      && (forall s, i :: 0 <= i < |lower(s)| ==> fixed(lower(s)[i]))
      && (forall s :: DashFree(s) ==> DashFree(lower(s)))
    }

    function Snake(s: string): string {
      lower(JoinDashes(SplitCaps(s), false))
    }

    predicate Survives(k: string) {
      Proper(k) && Plain(k)
    }

    predicate Spaces(k: string) {
      Spaced(Snake(k), false)
    }

    lemma {:induction false} SplitPlain(k: string)
      requires Plain(k)
      ensures Plain(SplitCaps(k))
    {
      if k != "" {
        if Pair(k) { SplitPlain(k[2..]); } else { SplitPlain(k[1..]); }
      }
    }

    lemma {:induction false} JoinPlain(s: string, inRun: bool)
      requires Plain(s)
      ensures Plain(JoinDashes(s, inRun))
    {
      if s != "" { JoinPlain(s[1..], s[0] == '-' || IsSpace(s[0])); }
    }

    lemma {:induction false} CamelPlain(s: string)
      requires Plain(s)
      ensures Plain(ToCamelCase(s))
    {
      if s != "" {
        if |s| >= 2 && s[0] == '_' && LowerLetter(s[1]) { CamelPlain(s[2..]); } else { CamelPlain(s[1..]); }
      }
    }

    lemma PlainSnake(k: string)
      requires Lawful() && Plain(k)
      ensures Snake(k) == ToSnakeCase(k)
    {
      SplitPlain(k);
      JoinPlain(SplitCaps(k), false);
    }

    /** A key survives the way to snake case and back exactly when it is proper and no letter of it
        beyond ASCII has a lower case of its own. */
    lemma KeyRoundTripIff(k: string)
      requires Lawful()
      ensures ToCamelCase(Snake(k)) == k <==> Survives(k)
    {
      if Plain(k) {
        PlainSnake(k);
        PlainRoundTripIff(k);
      } else {
        CamelPlain(Snake(k));
      }
    }
  }

  /** Folding ASCII only is lawful. */
  lemma AsciiFolding()
    ensures Folding(Lower, (c: char) => !Cap(c)).Lawful()
  {
    forall s: string | DashFree(s) ensures DashFree(Lower(s)) { LowerDashFree(s); }
  }

  /** A capital beyond ASCII does not come back. */
  lemma AccentIsLost(fold: Folding)
    requires fold.Lawful() && !fold.fixed('\U{C9}')
    ensures ToCamelCase(fold.Snake("\U{C9}")) != "\U{C9}"
  {
    var k := "\U{C9}";
    assert k[0] == '\U{C9}';
    fold.KeyRoundTripIff(k);
  }

  // ---------- what comes back of letters and digits ----------

  predicate Alnum(k: string) {
    forall i :: 0 <= i < |k| ==> Cap(k[i]) || LowOrDigit(k[i])
  }

  /** Capitals stay only behind a lower-case letter or digit. */
  function Flat(k: string): string {
    if k == "" then "" else if Pair(k) then [k[0]] + ([k[1]] + Flat(k[2..])) else [LowerChar(k[0])] + Flat(k[1..])
  }

  lemma {:induction false} SplitAndBack(k: string)
    requires Alnum(k)
    ensures ToCamelCase(Lower(SplitCaps(k))) == Flat(k)
  {
    if k != "" {
      if Pair(k) {
        var low, rest := LowerChar(k[1]), Lower(SplitCaps(k[2..]));
        SplitAndBack(k[2..]);
        SplitPair(k);
        CamelJoin(low, rest);
        CamelOne(k[0], ['_', low] + rest);
      } else {
        SplitAndBack(k[1..]);
        SplitOne(k);
        CamelOne(LowerChar(k[0]), Lower(SplitCaps(k[1..])));
      }
    }
  }

  /** There and back, a key of letters and digits loses exactly the capitals that follow no
      lower-case letter or digit. */
  lemma ThereAndBack(fold: Folding, k: string)
    requires fold.Lawful() && Alnum(k)
    ensures ToCamelCase(fold.Snake(k)) == Flat(k)
  {
    fold.PlainSnake(k);
    SplitCapsDashFree(k);
    NoDashes(SplitCaps(k));
    SplitAndBack(k);
  }

  lemma {:induction false} FlatIsProper(k: string)
    requires Alnum(k)
    ensures |Flat(k)| == |k| && Steady(Flat(k)) && (k != "" ==> !Cap(Flat(k)[0]) && Flat(k)[0] != '_')
  {
    if k != "" {
      var r := Flat(k);
      if Pair(k) {
        FlatIsProper(k[2..]);
        assert r[0] == k[0] && r[1] == k[1] && r[2..] == Flat(k[2..]);
      } else {
        FlatIsProper(k[1..]);
        assert r[1..] == Flat(k[1..]);
      }
    }
  }

  // ---------- when the way back ends at a proper key ----------

  /** Proper, if the character before is `prev`. */
  predicate ProperFrom(r: string, prev: char) {
    r != "" ==>
      && !Dash(r[0])
      && (Cap(r[0]) ==> LowOrDigit(prev))
      && (r[0] == '_' ==> |r| == 1 || !Letter(r[1]))
      && ProperFrom(r[1..], r[0])
  }

  predicate FromAt(r: string, prev: char, i: nat)
    requires i < |r|
  {
    && !Dash(r[i])
    && (Cap(r[i]) ==> LowOrDigit(if i == 0 then prev else r[i - 1]))
    && (r[i] == '_' ==> i + 1 == |r| || !Letter(r[i + 1]))
  }

  lemma {:induction false} ProperFromIff(r: string, prev: char)
    ensures ProperFrom(r, prev) <==> forall i :: 0 <= i < |r| ==> FromAt(r, prev, i)
  {
    if r != "" {
      var rest := r[1..];
      ProperFromIff(rest, r[0]);
      forall i | 0 <= i < |rest| ensures FromAt(rest, r[0], i) <==> FromAt(r, prev, i + 1) {
        assert rest[i] == r[i + 1];
      }
      if FromAt(r, prev, 0) && ProperFrom(rest, r[0]) {
        forall i | 0 <= i < |r| ensures FromAt(r, prev, i) { if i > 0 { assert FromAt(rest, r[0], i - 1); } }
      }
    }
  }

  lemma ProperFromStart(r: string)
    ensures Proper(r) <==> ProperFrom(r, '_')
  {
    ProperFromIff(r, '_');
    assert forall i :: 0 <= i < |r| ==> (ProperAt(r, i) <==> FromAt(r, '_', i));
  }

  /** In a key in snake case, every underscore before a letter stands behind a small letter or digit that
      is not itself made a capital. `after` says whether what stands before is such a character. */
  predicate Spaced(s: string, after: bool) {
    if s == "" then true
    else if |s| >= 2 && s[0] == '_' && LowerLetter(s[1]) then after && Spaced(s[2..], false)
    else Spaced(s[1..], LowOrDigit(s[0]))
  }

  predicate Snaky(s: string) {
    forall i :: 0 <= i < |s| ==> !Dash(s[i]) && !Cap(s[i])
  }

  lemma {:induction false} SpacedIff(s: string, prev: char)
    requires Snaky(s)
    ensures ProperFrom(ToCamelCase(s), prev) <==> Spaced(s, LowOrDigit(prev))
    decreases |s|
  {
    if s != "" {
      if |s| >= 2 && s[0] == '_' && LowerLetter(s[1]) {
        var c, rest := UpperChar(s[1]), ToCamelCase(s[2..]);
        SpacedIff(s[2..], c);
        ConsParts(c, rest);
      } else {
        var rest := ToCamelCase(s[1..]);
        SpacedIff(s[1..], s[0]);
        ConsParts(s[0], rest);
        if s[0] == '_' && rest != "" && Letter(rest[0]) { assert !Spaced(s[1..], false); }
      }
    }
  }

  lemma {:induction false} SplitJoinSnaky(fold: Folding, k: string)
    requires fold.Lawful()
    ensures Snaky(fold.Snake(k))
  {
    var s := JoinDashes(SplitCaps(k), false);
    JoinedDashFree(SplitCaps(k), false);
    assert DashFree(fold.lower(s));
    forall i | 0 <= i < |fold.lower(s)| ensures !Cap(fold.lower(s)[i]) {
      assert fold.fixed(fold.lower(s)[i]);
    }
  }

  /** What comes back is a key that survives, so that a second round trip changes nothing, exactly when
      the snake case of the key is spaced. */
  lemma BackSurvivesIff(fold: Folding, k: string)
    requires fold.Lawful()
    ensures fold.Survives(ToCamelCase(fold.Snake(k))) <==> fold.Spaces(k)
  {
    SplitJoinSnaky(fold, k);
    SpacedIff(fold.Snake(k), '_');
    ProperFromStart(ToCamelCase(fold.Snake(k)));
    fold.CamelPlain(fold.Snake(k));
  }

  lemma AlnumComesBack(fold: Folding, k: string)
    requires fold.Lawful() && Alnum(k)
    ensures fold.Spaces(k)
  {
    ThereAndBack(fold, k);
    FlatIsProper(k);
    SteadyMeans(Flat(k));
    fold.CamelPlain(fold.Snake(k));
    BackSurvivesIff(fold, k);
  }

  // ---------- payloads ----------

  type Renaming = string -> string

  function Normalize(f: Renaming, j: Json): Json
    decreases j, 1
  {
    match j
    case Arr(items) => Arr(NormalizeAll(f, items))
    case Obj(fields) => Obj(NormalizeFields(f, fields, []))
    case _ => j
  }

  function NormalizeAll(f: Renaming, items: seq<Json>): (r: seq<Json>)
    ensures |r| == |items|
    decreases items, 0
  {
    if items == [] then [] else [Normalize(f, items[0])] + NormalizeAll(f, items[1..])
  }

  /** The loop that fills the output record; a later key overwrites an equal earlier one. */
  function NormalizeFields(f: Renaming, fields: seq<Field>, out: seq<Field>): seq<Field>
    decreases fields, 0
  {
    if fields == [] then out
    else NormalizeFields(f, fields[1..], Set(out, f(fields[0].key), Normalize(f, fields[0].value)))
  }

  method NormalizeValue(f: Renaming, j: Json) returns (r: Json)
    ensures r == Normalize(f, j)
    decreases j
  {
    match j {
      case Arr(items) =>
        var out: seq<Json> := [];
        for i := 0 to |items|
          invariant out + NormalizeAll(f, items[i..]) == NormalizeAll(f, items)
        {
          assert items[i..][0] == items[i] && items[i..][1..] == items[i + 1..];
          var v := NormalizeValue(f, items[i]);
          Assoc(out, [v], NormalizeAll(f, items[i + 1..]));
          out := out + [v];
        }
        assert out + [] == out;
        return Arr(out);
      case Obj(fields) =>
        var out: seq<Field> := [];
        for i := 0 to |fields|
          invariant NormalizeFields(f, fields[i..], out) == NormalizeFields(f, fields, [])
        {
          assert fields[i..][0] == fields[i] && fields[i..][1..] == fields[i + 1..];
          var v := NormalizeValue(f, fields[i].value);
          out := Set(out, f(fields[i].key), v);
        }
        return Obj(out);
      case _ => return j;
    }
  }

  /** Every key of the payload satisfies `p`. */
  predicate AllKeys(p: string -> bool, j: Json)
    decreases j
  {
    match j
    case Arr(items) => forall i :: 0 <= i < |items| ==> AllKeys(p, items[i])
    case Obj(fields) => forall i :: 0 <= i < |fields| ==> p(fields[i].key) && AllKeys(p, fields[i].value)
    case _ => true
  }

  ghost predicate Undoes(f: Renaming, g: Renaming, p: string -> bool) {
    forall k :: p(k) ==> g(f(k)) == k
  }

  function Renamed(f: Renaming, fields: seq<Field>): (r: seq<Field>)
    ensures |r| == |fields|
    ensures forall i :: 0 <= i < |r| ==> r[i] == Field(f(fields[i].key), Normalize(f, fields[i].value))
  {
    seq(|fields|, i requires 0 <= i < |fields| => Field(f(fields[i].key), Normalize(f, fields[i].value)))
  }

  /** Without collisions the output record lists the renamed fields in order. */
  lemma {:induction false} NoCollisions(f: Renaming, fields: seq<Field>, out: seq<Field>)
    requires DistinctKeys(out + Renamed(f, fields))
    ensures NormalizeFields(f, fields, out) == out + Renamed(f, fields)
    decreases |fields|
  {
    if fields == [] {
      assert out + Renamed(f, fields) == out;
    } else {
      var head := Field(f(fields[0].key), Normalize(f, fields[0].value));
      assert Renamed(f, fields) == [head] + Renamed(f, fields[1..]);
      Assoc(out, [head], Renamed(f, fields[1..]));
      var all := out + [head] + Renamed(f, fields[1..]);
      assert all[|out|] == head && forall i :: 0 <= i < |out| ==> all[i] == out[i];
      IndexOfKeyNone(out, head.key);
      NoCollisions(f, fields[1..], out + [head]);
    }
  }

  /** A renaming that can be undone keeps the keys of every object apart. */
  lemma RenamedDistinct(f: Renaming, g: Renaming, p: string -> bool, fields: seq<Field>)
    requires Undoes(f, g, p) && DistinctKeys(fields) && forall i :: 0 <= i < |fields| ==> p(fields[i].key)
    ensures DistinctKeys(Renamed(f, fields))
  {
    var r := Renamed(f, fields);
    forall i, j | 0 <= i < j < |r| ensures r[i].key != r[j].key {
      assert g(r[i].key) == fields[i].key && g(r[j].key) == fields[j].key;
    }
  }

  /** Normalizing back undoes normalizing, at every depth. */
  lemma {:induction false} NormalizeUndone(f: Renaming, g: Renaming, p: string -> bool, j: Json)
    requires Undoes(f, g, p) && WellFormed(j) && AllKeys(p, j)
    ensures Normalize(g, Normalize(f, j)) == j
    decreases j, 1
  {
    match j
    case Arr(items) => NormalizeAllUndone(f, g, p, items);
    case Obj(fields) =>
      RenamedDistinct(f, g, p, fields);
      var there := Renamed(f, fields);
      assert [] + there == there;
      NoCollisions(f, fields, []);
      var back := Renamed(g, there);
      forall i | 0 <= i < |fields| ensures back[i] == fields[i] {
        NormalizeUndone(f, g, p, fields[i].value);
      }
      assert back == fields && [] + back == back;
      NoCollisions(g, there, []);
    case _ =>
  }

  lemma {:induction false} NormalizeAllUndone(f: Renaming, g: Renaming, p: string -> bool, items: seq<Json>)
    requires Undoes(f, g, p) && forall i :: 0 <= i < |items| ==> WellFormed(items[i]) && AllKeys(p, items[i])
    ensures NormalizeAll(g, NormalizeAll(f, items)) == items
    decreases items, 0
  {
    if items != [] {
      NormalizeUndone(f, g, p, items[0]);
      NormalizeAllUndone(f, g, p, items[1..]);
      assert NormalizeAll(f, items)[1..] == NormalizeAll(f, items[1..]);
      assert [items[0]] + items[1..] == items;
    }
  }

  // ---------- and only then ----------

  /** The loop never has more fields than it was given, and has as many only without collisions. */
  lemma {:induction false} LengthTells(f: Renaming, fields: seq<Field>, out: seq<Field>)
    requires DistinctKeys(out)
    ensures |NormalizeFields(f, fields, out)| <= |out| + |fields|
    ensures |NormalizeFields(f, fields, out)| == |out| + |fields| ==> DistinctKeys(out + Renamed(f, fields))
    decreases |fields|
  {
    if fields == [] {
      assert out + Renamed(f, fields) == out;
    } else {
      var head := Field(f(fields[0].key), Normalize(f, fields[0].value));
      IndexOfKeyNone(out, head.key);
      LengthTells(f, fields[1..], Set(out, head.key, head.value));
      if !Has(out, head.key) {
        assert Renamed(f, fields) == [head] + Renamed(f, fields[1..]);
        Assoc(out, [head], Renamed(f, fields[1..]));
      }
    }
  }

  lemma RenamedInPlace(f: Renaming, fields: seq<Field>)
    requires |NormalizeFields(f, fields, [])| == |fields|
    ensures NormalizeFields(f, fields, []) == Renamed(f, fields)
  {
    LengthTells(f, fields, []);
    assert [] + Renamed(f, fields) == Renamed(f, fields);
    NoCollisions(f, fields, []);
  }

  /** If normalizing there and back gives the payload back, it gives each of its keys back. */
  lemma {:induction false} UndoneKeys(f: Renaming, g: Renaming, p: string -> bool, j: Json)
    requires Normalize(g, Normalize(f, j)) == j && forall k :: g(f(k)) == k ==> p(k)
    ensures AllKeys(p, j)
    decreases j, 1
  {
    match j
    case Arr(items) => UndoneAllKeys(f, g, p, items);
    case Obj(fields) =>
      var there := NormalizeFields(f, fields, []);
      LengthTells(f, fields, []);
      LengthTells(g, there, []);
      RenamedInPlace(f, fields);
      RenamedInPlace(g, there);
      forall i | 0 <= i < |fields| ensures p(fields[i].key) && AllKeys(p, fields[i].value) {
        assert Renamed(g, there)[i] == fields[i];
        UndoneKeys(f, g, p, fields[i].value);
      }
    case _ =>
  }

  lemma {:induction false} UndoneAllKeys(f: Renaming, g: Renaming, p: string -> bool, items: seq<Json>)
    requires NormalizeAll(g, NormalizeAll(f, items)) == items && forall k :: g(f(k)) == k ==> p(k)
    ensures forall i :: 0 <= i < |items| ==> AllKeys(p, items[i])
    decreases items, 0
  {
    if items != [] {
      var there := NormalizeAll(f, items);
      assert there[1..] == NormalizeAll(f, items[1..]);
      assert NormalizeAll(g, there)[1..] == NormalizeAll(g, there[1..]);
      UndoneKeys(f, g, p, items[0]);
      UndoneAllKeys(f, g, p, items[1..]);
    }
  }

  /** A payload survives the way to snake case and back exactly when every key of it, at any depth,
      does. */
  lemma RoundTripIff(fold: Folding, j: Json)
    requires fold.Lawful() && WellFormed(j)
    ensures Normalize(ToCamelCase, Normalize(fold.Snake, j)) == j <==> AllKeys(fold.Survives, j)
  {
    forall k ensures ToCamelCase(fold.Snake(k)) == k <==> fold.Survives(k) { fold.KeyRoundTripIff(k); }
    if AllKeys(fold.Survives, j) { NormalizeUndone(fold.Snake, ToCamelCase, fold.Survives, j); }
    if Normalize(ToCamelCase, Normalize(fold.Snake, j)) == j {
      UndoneKeys(fold.Snake, ToCamelCase, fold.Survives, j);
    }
  }

  ghost predicate Maps(f: Renaming, p: string -> bool, q: string -> bool) {
    forall k :: p(k) ==> q(f(k))
  }

  /** Where a renaming leads, all keys of the result are. */
  lemma {:induction false} NormalizeKeys(f: Renaming, p: string -> bool, q: string -> bool, j: Json)
    requires Maps(f, p, q) && AllKeys(p, j)
    ensures AllKeys(q, Normalize(f, j))
    decreases j, 1
  {
    match j
    case Arr(items) => NormalizeAllKeys(f, p, q, items);
    case Obj(fields) => NormalizeFieldsKeys(f, p, q, fields, []);
    case _ =>
  }

  lemma {:induction false} NormalizeAllKeys(f: Renaming, p: string -> bool, q: string -> bool, items: seq<Json>)
    requires Maps(f, p, q) && forall i :: 0 <= i < |items| ==> AllKeys(p, items[i])
    ensures forall i :: 0 <= i < |items| ==> AllKeys(q, NormalizeAll(f, items)[i])
    decreases items, 0
  {
    if items != [] {
      NormalizeKeys(f, p, q, items[0]);
      NormalizeAllKeys(f, p, q, items[1..]);
    }
  }

  lemma {:induction false} NormalizeFieldsKeys(f: Renaming, p: string -> bool, q: string -> bool,
                                               fields: seq<Field>, out: seq<Field>)
    requires Maps(f, p, q) && AllKeys(p, Obj(fields)) && AllKeys(q, Obj(out))
    ensures AllKeys(q, Obj(NormalizeFields(f, fields, out)))
    decreases fields, 0
  {
    if fields != [] {
      NormalizeKeys(f, p, q, fields[0].value);
      NormalizeFieldsKeys(f, p, q, fields[1..], Set(out, f(fields[0].key), Normalize(f, fields[0].value)));
    }
  }

  lemma BackKeys(f: Renaming, g: Renaming, p: string -> bool, q: string -> bool, j: Json)
    requires AllKeys(p, j) && forall k :: p(k) ==> q(g(f(k)))
    ensures AllKeys(q, Normalize(g, Normalize(f, j)))
  {
    var back := (k: string) => q(g(k));
    NormalizeKeys(f, p, back, j);
    NormalizeKeys(g, back, q, Normalize(f, j));
  }

  /** If every key of a payload is spaced in snake case, as keys of letters and digits are, every key
      that comes back survives, and a second round trip changes nothing. */
  lemma BackSurvives(fold: Folding, j: Json)
    requires fold.Lawful() && AllKeys(fold.Spaces, j)
    ensures AllKeys(fold.Survives, Normalize(ToCamelCase, Normalize(fold.Snake, j)))
  {
    forall k | fold.Spaces(k) ensures fold.Survives(ToCamelCase(fold.Snake(k))) { BackSurvivesIff(fold, k); }
    BackKeys(fold.Snake, ToCamelCase, fold.Spaces, fold.Survives, j);
  }

  /** A leading underscore makes a leading capital, which does not survive a second time. */
  lemma LeadingUnderscore(fold: Folding)
    requires fold.Lawful()
    ensures ToCamelCase(fold.Snake("_a")) == "A" && !fold.Survives("A")
  {
    var k := "_a";
    fold.PlainSnake(k);
    assert k[1..] == "a" && SplitCaps("a") == "a" && SplitCaps(k) == "_" + "a";
    NoDashes(k);
    assert Lower(k) == k && k[2..] == "";
    assert !ProperAt("A", 0);
  }

  /** On the way no two surviving keys of an object collide: each object keeps all its fields, renamed. */
  lemma SnakeKeepsFields(fold: Folding, fields: seq<Field>)
    requires fold.Lawful() && DistinctKeys(fields) && forall i :: 0 <= i < |fields| ==> fold.Survives(fields[i].key)
    ensures NormalizeFields(fold.Snake, fields, []) == Renamed(fold.Snake, fields)
    ensures DistinctKeys(Renamed(fold.Snake, fields))
  {
    forall k | fold.Survives(k) ensures ToCamelCase(fold.Snake(k)) == k { fold.KeyRoundTripIff(k); }
    RenamedDistinct(fold.Snake, ToCamelCase, fold.Survives, fields);
    assert [] + Renamed(fold.Snake, fields) == Renamed(fold.Snake, fields);
    NoCollisions(fold.Snake, fields, []);
  }

  /** Two capitals in a row do not come back, nor does an underscore before a letter. */
  lemma AcronymIsLost(fold: Folding)
    requires fold.Lawful()
    ensures ToCamelCase(fold.Snake("userID")) != "userID" && ToCamelCase(fold.Snake("user_id")) != "user_id"
  {
    assert !ProperAt("userID", 5) && !ProperAt("user_id", 4);
    fold.KeyRoundTripIff("userID");
    fold.KeyRoundTripIff("user_id");
  }
}
