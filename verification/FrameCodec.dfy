/** Framing of RPC messages: a header part of `name: value` lines ended by an empty line, then
    exactly Content-Length bytes of body (the Base Protocol of the Language Server Protocol). */
module FrameCodec {
  import opened Sequences
  import opened Text

  type byte = b: int | 0 <= b < 256

  datatype Codec = JsonRpc | MsgpackRpc

  const DEFAULT_MAX_FRAME_BYTES := 16 * 1024 * 1024
  const MIN_MAX_FRAME_BYTES := 64 * 1024
  const MAX_SAFE_INTEGER := 9007199254740991

  predicate ValidMaxFrameBytes(value: int) {
    MIN_MAX_FRAME_BYTES <= value <= DEFAULT_MAX_FRAME_BYTES
  }

  // ---------- the end of the header part ----------

  predicate TerminatorAt(buf: seq<byte>, i: nat) {
    i + 4 <= |buf| && buf[i] == 13 && buf[i + 1] == 10 && buf[i + 2] == 13 && buf[i + 3] == 10
  }

  /** The first position at or after `i` where CR LF CR LF stands. */
  function HeaderEndFrom(buf: seq<byte>, i: nat): (r: Option<nat>)
    requires i <= |buf|
    ensures r.Some? ==> i <= r.value && TerminatorAt(buf, r.value)
    ensures r.Some? ==> forall j: nat :: i <= j < r.value ==> !TerminatorAt(buf, j)
    ensures r.None? ==> forall j: nat :: i <= j ==> !TerminatorAt(buf, j)
    decreases |buf| - i
  {
    if i + 4 > |buf| then None
    else if TerminatorAt(buf, i) then Some(i)
    else HeaderEndFrom(buf, i + 1)
  }

  function HeaderEnd(buf: seq<byte>): Option<nat> {
    HeaderEndFrom(buf, 0)
  }

  method FindFrameHeaderEnd(buf: seq<byte>) returns (end: Option<nat>)
    ensures end == HeaderEnd(buf)
  {
    var index: nat := 0;
    while index + 4 <= |buf|
      invariant index <= |buf| && HeaderEndFrom(buf, index) == HeaderEnd(buf)
    {
      if buf[index] == 13 && buf[index + 1] == 10 && buf[index + 2] == 13 && buf[index + 3] == 10 {
        return Some(index);
      }
      index := index + 1;
    }
    return None;
  }

  /** More input does not move a terminator that is already there. */
  lemma HeaderEndStable(a: seq<byte>, b: seq<byte>)
    requires HeaderEnd(a).Some?
    ensures HeaderEnd(a + b) == HeaderEnd(a)
  {
    var k := HeaderEnd(a).value;
    assert TerminatorAt(a + b, k);
    forall j: nat | j < k ensures !TerminatorAt(a + b, j) {
      assert !TerminatorAt(a, j);
    }
  }

  // ---------- text ----------

  /** Decoding as ASCII keeps the low seven bits. */
  function AsciiText(bytes: seq<byte>): (s: string)
    ensures |s| == |bytes| && forall i :: 0 <= i < |s| ==> s[i] == (bytes[i] % 128) as char
  {
    seq(|bytes|, i requires 0 <= i < |bytes| => (bytes[i] % 128) as char)
  }

  function ToBytes(s: string): (r: seq<byte>)
    ensures |r| == |s| && forall i :: 0 <= i < |s| ==> r[i] == s[i] as int % 256
  {
    seq(|s|, i requires 0 <= i < |s| => s[i] as int % 256)
  }

  /** Splitting at every CR LF, left to right. */
  function SplitCrlf(s: string): (lines: seq<string>)
    ensures lines != []
  {
    if s == "" then [""]
    else if |s| >= 2 && s[0] == '\r' && s[1] == '\n' then [""] + SplitCrlf(s[2..])
    else
      var rest := SplitCrlf(s[1..]);
      [[s[0]] + rest[0]] + rest[1..]
  }

  predicate AllDigits(s: string) {
    s != "" && forall i :: 0 <= i < |s| ==> '0' <= s[i] <= '9'
  }

  function DecimalValue(s: string): nat
    requires forall i :: 0 <= i < |s| ==> '0' <= s[i] <= '9'
  {
    if s == "" then 0 else DecimalValue(s[..|s| - 1]) * 10 + (s[|s| - 1] as int - '0' as int)
  }

  function Decimal(n: nat): (s: string)
    ensures AllDigits(s) && DecimalValue(s) == n
  {
    var digit := ['0' + (n % 10) as char];
    if n < 10 then digit else Decimal(n / 10) + digit
  }

  // ---------- header fields ----------

  datatype Field = Field(name: string, value: string)

  function ColonIndex(line: string): (r: Option<nat>)
    ensures r.Some? ==> r.value < |line| && line[r.value] == ':' && ':' !in line[..r.value]
    ensures r.None? ==> ':' !in line
  {
    if line == "" then None
    else if line[0] == ':' then Some(0)
    else match ColonIndex(line[1..]) case None => None case Some(k) => Some(k + 1)
  }

  /** The field of a header line: everything before the first colon, and everything after it. */
  function FieldOf(line: string): Option<Field> {
    match ColonIndex(line)
    case None => None
    case Some(k) => if k == 0 then None else Some(Field(Lower(Trim(line[..k])), Trim(line[k + 1..])))
  }

  datatype FrameHeaders = FrameHeaders(contentLength: Option<nat>, contentType: Option<string>, malformed: bool) {
    predicate Accepted() {
      contentLength.Some? && !malformed
    }
  }

  const NO_HEADERS := FrameHeaders(None, None, false)

  predicate ValidLength(value: string) {
    AllDigits(value) && DecimalValue(value) <= MAX_SAFE_INTEGER
  }

  function ReadLine(h: FrameHeaders, line: string): FrameHeaders {
    match FieldOf(line)
    case None => h
    case Some(Field(name, value)) =>
      if name == "content-length" then
        if h.contentLength.Some? || !ValidLength(value) then h.(contentLength := None, malformed := true)
        else h.(contentLength := Some(DecimalValue(value)))
      else if name == "content-type" then h.(contentType := Some(value))
      else h
  }

  function ReadLines(h: FrameHeaders, lines: seq<string>): FrameHeaders
    decreases |lines|
  {
    if lines == [] then h else ReadLines(ReadLine(h, lines[0]), lines[1..])
  }

  function ParseHeaders(header: string): FrameHeaders {
    ReadLines(NO_HEADERS, SplitCrlf(header))
  }

  method ParseFrameHeaders(header: string) returns (h: FrameHeaders)
    ensures h == ParseHeaders(header)
  {
    h := NO_HEADERS;
    var lines := SplitCrlf(header);
    for i := 0 to |lines|
      invariant ReadLines(h, lines[i..]) == ParseHeaders(header)
    {
      assert lines[i..][0] == lines[i] && lines[i..][1..] == lines[i + 1..];
      var field := FieldOf(lines[i]);
      if field.None? { continue; }
      var value := field.value.value;
      if field.value.name == "content-length" {
        if h.contentLength.Some? || !AllDigits(value) {
          h := h.(malformed := true, contentLength := None);
          continue;
        }
        var parsed := DecimalValue(value);
        if parsed <= MAX_SAFE_INTEGER {
          h := h.(contentLength := Some(parsed));
        } else {
          h := h.(malformed := true, contentLength := None);
        }
        continue;
      }
      if field.value.name == "content-type" {
        h := h.(contentType := Some(value));
      }
    }
  }

  predicate NamesLength(line: string) {
    FieldOf(line).Some? && FieldOf(line).value.name == "content-length"
  }

  /** The lines that name Content-Length, in order. */
  function LengthLines(lines: seq<string>): seq<string> {
    Filter(NamesLength, lines)
  }

  /** Exactly one line names Content-Length, and its value is a digits-only safe integer. */
  predicate OneLength(lines: seq<string>) {
    && |LengthLines(lines)| == 1
    && FieldOf(LengthLines(lines)[0]).Some?
    && ValidLength(FieldOf(LengthLines(lines)[0]).value.value)
  }

  function LengthIn(lines: seq<string>): nat
    requires OneLength(lines)
  {
    DecimalValue(FieldOf(LengthLines(lines)[0]).value.value)
  }

  lemma {:induction false} ReadLinesAccepts(h: FrameHeaders, lines: seq<string>)
    ensures var r := ReadLines(h, lines);
      && (h.malformed ==> !r.Accepted())
      && (!h.malformed && h.contentLength.Some? ==>
            (r.Accepted() <==> LengthLines(lines) == []) && (r.Accepted() ==> r.contentLength == h.contentLength))
      && (!h.malformed && h.contentLength.None? ==>
            (r.Accepted() <==> OneLength(lines)) && (r.Accepted() ==> r.contentLength == Some(LengthIn(lines))))
    decreases |lines|
  {
    if lines != [] {
      ReadLinesAccepts(ReadLine(h, lines[0]), lines[1..]);
      assert LengthLines(lines) == (if NamesLength(lines[0]) then [lines[0]] else []) + LengthLines(lines[1..]);
    }
  }

  /** A header part is accepted exactly when one of its lines, and no second one, names
      Content-Length with a digits-only safe-integer value; that value is the body length. */
  lemma AcceptedIff(header: string)
    ensures ParseHeaders(header).Accepted() <==> OneLength(SplitCrlf(header))
    ensures ParseHeaders(header).Accepted() ==> ParseHeaders(header).contentLength == Some(LengthIn(SplitCrlf(header)))
  {
    ReadLinesAccepts(NO_HEADERS, SplitCrlf(header));
  }

  lemma {:induction false} ReadLinesMalformed(h: FrameHeaders, lines: seq<string>)
    ensures var r := ReadLines(h, lines);
      && (h.malformed ==> r.malformed)
      && (!h.malformed && h.contentLength.Some? ==> (r.malformed <==> LengthLines(lines) != []))
      && (!h.malformed && h.contentLength.None? ==> (r.malformed <==> LengthLines(lines) != [] && !OneLength(lines)))
    decreases |lines|
  {
    if lines != [] {
      ReadLinesMalformed(ReadLine(h, lines[0]), lines[1..]);
      assert LengthLines(lines) == (if NamesLength(lines[0]) then [lines[0]] else []) + LengthLines(lines[1..]);
    }
  }

  /** A header part that is not accepted is malformed exactly when some line names Content-Length. */
  lemma MalformedIff(header: string)
    ensures ParseHeaders(header).malformed <==> LengthLines(SplitCrlf(header)) != [] && !OneLength(SplitCrlf(header))
  {
    ReadLinesMalformed(NO_HEADERS, SplitCrlf(header));
  }

  /** The order of the lines does not matter. */
  lemma OrderDoesNotMatter(a: seq<string>, b: seq<string>)
    requires multiset(a) == multiset(b)
    ensures OneLength(a) <==> OneLength(b)
    ensures OneLength(a) ==> LengthIn(a) == LengthIn(b)
  {
    var p, q := LengthLines(a), LengthLines(b);
    FilterSame(NamesLength, a, b);
    SameMembers(p, q);
    if |p| == 1 {
      assert q[0] in p;
    }
  }

  // ---------- writing frames ----------

  function ContentType(codec: Codec): string {
    match codec
    case JsonRpc => "application/" + ("vscode-jsonrpc; " + "charset=utf-8")
    case MsgpackRpc => "application/" + ("x-msgpack; " + ("bridge=dh-jsonrpc; " + "version=1"))
  }

  function LengthLine(n: nat): string {
    "Content-Length" + ": " + Decimal(n)
  }

  function TypeLine(codec: Codec): string {
    "Content-Type" + ": " + ContentType(codec)
  }

  function HeaderText(codec: Codec, n: nat): string {
    LengthLine(n) + "\r\n" + TypeLine(codec) + "\r\n\r\n"
  }

  datatype EncodeError = InvalidMaxFrameBytes | BodyTooLarge
  datatype Encoded = Ok(bytes: seq<byte>) | Err(error: EncodeError)

  /** `encodeRpcFrame` on an already encoded body. */
  function EncodeFrame(codec: Codec, body: seq<byte>, maxFrameBytes: int): Encoded {
    if !ValidMaxFrameBytes(maxFrameBytes) then Err(InvalidMaxFrameBytes)
    else if |body| > maxFrameBytes then Err(BodyTooLarge)
    else Ok(ToBytes(HeaderText(codec, |body|)) + body)
  }

  /** Encoding fails exactly for an invalid limit or a body above it. */
  lemma EncodesIff(codec: Codec, body: seq<byte>, maxFrameBytes: int)
    ensures EncodeFrame(codec, body, maxFrameBytes).Ok?
        <==> ValidMaxFrameBytes(maxFrameBytes) && |body| <= maxFrameBytes
  {
  }

  predicate Plain(s: string) {
    forall i :: 0 <= i < |s| ==> s[i] != '\r' && s[i] < 128 as char
  }

  lemma PlainConcat(a: string, b: string)
    requires Plain(a) && Plain(b)
    ensures Plain(a + b)
  {
  }

  lemma PlainType(codec: Codec)
    ensures Plain(ContentType(codec))
  {
    assert Plain("application/");
    if codec == JsonRpc {
      assert Plain("vscode-jsonrpc; ") && Plain("charset=utf-8");
      PlainConcat("vscode-jsonrpc; ", "charset=utf-8");
      PlainConcat("application/", "vscode-jsonrpc; " + "charset=utf-8");
    } else {
      assert Plain("bridge=dh-jsonrpc; ") && Plain("version=1") && Plain("x-msgpack; ");
      var last := "bridge=dh-jsonrpc; " + "version=1";
      PlainConcat("bridge=dh-jsonrpc; ", "version=1");
      PlainConcat("x-msgpack; ", last);
      PlainConcat("application/", "x-msgpack; " + last);
    }
  }

  lemma PlainLines(codec: Codec, n: nat)
    ensures Plain(LengthLine(n)) && Plain(TypeLine(codec))
  {
    PlainType(codec);
    PlainConcat("Content-Length" + ": ", Decimal(n));
    PlainConcat("Content-Type" + ": ", ContentType(codec));
  }

  lemma {:induction false} SplitPlain(a: string)
    requires Plain(a)
    ensures SplitCrlf(a) == [a]
  {
    if a != "" {
      SplitPlain(a[1..]);
      assert [a[0]] + a[1..] == a;
    }
  }

  lemma {:induction false} SplitFirst(a: string, b: string)
    requires Plain(a)
    ensures SplitCrlf(a + "\r\n" + b) == [a] + SplitCrlf(b)
  {
    var s := a + "\r\n" + b;
    if a == "" {
      assert s[2..] == b;
    } else {
      SplitFirst(a[1..], b);
      assert s[1..] == a[1..] + "\r\n" + b;
      assert [a[0]] + a[1..] == a;
    }
  }

  /** Two plain lines and the terminator: the header part ends where the terminator begins. */
  lemma TwoLineHeader(a: string, b: string, tail: seq<byte>)
    requires Plain(a) && Plain(b) && b != ""
    ensures HeaderEnd(ToBytes(a + "\r\n" + b + "\r\n\r\n") + tail) == Some(|a| + 2 + |b|)
    ensures AsciiText((ToBytes(a + "\r\n" + b + "\r\n\r\n") + tail)[..|a| + 2 + |b|]) == a + "\r\n" + b
  {
    var head := a + "\r\n" + b;
    var buf := ToBytes(head + "\r\n\r\n") + tail;
    assert forall i :: 0 <= i < |head| ==> buf[i] == head[i] as int;
    assert buf[|head|] == 13 && buf[|head| + 1] == 10 && buf[|head| + 2] == 13 && buf[|head| + 3] == 10;
    assert TerminatorAt(buf, |head|);
    forall j: nat | j < |head| ensures !TerminatorAt(buf, j) {
      CrOnlyBetween(a, b, j);
    }
  }

  /** The one CR LF in two plain lines is not followed by another. */
  lemma CrOnlyBetween(a: string, b: string, j: nat)
    requires Plain(a) && Plain(b) && b != "" && j < |a + "\r\n" + b|
    ensures var head := a + "\r\n" + b;
      head[j] != '\r' || (j + 2 < |head| && head[j + 2] != '\r')
  {
  }

  predicate Tight(s: string) {
    s != "" && !IsSpace(s[0]) && !IsSpace(s[|s| - 1])
  }

  lemma TrimTight(s: string)
    requires Tight(s)
    ensures Trim(s) == s && Trim(" " + s) == s
  {
    assert (" " + s)[1..] == s;
  }

  lemma FirstColon(name: string, rest: string)
    requires ':' !in name
    ensures ColonIndex(name + ":" + rest) == Some(|name|)
  {
    var line := name + ":" + rest;
    assert line[|name|] == ':';
    var k := ColonIndex(line).value;
    assert forall i :: 0 <= i < |name| ==> line[i] == name[i] && name[i] in name;
    assert forall i :: 0 <= i < k ==> line[..k][i] in line[..k];
  }

  /** A line `name: value` without stray spaces reads as that field. */
  lemma FieldOfLine(name: string, value: string)
    requires Tight(name) && Tight(value) && ':' !in name
    ensures FieldOf(name + ": " + value) == Some(Field(Lower(name), value))
  {
    var line := name + ": " + value;
    assert line == name + ":" + (" " + value);
    FirstColon(name, " " + value);
    assert line[..|name|] == name && line[|name| + 1..] == " " + value;
    TrimTight(name);
    TrimTight(value);
  }

  lemma NamesLowered()
    ensures Lower("Content-Length") == "content-length" && Lower("Content-Type") == "content-type"
    ensures ':' !in "Content-Length" && ':' !in "Content-Type"
  {
  }

  lemma TypeTight(codec: Codec)
    ensures Tight(ContentType(codec))
  {
  }

  lemma LengthLineField(n: nat)
    ensures FieldOf(LengthLine(n)) == Some(Field("content-length", Decimal(n)))
  {
    NamesLowered();
    FieldOfLine("Content-Length", Decimal(n));
  }

  lemma TypeLineField(codec: Codec)
    ensures FieldOf(TypeLine(codec)) == Some(Field("content-type", ContentType(codec)))
  {
    NamesLowered();
    TypeTight(codec);
    FieldOfLine("Content-Type", ContentType(codec));
  }

  lemma ParseTwoLines(a: string, b: string, length: string, contentType: string)
    requires Plain(a) && Plain(b) && ValidLength(length)
    requires FieldOf(a) == Some(Field("content-length", length))
    requires FieldOf(b) == Some(Field("content-type", contentType))
    ensures ParseHeaders(a + "\r\n" + b) == FrameHeaders(Some(DecimalValue(length)), Some(contentType), false)
  {
    SplitFirst(a, b);
    SplitPlain(b);
    var h := ReadLine(NO_HEADERS, a);
    assert h == NO_HEADERS.(contentLength := Some(DecimalValue(length)));
    assert [a, b][1..] == [b] && [b][1..] == [];
    assert ReadLines(NO_HEADERS, [a, b]) == ReadLines(h, [b]);
    assert ReadLines(h, [b]) == ReadLines(ReadLine(h, b), []);
    assert ReadLine(h, b) == h.(contentType := Some(contentType));
  }

  lemma TwoLinesReadBack(a: string, b: string, length: string, contentType: string, rest: seq<byte>)
    requires Plain(a) && Plain(b) && b != "" && ValidLength(length)
    requires FieldOf(a) == Some(Field("content-length", length))
    requires FieldOf(b) == Some(Field("content-type", contentType))
    ensures var text := a + "\r\n" + b + "\r\n\r\n";
      var end := HeaderEnd(ToBytes(text) + rest);
      && end == Some(|text| - 4)
      && ParseHeaders(AsciiText((ToBytes(text) + rest)[..end.value]))
         == FrameHeaders(Some(DecimalValue(length)), Some(contentType), false)
  {
    TwoLineHeader(a, b, rest);
    ParseTwoLines(a, b, length, contentType);
  }

  lemma HeaderReadBack(codec: Codec, n: nat, rest: seq<byte>)
    requires n <= MAX_SAFE_INTEGER
    ensures var buf := ToBytes(HeaderText(codec, n)) + rest;
      var end := HeaderEnd(buf);
      && end == Some(|HeaderText(codec, n)| - 4)
      && ParseHeaders(AsciiText(buf[..end.value])) == FrameHeaders(Some(n), Some(ContentType(codec)), false)
  {
    PlainLines(codec, n);
    LengthLineField(n);
    TypeLineField(codec);
    TwoLinesReadBack(LengthLine(n), TypeLine(codec), Decimal(n), ContentType(codec), rest);
  }

  /** An encoded frame, whatever follows it, is read back: its header part ends where it should,
      announces exactly the body's length and type, and is followed by the body and the rest. */
  lemma FrameReadBack(codec: Codec, body: seq<byte>, maxFrameBytes: int, tail: seq<byte>)
    requires EncodeFrame(codec, body, maxFrameBytes).Ok?
    ensures var buf := EncodeFrame(codec, body, maxFrameBytes).bytes + tail;
      var end := HeaderEnd(buf);
      && end.Some? && end.value + 4 + |body| <= |buf|
      && ParseHeaders(AsciiText(buf[..end.value])) == FrameHeaders(Some(|body|), Some(ContentType(codec)), false)
      && buf[end.value + 4..end.value + 4 + |body|] == body && buf[end.value + 4 + |body|..] == tail
  {
    var head := ToBytes(HeaderText(codec, |body|));
    Assoc(head, body, tail);
    HeaderReadBack(codec, |body|, body + tail);
    FrameParts(head, body, tail);
  }

  lemma FrameParts(head: seq<byte>, body: seq<byte>, tail: seq<byte>)
    ensures var buf := head + (body + tail);
      buf[|head|..|head| + |body|] == body && buf[|head| + |body|..] == tail
  {
  }
}
