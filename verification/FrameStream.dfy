/** The incremental frame reader: bytes arrive in arbitrary chunks, complete frames are taken
    off the front of a buffer. Bodies are decoded by an arbitrary function. */
module FrameStream {
  import opened Sequences
  import opened FrameCodec

  datatype ErrorKind = MissingLength | MalformedLength | TooLarge | Undecodable | NullBody

  datatype Item<+V> = Message(value: V) | ProtocolError(kind: ErrorKind)

  /** What the front of a buffer holds: too little to tell (with the frame's length, once its
      header is in), a header to reject, or a complete frame. */
  datatype Next =
    | Wait(expected: Option<nat>)
    | Reject(kind: ErrorKind, headerLength: nat)
    | Frame(start: nat, end: nat)
  {
    predicate Bounded(size: nat) {
      && (Frame? ==> 1 <= start <= end <= size)
      && (Reject? ==> headerLength <= size)
      && (Wait? && expected.Some? ==> size < expected.value)
    }
  }

  type Decoder<!V> = seq<byte> -> Option<V>

  function NextFrame(buf: seq<byte>, max: nat): (r: Next)
    ensures r.Bounded(|buf|)
  {
    match HeaderEnd(buf)
    case None => Wait(None)
    case Some(k) =>
      var h := ParseHeaders(AsciiText(buf[..k]));
      if h.contentLength.None? || h.malformed then Reject(if h.malformed then MalformedLength else MissingLength, k + 4)
      else if h.contentLength.value > max then Reject(TooLarge, k + 4)
      else if |buf| < k + 4 + h.contentLength.value then Wait(Some(k + 4 + h.contentLength.value))
      else Frame(k + 4, k + 4 + h.contentLength.value)
  }

  datatype Drained<+V> = Drained(items: seq<Item<V>>, rest: seq<byte>, expected: Option<nat>)

  function Concat(chunks: seq<seq<byte>>): seq<byte> {
    if chunks == [] then [] else chunks[0] + Concat(chunks[1..])
  }

  ghost predicate SameReading<V>(x: Drained<V>, y: Drained<V>) {
    x.items == y.items && x.rest == y.rest
  }

  /** A reader over any way of recognising the front of a buffer. */
  datatype Reader<!V> = Reader(front: seq<byte> -> Next, decode: Decoder<V>) {

    function At(buf: seq<byte>): (r: Next)
      ensures r.Bounded(|buf|)
    {
      if front(buf).Bounded(|buf|) then front(buf) else Wait(None)
    }

    function ItemOf(body: seq<byte>): Item<V> {
      match decode(body)
      case None => ProtocolError(Undecodable)
      case Some(v) => Message(v)
    }

    /** The drain loop: what it hands on, what stays buffered, and the expected-length field. */
    function Drain(buf: seq<byte>, expected: Option<nat>): Drained<V>
      decreases |buf|
    {
      match At(buf)
      case Wait(e) => Drained([], buf, if e.Some? then e else expected)
      case Reject(kind, _) => Drained([ProtocolError(kind)], [], expected)
      case Frame(start, end) =>
        var d := Drain(buf[end..], None);
        Drained([ItemOf(buf[start..end])] + d.items, d.rest, d.expected)
    }

    /** A run of data events, starting from a given buffer. */
    function FeedAll(buf: seq<byte>, expected: Option<nat>, chunks: seq<seq<byte>>): Drained<V>
      decreases |chunks|
    {
      if chunks == [] then Drained([], buf, expected)
      else
        var d := Drain(buf + chunks[0], expected);
        var more := FeedAll(d.rest, d.expected, chunks[1..]);
        Drained(d.items + more.items, more.rest, more.expected)
    }

    /** The bytes that a rejected header takes down with it. */
    function Lost(buf: seq<byte>): seq<byte>
      decreases |buf|
    {
      match At(buf)
      case Wait(_) => []
      case Reject(_, n) => buf[n..]
      case Frame(_, end) => Lost(buf[end..])
    }

    predicate Rejects(buf: seq<byte>)
      decreases |buf|
    {
      match At(buf)
      case Wait(_) => false
      case Reject(_, _) => true
      case Frame(_, end) => Rejects(buf[end..])
    }

    // ---------- decisions about the front are stable ----------

    /** Whatever the front of `a` decides, later bytes do not undo. */
    ghost predicate StableOn(a: seq<byte>, b: seq<byte>) {
      match At(a)
      case Wait(None) => true
      case Wait(Some(n)) => if |a + b| < n then At(a + b) == At(a) else At(a + b).Frame? && At(a + b).end == n
      case Reject(_, _) => At(a + b) == At(a)
      case Frame(_, _) => At(a + b) == At(a)
    }

    /** The decision does not wait for bytes beyond the header or the frame it is about. */
    ghost predicate EarlyOn(buf: seq<byte>, cut: nat) {
      cut <= |buf| && ((At(buf).Frame? && At(buf).end <= cut) || (At(buf).Reject? && At(buf).headerLength <= cut)) ==>
        At(buf[..cut]) == At(buf)
    }

    ghost predicate Stable() {
      && At([]) == Wait(None)
      && (forall a, b :: StableOn(a, b))
      && (forall buf, cut :: EarlyOn(buf, cut))
    }

    // ---------- the expected-length field ----------

    /** The field is set exactly when a valid but incomplete frame stands at the front. */
    ghost predicate Synced(buf: seq<byte>, expected: Option<nat>) {
      At(buf) == Wait(expected)
    }

    lemma {:induction false} DrainSyncs(buf: seq<byte>, expected: Option<nat>)
      requires Stable() && (expected.Some? ==> !At(buf).Reject? && At(buf) != Wait(None))
      ensures Synced(Drain(buf, expected).rest, Drain(buf, expected).expected)
      decreases |buf|
    {
      match At(buf)
      case Frame(start, end) => DrainSyncs(buf[end..], None);
      case _ =>
    }

    lemma FeedSyncs(buf: seq<byte>, expected: Option<nat>, chunk: seq<byte>)
      requires Stable() && Synced(buf, expected)
      ensures Synced(Drain(buf + chunk, expected).rest, Drain(buf + chunk, expected).expected)
    {
      assert StableOn(buf, chunk);
      DrainSyncs(buf + chunk, expected);
    }

    /** After any data events the field is set exactly for an incomplete frame at the front of the
        buffer, so the truncation test at the end of input fires exactly when bytes are left. */
    lemma {:induction false} TruncationTest(buf: seq<byte>, e: Option<nat>, chunks: seq<seq<byte>>)
      requires Stable() && Synced(buf, e)
      ensures var d := FeedAll(buf, e, chunks);
        Synced(d.rest, d.expected) && ((d.expected.Some? || d.rest != []) <==> d.rest != [])
      decreases |chunks|
    {
      if chunks != [] {
        FeedSyncs(buf, e, chunks[0]);
        var d := Drain(buf + chunks[0], e);
        TruncationTest(d.rest, d.expected, chunks[1..]);
      }
    }

    /** The field never influences what is read. */
    lemma FieldIrrelevant(buf: seq<byte>, e: Option<nat>)
      ensures Drain(buf, e).items == Drain(buf, None).items && Drain(buf, e).rest == Drain(buf, None).rest
    {
    }

    // ---------- chunks ----------

    lemma DrainFrame(buf: seq<byte>, start: nat, end: nat)
      requires At(buf) == Frame(start, end)
      ensures Drain(buf, None).items == [ItemOf(buf[start..end])] + Drain(buf[end..], None).items
      ensures Drain(buf, None).rest == Drain(buf[end..], None).rest && Lost(buf) == Lost(buf[end..])
    {
    }

    /** A frame yields its message, or one error if it cannot be decoded, and reading goes on behind it. */
    lemma FrameYields(buf: seq<byte>, e: Option<nat>, start: nat, end: nat)
      requires At(buf) == Frame(start, end)
      ensures var rest, body := Drain(buf[end..], None), decode(buf[start..end]);
        Drain(buf, e) == Drained(
          [if body.Some? then Message(body.value) else ProtocolError(Undecodable)] + rest.items,
          rest.rest, rest.expected)
    {
    }

    lemma DrainFrameSplit(a: seq<byte>, b: seq<byte>, start: nat, end: nat, rest: Drained<V>, more: Drained<V>)
      requires At(a) == Frame(start, end) && At(a + b) == Frame(start, end) && rest == Drain(a[end..], None)
      requires Drain(a[end..] + b, None).items == rest.items + more.items && Drain(a[end..] + b, None).rest == more.rest
      ensures Drain(a, None).items == [ItemOf(a[start..end])] + rest.items && Drain(a, None).rest == rest.rest
      ensures Drain(a + b, None).items == Drain(a, None).items + more.items && Drain(a + b, None).rest == more.rest
      ensures Lost(a + b) == Lost(a[end..] + b)
    {
      DrainFrame(a, start, end);
      DrainFrame(a + b, start, end);
      assert (a + b)[end..] == a[end..] + b;
      assert (a + b)[start..end] == a[start..end];
      Assoc([ItemOf(a[start..end])], rest.items, more.items);
    }

    /** Without a rejected header, draining a prefix first changes nothing. */
    lemma {:induction false} DrainSplit(a: seq<byte>, b: seq<byte>)
      requires Stable() && !Rejects(a)
      ensures var d := Drain(a, None); var more := Drain(d.rest + b, None);
        && Drain(a + b, None).items == d.items + more.items
        && Drain(a + b, None).rest == more.rest
        && Lost(a + b) == Lost(d.rest + b)
      decreases |a|
    {
      assert StableOn(a, b);
      match At(a)
      case Wait(_) =>
      case Frame(start, end) =>
        DrainSplit(a[end..], b);
        var rest := Drain(a[end..], None);
        DrainFrameSplit(a, b, start, end, rest, Drain(rest.rest + b, None));
    }

    /** A rejected header settles the rest: later bytes are lost with it. */
    lemma {:induction false} RejectSwallows(a: seq<byte>, b: seq<byte>)
      requires Stable() && Rejects(a)
      ensures Drain(a + b, None).items == Drain(a, None).items
      ensures Drain(a + b, None).rest == [] == Drain(a, None).rest
      ensures Lost(a + b) == Lost(a) + b
      decreases |a|
    {
      assert StableOn(a, b);
      match At(a)
      case Reject(_, n) =>
        assert (a + b)[n..] == a[n..] + b;
      case Frame(start, end) =>
        RejectSwallows(a[end..], b);
        assert (a + b)[end..] == a[end..] + b;
        assert (a + b)[start..end] == a[start..end];
    }

    lemma RejectShows(buf: seq<byte>)
      ensures At(buf).Reject? ==> exists x :: x in Drain(buf, None).items && !x.Message?
    {
      if At(buf).Reject? { assert ProtocolError(At(buf).kind) in Drain(buf, None).items; }
    }

    lemma {:induction false} NoErrorNoReject(buf: seq<byte>)
      requires forall x :: x in Drain(buf, None).items ==> x.Message?
      ensures !Rejects(buf)
      decreases |buf|
    {
      RejectShows(buf);
      match At(buf)
      case Wait(_) =>
      case Reject(_, _) =>
      case Frame(start, end) =>
        DrainFrame(buf, start, end);
        assert forall x :: x in Drain(buf[end..], None).items ==> x in Drain(buf, None).items;
        NoErrorNoReject(buf[end..]);
    }

    lemma {:induction false} FeedNothing(e: Option<nat>, chunks: seq<seq<byte>>)
      requires Stable() && Concat(chunks) == []
      ensures FeedAll([], e, chunks).items == [] && FeedAll([], e, chunks).rest == []
      decreases |chunks|
    {
      if chunks != [] {
        assert chunks[0] == [] && Concat(chunks[1..]) == [];
        assert [] + chunks[0] == [];
        FeedNothing(Drain([], e).expected, chunks[1..]);
      }
    }

    /** If no byte is lost to a rejected header, every way of cutting the input reads the same. */
    lemma {:induction false} ChunksReadTheSame(buf: seq<byte>, e: Option<nat>, chunks: seq<seq<byte>>)
      requires Stable() && At(buf).Wait? && Lost(buf + Concat(chunks)) == []
      ensures SameReading(FeedAll(buf, e, chunks), Drain(buf + Concat(chunks), None))
      decreases |chunks|
    {
      if chunks == [] {
        assert buf + Concat(chunks) == buf;
      } else {
        var a, b := buf + chunks[0], Concat(chunks[1..]);
        var d := Drain(a, e);
        assert a + b == buf + Concat(chunks);
        FieldIrrelevant(a, e);
        if Rejects(a) {
          RejectSwallows(a, b);
          FeedNothing(d.expected, chunks[1..]);
        } else {
          DrainSplit(a, b);
          DrainSyncs(a, None);
          ChunksReadTheSame(d.rest, d.expected, chunks[1..]);
        }
      }
    }

    /** As long as nothing is handed on, every byte stays. */
    lemma {:induction false} NoItemsKeepBytes(buf: seq<byte>, e: Option<nat>, chunks: seq<seq<byte>>)
      requires FeedAll(buf, e, chunks).items == []
      ensures FeedAll(buf, e, chunks).rest == buf + Concat(chunks)
      decreases |chunks|
    {
      if chunks == [] {
        assert buf + [] == buf;
      } else {
        var d := Drain(buf + chunks[0], e);
        NoItemsKeepBytes(d.rest, d.expected, chunks[1..]);
        Assoc(buf, chunks[0], Concat(chunks[1..]));
      }
    }

    lemma {:induction false} LostIsSuffix(buf: seq<byte>)
      requires Stable()
      ensures |Lost(buf)| <= |buf| && buf[|buf| - |Lost(buf)|..] == Lost(buf)
      ensures Lost(buf) != [] ==> Rejects(buf[..|buf| - |Lost(buf)|])
      decreases |buf|
    {
      var cut := |buf| - |Lost(buf)|;
      match At(buf)
      case Wait(_) =>
      case Reject(_, n) =>
        assert EarlyOn(buf, n);
      case Frame(start, end) =>
        LostIsSuffix(buf[end..]);
        assert EarlyOn(buf, cut);
        assert buf[..cut][end..] == buf[end..][..cut - end];
    }

    lemma FeedLast(b: seq<byte>, e: Option<nat>)
      ensures FeedAll([], e, [b]).items == Drain(b, None).items && FeedAll([], e, [b]).rest == Drain(b, None).rest
    {
      FieldIrrelevant(b, e);
      assert [] + b == b;
      var d, last := Drain(b, e), [b];
      assert last[1..] == [];
      assert FeedAll(d.rest, d.expected, last[1..]) == Drained([], d.rest, d.expected);
    }

    lemma FeedTwo(a: seq<byte>, b: seq<byte>)
      requires Drain(a, None).rest == []
      ensures var d := FeedAll([], None, [a, b]);
        d.items == Drain(a, None).items + Drain(b, None).items && d.rest == Drain(b, None).rest
    {
      var chunks := [a, b];
      assert [] + a == a;
      assert chunks[1..] == [b];
      FeedLast(b, Drain(a, None).expected);
    }

    lemma ConcatTwo(a: seq<byte>, b: seq<byte>)
      ensures Concat([a, b]) == a + b
    {
      var chunks, last := [a, b], [b];
      assert chunks[1..] == last && last[1..] == [];
      assert Concat(last) == b + Concat([]);
    }

    /** Cutting right after a rejected header reveals the cut. */
    lemma CutAfterReject(stream: seq<byte>) returns (chunks: seq<seq<byte>>)
      requires Stable() && Lost(stream) != []
      ensures Concat(chunks) == stream && !SameReading(FeedAll([], None, chunks), Drain(stream, None))
    {
      var lost := Lost(stream);
      LostIsSuffix(stream);
      var a := stream[..|stream| - |lost|];
      assert a + lost == stream;
      chunks := [a, lost];
      RejectSwallows(a, lost);
      FeedTwo(a, lost);
      ConcatTwo(a, lost);
      assert Drain(lost, None).items != [] || Drain(lost, None).rest != [];
    }

    /** How the input is cut into chunks is invisible exactly when no bytes follow a rejected
        header: such bytes are thrown away with the header if they arrived together with it, and
        read as a fresh stream if they arrived later. */
    lemma ChunkingInvisibleIff(stream: seq<byte>)
      requires Stable()
      ensures Lost(stream) == [] <==>
        forall chunks :: Concat(chunks) == stream ==> SameReading(FeedAll([], None, chunks), Drain(stream, None))
    {
      if Lost(stream) == [] {
        forall chunks | Concat(chunks) == stream ensures SameReading(FeedAll([], None, chunks), Drain(stream, None)) {
          assert [] + Concat(chunks) == stream;
          ChunksReadTheSame([], None, chunks);
        }
      } else {
        var chunks := CutAfterReject(stream);
      }
    }
  }

  // ---------- the bridge client's reader ----------

  /** The client's loop ends at a body that it cannot decode, and at one that decodes to null,
      whose `id` it reads all the same: the one rejects what is pending, the other throws. Frames
      behind such a body stay in the buffer. */
  datatype Client<!V> = Client(reader: Reader<V>, isNull: V -> bool) {

    function Fault(body: seq<byte>): Option<ErrorKind> {
      match reader.decode(body)
      case None => Some(Undecodable)
      case Some(v) => if isNull(v) then Some(NullBody) else None
    }

    function Drain(buf: seq<byte>): Drained<V>
      decreases |buf|
    {
      match reader.At(buf)
      case Wait(_) => Drained([], buf, None)
      case Reject(kind, _) => Drained([ProtocolError(kind)], [], None)
      case Frame(start, end) =>
        match Fault(buf[start..end])
        case Some(kind) => Drained([ProtocolError(kind)], buf[end..], None)
        case None =>
          var d := Drain(buf[end..]);
          Drained([reader.ItemOf(buf[start..end])] + d.items, d.rest, None)
    }

    function FeedAll(buf: seq<byte>, chunks: seq<seq<byte>>): Drained<V>
      decreases |chunks|
    {
      if chunks == [] then Drained([], buf, None)
      else
        var d := Drain(buf + chunks[0]);
        var more := FeedAll(d.rest, chunks[1..]);
        Drained(d.items + more.items, more.rest, None)
    }

    /** What stands behind the first body that ends the loop. */
    function Behind(buf: seq<byte>): Option<seq<byte>>
      decreases |buf|
    {
      match reader.At(buf)
      case Frame(start, end) => if Fault(buf[start..end]).Some? then Some(buf[end..]) else Behind(buf[end..])
      case _ => None
    }

    /** The loop leaves something it could have read exactly when such a body is followed by
        another complete frame or by a header to reject. */
    lemma {:induction false} LeavesUnreadIff(buf: seq<byte>)
      requires reader.Stable()
      ensures !reader.At(Drain(buf).rest).Wait? <==> Behind(buf).Some? && !reader.At(Behind(buf).value).Wait?
      decreases |buf|
    {
      match reader.At(buf)
      case Frame(start, end) => LeavesUnreadIff(buf[end..]);
      case _ =>
    }

    /** No body ended the loop, and no null was handed on. */
    ghost predicate Smooth(items: seq<Item<V>>) {
      && (forall x :: x in items ==> x != ProtocolError(Undecodable) && x != ProtocolError(NullBody))
      && (forall x :: x in items && x.Message? ==> !isNull(x.value))
    }

    lemma SmoothConcat(a: seq<Item<V>>, b: seq<Item<V>>)
      ensures Smooth(a + b) <==> Smooth(a) && Smooth(b)
    {
      assert forall x :: x in a || x in b <==> x in a + b;
    }

    lemma {:induction false} DrainsAlike(buf: seq<byte>)
      ensures Smooth(Drain(buf).items) <==> Smooth(reader.Drain(buf, None).items)
      ensures Smooth(Drain(buf).items) ==> SameReading(Drain(buf), reader.Drain(buf, None))
      decreases |buf|
    {
      match reader.At(buf)
      case Frame(start, end) =>
        var item := reader.ItemOf(buf[start..end]);
        DrainsAlike(buf[end..]);
        reader.DrainFrame(buf, start, end);
        SmoothConcat([item], reader.Drain(buf[end..], None).items);
        SmoothConcat([item], Drain(buf[end..]).items);
        if Fault(buf[start..end]).Some? {
          assert item in [item] && !Smooth([item]);
          assert ProtocolError(Fault(buf[start..end]).value) in Drain(buf).items;
        }
      case _ =>
    }

    lemma {:induction false} HandsOnNoNull(buf: seq<byte>, x: Item<V>)
      requires x in Drain(buf).items && x.Message?
      ensures !isNull(x.value)
      decreases |buf|
    {
      match reader.At(buf)
      case Frame(start, end) =>
        if Fault(buf[start..end]).None? && x != reader.ItemOf(buf[start..end]) { HandsOnNoNull(buf[end..], x); }
      case _ =>
    }

    /** Client and worker read alike on every cut of every input in which each complete body
        decodes to something other than null. */
    lemma {:induction false} ReadsAlike(buf: seq<byte>, e: Option<nat>, chunks: seq<seq<byte>>)
      ensures Smooth(FeedAll(buf, chunks).items) <==> Smooth(reader.FeedAll(buf, e, chunks).items)
      ensures Smooth(FeedAll(buf, chunks).items) ==> SameReading(FeedAll(buf, chunks), reader.FeedAll(buf, e, chunks))
      decreases |chunks|
    {
      if chunks != [] {
        var c, d := Drain(buf + chunks[0]), reader.Drain(buf + chunks[0], e);
        reader.FieldIrrelevant(buf + chunks[0], e);
        DrainsAlike(buf + chunks[0]);
        SmoothConcat(c.items, FeedAll(c.rest, chunks[1..]).items);
        SmoothConcat(d.items, reader.FeedAll(d.rest, d.expected, chunks[1..]).items);
        if Smooth(c.items) { ReadsAlike(c.rest, d.expected, chunks[1..]); }
      }
    }

    lemma {:induction false} FeedsNoNull(buf: seq<byte>, chunks: seq<seq<byte>>, x: Item<V>)
      requires x in FeedAll(buf, chunks).items && x.Message?
      ensures !isNull(x.value)
      decreases |chunks|
    {
      if chunks != [] {
        var d := Drain(buf + chunks[0]);
        if x in d.items { HandsOnNoNull(buf + chunks[0], x); } else { FeedsNoNull(d.rest, chunks[1..], x); }
      }
    }

    /** On input that the worker reads as these messages the client does so exactly when none of
        them is null. */
    lemma ReadsMessagesIff(chunks: seq<seq<byte>>, values: seq<V>)
      requires reader.FeedAll([], None, chunks) == Drained(Messages(values), [], None)
      ensures SameReading(FeedAll([], chunks), Drained(Messages(values), [], None)) <==>
        forall i :: 0 <= i < |values| ==> !isNull(values[i])
    {
      ReadsAlike([], None, chunks);
      var items := FeedAll([], chunks).items;
      if SameReading(FeedAll([], chunks), Drained(Messages(values), [], None)) {
        forall i | 0 <= i < |values| ensures !isNull(values[i]) {
          assert items[i] == Message(values[i]);
          FeedsNoNull([], chunks, items[i]);
        }
      } else if forall i :: 0 <= i < |values| ==> !isNull(values[i]) {
        assert Smooth(Messages(values));
      }
    }
  }

  // ---------- the reader of the program ----------

  function FrameReader<V>(max: nat, decode: Decoder<V>): Reader<V> {
    Reader((buf: seq<byte>) => NextFrame(buf, max), decode)
  }

  // ---------- what the front of a buffer is taken for ----------

  /** The header part ends at `k`: CR LF CR LF stands there and nowhere before. */
  ghost predicate HeaderEndsAt(buf: seq<byte>, k: nat) {
    TerminatorAt(buf, k) && forall j: nat :: j < k ==> !TerminatorAt(buf, j)
  }

  function HeaderLines(buf: seq<byte>, k: nat): seq<string>
    requires k <= |buf|
  {
    SplitCrlf(AsciiText(buf[..k]))
  }

  /** Nothing is decided before the header part has ended. */
  lemma NoHeaderWaits(buf: seq<byte>, max: nat)
    requires forall j: nat :: !TerminatorAt(buf, j)
    ensures NextFrame(buf, max) == Wait(None)
  {
  }

  /** A header is rejected exactly when not one line names Content-Length with a valid value, as missing
      if no line names it and as malformed otherwise, or else when the value exceeds the limit. */
  lemma HeaderDecides(buf: seq<byte>, max: nat, k: nat)
    requires HeaderEndsAt(buf, k)
    ensures var lines := HeaderLines(buf, k);
      NextFrame(buf, max) ==
      if LengthLines(lines) == [] then Reject(MissingLength, k + 4)
      else if !OneLength(lines) then Reject(MalformedLength, k + 4)
      else if LengthIn(lines) > max then Reject(TooLarge, k + 4)
      else if |buf| < k + 4 + LengthIn(lines) then Wait(Some(k + 4 + LengthIn(lines)))
      else Frame(k + 4, k + 4 + LengthIn(lines))
  {
    assert HeaderEnd(buf) == Some(k);
    AcceptedIff(AsciiText(buf[..k]));
    MalformedIff(AsciiText(buf[..k]));
  }

  /** A rejected header yields its error and empties the buffer, whatever stands behind it. */
  lemma RejectedHeader<V>(max: nat, decode: Decoder<V>, buf: seq<byte>, e: Option<nat>, k: nat)
    requires HeaderEndsAt(buf, k)
    requires var lines := HeaderLines(buf, k); !OneLength(lines) || LengthIn(lines) > max
    ensures var lines := HeaderLines(buf, k);
      FrameReader(max, decode).Drain(buf, e) == Drained(
        [ProtocolError(if LengthLines(lines) == [] then MissingLength
                       else if !OneLength(lines) then MalformedLength else TooLarge)], [], e)
  {
    HeaderDecides(buf, max, k);
  }

  /** A frame within the limit whose bytes are all there is taken as a frame. */
  lemma CompleteDecides(buf: seq<byte>, max: nat, k: nat, n: nat)
    requires HeaderEndsAt(buf, k) && OneLength(HeaderLines(buf, k)) && n == LengthIn(HeaderLines(buf, k)) <= max
    requires k + 4 + n <= |buf|
    ensures NextFrame(buf, max) == Frame(k + 4, k + 4 + n)
  {
    HeaderDecides(buf, max, k);
  }

  lemma FrameAt<V>(max: nat, decode: Decoder<V>, buf: seq<byte>)
    ensures FrameReader(max, decode).At(buf) == NextFrame(buf, max)
  {
  }

  /** A frame that announces more than the limit is rejected before its body arrives. */
  lemma OversizedRejected<V>(codec: Codec, n: nat, max: nat, decode: Decoder<V>, rest: seq<byte>)
    requires max < n <= MAX_SAFE_INTEGER
    ensures FrameReader(max, decode).Drain(ToBytes(HeaderText(codec, n)) + rest, None)
         == Drained([ProtocolError(TooLarge)], [], None)
  {
    HeaderReadBack(codec, n, rest);
  }

  ghost predicate AgreeWithin<V(!new)>(max: nat, f: Decoder<V>, g: Decoder<V>) {
    forall body :: |body| <= max ==> f(body) == g(body)
  }

  /** Readers that see the same frames, none longer than `max`, and decode those alike. */
  lemma {:induction false} SameFrames<V(!new)>(a: Reader<V>, b: Reader<V>, max: nat, buf: seq<byte>, e: Option<nat>)
    requires a.front == b.front && AgreeWithin(max, a.decode, b.decode)
    requires forall x :: a.front(x).Frame? ==> a.front(x).end - a.front(x).start <= max
    ensures a.Drain(buf, e) == b.Drain(buf, e)
    decreases |buf|
  {
    match a.At(buf)
    case Frame(start, end) =>
      SameFrames(a, b, max, buf[end..], None);
      assert a.decode(buf[start..end]) == b.decode(buf[start..end]);
    case _ =>
  }

  /** No body longer than the limit is ever handed to the decoder: what it would make of one does not
      matter. */
  lemma LongBodiesUnseen<V(!new)>(max: nat, f: Decoder<V>, g: Decoder<V>, buf: seq<byte>, e: Option<nat>)
    requires AgreeWithin(max, f, g)
    ensures FrameReader(max, f).Drain(buf, e) == FrameReader(max, g).Drain(buf, e)
  {
    var front := FrameReader(max, f).front;
    forall x ensures front(x).Frame? ==> front(x).end - front(x).start <= max { FrameWithin(x, max); }
    SameFrames(Reader(front, f), Reader(front, g), max, buf, e);
    SameFront(max, f, g);
  }

  lemma SameFront<V>(max: nat, f: Decoder<V>, g: Decoder<V>)
    ensures FrameReader(max, g) == Reader(FrameReader(max, f).front, g)
  {
  }

  lemma FrameWithin(buf: seq<byte>, max: nat)
    ensures NextFrame(buf, max).Frame? ==> NextFrame(buf, max).end - NextFrame(buf, max).start <= max
  {
  }

  lemma {:induction false} LongBodiesNeverSeen<V(!new)>(max: nat, f: Decoder<V>, g: Decoder<V>, buf: seq<byte>,
                                                        e: Option<nat>, chunks: seq<seq<byte>>)
    requires AgreeWithin(max, f, g)
    ensures FrameReader(max, f).FeedAll(buf, e, chunks) == FrameReader(max, g).FeedAll(buf, e, chunks)
    decreases |chunks|
  {
    if chunks != [] {
      LongBodiesUnseen(max, f, g, buf + chunks[0], e);
      var d := FrameReader(max, f).Drain(buf + chunks[0], e);
      LongBodiesNeverSeen(max, f, g, d.rest, d.expected, chunks[1..]);
    }
  }

  lemma FrameStableOn<V>(a: seq<byte>, b: seq<byte>, max: nat, decode: Decoder<V>)
    ensures FrameReader(max, decode).StableOn(a, b)
  {
    if HeaderEnd(a).Some? {
      HeaderEndStable(a, b);
      assert (a + b)[..HeaderEnd(a).value] == a[..HeaderEnd(a).value];
    }
  }

  lemma FrameEarlyOn<V>(buf: seq<byte>, cut: nat, max: nat, decode: Decoder<V>)
    ensures FrameReader(max, decode).EarlyOn(buf, cut)
  {
    var next := NextFrame(buf, max);
    if cut <= |buf| && ((next.Frame? && next.end <= cut) || (next.Reject? && next.headerLength <= cut)) {
      var k := HeaderEnd(buf).value;
      assert TerminatorAt(buf[..cut], k);
      forall j: nat | j < k ensures !TerminatorAt(buf[..cut], j) {
        assert !TerminatorAt(buf, j);
      }
      assert buf[..cut][..k] == buf[..k];
    }
  }

  lemma FrameReaderStable<V>(max: nat, decode: Decoder<V>)
    ensures FrameReader(max, decode).Stable()
  {
    forall a, b ensures FrameReader(max, decode).StableOn(a, b) { FrameStableOn(a, b, max, decode); }
    forall buf, cut ensures FrameReader(max, decode).EarlyOn(buf, cut) { FrameEarlyOn(buf, cut, max, decode); }
  }

  // ---------- well-formed streams ----------

  /** Messages a peer is asked to write, and how it encodes them. */
  datatype Sender<!V(!new)> = Sender(codec: Codec, encode: V -> seq<byte>, max: nat) {

    predicate Fits(m: V) {
      |encode(m)| <= max
    }

    /** The bytes written for one message; writing one that does not fit fails and writes none. */
    function FrameOf(m: V): seq<byte> {
      match EncodeFrame(codec, encode(m), max)
      case Ok(bytes) => bytes
      case Err(_) => []
    }

    function Written(messages: seq<V>): seq<byte> {
      FlatMap(FrameOf, messages)
    }

    function Sent(messages: seq<V>): seq<V> {
      Filter(Fits, messages)
    }

    ghost predicate DecodedBy(decode: Decoder<V>, messages: seq<V>) {
      forall i :: 0 <= i < |messages| && Fits(messages[i]) ==> decode(encode(messages[i])) == Some(messages[i])
    }

    lemma SentFits(messages: seq<V>)
      requires ValidMaxFrameBytes(max)
      ensures Written(Sent(messages)) == Written(messages)
      ensures forall i :: 0 <= i < |Sent(messages)| ==> Fits(Sent(messages)[i]) && Sent(messages)[i] in messages
    {
      forall m ensures !Fits(m) ==> FrameOf(m) == [] { EncodesIff(codec, encode(m), max); }
      FlatMapFilter(FrameOf, Fits, messages);
      forall i | 0 <= i < |Sent(messages)| ensures Fits(Sent(messages)[i]) && Sent(messages)[i] in messages {
        FilterMembers(Fits, messages, i);
      }
    }

    /** The bytes of fitting messages can be cut inside the i-th frame, right after its first byte. */
    lemma CutInside(decode: Decoder<V>, messages: seq<V>, i: nat) returns (a: seq<byte>, b: seq<byte>)
      requires ValidMaxFrameBytes(max) && DecodedBy(decode, messages) && i < |messages|
      requires forall k :: 0 <= k < |messages| ==> Fits(messages[k])
      ensures a + b == Written(messages)
      ensures var d := FrameReader(max, decode).Drain(a, None);
        d.items == Messages(messages[..i]) && d.rest != [] && d.expected == None
    {
      var r, before, after := FrameReader(max, decode), messages[..i], messages[i..];
      assert before + after == messages;
      FlatMapConcat(FrameOf, before, after);
      EncodesIff(codec, encode(after[0]), max);
      var rest := Written(after);
      assert |FrameOf(after[0])| >= 4;
      a, b := Written(before) + rest[..1], rest[1..];
      assert rest[..1] + rest[1..] == rest;
      Assoc(Written(before), rest[..1], rest[1..]);
      WrittenIsRead(decode, before);
      FilterAll(Fits, before);
      FrameReaderStable(max, decode);
      r.NoErrorNoReject(Written(before));
      OneByteWaits(r, Written(before), rest[..1], max);
    }

    lemma FirstFrame(m: V, tail: seq<byte>, decode: Decoder<V>)
      requires ValidMaxFrameBytes(max) && Fits(m)
      ensures Starts(FrameReader(max, decode), FrameOf(m) + tail, encode(m), tail)
    {
      EncodesIff(codec, encode(m), max);
      FrameReadBack(codec, encode(m), max, tail);
    }

    lemma {:induction false} WrittenIsRead(decode: Decoder<V>, messages: seq<V>)
      requires ValidMaxFrameBytes(max) && DecodedBy(decode, messages)
      ensures ReadsAs(FrameReader(max, decode), Written(messages), Sent(messages))
      decreases |messages|
    {
      var r := FrameReader(max, decode);
      if messages == [] {
        FrameReaderStable(max, decode);
      } else {
        var m, tail, sent := messages[0], Written(messages[1..]), Sent(messages[1..]);
        WrittenIsRead(decode, messages[1..]);
        if Fits(m) {
          FirstFrame(m, tail, decode);
          assert ([m] + sent)[1..] == sent;
          ReadsFirst(r, FrameOf(m) + tail, encode(m), tail, [m] + sent);
        } else {
          EncodesIff(codec, encode(m), max);
          assert [] + tail == tail && [] + sent == sent;
        }
      }
    }

    /** Whatever messages a peer writes, and however the transport cuts the bytes, the worker reads
        exactly those that fit, in order, and ends with an empty buffer and nothing expected; and
        so does the client exactly when none of them is null. */
    lemma MessagesSurviveChunking(decode: Decoder<V>, messages: seq<V>, chunks: seq<seq<byte>>, isNull: V -> bool)
      requires ValidMaxFrameBytes(max) && DecodedBy(decode, messages) && Concat(chunks) == Written(messages)
      ensures var sent := Sent(messages);
        && FrameReader(max, decode).FeedAll([], None, chunks) == Drained(Messages(sent), [], None)
        && (SameReading(Client(FrameReader(max, decode), isNull).FeedAll([], chunks),
            Drained(Messages(sent), [], None)) <==>
              forall i :: 0 <= i < |sent| ==> !isNull(sent[i]))
    {
      var r := FrameReader(max, decode);
      FrameReaderStable(max, decode);
      WrittenIsRead(decode, messages);
      assert [] + Concat(chunks) == Concat(chunks);
      r.ChunksReadTheSame([], None, chunks);
      r.TruncationTest([], None, chunks);
      Client(r, isNull).ReadsMessagesIff(chunks, Sent(messages));
    }
  }

  /** A stream that is read to its end, and the first byte of another frame. */
  lemma OneByteWaits<V>(r: Reader<V>, a: seq<byte>, b: seq<byte>, max: nat)
    requires r == FrameReader(max, r.decode) && r.Stable() && |b| == 1
    requires r.Drain(a, None).rest == [] && r.Lost(a) == [] && !r.Rejects(a)
    ensures r.Drain(a + b, None).items == r.Drain(a, None).items
    ensures r.Drain(a + b, None).rest == b && r.Drain(a + b, None).expected == None
  {
    assert [] + b == b;
    assert HeaderEnd(b) == None;
    assert r.Drain(b, None) == Drained([], b, None);
    r.DrainSplit(a, b);
    assert r.Drain(a, None).items + [] == r.Drain(a, None).items;
    r.DrainSyncs(a + b, None);
  }

  function Messages<V>(values: seq<V>): (r: seq<Item<V>>)
    ensures |r| == |values| && forall i :: 0 <= i < |r| ==> r[i] == Message(values[i])
  {
    seq(|values|, i requires 0 <= i < |values| => Message(values[i]))
  }

  /** A reader sees a frame with this body and then `tail`. */
  ghost predicate Starts<V>(r: Reader<V>, buf: seq<byte>, body: seq<byte>, tail: seq<byte>) {
    r.At(buf).Frame? && buf[r.At(buf).start..r.At(buf).end] == body && buf[r.At(buf).end..] == tail
  }

  lemma DrainFirst<V>(r: Reader<V>, buf: seq<byte>, body: seq<byte>, tail: seq<byte>)
    requires Starts(r, buf, body, tail)
    ensures r.Drain(buf, None).items == [r.ItemOf(body)] + r.Drain(tail, None).items
    ensures r.Drain(buf, None).rest == r.Drain(tail, None).rest && r.Lost(buf) == r.Lost(tail)
  {
  }

  /** Draining these bytes gives these messages and uses every byte. */
  ghost predicate ReadsAs<V>(r: Reader<V>, bytes: seq<byte>, messages: seq<V>) {
    r.Drain(bytes, None).items == Messages(messages) && r.Drain(bytes, None).rest == [] && r.Lost(bytes) == []
  }

  lemma ReadsFirst<V>(r: Reader<V>, buf: seq<byte>, body: seq<byte>, tail: seq<byte>, messages: seq<V>)
    requires messages != [] && Starts(r, buf, body, tail) && r.ItemOf(body) == Message(messages[0])
    requires ReadsAs(r, tail, messages[1..])
    ensures ReadsAs(r, buf, messages)
  {
    DrainFirst(r, buf, body, tail);
    assert Messages(messages) == [Message(messages[0])] + Messages(messages[1..]);
  }

  // ---------- a frame that stays unread ----------

  /** A null in front of another message: the client hands on neither and keeps the second frame,
      complete, in its buffer. */
  lemma NullHidesFrame<V(!new)>(sender: Sender<V>, decode: Decoder<V>, isNull: V -> bool, a: V, b: V)
    requires ValidMaxFrameBytes(sender.max) && sender.Fits(a) && sender.Fits(b)
    requires decode(sender.encode(a)) == Some(a) && isNull(a)
    ensures var r := FrameReader(sender.max, decode);
      && Client(r, isNull).Drain(sender.FrameOf(a) + sender.FrameOf(b))
         == Drained([ProtocolError(NullBody)], sender.FrameOf(b), None)
      && r.At(sender.FrameOf(b)).Frame?
  {
    sender.FirstFrame(a, sender.FrameOf(b), decode);
    sender.FirstFrame(b, [], decode);
    assert sender.FrameOf(b) + [] == sender.FrameOf(b);
  }

  // ---------- a cut that shows ----------

  /** An empty header and one more byte: in one piece the byte is thrown away with the header, in
      two it is kept. */
  lemma CutShows<V>(decode: Decoder<V>)
    ensures var r, whole, head, last := FrameReader(65536, decode), [13, 10, 13, 10, 65], [13, 10, 13, 10], [65];
      && r.Lost(whole) == last && Concat([head, last]) == whole
      && r.Drain(whole, None).rest == [] && r.FeedAll([], None, [head, last]).rest == last
  {
    var r: Reader<V> := FrameReader(65536, decode);
    var whole: seq<byte>, head: seq<byte>, last: seq<byte> := [13, 10, 13, 10, 65], [13, 10, 13, 10], [65];
    EmptyHeaderRejected(whole, 65536);
    EmptyHeaderRejected(head, 65536);
    r.ConcatTwo(head, last);
    assert head + last == whole && whole[4..] == last;
    assert r.Drain(head, None).rest == [];
    r.FeedTwo(head, last);
    assert HeaderEnd(last) == None;
  }

  lemma EmptyHeaderRejected(buf: seq<byte>, max: nat)
    requires TerminatorAt(buf, 0)
    ensures NextFrame(buf, max) == Reject(MissingLength, 4)
  {
    assert HeaderEnd(buf) == Some(0);
    assert AsciiText(buf[..0]) == "";
    AcceptedIff("");
  }
}
