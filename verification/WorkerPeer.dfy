/** The worker's JSON-RPC peer: a table of pending requests that responses, timeouts, write
    failures, protocol errors, the end of input and closing all settle from. */
module WorkerPeer {
  import opened Sequences
  import opened FrameCodec
  import opened FrameStream

  type Payload = string

  datatype Id = Num(n: nat) | Str(s: string) | OtherId

  /** The `error` field of a response: the program reads `code`, `data` and `message` of it, which
      throws for null. */
  datatype ErrorField = NullError | ErrorValue(payload: Payload)

  /** A decoded body, by the fields that are present; `versioned` says it is an object with
      `jsonrpc: "2.0"`. */
  datatype Rpc = Rpc(
    versioned: bool, id: Option<Id>, methodName: Option<string>, result: Option<Payload>, error: Option<ErrorField>)
  {
    predicate IsResponse() {
      id.Some? && (result.Some? || error.Some?) && methodName.None?
    }

    predicate IsRequest() {
      id.Some? && methodName.Some?
    }
  }

  datatype Reason = Closed | TimedOut | Protocol | RpcError(error: Payload)

  datatype Outcome = Resolved(result: Payload) | Rejected(reason: Reason)

  datatype Settlement = Settlement(id: nat, outcome: Outcome)

  datatype Fault = BadFrame(kind: ErrorKind) | BadMessage | HandlerThrew | Truncated | StreamFailed

  /** What user code is called with: a request or notification for its handler, or a fault for the
      error callback. */
  datatype Call = Handle(message: Rpc) | Report(fault: Fault)

  /** What user code does to the peer. */
  datatype Act = Ask | Shut

  /** What it does before it returns, or throws. */
  datatype Reaction = Reaction(acts: seq<Act>, throws: bool)

  /** `pending` is in insertion order and `timers` holds the ids whose timer is running. The rest is
      history: `log` what happened to each promise, `dropped` the ids that left the table with
      their promise unsettled, `calls` the calls of user code. */
  datatype State = State(
    buffer: seq<byte>, expected: Option<nat>, pending: seq<nat>, timers: set<nat>,
    nextId: nat, closed: bool, log: seq<Settlement>, dropped: seq<nat>, calls: seq<Call>)

  const INITIAL := State([], None, [], {}, 1, false, [], [], [])

  datatype Event =
    | Request
    | Data(chunk: seq<byte>)
    | Timeout(id: nat)
    | WriteFailed(id: nat)
    | HandlerFailed
    | InputError
    | InputEnd
    | Close

  // ---------- the table ----------

  function IndexOf(s: seq<nat>, x: nat): (r: Option<nat>)
    ensures r.Some? <==> x in s
    ensures r.Some? ==> r.value < |s| && s[r.value] == x
  {
    if s == [] then None
    else if s[0] == x then Some(0)
    else match IndexOf(s[1..], x) case None => None case Some(k) => Some(k + 1)
  }

  function Without(s: seq<nat>, x: nat): seq<nat> {
    match IndexOf(s, x) case None => s case Some(k) => RemoveAt(s, k)
  }

  function Settled(ids: seq<nat>, outcome: Outcome): (r: seq<Settlement>)
    ensures |r| == |ids| && forall i :: 0 <= i < |r| ==> r[i] == Settlement(ids[i], outcome)
  {
    seq(|ids|, i requires 0 <= i < |ids| => Settlement(ids[i], outcome))
  }

  /** Take the request out of the table and stop its timer. */
  function Remove(s: State, id: nat): State {
    s.(pending := Without(s.pending, id), timers := s.timers - {id})
  }

  function Settle(s: State, id: nat, outcome: Outcome): State {
    Remove(s, id).(log := s.log + [Settlement(id, outcome)])
  }

  function Drop(s: State, id: nat): State {
    Remove(s, id).(dropped := s.dropped + [id])
  }

  function FailAll(s: State, reason: Reason): State {
    s.(pending := [], timers := s.timers - Elements(s.pending), log := s.log + Settled(s.pending, Rejected(reason)))
  }

  function Asked(s: State): State {
    if s.closed then s
    else s.(pending := s.pending + [s.nextId], timers := s.timers + {s.nextId}, nextId := s.nextId + 1)
  }

  function ShutDown(s: State): State {
    if s.closed then s else FailAll(s.(closed := true), Closed)
  }

  function Perform(s: State, a: Act): State {
    match a
    case Ask => Asked(s)
    case Shut => ShutDown(s)
  }

  function PerformAll(s: State, acts: seq<Act>): State
    decreases |acts|
  {
    if acts == [] then s else PerformAll(Perform(s, acts[0]), acts[1..])
  }

  /** A null error throws after the request has left the table. */
  function HandleResponse(s: State, m: Rpc): State
    requires m.IsResponse()
  {
    match m.id.value
    case Num(n) =>
      if n !in s.pending then s
      else if m.error.None? then Settle(s, n, Resolved(m.result.value))
      else if m.error.value.NullError? then Drop(s, n)
      else Settle(s, n, Rejected(RpcError(m.error.value.payload)))
    case _ => s
  }

  // ---------- the invariant ----------

  ghost function Ids(log: seq<Settlement>): (r: seq<nat>)
    ensures |r| == |log| && forall i :: 0 <= i < |r| ==> r[i] == log[i].id
  {
    seq(|log|, i requires 0 <= i < |log| => log[i].id)
  }

  /** The ids handed out so far. */
  ghost function Issued(nextId: nat): (r: set<nat>)
    ensures forall n :: n in r <==> 1 <= n < nextId
  {
    if nextId <= 1 then {} else Issued(nextId - 1) + {nextId - 1}
  }

  /** Each issued id is in the table, in the log or dropped, once in all; the running timers are
      those of the table; a closed peer has an empty table. */
  ghost predicate Inv(s: State) {
    && s.nextId >= 1
    && multiset(s.pending) + multiset(Ids(s.log)) + multiset(s.dropped) == multiset(Issued(s.nextId))
    && s.timers == Elements(s.pending)
    && (s.closed ==> s.pending == [])
  }

  lemma InitialInv()
    ensures Inv(INITIAL)
  {
    assert Issued(1) == {};
  }

  lemma OnceInSet(a: multiset<nat>, b: multiset<nat>, c: multiset<nat>, s: set<nat>, x: nat)
    requires a + b + c == multiset(s)
    ensures a[x] + b[x] + c[x] <= 1 && (a[x] + b[x] + c[x] == 1 <==> x in s)
  {
    assert (a + b + c)[x] == a[x] + b[x] + c[x];
  }

  lemma RemovedFrom(s: State, id: nat)
    requires Inv(s) && id in s.pending
    ensures var t := Remove(s, id);
      multiset(t.pending) + multiset{id} == multiset(s.pending) && t.timers == Elements(t.pending)
  {
    var k := IndexOf(s.pending, id).value;
    RemoveAtMultiset(s.pending, k);
    OnceInSet(multiset(s.pending), multiset(Ids(s.log)), multiset(s.dropped), Issued(s.nextId), id);
    var rest := RemoveAt(s.pending, k);
    assert multiset(s.pending)[id] == 1;
    forall n ensures n in rest <==> n in s.pending && n != id {
      assert n in rest <==> n in multiset(rest);
      assert n in s.pending <==> n in multiset(s.pending);
    }
  }

  lemma SettleKeepsInv(s: State, id: nat, outcome: Outcome)
    requires Inv(s) && id in s.pending
    ensures Inv(Settle(s, id, outcome))
  {
    RemovedFrom(s, id);
    assert Ids(s.log + [Settlement(id, outcome)]) == Ids(s.log) + [id];
  }

  lemma DropKeepsInv(s: State, id: nat)
    requires Inv(s) && id in s.pending
    ensures Inv(Drop(s, id))
  {
    RemovedFrom(s, id);
  }

  lemma FailAllKeepsInv(s: State, reason: Reason)
    requires Inv(s) || (s.closed && Inv(s.(closed := false)))
    ensures Inv(FailAll(s, reason))
  {
    assert Ids(s.log + Settled(s.pending, Rejected(reason))) == Ids(s.log) + s.pending;
  }

  lemma AskedKeepsInv(s: State)
    requires Inv(s)
    ensures Inv(Asked(s))
  {
    if !s.closed {
      assert Issued(s.nextId + 1) == Issued(s.nextId) + {s.nextId} && s.nextId !in Issued(s.nextId);
      assert multiset(Issued(s.nextId + 1)) == multiset(Issued(s.nextId)) + multiset{s.nextId};
    }
  }

  lemma ShutDownKeepsInv(s: State)
    requires Inv(s)
    ensures Inv(ShutDown(s)) && ShutDown(s).closed
  {
    if !s.closed { FailAllKeepsInv(s.(closed := true), Closed); }
  }

  lemma {:induction false} PerformAllKeepsInv(s: State, acts: seq<Act>)
    requires Inv(s)
    ensures Inv(PerformAll(s, acts))
    decreases |acts|
  {
    if acts != [] {
      match acts[0] {
        case Ask => AskedKeepsInv(s);
        case Shut => ShutDownKeepsInv(s);
      }
      PerformAllKeepsInv(Perform(s, acts[0]), acts[1..]);
    }
  }

  lemma ResponseKeepsInv(s: State, m: Rpc)
    requires Inv(s) && m.IsResponse()
    ensures Inv(HandleResponse(s, m))
  {
    if m.id.value.Num? && m.id.value.n in s.pending {
      var n := m.id.value.n;
      if m.error.None? {
        SettleKeepsInv(s, n, Resolved(m.result.value));
      } else if m.error.value.NullError? {
        DropKeepsInv(s, n);
      } else {
        SettleKeepsInv(s, n, Rejected(RpcError(m.error.value.payload)));
      }
    }
  }

  /** A settled id was issued, is no longer pending and has no timer. */
  lemma SettledIsOver(s: State, i: nat)
    requires Inv(s) && i < |s.log|
    ensures 1 <= s.log[i].id < s.nextId
    ensures s.log[i].id !in s.pending && s.log[i].id !in s.timers && s.log[i].id !in s.dropped
  {
    var x := s.log[i].id;
    assert Ids(s.log)[i] == x && x in multiset(Ids(s.log));
    OnceInSet(multiset(s.pending), multiset(Ids(s.log)), multiset(s.dropped), Issued(s.nextId), x);
    assert x !in multiset(s.pending) && x !in multiset(s.dropped);
  }

  /** No id settles twice. */
  lemma SettledAtMostOnce(s: State, i: nat, j: nat)
    requires Inv(s) && i < j < |s.log|
    ensures s.log[i].id != s.log[j].id
  {
    var ids := Ids(s.log);
    OnceInSet(multiset(s.pending), multiset(ids), multiset(s.dropped), Issued(s.nextId), ids[j]);
    OnceOnly(ids, i, j);
  }

  /** Every issued id is pending or has settled, none twice. */
  ghost predicate Accounted(s: State) {
    multiset(s.pending) + multiset(Ids(s.log)) == multiset(Issued(s.nextId))
  }

  lemma AccountedIff(s: State)
    requires Inv(s)
    ensures Accounted(s) <==> s.dropped == []
  {
    var most := multiset(s.pending) + multiset(Ids(s.log));
    if Accounted(s) {
      assert |most + multiset(s.dropped)| == |most| + |multiset(s.dropped)|;
    }
  }

  // ---------- steps ----------

  /** How frames are read, and what user code does when it is called for the k-th time. */
  datatype World = World(reader: Reader<Rpc>, react: nat -> Reaction) {

    /** A call of user code, with what it does before it returns or throws. */
    function Called(s: State, call: Call): State {
      PerformAll(s.(calls := s.calls + [call]), react(|s.calls|).acts)
    }

    /** The error callback runs first, then everything pending is rejected. */
    function ProtocolFault(s: State, fault: Fault): State {
      FailAll(Called(s, Report(fault)), Protocol)
    }

    /** What a request's handler throws goes into the response; what a notification's handler throws
        is a fault. */
    function Handled(s: State, m: Rpc): State {
      var t := Called(s, Handle(m));
      if react(|s.calls|).throws && !m.IsRequest() then ProtocolFault(t, HandlerThrew) else t
    }

    function HandleItem(s: State, item: Item<Rpc>): State {
      match item
      case ProtocolError(kind) => ProtocolFault(s, BadFrame(kind))
      case Message(m) =>
        if !m.versioned then ProtocolFault(s, BadMessage)
        else if m.IsResponse() then HandleResponse(s, m)
        else Handled(s, m)
    }

    function HandleItems(s: State, items: seq<Item<Rpc>>): State
      decreases |items|
    {
      if items == [] then s else HandleItems(HandleItem(s, items[0]), items[1..])
    }

    /** User code that runs on its own, between these steps, shows as further requests, closings
        and failed handlers. */
    function Step(s: State, e: Event): State {
      match e
      case Request => Asked(s)
      case Data(chunk) =>
        if s.closed then s
        else
          var d := reader.Drain(s.buffer + chunk, s.expected);
          HandleItems(s, d.items).(buffer := d.rest, expected := d.expected)
      case Timeout(id) => if id in s.timers then Settle(s, id, Rejected(TimedOut)) else s
      case WriteFailed(id) => if id in s.pending then Settle(s, id, Rejected(Closed)) else s
      case HandlerFailed => ProtocolFault(s, HandlerThrew)
      case InputError => Called(FailAll(s, Protocol), Report(StreamFailed))
      case InputEnd =>
        var cut := s.expected.Some? || s.buffer != [];
        FailAll(if cut then ProtocolFault(s, Truncated).(buffer := [], expected := None) else s, Closed)
      case Close => ShutDown(s)
    }

    function Run(s: State, events: seq<Event>): State
      decreases |events|
    {
      if events == [] then s else Run(Step(s, events[0]), events[1..])
    }

    // ---------- what every run keeps ----------

    lemma CalledKeepsInv(s: State, call: Call)
      requires Inv(s)
      ensures Inv(Called(s, call))
    {
      PerformAllKeepsInv(s.(calls := s.calls + [call]), react(|s.calls|).acts);
    }

    lemma FaultKeepsInv(s: State, fault: Fault)
      requires Inv(s)
      ensures Inv(ProtocolFault(s, fault))
    {
      CalledKeepsInv(s, Report(fault));
      FailAllKeepsInv(Called(s, Report(fault)), Protocol);
    }

    lemma HandleItemKeepsInv(s: State, item: Item<Rpc>)
      requires Inv(s)
      ensures Inv(HandleItem(s, item))
    {
      match item
      case ProtocolError(kind) => FaultKeepsInv(s, BadFrame(kind));
      case Message(m) =>
        if !m.versioned {
          FaultKeepsInv(s, BadMessage);
        } else if m.IsResponse() {
          ResponseKeepsInv(s, m);
        } else {
          CalledKeepsInv(s, Handle(m));
          FaultKeepsInv(Called(s, Handle(m)), HandlerThrew);
        }
    }

    lemma {:induction false} HandleItemsKeepsInv(s: State, items: seq<Item<Rpc>>)
      requires Inv(s)
      ensures Inv(HandleItems(s, items))
      decreases |items|
    {
      if items != [] {
        HandleItemKeepsInv(s, items[0]);
        HandleItemsKeepsInv(HandleItem(s, items[0]), items[1..]);
      }
    }

    lemma StepKeepsInv(s: State, e: Event)
      requires Inv(s)
      ensures Inv(Step(s, e))
    {
      match e
      case Request => AskedKeepsInv(s);
      case Data(chunk) => HandleItemsKeepsInv(s, reader.Drain(s.buffer + chunk, s.expected).items);
      case Timeout(id) => if id in s.timers { SettleKeepsInv(s, id, Rejected(TimedOut)); }
      case WriteFailed(id) => if id in s.pending { SettleKeepsInv(s, id, Rejected(Closed)); }
      case HandlerFailed => FaultKeepsInv(s, HandlerThrew);
      case InputError =>
        var failed := FailAll(s, Protocol);
        FailAllKeepsInv(s, Protocol);
        CalledKeepsInv(failed, Report(StreamFailed));
      case InputEnd =>
        FaultKeepsInv(s, Truncated);
        FailAllKeepsInv(ProtocolFault(s, Truncated).(buffer := [], expected := None), Closed);
        FailAllKeepsInv(s, Closed);
      case Close => ShutDownKeepsInv(s);
    }

    /** Over every interleaving of events, with user code that asks, closes or throws inside any of
        them, no id is both pending and settled or settled twice, exactly the pending ids have a
        running timer, and a closed peer has nothing pending. */
    lemma {:induction false} RunKeepsInv(s: State, events: seq<Event>)
      requires Inv(s)
      ensures Inv(Run(s, events))
      decreases |events|
    {
      if events != [] {
        StepKeepsInv(s, events[0]);
        RunKeepsInv(Step(s, events[0]), events[1..]);
      }
    }

    // ---------- what a null error loses ----------

    /** The response that throws: it answers a pending id with a null error. */
    predicate NullAnswer(s: State, item: Item<Rpc>) {
      && item.Message? && item.value.versioned && item.value.IsResponse()
      && item.value.id.value.Num? && item.value.id.value.n in s.pending && item.value.error == Some(NullError)
    }

    predicate ItemsDrop(s: State, items: seq<Item<Rpc>>)
      decreases |items|
    {
      items != [] && (NullAnswer(s, items[0]) || ItemsDrop(HandleItem(s, items[0]), items[1..]))
    }

    predicate StepDrops(s: State, e: Event) {
      e.Data? && !s.closed && ItemsDrop(s, reader.Drain(s.buffer + e.chunk, s.expected).items)
    }

    /** Some data event of the run carries such a response. */
    predicate RunDrops(s: State, events: seq<Event>)
      decreases |events|
    {
      events != [] && (StepDrops(s, events[0]) || RunDrops(Step(s, events[0]), events[1..]))
    }

    lemma CalledDrops(s: State, call: Call)
      ensures Called(s, call).dropped == s.dropped
    {
      PerformAllFrame(s.(calls := s.calls + [call]), react(|s.calls|).acts);
    }

    lemma HandleItemDrops(s: State, item: Item<Rpc>)
      ensures s.dropped <= HandleItem(s, item).dropped
      ensures HandleItem(s, item).dropped == s.dropped <==> !NullAnswer(s, item)
    {
      match item
      case ProtocolError(kind) => CalledDrops(s, Report(BadFrame(kind)));
      case Message(m) =>
        CalledDrops(s, Report(BadMessage));
        CalledDrops(s, Handle(m));
        CalledDrops(Called(s, Handle(m)), Report(HandlerThrew));
    }

    lemma {:induction false} ItemsDropIff(s: State, items: seq<Item<Rpc>>)
      ensures s.dropped <= HandleItems(s, items).dropped
      ensures HandleItems(s, items).dropped == s.dropped <==> !ItemsDrop(s, items)
      decreases |items|
    {
      if items != [] {
        HandleItemDrops(s, items[0]);
        ItemsDropIff(HandleItem(s, items[0]), items[1..]);
      }
    }

    lemma StepDropIff(s: State, e: Event)
      ensures s.dropped <= Step(s, e).dropped
      ensures Step(s, e).dropped == s.dropped <==> !StepDrops(s, e)
    {
      match e
      case Data(chunk) => ItemsDropIff(s, reader.Drain(s.buffer + chunk, s.expected).items);
      case HandlerFailed => CalledDrops(s, Report(HandlerThrew));
      case InputError =>
        var failed := FailAll(s, Protocol);
        CalledDrops(failed, Report(StreamFailed));
      case InputEnd => CalledDrops(s, Report(Truncated));
      case _ =>
    }

    lemma {:induction false} RunDropIff(s: State, events: seq<Event>)
      ensures s.dropped <= Run(s, events).dropped
      ensures Run(s, events).dropped == s.dropped <==> !RunDrops(s, events)
      decreases |events|
    {
      if events != [] {
        StepDropIff(s, events[0]);
        RunDropIff(Step(s, events[0]), events[1..]);
      }
    }

    /** After a run every issued id is pending or settled exactly when no data event of the run
        answered a pending id with a null error. */
    lemma NothingLostIff(s: State, events: seq<Event>)
      requires Inv(s) && Accounted(s)
      ensures Accounted(Run(s, events)) <==> !RunDrops(s, events)
    {
      AccountedIff(s);
      RunKeepsInv(s, events);
      AccountedIff(Run(s, events));
      RunDropIff(s, events);
    }

    // ---------- closing ----------

    lemma ClosedCall(s: State, call: Call)
      requires s.closed && s.pending == []
      ensures SameTable(s, Called(s, call))
    {
      ClosedActs(s.(calls := s.calls + [call]), react(|s.calls|).acts);
    }

    lemma {:induction false} ClosedItems(s: State, items: seq<Item<Rpc>>)
      requires s.closed && s.pending == []
      ensures SameTable(s, HandleItems(s, items))
      decreases |items|
    {
      if items != [] {
        ClosedItem(s, items[0]);
        ClosedItems(HandleItem(s, items[0]), items[1..]);
      }
    }

    lemma ClosedItem(s: State, item: Item<Rpc>)
      requires s.closed && s.pending == []
      ensures SameTable(s, HandleItem(s, item))
    {
      match item
      case ProtocolError(kind) => ClosedCall(s, Report(BadFrame(kind)));
      case Message(m) =>
        ClosedCall(s, Report(BadMessage));
        ClosedCall(s, Handle(m));
        ClosedCall(Called(s, Handle(m)), Report(HandlerThrew));
    }

    lemma ClosedStep(s: State, e: Event)
      requires Inv(s) && s.closed
      ensures SameTable(s, Step(s, e))
    {
      match e
      case HandlerFailed => ClosedCall(s, Report(HandlerThrew));
      case InputError =>
        var failed := FailAll(s, Protocol);
        ClosedCall(failed, Report(StreamFailed));
      case InputEnd => ClosedCall(s, Report(Truncated));
      case _ =>
    }

    /** After closing, no event in any order issues an id, makes anything pending or settles
        anything again; and everything issued has settled exactly when no id was dropped. */
    lemma {:induction false} CloseIsFinal(s: State, events: seq<Event>)
      requires Inv(s) && s.closed
      ensures var t := Run(s, events);
        && t.closed && t.pending == [] && t.timers == {}
        && t.log == s.log && t.nextId == s.nextId && t.dropped == s.dropped
        && (multiset(Ids(t.log)) == multiset(Issued(t.nextId)) <==> t.dropped == [])
      decreases |events|
    {
      if events == [] {
        AccountedIff(s);
        assert multiset(s.pending) + multiset(Ids(s.log)) == multiset(Ids(s.log));
      } else {
        StepKeepsInv(s, events[0]);
        ClosedStep(s, events[0]);
        CloseIsFinal(Step(s, events[0]), events[1..]);
      }
    }

    // ---------- where outcomes come from ----------

    lemma CalledLog(s: State, call: Call, k: nat)
      ensures s.log <= Called(s, call).log
      ensures |s.log| <= k < |Called(s, call).log| ==> !FromPeer(Called(s, call).log[k])
    {
      PerformAllLog(s.(calls := s.calls + [call]), react(|s.calls|).acts, k);
    }

    lemma HandleItemLog(s: State, item: Item<Rpc>, k: nat)
      ensures s.log <= HandleItem(s, item).log
      ensures |s.log| <= k < |HandleItem(s, item).log| && FromPeer(HandleItem(s, item).log[k]) ==>
        Answers(item, HandleItem(s, item).log[k])
    {
      match item
      case ProtocolError(kind) => CalledLog(s, Report(BadFrame(kind)), k);
      case Message(m) =>
        CalledLog(s, Report(BadMessage), k);
        HandledLog(s, m, k);
    }

    lemma HandledLog(s: State, m: Rpc, k: nat)
      ensures s.log <= Handled(s, m).log
      ensures |s.log| <= k < |Handled(s, m).log| ==> !FromPeer(Handled(s, m).log[k])
    {
      CalledLog(s, Handle(m), k);
      CalledLog(Called(s, Handle(m)), Report(HandlerThrew), k);
    }

    lemma {:induction false} HandleItemsLog(s: State, items: seq<Item<Rpc>>, k: nat)
      ensures s.log <= HandleItems(s, items).log
      ensures |s.log| <= k < |HandleItems(s, items).log| && FromPeer(HandleItems(s, items).log[k]) ==>
        Answered(items, HandleItems(s, items).log[k])
      decreases |items|
    {
      if items != [] {
        var s1, t := HandleItem(s, items[0]), HandleItems(s, items);
        HandleItemLog(s, items[0], k);
        HandleItemsLog(s1, items[1..], k);
        if |s.log| <= k < |t.log| && FromPeer(t.log[k]) {
          if k < |s1.log| {
            assert Answers(items[0], t.log[k]);
          } else {
            var i :| 0 <= i < |items[1..]| && Answers(items[1..][i], t.log[k]);
            assert Answers(items[i + 1], t.log[k]);
          }
        }
      }
    }

    /** The log only grows, and a promise is resolved, or rejected with an error of the other side,
        only by a data event that carries a response with its id and that content. */
    lemma StepLog(s: State, e: Event, k: nat)
      ensures s.log <= Step(s, e).log
      ensures |s.log| <= k < |Step(s, e).log| && FromPeer(Step(s, e).log[k]) ==>
        e.Data? && !s.closed && Answered(reader.Drain(s.buffer + e.chunk, s.expected).items, Step(s, e).log[k])
    {
      match e
      case Data(chunk) => if !s.closed { HandleItemsLog(s, reader.Drain(s.buffer + chunk, s.expected).items, k); }
      case HandlerFailed => CalledLog(s, Report(HandlerThrew), k);
      case InputError =>
        var failed := FailAll(s, Protocol);
        CalledLog(failed, Report(StreamFailed), k);
      case InputEnd => CalledLog(s, Report(Truncated), k);
      case _ =>
    }

    // ---------- messages in pieces ----------

    lemma CalledFrame(s: State, call: Call, buffer: seq<byte>, expected: Option<nat>)
      ensures Called(s, call).buffer == s.buffer && Called(s, call).expected == s.expected
      ensures Called(s.(buffer := buffer, expected := expected), call)
           == Called(s, call).(buffer := buffer, expected := expected)
    {
      PerformAllBuffer(s.(calls := s.calls + [call]), react(|s.calls|).acts, buffer, expected);
    }

    lemma ResponseFrame(s: State, m: Rpc, buffer: seq<byte>, expected: Option<nat>)
      requires m.IsResponse()
      ensures HandleResponse(s, m).buffer == s.buffer && HandleResponse(s, m).expected == s.expected
      ensures HandleResponse(s.(buffer := buffer, expected := expected), m)
           == HandleResponse(s, m).(buffer := buffer, expected := expected)
    {
    }

    lemma HandleItemFrame(s: State, item: Item<Rpc>, buffer: seq<byte>, expected: Option<nat>)
      ensures HandleItem(s, item).buffer == s.buffer && HandleItem(s, item).expected == s.expected
      ensures HandleItem(s.(buffer := buffer, expected := expected), item)
           == HandleItem(s, item).(buffer := buffer, expected := expected)
    {
      match item
      case ProtocolError(kind) => CalledFrame(s, Report(BadFrame(kind)), buffer, expected);
      case Message(m) =>
        if !m.versioned {
          CalledFrame(s, Report(BadMessage), buffer, expected);
        } else if m.IsResponse() {
          ResponseFrame(s, m, buffer, expected);
        } else {
          HandledFrame(s, m, buffer, expected);
        }
    }

    lemma HandledFrame(s: State, m: Rpc, buffer: seq<byte>, expected: Option<nat>)
      ensures Handled(s, m).buffer == s.buffer && Handled(s, m).expected == s.expected
      ensures Handled(s.(buffer := buffer, expected := expected), m)
           == Handled(s, m).(buffer := buffer, expected := expected)
    {
      CalledFrame(s, Handle(m), buffer, expected);
      CalledFrame(Called(s, Handle(m)), Report(HandlerThrew), buffer, expected);
    }

    lemma {:induction false} HandleItemsFrame(s: State, items: seq<Item<Rpc>>, buffer: seq<byte>, expected: Option<nat>)
      ensures HandleItems(s, items).buffer == s.buffer && HandleItems(s, items).expected == s.expected
      ensures HandleItems(s.(buffer := buffer, expected := expected), items)
           == HandleItems(s, items).(buffer := buffer, expected := expected)
      decreases |items|
    {
      if items != [] {
        HandleItemFrame(s, items[0], buffer, expected);
        HandleItemsFrame(HandleItem(s, items[0]), items[1..], buffer, expected);
      }
    }

    lemma {:induction false} HandleItemsConcat(s: State, a: seq<Item<Rpc>>, b: seq<Item<Rpc>>)
      ensures HandleItems(s, a + b) == HandleItems(HandleItems(s, a), b)
      decreases |a|
    {
      if a == [] {
        assert a + b == b;
      } else {
        HandleItemsConcat(HandleItem(s, a[0]), a[1..], b);
        assert (a + b)[0] == a[0] && (a + b)[1..] == a[1..] + b;
      }
    }

    /** No item but the last leaves the peer closed. */
    ghost predicate StaysOpen(s: State, items: seq<Item<Rpc>>) {
      forall i :: 0 <= i < |items| ==> !HandleItems(s, items[..i]).closed
    }

    lemma OpenAfter(s: State, a: seq<Item<Rpc>>, b: seq<Item<Rpc>>, buffer: seq<byte>, expected: Option<nat>)
      requires StaysOpen(s, a + b)
      ensures StaysOpen(HandleItems(s, a).(buffer := buffer, expected := expected), b)
    {
      forall i | 0 <= i < |b|
        ensures !HandleItems(HandleItems(s, a).(buffer := buffer, expected := expected), b[..i]).closed
      {
        assert (a + b)[..|a| + i] == a + b[..i];
        HandleItemsConcat(s, a, b[..i]);
        HandleItemsFrame(HandleItems(s, a), b[..i], buffer, expected);
      }
    }

    /** Data events that read everything, and of which only the last item may close the peer, do
        what handling the items one after the other does. */
    lemma {:induction false} DataRun(s: State, chunks: seq<seq<byte>>)
      requires reader.Stable() && reader.Synced(s.buffer, s.expected)
      requires reader.FeedAll(s.buffer, s.expected, chunks).rest == []
      requires StaysOpen(s, reader.FeedAll(s.buffer, s.expected, chunks).items)
      ensures Run(s, DataEvents(chunks))
           == HandleItems(s, reader.FeedAll(s.buffer, s.expected, chunks).items).(buffer := [], expected := None)
      decreases |chunks|
    {
      var all := reader.FeedAll(s.buffer, s.expected, chunks);
      if chunks != [] {
        assert DataEvents(chunks)[1..] == DataEvents(chunks[1..]);
        var s1 := Step(s, Data(chunks[0]));
        if all.items == [] {
          reader.NoItemsKeepBytes(s.buffer, s.expected, chunks);
          assert chunks[0] == [] && s.buffer + chunks[0] == [];
          assert s1 == s;
          DataRun(s, chunks[1..]);
        } else {
          assert all.items[..0] == [];
          var d := reader.Drain(s.buffer + chunks[0], s.expected);
          var more := reader.FeedAll(d.rest, d.expected, chunks[1..]);
          reader.FeedSyncs(s.buffer, s.expected, chunks[0]);
          OpenAfter(s, d.items, more.items, d.rest, d.expected);
          DataRun(s1, chunks[1..]);
          HandleItemsConcat(s, d.items, more.items);
          HandleItemsFrame(HandleItems(s, d.items), more.items, d.rest, d.expected);
        }
      }
    }
  }

  // ---------- what user code leaves alone ----------

  ghost predicate SameTable(s: State, t: State) {
    && t.closed == s.closed && t.pending == s.pending && t.log == s.log
    && t.nextId == s.nextId && t.dropped == s.dropped && (s.timers == {} ==> t.timers == {})
  }

  lemma {:induction false} ClosedActs(s: State, acts: seq<Act>)
    requires s.closed && s.pending == []
    ensures SameTable(s, PerformAll(s, acts))
    decreases |acts|
  {
    if acts != [] { ClosedActs(Perform(s, acts[0]), acts[1..]); }
  }

  lemma {:induction false} PerformAllFrame(s: State, acts: seq<Act>)
    ensures PerformAll(s, acts).dropped == s.dropped
    decreases |acts|
  {
    if acts != [] { PerformAllFrame(Perform(s, acts[0]), acts[1..]); }
  }

  lemma {:induction false} PerformAllBuffer(s: State, acts: seq<Act>, buffer: seq<byte>, expected: Option<nat>)
    ensures PerformAll(s, acts).buffer == s.buffer && PerformAll(s, acts).expected == s.expected
    ensures PerformAll(s.(buffer := buffer, expected := expected), acts)
         == PerformAll(s, acts).(buffer := buffer, expected := expected)
    decreases |acts|
  {
    if acts != [] { PerformAllBuffer(Perform(s, acts[0]), acts[1..], buffer, expected); }
  }

  /** `item` is the response that settles `x`. */
  predicate Answers(item: Item<Rpc>, x: Settlement) {
    && item.Message? && item.value.versioned && item.value.IsResponse() && item.value.id == Some(Num(x.id))
    && match item.value.error
       case None => x.outcome == Resolved(item.value.result.value)
       case Some(e) => e.ErrorValue? && x.outcome == Rejected(RpcError(e.payload))
  }

  predicate FromPeer(x: Settlement) {
    x.outcome.Resolved? || x.outcome.reason.RpcError?
  }

  ghost predicate Answered(items: seq<Item<Rpc>>, x: Settlement) {
    exists i :: 0 <= i < |items| && Answers(items[i], x)
  }

  lemma {:induction false} PerformAllLog(s: State, acts: seq<Act>, k: nat)
    ensures s.log <= PerformAll(s, acts).log
    ensures |s.log| <= k < |PerformAll(s, acts).log| ==> !FromPeer(PerformAll(s, acts).log[k])
    decreases |acts|
  {
    if acts != [] {
      var s1 := Perform(s, acts[0]);
      PerformAllLog(s1, acts[1..], k);
      assert s.log <= s1.log;
    }
  }

  function DataEvents(chunks: seq<seq<byte>>): (r: seq<Event>)
    ensures |r| == |chunks| && forall i :: 0 <= i < |r| ==> r[i] == Data(chunks[i])
  {
    seq(|chunks|, i requires 0 <= i < |chunks| => Data(chunks[i]))
  }

  // ---------- messages in order ----------

  /** A cut inside the frame behind the message whose handling closes the peer. */
  lemma CutAfterClose(sender: Sender<Rpc>, w: World, sent: seq<Rpc>, i: nat, s: State) returns (chunks: seq<seq<byte>>)
    requires ValidMaxFrameBytes(sender.max) && w.reader == FrameReader(sender.max, w.reader.decode)
    requires sender.DecodedBy(w.reader.decode, sent) && forall k :: 0 <= k < |sent| ==> sender.Fits(sent[k])
    requires !s.closed && s.buffer == [] && s.expected == None
    requires i < |sent| && w.HandleItems(s, Messages(sent)[..i]).closed
    ensures Concat(chunks) == sender.Written(sent) && w.Run(s, DataEvents(chunks)).buffer != []
  {
    var a, b := sender.CutInside(w.reader.decode, sent, i);
    chunks := [a, b];
    w.reader.ConcatTwo(a, b);
    assert Messages(sent[..i]) == Messages(sent)[..i];
    StepReads(w, s, a, Messages(sent[..i]));
    TwoClosedEvents(w, s, w.Step(s, Data(a)), a, b);
  }

  lemma StepReads(w: World, s: State, chunk: seq<byte>, items: seq<Item<Rpc>>)
    requires !s.closed && s.buffer == [] && s.expected == None && w.reader.Drain(chunk, None).items == items
    ensures var d := w.reader.Drain(chunk, None);
      w.Step(s, Data(chunk)) == w.HandleItems(s, items).(buffer := d.rest, expected := d.expected)
  {
    assert s.buffer + chunk == chunk;
  }

  lemma TwoClosedEvents(w: World, s: State, s1: State, a: seq<byte>, b: seq<byte>)
    requires s1 == w.Step(s, Data(a)) && s1.closed
    ensures w.Run(s, DataEvents([a, b])) == s1
  {
    var events := DataEvents([a, b]);
    assert events == [Data(a), Data(b)] && events[1..] == [Data(b)];
    OneEvent(w, s1, Data(b));
  }

  lemma OneEvent(w: World, s: State, e: Event)
    ensures w.Run(s, [e]) == w.Step(s, e)
  {
    var events := [e];
    assert events[1..] == [];
  }

  /** However the bytes of a list of messages are cut up, an open peer with an empty buffer ends
      as if it had handled those that fit, one after the other, exactly when no message but the
      last makes user code close the peer: after that it ignores whole data events, but not the
      frames behind in the same event. */
  lemma MessagesHandledInOrderIff(sender: Sender<Rpc>, w: World, messages: seq<Rpc>, s: State)
    requires ValidMaxFrameBytes(sender.max) && w.reader == FrameReader(sender.max, w.reader.decode)
    requires sender.DecodedBy(w.reader.decode, messages)
    requires !s.closed && s.buffer == [] && s.expected == None
    ensures var items := Messages(sender.Sent(messages));
      w.StaysOpen(s, items) <==>
        forall chunks :: Concat(chunks) == sender.Written(messages) ==>
          w.Run(s, DataEvents(chunks)) == w.HandleItems(s, items)
  {
    var sent := sender.Sent(messages);
    var items := Messages(sent);
    sender.SentFits(messages);
    w.HandleItemsFrame(s, items, [], None);
    FrameReaderStable(sender.max, w.reader.decode);
    if w.StaysOpen(s, items) {
      forall chunks | Concat(chunks) == sender.Written(messages)
        ensures w.Run(s, DataEvents(chunks)) == w.HandleItems(s, items)
      {
        sender.MessagesSurviveChunking(w.reader.decode, messages, chunks, (m: Rpc) => false);
        w.DataRun(s, chunks);
      }
    } else {
      var i :| 0 <= i < |items| && w.HandleItems(s, items[..i]).closed;
      assert sender.DecodedBy(w.reader.decode, sent) by {
        forall k | 0 <= k < |sent| ensures w.reader.decode(sender.encode(sent[k])) == Some(sent[k]) {
          assert sent[k] in messages;
        }
      }
      var chunks := CutAfterClose(sender, w, sent, i, s);
      assert w.HandleItems(s, items).buffer == [];
    }
  }

  // ---------- two runs that show it ----------

  const NULL_ERROR := Rpc(true, Some(Num(1)), None, None, Some(NullError))
  const NULL_ERROR_BODY := ToBytes("{\"jsonrpc\":\"2.0\",\"id\":1,\"error\":null}")

  /** One request, answered with a null error, and then closing: the request has left the table and
      its promise is never settled. */
  lemma NullErrorLosesRequest(decode: Decoder<Rpc>, react: nat -> Reaction)
    requires decode(NULL_ERROR_BODY) == Some(NULL_ERROR)
    ensures EncodeFrame(JsonRpc, NULL_ERROR_BODY, 65536).Ok?
    ensures var w := World(FrameReader(65536, decode), react);
      var t := w.Run(INITIAL, [Request, Data(EncodeFrame(JsonRpc, NULL_ERROR_BODY, 65536).bytes), Close]);
      t.closed && t.nextId == 2 && t.pending == [] && t.log == [] && t.dropped == [1]
  {
    var w := World(FrameReader(65536, decode), react);
    var sender := Sender(JsonRpc, (m: Rpc) => NULL_ERROR_BODY, 65536);
    EncodesIff(JsonRpc, NULL_ERROR_BODY, 65536);
    var frame := EncodeFrame(JsonRpc, NULL_ERROR_BODY, 65536).bytes;
    OneFrame(sender, decode, NULL_ERROR);
    assert sender.FrameOf(NULL_ERROR) == frame;
    RequestLost(w, frame);
  }

  lemma OneFrame(sender: Sender<Rpc>, decode: Decoder<Rpc>, m: Rpc)
    requires ValidMaxFrameBytes(sender.max) && sender.Fits(m) && decode(sender.encode(m)) == Some(m)
    ensures FrameReader(sender.max, decode).Drain(sender.FrameOf(m), None) == Drained([Message(m)], [], None)
  {
    var r := FrameReader(sender.max, decode);
    sender.FirstFrame(m, [], decode);
    assert sender.FrameOf(m) + [] == sender.FrameOf(m);
    assert r.At([]) == Wait(None);
    assert r.Drain([], None) == Drained([], [], None);
  }

  lemma NullErrorDrops(w: World, s: State, frame: seq<byte>)
    requires w.reader.Drain(frame, None) == Drained([Message(NULL_ERROR)], [], None) && s == Asked(INITIAL)
    ensures var t := w.Step(s, Data(frame));
      t.pending == [] && t.dropped == [1] && t.log == [] && t.nextId == 2 && !t.closed
  {
    var items := [Message(NULL_ERROR)];
    StepReads(w, s, frame, items);
    assert items[1..] == [];
    assert IndexOf([1], 1) == Some(0);
    assert w.HandleItems(s, items) == w.HandleItem(s, items[0]) == Drop(s, 1);
  }

  lemma ThreeEvents(w: World, s: State, a: Event, b: Event, c: Event)
    ensures w.Run(s, [a, b, c]) == w.Step(w.Step(w.Step(s, a), b), c)
  {
    var events := [a, b, c];
    assert events[1..] == [b, c] && [b, c][1..] == [c];
    OneEvent(w, w.Step(w.Step(s, a), b), c);
  }

  lemma RequestLost(w: World, frame: seq<byte>)
    requires w.reader.Drain(frame, None) == Drained([Message(NULL_ERROR)], [], None)
    ensures var t := w.Run(INITIAL, [Request, Data(frame), Close]);
      t.closed && t.nextId == 2 && t.pending == [] && t.log == [] && t.dropped == [1]
  {
    ThreeEvents(w, INITIAL, Request, Data(frame), Close);
    NullErrorDrops(w, Asked(INITIAL), frame);
  }

  predicate ForHandler(m: Rpc) {
    m.versioned && !m.IsResponse()
  }

  lemma {:induction false} PerformAllCalls(s: State, acts: seq<Act>)
    ensures PerformAll(s, acts).calls == s.calls
    decreases |acts|
  {
    if acts != [] { PerformAllCalls(Perform(s, acts[0]), acts[1..]); }
  }

  lemma HandledCalls(w: World, s: State, m: Rpc)
    ensures s.calls + [Handle(m)] <= w.Handled(s, m).calls
  {
    var t := w.Called(s, Handle(m));
    PerformAllCalls(s.(calls := s.calls + [Handle(m)]), w.react(|s.calls|).acts);
    PerformAllCalls(t.(calls := t.calls + [Report(HandlerThrew)]), w.react(|t.calls|).acts);
  }

  /** Two notifications, of which the first makes its handler close the peer: in one data event the
      second still reaches its handler, in two it does not. */
  lemma ClosingShowsCut(sender: Sender<Rpc>, w: World, a: Rpc, b: Rpc)
    requires ValidMaxFrameBytes(sender.max) && w.reader == FrameReader(sender.max, w.reader.decode)
    requires sender.DecodedBy(w.reader.decode, [a, b]) && sender.Fits(a) && sender.Fits(b)
    requires ForHandler(a) && ForHandler(b) && w.react(0) == Reaction([Shut], false)
    ensures [Handle(a), Handle(b)] <= w.Run(INITIAL, [Data(sender.FrameOf(a) + sender.FrameOf(b))]).calls
    ensures w.Run(INITIAL, [Data(sender.FrameOf(a)), Data(sender.FrameOf(b))]).calls == [Handle(a)]
  {
    TwoFrames(sender, w.reader.decode, a, b);
    CutShowsCalls(w, sender.FrameOf(a), sender.FrameOf(b), a, b);
  }

  lemma TwoFrames(sender: Sender<Rpc>, decode: Decoder<Rpc>, a: Rpc, b: Rpc)
    requires ValidMaxFrameBytes(sender.max) && sender.DecodedBy(decode, [a, b]) && sender.Fits(a) && sender.Fits(b)
    ensures var r := FrameReader(sender.max, decode);
      && r.Drain(sender.FrameOf(a), None).items == [Message(a)]
      && r.Drain(sender.FrameOf(a) + sender.FrameOf(b), None).items == [Message(a)] + [Message(b)]
  {
    var r, messages := FrameReader(sender.max, decode), [a, b];
    assert messages[0] == a && messages[1] == b;
    OneFrame(sender, decode, a);
    OneFrame(sender, decode, b);
    sender.FirstFrame(a, sender.FrameOf(b), decode);
    DrainFirst(r, sender.FrameOf(a) + sender.FrameOf(b), sender.encode(a), sender.FrameOf(b));
  }

  lemma CutShowsCalls(w: World, x: seq<byte>, y: seq<byte>, a: Rpc, b: Rpc)
    requires ForHandler(a) && ForHandler(b) && w.react(0) == Reaction([Shut], false)
    requires w.reader.Drain(x, None).items == [Message(a)]
    requires w.reader.Drain(x + y, None).items == [Message(a)] + [Message(b)]
    ensures [Handle(a), Handle(b)] <= w.Run(INITIAL, [Data(x + y)]).calls
    ensures w.Run(INITIAL, [Data(x), Data(y)]).calls == [Handle(a)]
  {
    CallsOfTwo(w, x + y, a, b);
    CallsOfOne(w, x, a);
    OneEvent(w, INITIAL, Data(x + y));
    ClosedBetween(w, x, y);
  }

  lemma ClosedBetween(w: World, x: seq<byte>, y: seq<byte>)
    requires w.Step(INITIAL, Data(x)).closed
    ensures w.Run(INITIAL, [Data(x), Data(y)]) == w.Step(INITIAL, Data(x))
  {
    assert [Data(x), Data(y)] == DataEvents([x, y]);
    TwoClosedEvents(w, INITIAL, w.Step(INITIAL, Data(x)), x, y);
  }

  lemma CallsOfOne(w: World, chunk: seq<byte>, a: Rpc)
    requires w.reader.Drain(chunk, None).items == [Message(a)] && ForHandler(a) && w.react(0) == Reaction([Shut], false)
    ensures w.Step(INITIAL, Data(chunk)).calls == [Handle(a)] && w.Step(INITIAL, Data(chunk)).closed
  {
    var items := [Message(a)];
    assert items[1..] == [];
    HandlerShuts(w, a);
    StepReads(w, INITIAL, chunk, items);
  }

  lemma HandlerShuts(w: World, a: Rpc)
    requires ForHandler(a) && w.react(0) == Reaction([Shut], false)
    ensures w.HandleItem(INITIAL, Message(a)).closed && w.HandleItem(INITIAL, Message(a)).calls == [Handle(a)]
  {
    var acts := [Shut];
    assert acts[1..] == [];
    var s := INITIAL.(calls := [Handle(a)]);
    assert PerformAll(s, acts) == PerformAll(Perform(s, Shut), acts[1..]) == ShutDown(s);
    assert INITIAL.calls + [Handle(a)] == [Handle(a)];
  }

  lemma CallsOfTwo(w: World, chunk: seq<byte>, a: Rpc, b: Rpc)
    requires w.reader.Drain(chunk, None).items == [Message(a)] + [Message(b)]
    requires ForHandler(a) && ForHandler(b) && w.react(0) == Reaction([Shut], false)
    ensures [Handle(a), Handle(b)] <= w.Step(INITIAL, Data(chunk)).calls
  {
    var items, last := [Message(a)] + [Message(b)], [Message(b)];
    assert items[1..] == last && last[1..] == [];
    HandlerShuts(w, a);
    var s1 := w.HandleItem(INITIAL, Message(a));
    HandledCalls(w, s1, b);
    assert w.HandleItems(s1, last) == w.HandleItem(s1, Message(b));
    StepReads(w, INITIAL, chunk, items);
    assert [Handle(a)] + [Handle(b)] == [Handle(a), Handle(b)];
  }

  // ---------- the peer object ----------

  class Peer {
    var readBuffer: seq<byte>
    var expectedFrameLength: Option<nat>
    var pending: seq<nat>
    var timers: set<nat>
    var nextRequestId: nat
    var closed: bool
    var log: seq<Settlement>
    var dropped: seq<nat>
    var calls: seq<Call>
    const maxFrameBytes: nat
    const decode: Decoder<Rpc>
    const react: nat -> Reaction

    ghost function View(): State
      reads this
    {
      State(readBuffer, expectedFrameLength, pending, timers, nextRequestId, closed, log, dropped, calls)
    }

    ghost function Around(): World {
      World(FrameReader(maxFrameBytes, decode), react)
    }

    constructor (maxFrameBytes: nat, decode: Decoder<Rpc>, react: nat -> Reaction)
      ensures View() == INITIAL
      ensures this.maxFrameBytes == maxFrameBytes && this.decode == decode && this.react == react
    {
      readBuffer, expectedFrameLength, pending, timers := [], None, [], {};
      nextRequestId, closed, log, dropped, calls := 1, false, [], [], [];
      this.maxFrameBytes, this.decode, this.react := maxFrameBytes, decode, react;
    }

    method RemoveOne(id: nat)
      modifies this`pending, this`timers
      ensures View() == Remove(old(View()), id)
    {
      timers := timers - {id};
      pending := Without(pending, id);
    }

    method SettleOne(id: nat, outcome: Outcome)
      modifies this`pending, this`timers, this`log
      ensures View() == Settle(old(View()), id, outcome)
    {
      RemoveOne(id);
      log := log + [Settlement(id, outcome)];
    }

    method FailAllPending(reason: Reason)
      modifies this`pending, this`timers, this`log
      ensures View() == FailAll(old(View()), reason)
    {
      var ids := pending;
      for i := 0 to |ids|
        invariant pending == ids[i..]
        invariant timers == old(timers) - Elements(ids[..i])
        invariant log == old(log) + Settled(ids[..i], Rejected(reason))
      {
        timers := timers - {ids[i]};
        log := log + [Settlement(ids[i], Rejected(reason))];
        pending := pending[1..];
        assert ids[..i + 1] == ids[..i] + [ids[i]];
        assert Settled(ids[..i + 1], Rejected(reason))
            == Settled(ids[..i], Rejected(reason)) + [Settlement(ids[i], Rejected(reason))];
      }
      assert ids[..|ids|] == ids;
    }

    method Request() returns (id: Option<nat>)
      modifies this`pending, this`timers, this`nextRequestId
      ensures View() == Asked(old(View()))
      ensures id == if old(closed) then None else Some(old(nextRequestId))
    {
      if closed { return None; }
      id := Some(nextRequestId);
      nextRequestId := nextRequestId + 1;
      timers := timers + {id.value};
      pending := pending + [id.value];
    }

    method Close()
      modifies this`pending, this`timers, this`log, this`closed
      ensures View() == ShutDown(old(View()))
    {
      if closed { return; }
      closed := true;
      FailAllPending(Reason.Closed);
    }

    /** Calls user code, which may ask and close before it returns or throws. */
    method CallOut(call: Call) returns (threw: bool)
      modifies this`pending, this`timers, this`log, this`closed, this`nextRequestId, this`calls
      ensures View() == Around().Called(old(View()), call) && threw == react(|old(calls)|).throws
    {
      var acts := react(|calls|).acts;
      threw := react(|calls|).throws;
      calls := calls + [call];
      ghost var target := PerformAll(View(), acts);
      for i := 0 to |acts|
        invariant PerformAll(View(), acts[i..]) == target
      {
        assert acts[i..][0] == acts[i] && acts[i..][1..] == acts[i + 1..];
        match acts[i] {
          case Ask => var id := Request();
          case Shut => Close();
        }
      }
    }

    method HandleProtocolError(fault: Fault)
      modifies this`pending, this`timers, this`log, this`closed, this`nextRequestId, this`calls
      ensures View() == Around().ProtocolFault(old(View()), fault)
    {
      var threw := CallOut(Report(fault));
      FailAllPending(Protocol);
    }

    method OnTimeout(id: nat)
      modifies this
      ensures View() == Around().Step(old(View()), Timeout(id))
    {
      if id in timers {
        SettleOne(id, Rejected(TimedOut));
      }
    }

    method OnWriteFailed(id: nat)
      modifies this
      ensures View() == Around().Step(old(View()), WriteFailed(id))
    {
      if id !in pending { return; }
      SettleOne(id, Rejected(Reason.Closed));
    }

    method OnInputError()
      modifies this
      ensures View() == Around().Step(old(View()), InputError)
    {
      FailAllPending(Protocol);
      var threw := CallOut(Report(StreamFailed));
    }

    method OnHandlerFailed()
      modifies this
      ensures View() == Around().Step(old(View()), HandlerFailed)
    {
      HandleProtocolError(HandlerThrew);
    }

    method OnInputEnd()
      modifies this
      ensures View() == Around().Step(old(View()), InputEnd)
    {
      if expectedFrameLength.Some? || |readBuffer| > 0 {
        HandleProtocolError(Truncated);
        readBuffer, expectedFrameLength := [], None;
      }
      FailAllPending(Reason.Closed);
    }

    method OnData(chunk: seq<byte>)
      modifies this
      ensures View() == Around().Step(old(View()), Data(chunk))
    {
      if closed { return; }
      ghost var before, d := View(), Around().reader.Drain(readBuffer + chunk, expectedFrameLength);
      readBuffer := readBuffer + chunk;
      Around().HandleItemsFrame(before, d.items, readBuffer, expectedFrameLength);
      DrainFrames();
    }

    /** Finds and reads the header at the front of the buffer. */
    method ReadFront() returns (next: Next)
      ensures next == NextFrame(readBuffer, maxFrameBytes)
    {
      var headerEnd := FindFrameHeaderEnd(readBuffer);
      if headerEnd.None? { return Wait(None); }
      var h := ParseFrameHeaders(AsciiText(readBuffer[..headerEnd.value]));
      var bodyStart := headerEnd.value + 4;
      if h.contentLength.None? || h.malformed {
        return Reject(if h.malformed then MalformedLength else MissingLength, bodyStart);
      }
      if h.contentLength.value > maxFrameBytes { return Reject(TooLarge, bodyStart); }
      var frameLength := bodyStart + h.contentLength.value;
      return if |readBuffer| < frameLength then Wait(Some(frameLength)) else Frame(bodyStart, frameLength);
    }

    /** The loop never looks at `closed`. */
    method DrainFrames()
      modifies this
      ensures View() == AfterDrain(old(View()))
    {
      ghost var target := AfterDrain(View());
      while true
        invariant AfterDrain(View()) == target
        decreases |readBuffer|
      {
        ghost var before := View();
        var next := ReadFront();
        if next.Wait? {
          if next.expected.Some? { expectedFrameLength := next.expected; }
          DrainedWait(before, next);
          return;
        }
        if next.Reject? {
          HandleProtocolError(BadFrame(next.kind));
          readBuffer := [];
          DrainedReject(before, next);
          return;
        }
        expectedFrameLength := None;
        var body := readBuffer[next.start..next.end];
        readBuffer := readBuffer[next.end..];
        ghost var taken := View();
        HandleBody(body);
        DrainedFrame(before, taken, next);
      }
    }

    /** Where the drain loop ends when it starts from `s`. */
    ghost function AfterDrain(s: State): State {
      var d := Around().reader.Drain(s.buffer, s.expected);
      Around().HandleItems(s, d.items).(buffer := d.rest, expected := d.expected)
    }

    lemma DrainedWait(s: State, next: Next)
      requires next == NextFrame(s.buffer, maxFrameBytes) && next.Wait?
      ensures AfterDrain(s) == s.(expected := if next.expected.Some? then next.expected else s.expected)
    {
      assert Around().reader.At(s.buffer) == next;
    }

    lemma DrainedReject(s: State, next: Next)
      requires next == NextFrame(s.buffer, maxFrameBytes) && next.Reject?
      ensures AfterDrain(s) == Around().ProtocolFault(s, BadFrame(next.kind)).(buffer := [])
    {
      assert Around().reader.At(s.buffer) == next;
      var items: seq<Item<Rpc>> := [ProtocolError(next.kind)];
      assert items[1..] == [];
      Around().HandleItemsFrame(s, items, [], s.expected);
      assert Around().HandleItems(s, items) == Around().HandleItem(s, items[0]);
    }

    lemma DrainedFrame(s: State, taken: State, next: Next)
      requires next == NextFrame(s.buffer, maxFrameBytes) && next.Frame?
      requires taken == s.(buffer := s.buffer[next.end..], expected := None)
      ensures var item := Around().reader.ItemOf(s.buffer[next.start..next.end]);
        AfterDrain(s) == AfterDrain(Around().HandleItem(taken, item))
    {
      var w := Around();
      assert w.reader.At(s.buffer) == next;
      var item := w.reader.ItemOf(s.buffer[next.start..next.end]);
      var d := w.reader.Drain(taken.buffer, None);
      assert w.reader.Drain(s.buffer, s.expected) == Drained([item] + d.items, d.rest, d.expected);
      assert ([item] + d.items)[1..] == d.items;
      w.HandleItemFrame(s, item, taken.buffer, None);
      w.HandleItemsFrame(w.HandleItem(s, item), d.items, taken.buffer, None);
    }

    method HandleBody(body: seq<byte>)
      modifies this`pending, this`timers, this`log, this`dropped, this`closed, this`nextRequestId, this`calls
      ensures View() == Around().HandleItem(old(View()), Around().reader.ItemOf(body))
    {
      var parsed := decode(body);
      if parsed.None? {
        HandleProtocolError(BadFrame(Undecodable));
      } else {
        HandleIncoming(parsed.value);
      }
    }

    method HandleIncoming(m: Rpc)
      modifies this`pending, this`timers, this`log, this`dropped, this`closed, this`nextRequestId, this`calls
      ensures View() == Around().HandleItem(old(View()), Message(m))
    {
      if !m.versioned {
        HandleProtocolError(BadMessage);
      } else if m.IsResponse() {
        OnResponse(m);
      } else {
        HandleCall(m);
      }
    }

    /** A request's handler that throws is answered with an error; a notification's is a fault. */
    method HandleCall(m: Rpc)
      modifies this`pending, this`timers, this`log, this`closed, this`nextRequestId, this`calls
      ensures View() == Around().Handled(old(View()), m)
    {
      var threw := CallOut(Handle(m));
      if threw && !m.IsRequest() {
        HandleProtocolError(HandlerThrew);
      }
    }

    /** Reading `code` of a null error throws; by then the request has left the table. */
    method OnResponse(m: Rpc)
      requires m.IsResponse()
      modifies this`pending, this`timers, this`log, this`dropped
      ensures View() == HandleResponse(old(View()), m)
    {
      if !m.id.value.Num? || m.id.value.n !in pending { return; }
      var id := m.id.value.n;
      RemoveOne(id);
      if m.error.Some? {
        if m.error.value.NullError? {
          dropped := dropped + [id];
          return;
        }
        log := log + [Settlement(id, Rejected(RpcError(m.error.value.payload)))];
        return;
      }
      log := log + [Settlement(id, Resolved(m.result.value))];
    }
  }
}
