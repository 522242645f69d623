/** What each event of the worker's peer settles, and with what. */
module PeerOutcomes {
  import opened Sequences
  import opened FrameCodec
  import opened FrameStream
  import opened WorkerPeer

  /** `t` is `s` with `id` taken out of the table and settled with `outcome`. */
  ghost predicate Settles(s: State, t: State, id: nat, outcome: Outcome) {
    && t.log == s.log + [Settlement(id, outcome)] && t.dropped == s.dropped && LeavesTable(s, t, id)
  }

  /** `id` has left the table and its timer has stopped; everything else is as it was, but for log and
      dropped ids. */
  ghost predicate LeavesTable(s: State, t: State, id: nat) {
    && id !in t.pending && t.timers == s.timers - {id}
    && (forall k :: k != id ==> multiset(t.pending)[k] == multiset(s.pending)[k])
    && t == s.(pending := t.pending, timers := t.timers, log := t.log, dropped := t.dropped)
  }

  /** Between `s` and `t`, `id` was settled with `outcome`. */
  ghost predicate NewlySettled(s: State, t: State, id: nat, outcome: Outcome) {
    s.log <= t.log && Settlement(id, outcome) in t.log[|s.log|..]
  }

  lemma RemoveLeaves(s: State, id: nat)
    requires Inv(s) && id in s.pending
    ensures LeavesTable(s, Remove(s, id), id)
  {
    RemovedFrom(s, id);
    OnceInSet(multiset(s.pending), multiset(Ids(s.log)), multiset(s.dropped), Issued(s.nextId), id);
    var t := Remove(s, id);
    var left: multiset<nat>, all: multiset<nat> := multiset(t.pending), multiset(s.pending);
    var one: multiset<nat> := multiset{id};
    assert left + one == all;
    assert all[id] == left[id] + 1;
    assert id in t.pending <==> id in left;
    forall k: nat | k != id ensures left[k] == all[k] { assert (left + one)[k] == left[k]; }
  }

  // ---------- responses ----------

  predicate ResponseTo(item: Item<Rpc>, id: nat) {
    item.Message? && item.value.versioned && item.value.IsResponse() && item.value.id == Some(Num(id))
  }

  /** What a response says: its error if it has one, else its result. */
  function Content(m: Rpc): Outcome
    requires m.IsResponse() && m.error != Some(NullError)
  {
    if m.error.Some? then Rejected(RpcError(m.error.value.payload)) else Resolved(m.result.value)
  }

  /** A response to a pending request settles it with what the response says, unless its error is null;
      then the request only leaves the table. */
  lemma ResponseSettles(w: World, s: State, item: Item<Rpc>, id: nat)
    requires Inv(s) && id in s.pending && ResponseTo(item, id)
    ensures var t := w.HandleItem(s, item);
      if item.value.error == Some(NullError) then
        LeavesTable(s, t, id) && t.log == s.log && t.dropped == s.dropped + [id]
      else Settles(s, t, id, Content(item.value))
  {
    RemoveLeaves(s, id);
  }

  /** A response to anything else changes nothing. */
  lemma StrangeResponse(w: World, s: State, m: Rpc)
    requires m.versioned && m.IsResponse() && forall id :: m.id == Some(Num(id)) ==> id !in s.pending
    ensures w.HandleItem(s, Message(m)) == s
  {
  }

  // ---------- responses within a data event ----------

  /** An item that leaves the request alone: a response to another one, or a message whose handler
      neither closes the peer nor throws where that is a fault. */
  predicate Passes(w: World, s: State, item: Item<Rpc>, id: nat) {
    && item.Message? && item.value.versioned
    && if item.value.IsResponse() then item.value.id != Some(Num(id))
       else Shut !in w.react(|s.calls|).acts && (w.react(|s.calls|).throws ==> item.value.IsRequest())
  }

  lemma {:induction false} AsksKeepPending(s: State, acts: seq<Act>, id: nat)
    requires id in s.pending && Shut !in acts
    ensures id in PerformAll(s, acts).pending
    decreases |acts|
  {
    if acts != [] {
      assert acts[0] in acts && acts[0] == Ask;
      AsksKeepPending(Perform(s, acts[0]), acts[1..], id);
    }
  }

  lemma PassesKeeps(w: World, s: State, item: Item<Rpc>, id: nat)
    requires Inv(s) && id in s.pending && Passes(w, s, item, id)
    ensures id in w.HandleItem(s, item).pending
  {
    var m := item.value;
    if m.IsResponse() {
      if m.id.value.Num? && m.id.value.n in s.pending {
        ResponseSettles(w, s, item, m.id.value.n);
        assert multiset(w.HandleItem(s, item).pending)[id] == multiset(s.pending)[id];
        assert id in multiset(s.pending);
      } else {
        StrangeResponse(w, s, m);
      }
    } else {
      AsksKeepPending(s.(calls := s.calls + [Handle(m)]), w.react(|s.calls|).acts, id);
    }
  }

  /** Every one of the items passes the request by. */
  predicate AllPass(w: World, s: State, items: seq<Item<Rpc>>, id: nat)
    decreases |items|
  {
    items == [] || (Passes(w, s, items[0], id) && AllPass(w, w.HandleItem(s, items[0]), items[1..], id))
  }

  lemma {:induction false} AllPassKeeps(w: World, s: State, items: seq<Item<Rpc>>, id: nat)
    requires Inv(s) && id in s.pending && AllPass(w, s, items, id)
    ensures id in w.HandleItems(s, items).pending
    decreases |items|
  {
    if items != [] {
      PassesKeeps(w, s, items[0], id);
      w.HandleItemKeepsInv(s, items[0]);
      AllPassKeeps(w, w.HandleItem(s, items[0]), items[1..], id);
    }
  }

  /** The first of the items that does not pass the request by is a response to it: after all of them it
      is settled with what that response says. */
  lemma FirstAnswerSettles(w: World, s: State, items: seq<Item<Rpc>>, i: nat, id: nat)
    requires Inv(s) && id in s.pending && i < |items| && AllPass(w, s, items[..i], id)
    requires ResponseTo(items[i], id) && items[i].value.error != Some(NullError)
    ensures NewlySettled(s, w.HandleItems(s, items), id, Content(items[i].value))
    ensures id !in w.HandleItems(s, items).pending
  {
    var before := w.HandleItems(s, items[..i]);
    AllPassKeeps(w, s, items[..i], id);
    w.HandleItemsKeepsInv(s, items[..i]);
    AnswerStays(w, before, items[i], items[i + 1..], id);
    SplitItems(w, s, items, i);
    w.HandleItemsLog(s, items[..i], 0);
    w.HandleItemsLog(s, items, 0);
    InTail(w.HandleItems(s, items).log, |s.log|, |before.log|);
  }

  lemma AnswerStays(w: World, s: State, item: Item<Rpc>, rest: seq<Item<Rpc>>, id: nat)
    requires Inv(s) && id in s.pending && ResponseTo(item, id) && item.value.error != Some(NullError)
    ensures var t := w.HandleItems(w.HandleItem(s, item), rest);
      |s.log| < |t.log| && t.log[|s.log|] == Settlement(id, Content(item.value)) && id !in t.pending
  {
    ResponseSettles(w, s, item, id);
    w.HandleItemKeepsInv(s, item);
    StaysSettled(w, w.HandleItem(s, item), rest, |s.log|);
  }

  lemma SplitItems(w: World, s: State, items: seq<Item<Rpc>>, i: nat)
    requires i < |items|
    ensures w.HandleItems(s, items)
         == w.HandleItems(w.HandleItem(w.HandleItems(s, items[..i]), items[i]), items[i + 1..])
  {
    assert items == items[..i] + items[i..];
    w.HandleItemsConcat(s, items[..i], items[i..]);
    assert items[i..][0] == items[i] && items[i..][1..] == items[i + 1..];
  }

  lemma InTail<T>(log: seq<T>, from: nat, k: nat)
    requires from <= k < |log|
    ensures log[k] in log[from..]
  {
    assert log[from..][k - from] == log[k];
  }

  /** What is settled stays settled and does not come back. */
  lemma StaysSettled(w: World, s: State, items: seq<Item<Rpc>>, k: nat)
    requires Inv(s) && k < |s.log|
    ensures var t := w.HandleItems(s, items);
      k < |t.log| && t.log[k] == s.log[k] && s.log[k].id !in t.pending
  {
    w.HandleItemsLog(s, items, 0);
    w.HandleItemsKeepsInv(s, items);
    SettledIsOver(w.HandleItems(s, items), k);
  }

  /** A data event that brings a response to a pending request, with nothing ahead of it that fails or
      closes the peer, settles the request with what the response says. */
  lemma DataAnswers(w: World, s: State, chunk: seq<byte>, i: nat, id: nat)
    requires Inv(s) && id in s.pending
    requires var items := w.reader.Drain(s.buffer + chunk, s.expected).items;
      && i < |items| && AllPass(w, s, items[..i], id)
      && ResponseTo(items[i], id) && items[i].value.error != Some(NullError)
    ensures var items, t := w.reader.Drain(s.buffer + chunk, s.expected).items, w.Step(s, Data(chunk));
      NewlySettled(s, t, id, Content(items[i].value)) && id !in t.pending
  {
    FirstAnswerSettles(w, s, w.reader.Drain(s.buffer + chunk, s.expected).items, i, id);
  }

  // ---------- the other events ----------

  /** A request gets the next id, pending with its timer; a closed peer issues none. */
  lemma RequestIssues(w: World, s: State)
    ensures w.Step(s, Request)
         == if s.closed then s
            else s.(pending := s.pending + [s.nextId], timers := s.timers + {s.nextId}, nextId := s.nextId + 1)
  {
  }

  /** A timeout settles its request as timed out; one whose timer has stopped is nothing. */
  lemma TimeoutSettles(w: World, s: State, id: nat)
    requires Inv(s)
    ensures if id in s.pending then Settles(s, w.Step(s, Timeout(id)), id, Rejected(TimedOut))
            else w.Step(s, Timeout(id)) == s
  {
    if id in s.pending { RemoveLeaves(s, id); }
  }

  /** A failed write settles its request as closed, if it is still pending. */
  lemma WriteFailureSettles(w: World, s: State, id: nat)
    requires Inv(s)
    ensures if id in s.pending then Settles(s, w.Step(s, WriteFailed(id)), id, Rejected(Closed))
            else w.Step(s, WriteFailed(id)) == s
  {
    if id in s.pending { RemoveLeaves(s, id); }
  }

  /** Everything that was pending is settled with `reason`, in the order of the table. */
  ghost predicate AllFail(s: State, t: State, reason: Reason) {
    && t.pending == [] && |t.log| == |s.log| + |s.pending| && s.log <= t.log
    && forall i :: 0 <= i < |s.pending| ==> t.log[|s.log| + i] == Settlement(s.pending[i], Rejected(reason))
  }

  /** Closing settles everything pending as closed; closing again is nothing. */
  lemma CloseSettlesAll(w: World, s: State)
    ensures w.Step(s, Close).closed
    ensures if s.closed then w.Step(s, Close) == s
            else AllFail(s, w.Step(s, Close), Closed) && w.Step(s, Close).calls == s.calls
  {
  }

  /** A failed stream settles everything pending as a protocol error; then the error callback is called. */
  lemma StreamFailureSettles(w: World, s: State, id: nat)
    requires id in s.pending
    ensures var t := w.Step(s, InputError);
      t.calls == s.calls + [Report(StreamFailed)] && NewlySettled(s, t, id, Rejected(Protocol))
  {
    var failed := FailAll(s, Protocol);
    var i :| 0 <= i < |s.pending| && s.pending[i] == id;
    var acts := w.react(|failed.calls|).acts;
    PerformAllLog(failed.(calls := failed.calls + [Report(StreamFailed)]), acts, 0);
    PerformAllCalls(failed.(calls := failed.calls + [Report(StreamFailed)]), acts);
    InTail(w.Step(s, InputError).log, |s.log|, |s.log| + i);
  }

  // ---------- faults ----------

  lemma {:induction false} ActsSettle(s: State, acts: seq<Act>, id: nat)
    requires !s.closed && id in s.pending
    ensures var t := PerformAll(s, acts);
      && s.log <= t.log
      && if Shut in acts then Settlement(id, Rejected(Closed)) in t.log[|s.log|..] else id in t.pending
    decreases |acts|
  {
    if acts != [] {
      var t := Perform(s, acts[0]);
      PerformAllLog(t, acts[1..], 0);
      if acts[0] == Shut {
        var i :| 0 <= i < |s.pending| && s.pending[i] == id;
        assert t.log[|s.log| + i] == Settlement(id, Rejected(Closed));
        InTail(PerformAll(t, acts[1..]).log, |s.log|, |s.log| + i);
      } else {
        ActsSettle(t, acts[1..], id);
        assert Shut in acts <==> Shut in acts[1..] by { HeadTail(acts); }
      }
    } else {
      PerformAllLog(s, acts, 0);
    }
  }

  /** A fault is reported to the error callback, and then nothing is pending: each request was settled as
      a protocol error or, if the callback closed the peer, as closed. */
  lemma FaultSettles(w: World, s: State, fault: Fault, id: nat)
    requires Inv(s) && id in s.pending
    ensures var t := w.ProtocolFault(s, fault);
      && t.pending == [] && t.calls == s.calls + [Report(fault)]
      && NewlySettled(s, t, id, Rejected(if Shut in w.react(|s.calls|).acts then Closed else Protocol))
  {
    var called := s.(calls := s.calls + [Report(fault)]);
    var acts := w.react(|s.calls|).acts;
    ActsSettle(called, acts, id);
    PerformAllCalls(called, acts);
    FailedIn(s.log, PerformAll(called, acts), id, if Shut in acts then Closed else Protocol);
  }

  lemma FailedIn(log: seq<Settlement>, t: State, id: nat, reason: Reason)
    requires log <= t.log && (reason == Closed || reason == Protocol)
    requires if reason == Closed then Settlement(id, Rejected(Closed)) in t.log[|log|..] else id in t.pending
    ensures Settlement(id, Rejected(reason)) in FailAll(t, Protocol).log[|log|..]
  {
    var all := FailAll(t, Protocol).log;
    if reason == Closed {
      var i :| 0 <= i < |t.log[|log|..]| && t.log[|log|..][i] == Settlement(id, Rejected(Closed));
      InTail(all, |log|, |log| + i);
    } else {
      var i :| 0 <= i < |t.pending| && t.pending[i] == id;
      InTail(all, |log|, |t.log| + i);
    }
  }

  /** A rejected header reports its fault, settles everything pending and empties the buffer. */
  lemma RejectedHeaderSettles(w: World, s: State, chunk: seq<byte>, kind: ErrorKind, n: nat, id: nat)
    requires Inv(s) && id in s.pending && w.reader.At(s.buffer + chunk) == Reject(kind, n)
    ensures var t := w.Step(s, Data(chunk));
      && t.buffer == [] && t.pending == [] && t.calls == s.calls + [Report(BadFrame(kind))]
      && NewlySettled(s, t, id, Rejected(if Shut in w.react(|s.calls|).acts then Closed else Protocol))
  {
    FaultSettles(w, s, BadFrame(kind), id);
    var items: seq<Item<Rpc>> := [ProtocolError(kind)];
    assert items[1..] == [];
    assert w.HandleItems(s, items) == w.HandleItem(s, items[0]);
  }

  /** A malformed message and a body that cannot be decoded are faults, as is a notification handler that
      fails later on. */
  lemma FaultsOfItems(w: World, s: State, kind: ErrorKind, m: Rpc)
    requires !m.versioned
    ensures w.HandleItem(s, ProtocolError(kind)) == w.ProtocolFault(s, BadFrame(kind))
    ensures w.HandleItem(s, Message(m)) == w.ProtocolFault(s, BadMessage)
    ensures w.Step(s, HandlerFailed) == w.ProtocolFault(s, HandlerThrew)
  {
  }

  /** The end of input leaves nothing pending. Bytes left over are reported as a truncated frame and settle
      everything as that fault does; without any, everything is settled as closed. */
  lemma EndSettles(w: World, s: State, id: nat)
    requires Inv(s) && id in s.pending
    ensures var t := w.Step(s, InputEnd);
      && t.pending == []
      && if s.expected.Some? || s.buffer != [] then
           && t.buffer == [] && t.calls == s.calls + [Report(Truncated)]
           && NewlySettled(s, t, id, Rejected(if Shut in w.react(|s.calls|).acts then Closed else Protocol))
         else t.calls == s.calls && AllFail(s, t, Closed)
  {
    if s.expected.Some? || s.buffer != [] {
      FaultSettles(w, s, Truncated, id);
      var failed := w.ProtocolFault(s, Truncated).log;
      assert failed + Settled([], Rejected(Closed)) == failed;
    }
  }
}
