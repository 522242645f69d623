/** Routing a request to MCP servers: a planner picks candidates by policy and score, an enforcer
    checks each against its runtime status, blocks what is unfit and falls back. */
module McpRouting {
  import opened Sequences

  datatype Status = Available | Degraded | NeedsAuth | Unavailable
  datatype Health = Critical | Standard | BestEffort
  datatype FailSafe = AllowWithWarning | DegradeOrFallback
  datatype Decision = Allow | Block | Modify

  datatype Record = Record(status: Status, authReady: Option<bool>, stale: bool, signalMissing: bool)

  datatype Entry = Entry(
    id: string, version: string, entry: string, lanes: seq<string>, roles: seq<string>, tags: seq<string>,
    capabilities: seq<string>, priority: int, requiresAuth: bool, degradeTo: seq<string>, health: Option<Health>)

  /** Unset fail-safes default differently in the two phases. */
  datatype Options = Options(
    snapshot: map<string, Record>, maxSelected: int, requiredCapabilities: seq<string>, versions: seq<string>,
    staleFailSafe: Option<FailSafe>, missingFailSafe: Option<FailSafe>)

  datatype Routing = Routing(selected: seq<string>, blocked: seq<string>, decisions: map<string, Decision>)

  /** One routing request; `rank` is the collation order of ids. */
  datatype Request = Request(
    registry: seq<Entry>, lane: string, role: string, intentTags: seq<string>, options: Options, rank: string -> int)
  {
    predicate UniqueIds() {
      forall i, j :: 0 <= i < j < |registry| ==> registry[i].id != registry[j].id
    }

    // ---------- policy ----------

    function Lookup(id: string): (r: Option<Entry>)
      ensures r.Some? ==> r.value in registry && r.value.id == id
    {
      FindEntry(registry, id)
    }

    function RecordOf(id: string): Option<Record> {
      if id in options.snapshot then Some(options.snapshot[id]) else None
    }

    predicate HasCapabilities(e: Entry) {
      forall i :: 0 <= i < |options.requiredCapabilities| ==> options.requiredCapabilities[i] in e.capabilities
    }

    /** Contract version, entry point and capabilities. */
    predicate Sound(e: Entry) {
      e.version in options.versions && e.entry != "" && HasCapabilities(e)
    }

    predicate ForRequest(e: Entry) {
      lane in e.lanes && role in e.roles
    }

    function Stale(phaseDefault: FailSafe): FailSafe {
      if options.staleFailSafe.Some? then options.staleFailSafe.value else phaseDefault
    }

    function Missing(phaseDefault: FailSafe): FailSafe {
      if options.missingFailSafe.Some? then options.missingFailSafe.value else phaseDefault
    }

    /** No fail-safe of the phase objects to the freshness of the record. */
    predicate Fresh(id: string, phaseDefault: FailSafe) {
      var record := RecordOf(id);
      && (Missing(phaseDefault).DegradeOrFallback? ==> record.Some? && !record.value.signalMissing)
      && (Stale(phaseDefault).DegradeOrFallback? && record.Some? ==> !record.value.stale)
    }

    predicate Running(id: string) {
      RecordOf(id).Some? ==> !RecordOf(id).value.status.Unavailable? && !RecordOf(id).value.status.NeedsAuth?
    }

    // ---------- planner ----------

    function Score(e: Entry): int {
      e.priority + (if exists t :: t in e.tags && t in intentTags then 20 else -25)
    }

    predicate Candidate(e: Entry) {
      Sound(e) && ForRequest(e) && Fresh(e.id, AllowWithWarning)
    }

    /** Best score first, then by id: a stable sort by id followed by a stable sort by score. */
    function Ranked(entries: seq<Entry>, score: Entry -> int): seq<Entry> {
      SortBy((e: Entry) => -(score(e) as real), SortBy((e: Entry) => rank(e.id) as real, entries))
    }

    function Candidates(): seq<Entry> {
      Ranked(Filter((e: Entry) => Candidate(e), registry), (e: Entry) => Score(e))
    }

    function ByPriority(): seq<Entry> {
      Ranked(registry, (e: Entry) => e.priority)
    }

    function Quota(): nat {
      if options.maxSelected < 0 then 0 else options.maxSelected
    }

    predicate PlannerSafe(e: Entry) {
      Sound(e) && ForRequest(e) && Fresh(e.id, AllowWithWarning) && Running(e.id)
    }

    /** `chooseMcpsDetailed`. */
    function Plan(): Routing {
      var chosen := EntryIds(Take(Candidates(), Quota()));
      if chosen != [] then Routing(chosen, [], map id | id in chosen :: Allow)
      else
        match FirstWhere(ByPriority(), (e: Entry) => PlannerSafe(e))
        case None => Routing([], [], map[])
        case Some(e) => Routing([e.id], [], map[e.id := Modify])
    }

    method ChooseMcps() returns (r: Routing)
      ensures r == Plan()
    {
      var selected, decisions := SelectBest(Candidates());
      if |selected| == 0 {
        var fallback := FirstWhere(ByPriority(), (e: Entry) => PlannerSafe(e));
        if fallback.Some? {
          selected, decisions := [fallback.value.id], map[fallback.value.id := Modify];
        } else {
          decisions := map[];
        }
      }
      return Routing(selected, [], decisions);
    }

    method SelectBest(candidates: seq<Entry>) returns (selected: seq<string>, decisions: map<string, Decision>)
      ensures selected == EntryIds(Take(candidates, Quota())) && decisions == map id | id in selected :: Allow
    {
      selected, decisions := [], map[];
      for i := 0 to |candidates|
        invariant selected == EntryIds(Take(candidates[..i], Quota()))
        invariant decisions == map id | id in selected :: Allow
      {
        assert candidates[..i + 1] == candidates[..i] + [candidates[i]];
        if |selected| >= options.maxSelected { continue; }
        assert Take(candidates[..i + 1], Quota()) == candidates[..i + 1];
        assert EntryIds(candidates[..i + 1]) == EntryIds(candidates[..i]) + [candidates[i].id];
        selected := selected + [candidates[i].id];
        decisions := decisions[candidates[i].id := Allow];
      }
      assert candidates[..|candidates|] == candidates;
    }

    // ---------- enforcer ----------

    /** What the enforcer demands of anything it selects. */
    predicate Usable(id: string) {
      Lookup(id).Some? && Sound(Lookup(id).value) && Running(id) && Fresh(id, DegradeOrFallback)
    }

    predicate CanUseDegraded(e: Entry) {
      e.health.Some? && !e.health.value.Critical?
    }

    predicate AuthRefused(e: Entry) {
      e.requiresAuth && RecordOf(e.id).Some? && RecordOf(e.id).value.authReady == Some(false)
    }

    /** The first check that fails decides: a policy failure blocks, a runtime failure also looks
        for a fallback; otherwise the server is kept, with the given decision if one is set. */
    function Judge(id: string): Verdict {
      match Lookup(id)
      case None => Reject
      case Some(e) =>
        if !(e.version in options.versions) || e.entry == "" || !(lane in e.lanes) || !(role in e.roles)
          || !HasCapabilities(e) then Reject
        else
          match RecordOf(id)
          case None => if Missing(DegradeOrFallback).AllowWithWarning? then Keep(Some(Allow)) else Replace(e)
          case Some(record) =>
            if record.signalMissing && Missing(DegradeOrFallback).DegradeOrFallback? then Replace(e)
            else if record.stale && Stale(DegradeOrFallback).DegradeOrFallback? then Replace(e)
            else if record.status.Unavailable? || record.status.NeedsAuth? then Replace(e)
            else if e.requiresAuth && record.authReady == Some(false) then Replace(e)
            else if record.status.Degraded? then if CanUseDegraded(e) then Keep(Some(Modify)) else Replace(e)
            else Keep(None)
    }

    function PickFallback(targets: seq<string>, blocked: seq<string>): (r: Option<string>)
      ensures r.Some? ==> r.value in targets && r.value !in blocked && Usable(r.value)
      ensures r.None? ==> forall t :: t in targets ==> t in blocked || !Usable(t)
    {
      if targets == [] then None
      else if targets[0] !in blocked && Usable(targets[0]) then Some(targets[0])
      else PickFallback(targets[1..], blocked)
    }

    function BlockId(s: Routing, id: string): Routing {
      s.(blocked := if id in s.blocked then s.blocked else s.blocked + [id], decisions := s.decisions[id := Block])
    }

    function Step(s: Routing, id: string): Routing {
      match Judge(id)
      case Reject => BlockId(s, id)
      case Replace(e) =>
        var b := BlockId(s, id);
        (match PickFallback(e.degradeTo, b.blocked)
         case None => b
         case Some(f) => b.(selected := b.selected + [f], decisions := b.decisions[f := Modify]))
      case Keep(d) =>
        s.(selected := s.selected + [id],
           decisions := s.decisions[id := if d.Some? then d.value
                                          else if id in s.decisions then s.decisions[id] else Allow])
    }

    function Steps(s: Routing, ids: seq<string>): Routing
      decreases |ids|
    {
      if ids == [] then s else Steps(Step(s, ids[0]), ids[1..])
    }

    function Dedupe(ids: seq<string>, blocked: seq<string>, out: seq<string>): seq<string>
      decreases |ids|
    {
      if ids == [] then out
      else Dedupe(ids[1..], blocked, if ids[0] in blocked || ids[0] in out then out else out + [ids[0]])
    }

    function GlobalFallback(blocked: seq<string>): Option<Entry> {
      FirstWhere(ByPriority(), (e: Entry) => e.id !in blocked && Sound(e) && Running(e.id)
        && Fresh(e.id, DegradeOrFallback))
    }

    function Conclude(s: Routing): Routing {
      var selected := Dedupe(s.selected, s.blocked, []);
      if selected != [] then s.(selected := selected)
      else
        match GlobalFallback(s.blocked)
        case None => s.(selected := [])
        case Some(e) => s.(selected := [e.id], decisions := s.decisions[e.id := Modify])
    }

    /** `enforceMcpRoutingDetailed`. */
    function Enforce(): Routing {
      Conclude(Steps(Plan().(selected := []), Plan().selected))
    }

    method EnforceMcpRouting() returns (r: Routing)
      ensures r == Enforce()
    {
      var planned := ChooseMcps();
      var state := planned.(selected := []);
      for i := 0 to |planned.selected|
        invariant Steps(state, planned.selected[i..]) == Steps(planned.(selected := []), planned.selected)
      {
        var id := planned.selected[i];
        assert planned.selected[i..][0] == id && planned.selected[i..][1..] == planned.selected[i + 1..];
        var verdict := Judge(id);
        match verdict {
          case Reject => state := BlockId(state, id);
          case Replace(e) =>
            state := BlockId(state, id);
            var fallback := FindFallback(e.degradeTo, state.blocked);
            if fallback.Some? {
              state := state.(selected := state.selected + [fallback.value],
                decisions := state.decisions[fallback.value := Modify]);
            }
          case Keep(d) =>
            var decision := if d.Some? then d.value else if id in state.decisions then state.decisions[id] else Allow;
            state := state.(selected := state.selected + [id], decisions := state.decisions[id := decision]);
        }
      }
      var selected := DedupeExcluding(state.selected, state.blocked);
      if |selected| > 0 { return state.(selected := selected); }
      var fallback := GlobalFallback(state.blocked);
      if fallback.None? { return state.(selected := []); }
      return state.(selected := [fallback.value.id], decisions := state.decisions[fallback.value.id := Modify]);
    }

    method FindFallback(targets: seq<string>, blocked: seq<string>) returns (r: Option<string>)
      ensures r == PickFallback(targets, blocked)
    {
      for i := 0 to |targets|
        invariant PickFallback(targets[i..], blocked) == PickFallback(targets, blocked)
      {
        assert targets[i..][0] == targets[i] && targets[i..][1..] == targets[i + 1..];
        if targets[i] in blocked { continue; }
        if Usable(targets[i]) { return Some(targets[i]); }
      }
      return None;
    }

    method DedupeExcluding(ids: seq<string>, blocked: seq<string>) returns (out: seq<string>)
      ensures out == Dedupe(ids, blocked, [])
    {
      out := [];
      for i := 0 to |ids|
        invariant Dedupe(ids[i..], blocked, out) == Dedupe(ids, blocked, [])
      {
        assert ids[i..][0] == ids[i] && ids[i..][1..] == ids[i + 1..];
        if ids[i] in blocked || ids[i] in out { continue; }
        out := out + [ids[i]];
      }
    }

    // ---------- guarantees ----------

    lemma {:induction false} DedupeOk(ids: seq<string>, blocked: seq<string>, out: seq<string>)
      requires NoDup(out) && forall x :: x in out ==> x !in blocked
      ensures var r := Dedupe(ids, blocked, out);
        && NoDup(r) && |r| <= |out| + |ids|
        && forall x :: x in r <==> x in out || (x in ids && x !in blocked)
      decreases |ids|
    {
      if ids != [] {
        assert forall x :: x in ids <==> x == ids[0] || x in ids[1..];
        DedupeOk(ids[1..], blocked, if ids[0] in blocked || ids[0] in out then out else out + [ids[0]]);
      }
    }

    lemma PlanOk()
      requires UniqueIds()
      ensures var p := Plan();
        && NoDup(p.selected) && p.blocked == [] && p.decisions.Keys == Elements(p.selected)
        && |p.selected| <= (if Quota() > 1 then Quota() else 1)
        && (forall id :: id in p.selected ==> p.decisions[id] != Block)
    {
      var chosen := Take(Candidates(), Quota());
      if chosen != [] {
        CandidatesOk();
        assert EntryIds(chosen) != [];
        forall i, j | 0 <= i < j < |chosen| ensures EntryIds(chosen)[i] != EntryIds(chosen)[j] {
          assert Candidates()[i].id != Candidates()[j].id;
        }
      }
    }

    /** Sorting and filtering keep the ids distinct and lose nothing. */
    lemma RankedOk(entries: seq<Entry>, score: Entry -> int)
      ensures multiset(Ranked(entries, score)) == multiset(entries)
      ensures forall i, j :: 0 <= i < j < |Ranked(entries, score)| ==>
          score(Ranked(entries, score)[i]) >= score(Ranked(entries, score)[j])
    {
      var byId := SortBy((e: Entry) => rank(e.id) as real, entries);
      SortByOk((e: Entry) => rank(e.id) as real, entries);
      var key := (e: Entry) => -(score(e) as real);
      SortByOk(key, byId);
      var r := Ranked(entries, score);
      assert r == SortBy(key, byId);
      forall i, j | 0 <= i < j < |r| ensures score(r[i]) >= score(r[j]) {
        assert key(r[i]) <= key(r[j]);
      }
    }

    lemma CandidateMembers(e: Entry)
      ensures e in Candidates() <==> e in registry && Candidate(e)
      ensures multiset(Candidates())[e] <= multiset(registry)[e]
    {
      var p := (e: Entry) => Candidate(e);
      var filtered := Filter(p, registry);
      RankedOk(filtered, (e: Entry) => Score(e));
      FilterCount(p, registry, e);
      assert e in Candidates() <==> e in multiset(Candidates());
      assert e in registry <==> e in multiset(registry);
    }

    lemma CandidatesDistinct(i: nat, j: nat)
      requires UniqueIds() && i < j < |Candidates()|
      ensures Candidates()[i].id != Candidates()[j].id
    {
      var c := Candidates();
      CandidateMembers(c[i]);
      CandidateMembers(c[j]);
      RegistryOnce(c[j]);
      OnceOnly(c, i, j);
    }

    /** The candidates are exactly the entries that pass, once each, best score first. */
    lemma CandidatesOk()
      requires UniqueIds()
      ensures var c := Candidates();
        && (forall e :: e in c <==> e in registry && Candidate(e))
        && (forall i, j :: 0 <= i < j < |c| ==> c[i].id != c[j].id && Score(c[i]) >= Score(c[j]))
    {
      var c := Candidates();
      forall e ensures e in c <==> e in registry && Candidate(e) { CandidateMembers(e); }
      forall i, j | 0 <= i < j < |c| ensures c[i].id != c[j].id && Score(c[i]) >= Score(c[j]) {
        CandidatesDistinct(i, j);
        RankedOk(Filter((e: Entry) => Candidate(e), registry), (e: Entry) => Score(e));
      }
    }

    lemma RegistryOnce(e: Entry)
      requires UniqueIds()
      ensures multiset(registry)[e] <= 1
    {
      NoDupCount(registry, e);
    }

    /** The enforcer's loop after the planned ids `done`, with `rest` to come. */
    ghost predicate LoopInv(s: Routing, done: seq<string>, rest: seq<string>) {
      && (forall id :: id in s.blocked <==> id in s.decisions && s.decisions[id] == Block)
      && (forall id :: id in s.blocked ==> id in done)
      && (forall id :: id in rest ==> id !in done && id in s.decisions)
      && (forall id :: id in s.selected ==> Usable(id) && id in s.decisions)
      && (forall id :: id in done ==> id in s.blocked || id in s.selected)
      && (forall id :: id in s.selected && s.decisions[id] == Allow ==> Approved(id))
      && |s.selected| <= |done|
    }

    /** The full policy: what a server kept in its own right satisfies. */
    predicate Approved(id: string) {
      && Usable(id) && ForRequest(Lookup(id).value) && !AuthRefused(Lookup(id).value)
      && (RecordOf(id).Some? ==> RecordOf(id).value.status.Available?)
    }

    lemma JudgeOk(id: string)
      ensures Judge(id).Keep? ==> Usable(id) && ForRequest(Lookup(id).value) && !AuthRefused(Lookup(id).value)
      ensures Judge(id).Keep? && Judge(id).decision != Some(Modify) ==> Approved(id)
      ensures Judge(id).Keep? ==> Judge(id).decision != Some(Block)
    {
    }

    lemma StepOk(s: Routing, id: string, done: seq<string>, rest: seq<string>)
      requires LoopInv(s, done, [id] + rest) && id !in rest
      ensures LoopInv(Step(s, id), done + [id], rest)
    {
      JudgeOk(id);
      assert id in [id] + rest;
      forall x | x in rest ensures x !in done + [id] && x in Step(s, id).decisions { assert x in [id] + rest; }
    }

    lemma {:induction false} StepsOk(s: Routing, done: seq<string>, ids: seq<string>)
      requires LoopInv(s, done, ids) && NoDup(ids)
      ensures LoopInv(Steps(s, ids), done + ids, [])
      decreases |ids|
    {
      if ids == [] {
        assert done + ids == done;
      } else {
        assert ids == [ids[0]] + ids[1..];
        StepOk(s, ids[0], done, ids[1..]);
        StepsOk(Step(s, ids[0]), done + [ids[0]], ids[1..]);
        Assoc(done, [ids[0]], ids[1..]);
      }
    }

    lemma GlobalFallbackOk(blocked: seq<string>)
      requires UniqueIds()
      ensures GlobalFallback(blocked).Some? ==>
          GlobalFallback(blocked).value.id !in blocked && Usable(GlobalFallback(blocked).value.id)
      ensures GlobalFallback(blocked).None? ==> forall id :: Usable(id) ==> id in blocked
    {
      var p := (e: Entry) => e.id !in blocked && Sound(e) && Running(e.id) && Fresh(e.id, DegradeOrFallback);
      RankedOk(registry, (e: Entry) => e.priority);
      SameMembers(ByPriority(), registry);
      FirstWhereOk(ByPriority(), p);
      var g := GlobalFallback(blocked);
      assert g == FirstWhere(ByPriority(), p);
      if g.Some? {
        LookupUnique(g.value);
      } else {
        forall id | Usable(id) ensures id in blocked { assert !p(Lookup(id).value); }
      }
    }

    lemma LookupUnique(e: Entry)
      requires UniqueIds() && e in registry
      ensures Lookup(e.id) == Some(e)
    {
      FindEntryOk(registry, e);
    }

    /** For every registry with distinct ids and every request: the selected ids are distinct, none
        of them is blocked, there are at most max(1, maxSelected); each is in the registry with a
        supported version, an entry point, all required capabilities and a runtime status the
        fail-safes accept; an id is blocked exactly when its decision is "block", and a selected id
        has another decision; a selection of "allow" satisfies the full policy, and any planned server
        that is selected fits lane and role and has not failed authentication; every planned id is
        selected or blocked; and nothing is selected only if every usable server is blocked. */
    lemma RoutingGuarantees()
      requires UniqueIds()
      ensures var r := Enforce();
        && NoDup(r.selected) && |r.selected| <= (if Quota() > 1 then Quota() else 1)
        && (forall id :: id in r.selected ==>
              id !in r.blocked && Usable(id) && id in r.decisions && r.decisions[id] != Block)
        && (forall id :: id in r.blocked <==> id in r.decisions && r.decisions[id] == Block)
        && (forall id :: id in r.selected && r.decisions[id] == Allow ==> Approved(id))
        && (forall id :: id in r.selected && id in Plan().selected ==>
              ForRequest(Lookup(id).value) && !AuthRefused(Lookup(id).value))
        && (forall id :: id in Plan().selected ==> id in r.selected || id in r.blocked)
        && (r.selected == [] ==> forall id :: Usable(id) ==> id in r.blocked)
    {
      PlanOk();
      var s := LoopResult();
      DedupeOk(s.selected, s.blocked, []);
      GlobalFallbackOk(s.blocked);
      forall id | id in Enforce().selected && id in Plan().selected
        ensures ForRequest(Lookup(id).value) && !AuthRefused(Lookup(id).value)
      {
        SelectedFrom(id);
      }
    }

    // ---------- where the selected servers come from ----------

    /** A fallback target of a planned server that was replaced. */
    ghost predicate FallbackOf(id: string, planned: seq<string>) {
      exists p :: p in planned && Judge(p).Replace? && id in Judge(p).entry.degradeTo
    }

    /** After the planned ids `done`: those not blocked were kept, and whatever else is selected is a
        fallback of one of them. */
    ghost predicate Sourced(s: Routing, done: seq<string>) {
      && (forall id :: id in done && id !in s.blocked ==> Judge(id).Keep?)
      && (forall id :: id in s.selected ==> id in done || FallbackOf(id, done))
    }

    lemma StepSourced(s: Routing, id: string, done: seq<string>)
      requires Sourced(s, done)
      ensures Sourced(Step(s, id), done + [id])
    {
      var t := Step(s, id);
      forall x | x in t.selected ensures x in done + [id] || FallbackOf(x, done + [id]) {
        if x in s.selected && FallbackOf(x, done) {
          var p :| p in done && Judge(p).Replace? && x in Judge(p).entry.degradeTo;
          assert p in done + [id];
        } else if x !in s.selected && Judge(id).Replace? {
          assert id in done + [id] && x in Judge(id).entry.degradeTo;
        }
      }
    }

    lemma {:induction false} StepsSourced(s: Routing, done: seq<string>, ids: seq<string>)
      requires Sourced(s, done)
      ensures Sourced(Steps(s, ids), done + ids)
      decreases |ids|
    {
      if ids == [] {
        assert done + ids == done;
      } else {
        StepSourced(s, ids[0], done);
        StepsSourced(Step(s, ids[0]), done + [ids[0]], ids[1..]);
        HeadTail(ids);
        Assoc(done, [ids[0]], ids[1..]);
      }
    }

    /** Every selected server is a planned one that was kept, and then fits lane and role and is not
        refused for lack of authentication, or a fallback target of a planned one that was replaced,
        or, with every planned one blocked, the global fallback. */
    lemma SelectedFrom(id: string)
      requires UniqueIds() && id in Enforce().selected
      ensures if id in Plan().selected then
          Judge(id).Keep? && ForRequest(Lookup(id).value) && !AuthRefused(Lookup(id).value)
        else
          || FallbackOf(id, Plan().selected)
          || ((forall p :: p in Plan().selected ==> p in Enforce().blocked)
              && GlobalFallback(Enforce().blocked).Some? && GlobalFallback(Enforce().blocked).value.id == id)
    {
      var p := Plan();
      var s := LoopResult();
      Concluded(s, id);
      SourceIn(s, p.selected, id);
      JudgeOk(id);
    }

    /** The state in which the enforcer's loop ends, with all that is known about it. */
    lemma LoopResult() returns (s: Routing)
      requires UniqueIds()
      ensures Enforce() == Conclude(s) && LoopInv(s, Plan().selected, []) && Sourced(s, Plan().selected)
    {
      PlanOk();
      var p := Plan();
      var start := p.(selected := []);
      s := Steps(start, p.selected);
      StepsSourced(start, [], p.selected);
      StepsOk(start, [], p.selected);
      assert [] + p.selected == p.selected;
    }

    lemma Concluded(s: Routing, id: string)
      requires UniqueIds() && id in Conclude(s).selected
      ensures Conclude(s).blocked == s.blocked && id !in s.blocked
      ensures if exists x :: x in s.selected && x !in s.blocked then id in s.selected && id !in s.blocked
        else GlobalFallback(s.blocked).Some? && GlobalFallback(s.blocked).value.id == id
    {
      DedupeOk(s.selected, s.blocked, []);
      GlobalFallbackOk(s.blocked);
    }

    lemma SourceIn(s: Routing, planned: seq<string>, id: string)
      requires LoopInv(s, planned, []) && Sourced(s, planned) && id !in s.blocked
      ensures id in planned ==> Judge(id).Keep?
      ensures id in s.selected ==> id in planned || FallbackOf(id, planned)
      ensures (forall x :: x in s.selected ==> x in s.blocked) ==> forall p :: p in planned ==> p in s.blocked
    {
    }

    // ---------- the two defaults ----------

    predicate Defaults() {
      options.staleFailSafe.None? && options.missingFailSafe.None?
    }

    /** With no fail-safe set the planner asks for no runtime record at all, and the enforcer replaces
        every candidate whose record is missing, stale or without its signal. */
    lemma DefaultsDiffer(e: Entry)
      requires UniqueIds() && Defaults() && e in registry
      ensures Candidate(e) <==> Sound(e) && ForRequest(e)
      ensures Candidate(e) ==>
        (Judge(e.id) == Replace(e) <==>
           var record := RecordOf(e.id);
           || record.None? || record.value.signalMissing || record.value.stale
           || record.value.status.Unavailable? || record.value.status.NeedsAuth? || AuthRefused(e)
           || (record.value.status.Degraded? && !CanUseDegraded(e)))
    {
      LookupUnique(e);
    }

    /** A request with one server and no runtime records: it is planned and then blocked. */
    lemma UnknownServerIsPlannedAndBlocked(e: Entry)
      requires Defaults() && registry == [e] && options.snapshot == map[] && Quota() >= 1 && Sound(e) && ForRequest(e)
      ensures Plan().selected == [e.id] && Enforce().blocked == [e.id] && Enforce().selected == []
    {
      OnlyCandidate(e);
      DefaultsDiffer(e);
      FindEntryOk(registry, e);
      var ids, start := [e.id], Plan().(selected := []);
      assert ids[1..] == [];
      assert Steps(start, ids) == Step(start, e.id);
      RoutingGuarantees();
      OneServer(e, Enforce());
    }

    lemma OnlyUsable(e: Entry)
      requires registry == [e]
      ensures forall id :: Usable(id) ==> id == e.id
    {
      forall id | Usable(id) ensures id == e.id { assert Lookup(id).value in registry; }
    }

    lemma OneServer(e: Entry, r: Routing)
      requires registry == [e] && e.id in r.blocked
      requires forall id :: id in r.selected ==> id !in r.blocked && Usable(id)
      ensures r.selected == []
    {
      assert r.selected == [] || r.selected[0] in r.selected;
      OnlyUsable(e);
    }

    lemma OnlyCandidate(e: Entry)
      requires Defaults() && registry == [e] && Quota() >= 1 && Sound(e) && ForRequest(e)
      ensures Plan() == Routing([e.id], [], map[e.id := Allow])
    {
      DefaultsDiffer(e);
      CandidatesOk();
      var c := Candidates();
      assert e in c;
      assert |c| <= 1 || c[0].id != c[1].id;
      forall i | 0 <= i < |c| ensures c[i] == e { assert c[i] in c; }
      assert c == [e];
      assert EntryIds(Take(c, Quota())) == [e.id];
      assert (map id | id in [e.id] :: Allow) == map[e.id := Allow];
    }

    /** Under the enforcer's own defaults every selected server has a fresh record with its signal. */
    lemma DefaultsNeedFreshRecord(id: string)
      requires UniqueIds() && id in Enforce().selected && options.staleFailSafe.None? && options.missingFailSafe.None?
      ensures RecordOf(id).Some? && !RecordOf(id).value.stale && !RecordOf(id).value.signalMissing
    {
      RoutingGuarantees();
    }

    /** The planner takes the best: whoever is left out scores no higher than anyone chosen. */
    lemma PlanTakesBest(e: Entry, f: Entry)
      requires UniqueIds() && Plan().selected != [] && e in registry && Candidate(e) && e.id !in Plan().selected
      requires f in registry && f.id in Plan().selected && Candidate(f)
      ensures Quota() == 0 || Score(f) >= Score(e)
    {
      CandidatesOk();
      var c := Candidates();
      if Quota() > 0 {
        var k :| 0 <= k < |c| && c[k] == e;
        var j :| 0 <= j < |c| && c[j] == f;
        var chosen := Take(c, Quota());
        assert EntryIds(chosen) != [];
        assert forall i :: 0 <= i < |chosen| ==> EntryIds(chosen)[i] in EntryIds(chosen);
        var q :| 0 <= q < |chosen| && EntryIds(chosen)[q] == f.id;
        assert c[q].id == c[j].id;
        assert q == j;
      }
    }
  }

  datatype Verdict = Reject | Replace(entry: Entry) | Keep(decision: Option<Decision>)

  function FindEntry(registry: seq<Entry>, id: string): (r: Option<Entry>)
    ensures r.Some? ==> r.value in registry && r.value.id == id
  {
    if registry == [] then None else if registry[0].id == id then Some(registry[0]) else FindEntry(registry[1..], id)
  }

  lemma {:induction false} FindEntryOk(registry: seq<Entry>, e: Entry)
    requires e in registry && forall i, j :: 0 <= i < j < |registry| ==> registry[i].id != registry[j].id
    ensures FindEntry(registry, e.id) == Some(e)
  {
    if registry[0] != e {
      var k :| 0 <= k < |registry| && registry[k] == e;
      assert registry[1..][k - 1] == e;
      FindEntryOk(registry[1..], e);
    }
  }

  function EntryIds(entries: seq<Entry>): (r: seq<string>)
    ensures |r| == |entries| && forall i :: 0 <= i < |r| ==> r[i] == entries[i].id
  {
    seq(|entries|, i requires 0 <= i < |entries| => entries[i].id)
  }

  function FirstWhere(entries: seq<Entry>, p: Entry -> bool): Option<Entry> {
    if entries == [] then None else if p(entries[0]) then Some(entries[0]) else FirstWhere(entries[1..], p)
  }

  lemma {:induction false} FirstWhereOk(entries: seq<Entry>, p: Entry -> bool)
    ensures FirstWhere(entries, p).Some? ==> FirstWhere(entries, p).value in entries && p(FirstWhere(entries, p).value)
    ensures FirstWhere(entries, p).None? ==> forall e :: e in entries ==> !p(e)
  {
    if entries != [] { FirstWhereOk(entries[1..], p); }
  }
}
