/** What a routing request comes out as, told from the registry, the runtime snapshot and the options
    alone: which servers are planned and in what order, which of those stay, and what replaces the rest. */
module RoutingOutcomes {
  import opened Sequences
  import opened McpRouting

  // ---------- the conditions, read off the fields ----------

  /** Version, entry point and capabilities. */
  predicate Supported(q: Request, e: Entry) {
    && e.version in q.options.versions && e.entry != ""
    && (forall c :: c in q.options.requiredCapabilities ==> c in e.capabilities)
  }

  /** What planning asks of an entry; its runtime record matters only if a fail-safe is set to degrade. */
  predicate Eligible(q: Request, e: Entry) {
    && Supported(q, e) && q.lane in e.lanes && q.role in e.roles
    && (q.options.missingFailSafe == Some(DegradeOrFallback) ==>
          e.id in q.options.snapshot && !q.options.snapshot[e.id].signalMissing)
    && (q.options.staleFailSafe == Some(DegradeOrFallback) && e.id in q.options.snapshot ==>
          !q.options.snapshot[e.id].stale)
  }

  predicate Up(q: Request, id: string) {
    id in q.options.snapshot ==> q.options.snapshot[id].status in {Available, Degraded}
  }

  /** What enforcement asks of anything it selects; the runtime record matters unless a fail-safe is
      set to warn. */
  predicate Serviceable(q: Request, e: Entry) {
    && Supported(q, e) && Up(q, e.id)
    && (q.options.missingFailSafe != Some(AllowWithWarning) ==>
          e.id in q.options.snapshot && !q.options.snapshot[e.id].signalMissing)
    && (q.options.staleFailSafe != Some(AllowWithWarning) && e.id in q.options.snapshot ==>
          !q.options.snapshot[e.id].stale)
  }

  /** What enforcement asks of a planned server. */
  predicate Healthy(q: Request, e: Entry) {
    && Serviceable(q, e)
    && (e.id in q.options.snapshot && e.requiresAuth ==> q.options.snapshot[e.id].authReady != Some(false))
    && (e.id in q.options.snapshot && q.options.snapshot[e.id].status == Degraded ==>
          e.health in {Some(Standard), Some(BestEffort)})
  }

  predicate SharesTag(q: Request, e: Entry) {
    exists i, j :: 0 <= i < |e.tags| && 0 <= j < |q.intentTags| && e.tags[i] == q.intentTags[j]
  }

  /** A tag shared with the intent is worth 45 points of priority. */
  function Merit(q: Request, e: Entry): int {
    e.priority + if SharesTag(q, e) then 45 else 0
  }

  predicate Ahead(q: Request, e: Entry, f: Entry) {
    Merit(q, e) > Merit(q, f) || (Merit(q, e) == Merit(q, f) && q.rank(e.id) <= q.rank(f.id))
  }

  predicate AheadByPriority(q: Request, e: Entry, f: Entry) {
    e.priority > f.priority || (e.priority == f.priority && q.rank(e.id) <= q.rank(f.id))
  }

  // ---------- the planner ----------

  lemma CandidateIs(q: Request, e: Entry)
    ensures q.Candidate(e) <==> Eligible(q, e)
    ensures q.PlannerSafe(e) <==> Eligible(q, e) && Up(q, e.id)
  {
    SoundIs(q, e);
  }

  lemma SoundIs(q: Request, e: Entry)
    ensures q.Sound(e) <==> Supported(q, e)
  {
    var needed := q.options.requiredCapabilities;
    assert forall i :: 0 <= i < |needed| ==> needed[i] in needed;
    assert forall c :: c in needed ==> exists i :: 0 <= i < |needed| && needed[i] == c;
  }

  lemma ScoreIs(q: Request, e: Entry)
    ensures q.Score(e) == Merit(q, e) - 25
  {
    if SharesTag(q, e) {
      var i, j :| 0 <= i < |e.tags| && 0 <= j < |q.intentTags| && e.tags[i] == q.intentTags[j];
      assert e.tags[i] in e.tags && e.tags[i] in q.intentTags;
    }
    forall t | t in e.tags && t in q.intentTags ensures SharesTag(q, e) {
      var i :| 0 <= i < |e.tags| && e.tags[i] == t;
      var j :| 0 <= j < |q.intentTags| && q.intentTags[j] == t;
    }
  }

  /** Sorting by id and then by score leaves the ids in order among equal scores. */
  lemma RankedInOrder(q: Request, entries: seq<Entry>, score: Entry -> int, i: nat, j: nat)
    requires i < j < |q.Ranked(entries, score)|
    ensures var r := q.Ranked(entries, score);
      score(r[i]) > score(r[j]) || (score(r[i]) == score(r[j]) && q.rank(r[i].id) <= q.rank(r[j].id))
  {
    var tie, key := (e: Entry) => q.rank(e.id) as real, (e: Entry) => -(score(e) as real);
    var byId := SortBy(tie, entries);
    SortByOk(tie, entries);
    SortByStable(key, tie, byId);
    var r := q.Ranked(entries, score);
    assert r == SortBy(key, byId);
    assert key(r[i]) < key(r[j]) || (key(r[i]) == key(r[j]) && tie(r[i]) <= tie(r[j]));
  }

  lemma CandidatesInOrder(q: Request, i: nat, j: nat)
    requires i < j < |q.Candidates()|
    ensures Ahead(q, q.Candidates()[i], q.Candidates()[j])
  {
    var c := q.Candidates();
    RankedInOrder(q, Filter((e: Entry) => q.Candidate(e), q.registry), (e: Entry) => q.Score(e), i, j);
    ScoreIs(q, c[i]);
    ScoreIs(q, c[j]);
  }

  /** With a positive quota the plan allows the best eligible servers, in order: as many as there are, up to
      the quota, none left out that is strictly ahead of one taken. There is then no fallback. */
  lemma PlanIsBest(q: Request) returns (chosen: seq<Entry>)
    requires q.UniqueIds() && q.options.maxSelected > 0
    ensures q.Plan().selected == EntryIds(chosen) && |chosen| <= q.options.maxSelected
    ensures forall e :: e in chosen ==> e in q.registry && Eligible(q, e) && q.Plan().decisions[e.id] == Allow
    ensures forall i, j :: 0 <= i < j < |chosen| ==> Ahead(q, chosen[i], chosen[j]) && chosen[i].id != chosen[j].id
    ensures forall e, c :: e in q.registry && Eligible(q, e) && e !in chosen && c in chosen ==> Ahead(q, c, e)
    ensures |chosen| < q.options.maxSelected ==> forall e :: e in q.registry && Eligible(q, e) ==> e in chosen
  {
    var c := q.Candidates();
    chosen := Take(c, q.Quota());
    forall e ensures e in c <==> e in q.registry && Eligible(q, e) {
      q.CandidateMembers(e);
      CandidateIs(q, e);
    }
    PlanIsTaken(q);
    forall e | e in chosen ensures e in q.registry && Eligible(q, e) && q.Plan().decisions[e.id] == Allow {
      var k :| 0 <= k < |chosen| && chosen[k] == e;
      assert e == c[k] && EntryIds(chosen)[k] == e.id;
    }
    forall i, j | 0 <= i < j < |chosen| ensures Ahead(q, chosen[i], chosen[j]) && chosen[i].id != chosen[j].id {
      CandidatesInOrder(q, i, j);
      q.CandidatesDistinct(i, j);
    }
    forall e, x | e in q.registry && Eligible(q, e) && e !in chosen && x in chosen ensures Ahead(q, x, e) {
      var k :| 0 <= k < |c| && c[k] == e;
      var i :| 0 <= i < |chosen| && chosen[i] == x;
      TakenOrLater(c, q.Quota(), k);
      CandidatesInOrder(q, i, k);
    }
  }

  lemma TakenOrLater(c: seq<Entry>, n: nat, k: nat)
    requires k < |c|
    ensures c[k] in Take(c, n) || k >= |Take(c, n)|
  {
    if k < |Take(c, n)| { assert Take(c, n)[k] == c[k]; }
  }

  lemma PlanIsTaken(q: Request)
    requires q.options.maxSelected > 0
    ensures var ids := EntryIds(Take(q.Candidates(), q.Quota()));
      q.Plan() == Routing(ids, [], map id | id in ids :: Allow)
  {
    var ids := EntryIds(Take(q.Candidates(), q.Quota()));
    if ids == [] {
      assert q.Candidates() == [];
      NoSafeFallback(q);
      assert (map id | id in ids :: Allow) == map[];
    }
  }

  /** A safe fallback is a candidate too, so without candidates there is none. */
  lemma NoSafeFallback(q: Request)
    requires q.Candidates() == []
    ensures FirstWhere(q.ByPriority(), (e: Entry) => q.PlannerSafe(e)) == None
  {
    var p := (e: Entry) => q.PlannerSafe(e);
    q.RankedOk(q.registry, (e: Entry) => e.priority);
    SameMembers(q.ByPriority(), q.registry);
    FirstWhereOk(q.ByPriority(), p);
    forall e | e in q.registry ensures !p(e) { q.CandidateMembers(e); }
  }

  /** The first that passes is ahead of all others that pass. */
  lemma {:induction false} FirstIsAhead(q: Request, entries: seq<Entry>, p: Entry -> bool, e: Entry)
    requires forall i, j :: 0 <= i < j < |entries| ==> AheadByPriority(q, entries[i], entries[j])
    requires e in entries && p(e)
    ensures FirstWhere(entries, p).Some?
    ensures FirstWhere(entries, p).value == e || AheadByPriority(q, FirstWhere(entries, p).value, e)
  {
    var k :| 0 <= k < |entries| && entries[k] == e;
    if !p(entries[0]) {
      assert entries[1..][k - 1] == e;
      FirstIsAhead(q, entries[1..], p, e);
    }
  }

  /** The best by priority of those that pass, or none of the registry passes. */
  lemma BestByPriority(q: Request, p: Entry -> bool)
    ensures var r := FirstWhere(q.ByPriority(), p);
      if r.None? then forall e :: e in q.registry ==> !p(e)
      else
        && r.value in q.registry && p(r.value)
        && forall e :: e in q.registry && p(e) && e != r.value ==> AheadByPriority(q, r.value, e)
  {
    var sorted, byPriority := q.ByPriority(), (e: Entry) => e.priority;
    q.RankedOk(q.registry, byPriority);
    SameMembers(sorted, q.registry);
    FirstWhereOk(sorted, p);
    forall i, j | 0 <= i < j < |sorted| ensures AheadByPriority(q, sorted[i], sorted[j]) {
      RankedInOrder(q, q.registry, byPriority, i, j);
    }
    forall e | e in q.registry && p(e) && e != FirstWhere(sorted, p).value
      ensures AheadByPriority(q, FirstWhere(sorted, p).value, e)
    {
      FirstIsAhead(q, sorted, p, e);
    }
  }

  /** Only with no quota at all does the planner fall back: to the eligible server of best priority that is
      not down, if there is one. */
  lemma PlanWithoutQuota(q: Request)
    requires q.options.maxSelected <= 0
    ensures if exists e :: e in q.registry && Eligible(q, e) && Up(q, e.id) then
        exists e :: e in q.registry && Eligible(q, e) && Up(q, e.id)
          && q.Plan() == Routing([e.id], [], map[e.id := Modify])
          && forall f :: f in q.registry && Eligible(q, f) && Up(q, f.id) && f != e ==> AheadByPriority(q, e, f)
      else q.Plan() == Routing([], [], map[])
  {
    var p := (e: Entry) => q.PlannerSafe(e);
    BestByPriority(q, p);
    forall e ensures p(e) <==> Eligible(q, e) && Up(q, e.id) { CandidateIs(q, e); }
    assert EntryIds(Take(q.Candidates(), q.Quota())) == [];
  }

  // ---------- the enforcer ----------

  lemma UsableIs(q: Request, e: Entry)
    requires q.UniqueIds() && e in q.registry
    ensures q.Usable(e.id) <==> Serviceable(q, e)
  {
    q.LookupUnique(e);
    SoundIs(q, e);
  }

  /** A server that fits the request is kept if healthy and replaced otherwise. */
  lemma JudgeIs(q: Request, e: Entry)
    requires q.UniqueIds() && e in q.registry && Eligible(q, e)
    ensures !Healthy(q, e) ==> q.Judge(e.id) == Replace(e)
    ensures Healthy(q, e) ==>
      q.Judge(e.id) == if e.id !in q.options.snapshot then Keep(Some(Allow))
                       else if q.options.snapshot[e.id].status == Degraded then Keep(Some(Modify))
                       else Keep(None)
  {
    q.LookupUnique(e);
    SoundIs(q, e);
  }

  lemma PlannedIsEligible(q: Request, id: string) returns (e: Entry)
    requires q.UniqueIds() && id in q.Plan().selected
    ensures e in q.registry && e.id == id && Eligible(q, e)
  {
    if q.options.maxSelected > 0 {
      var chosen := PlanIsBest(q);
      var k :| 0 <= k < |chosen| && EntryIds(chosen)[k] == id;
      e := chosen[k];
    } else {
      PlanWithoutQuota(q);
      e :| e in q.registry && Eligible(q, e) && Up(q, e.id) && q.Plan() == Routing([e.id], [], map[e.id := Modify]);
    }
  }

  /** Every usable target of `e` is out of `blocked`, and there is one. */
  ghost predicate HasOpenTarget(q: Request, e: Entry, blocked: seq<string>) {
    && (exists t :: t in e.degradeTo && q.Usable(t))
    && (forall t :: t in e.degradeTo && q.Usable(t) ==> t !in blocked)
  }

  /** What the enforcer has done after the planned ids `done`. */
  ghost predicate Tracked(q: Request, s: Routing, done: seq<string>) {
    && (forall id :: id in s.blocked <==> id in done && !q.Judge(id).Keep?)
    && (forall id :: id in done && q.Judge(id).Keep? ==> id in s.selected)
    && (forall id :: id in done && q.Judge(id).Replace? && HasOpenTarget(q, q.Judge(id).entry, s.blocked) ==>
          exists t :: t in q.Judge(id).entry.degradeTo && t in s.selected && q.Usable(t))
  }

  /** A decision stays as planned, or becomes what the verdict says, unless the server is also a fallback. */
  ghost predicate Decided(q: Request, planned: Routing, s: Routing, done: seq<string>, id: string)
    requires id in planned.decisions
  {
    || q.FallbackOf(id, done)
    || (id in s.decisions && s.decisions[id] == Settled(q, planned, done, id))
    || (id in done && !q.Judge(id).Keep?)
  }

  function Settled(q: Request, planned: Routing, done: seq<string>, id: string): Decision
    requires id in planned.decisions
  {
    if id in done && q.Judge(id).Keep? && q.Judge(id).decision.Some? then q.Judge(id).decision.value
    else planned.decisions[id]
  }

  lemma StepTracked(q: Request, s: Routing, done: seq<string>, id: string)
    requires Tracked(q, s, done) && id !in done
    ensures Tracked(q, q.Step(s, id), done + [id])
  {
    var t := q.Step(s, id);
    forall x | x in done + [id] && q.Judge(x).Replace? && HasOpenTarget(q, q.Judge(x).entry, t.blocked)
      ensures exists y :: y in q.Judge(x).entry.degradeTo && y in t.selected && q.Usable(y)
    {
      if x in done {
        assert HasOpenTarget(q, q.Judge(x).entry, s.blocked);
        var y :| y in q.Judge(x).entry.degradeTo && y in s.selected && q.Usable(y);
        assert y in t.selected;
      } else {
        var b := q.BlockId(s, id);
        var f := q.PickFallback(q.Judge(id).entry.degradeTo, b.blocked);
        assert t.blocked == b.blocked;
        assert f.Some?;
        assert t.selected == b.selected + [f.value];
      }
    }
  }

  lemma FallbackGrows(q: Request, x: string, done: seq<string>, id: string)
    requires q.FallbackOf(x, done)
    ensures q.FallbackOf(x, done + [id])
  {
    var p :| p in done && q.Judge(p).Replace? && x in q.Judge(p).entry.degradeTo;
    assert p in done + [id];
  }

  lemma StepDecided(q: Request, planned: Routing, s: Routing, done: seq<string>, id: string, x: string)
    requires x in planned.decisions && id !in done
    requires Decided(q, planned, s, done, x)
    ensures Decided(q, planned, q.Step(s, id), done + [id], x)
  {
    if q.FallbackOf(x, done) {
      FallbackGrows(q, x, done, id);
    } else if q.Judge(id).Replace? && x in q.Judge(id).entry.degradeTo {
      assert id in done + [id];
      assert q.FallbackOf(x, done + [id]);
    }
  }

  lemma {:induction false} StepsTracked(
    q: Request, planned: Routing, s: Routing, done: seq<string>, ids: seq<string>, x: string)
    requires Tracked(q, s, done) && NoDup(done + ids)
    requires x in planned.decisions && Decided(q, planned, s, done, x)
    ensures Tracked(q, q.Steps(s, ids), done + ids)
    ensures Decided(q, planned, q.Steps(s, ids), done + ids, x)
    decreases |ids|
  {
    if ids == [] {
      assert done + ids == done;
    } else {
      assert (done + ids)[|done|] == ids[0];
      assert forall i :: 0 <= i < |done| ==> done[i] == (done + ids)[i];
      StepTracked(q, s, done, ids[0]);
      StepDecided(q, planned, s, done, ids[0], x);
      HeadTail(ids);
      Assoc(done, [ids[0]], ids[1..]);
      StepsTracked(q, planned, q.Step(s, ids[0]), done + [ids[0]], ids[1..], x);
    }
  }

  /** The end of the enforcer's loop; `x` is any planned id. */
  lemma LoopTracked(q: Request, x: string) returns (s: Routing)
    requires q.UniqueIds() && x in q.Plan().selected
    ensures q.Enforce() == q.Conclude(s)
    ensures x in q.Plan().decisions
    ensures Tracked(q, s, q.Plan().selected) && Decided(q, q.Plan(), s, q.Plan().selected, x)
  {
    q.PlanOk();
    var planned := q.Plan();
    var start := planned.(selected := []);
    s := q.Steps(start, planned.selected);
    assert [] + planned.selected == planned.selected;
    assert x in planned.decisions.Keys;
    assert Tracked(q, start, []);
    StepsTracked(q, planned, start, [], planned.selected, x);
  }

  lemma KeptConcludes(q: Request, s: Routing, id: string)
    requires id in s.selected && id !in s.blocked
    ensures id in q.Conclude(s).selected && q.Conclude(s).blocked == s.blocked
    ensures q.Conclude(s).decisions == s.decisions
  {
    q.DedupeOk(s.selected, s.blocked, []);
  }

  lemma ConcludeBlocks(q: Request, s: Routing)
    ensures q.Conclude(s).blocked == s.blocked
  {
  }

  /** A planned server is selected exactly if it is healthy and blocked exactly if it is not; and unless it
      also serves as a fallback, it is allowed, or marked as modified if it is degraded. */
  lemma PlannedOutcome(q: Request, e: Entry)
    requires q.UniqueIds() && e in q.registry && e.id in q.Plan().selected
    ensures Eligible(q, e)
    ensures e.id in q.Enforce().selected <==> Healthy(q, e)
    ensures e.id in q.Enforce().blocked <==> !Healthy(q, e)
    ensures Healthy(q, e) && q.options.maxSelected > 0 && !q.FallbackOf(e.id, q.Plan().selected) ==>
        e.id in q.Enforce().decisions && q.Enforce().decisions[e.id] ==
          if e.id in q.options.snapshot && q.options.snapshot[e.id].status == Degraded then Modify else Allow
  {
    var f := PlannedIsEligible(q, e.id);
    q.LookupUnique(e);
    q.LookupUnique(f);
    JudgeIs(q, e);
    var s := LoopTracked(q, e.id);
    if Healthy(q, e) {
      KeptConcludes(q, s, e.id);
      if q.options.maxSelected > 0 { PlannedIsAllowed(q, e.id); }
    } else {
      ConcludeBlocks(q, s);
      q.RoutingGuarantees();
    }
  }

  lemma PlannedIsAllowed(q: Request, id: string)
    requires q.options.maxSelected > 0 && id in q.Plan().selected
    ensures id in q.Plan().decisions && q.Plan().decisions[id] == Allow
  {
    PlanIsTaken(q);
  }

  /** Nothing is blocked that was not planned. */
  lemma BlockedWasPlanned(q: Request, id: string)
    requires q.UniqueIds() && id in q.Enforce().blocked
    ensures id in q.Plan().selected
  {
    var s := q.LoopResult();
    ConcludeBlocks(q, s);
  }

  lemma SelectedIsServiceable(q: Request, id: string) returns (e: Entry)
    requires q.UniqueIds() && id in q.Enforce().selected
    ensures e in q.registry && e.id == id && Serviceable(q, e)
  {
    q.RoutingGuarantees();
    e := q.Lookup(id).value;
    UsableIs(q, e);
  }

  /** A planned server that is not healthy is replaced by one of its targets, if it has serviceable ones and
      none of them ends up blocked. */
  lemma UnhealthyIsReplaced(q: Request, e: Entry, f: Entry) returns (target: string)
    requires q.UniqueIds() && e in q.registry && e.id in q.Plan().selected && !Healthy(q, e)
    requires f in q.registry && f.id in e.degradeTo && Serviceable(q, f)
    requires forall g :: g in q.registry && g.id in e.degradeTo && Serviceable(q, g) ==> g.id !in q.Enforce().blocked
    ensures target in e.degradeTo && target in q.Enforce().selected
  {
    var s := LoopTracked(q, e.id);
    ConcludeBlocks(q, s);
    PlannedOutcome(q, e);
    JudgeIs(q, e);
    UsableIs(q, f);
    forall t | t in e.degradeTo && q.Usable(t) ensures t !in s.blocked {
      UsableIs(q, q.Lookup(t).value);
    }
    target :| target in e.degradeTo && target in s.selected && q.Usable(target);
    TargetStays(q, s, target);
  }

  lemma TargetStays(q: Request, s: Routing, target: string)
    requires q.UniqueIds() && q.Enforce() == q.Conclude(s) && target in s.selected
    ensures target in q.Enforce().selected || target in q.Enforce().blocked
  {
    if target !in s.blocked { KeptConcludes(q, s, target); } else { ConcludeBlocks(q, s); }
  }

  /** If every planned server is healthy the plan is routed as it is. */
  lemma HealthyPlanStands(q: Request)
    requires q.UniqueIds() && q.Plan().selected != []
    requires forall e :: e in q.registry && e.id in q.Plan().selected ==> Healthy(q, e)
    ensures q.Enforce().selected == q.Plan().selected && q.Enforce().blocked == []
  {
    var planned := q.Plan();
    var start := planned.(selected := []);
    q.PlanOk();
    forall id | id in planned.selected ensures q.Judge(id).Keep? {
      var e := PlannedIsEligible(q, id);
      JudgeIs(q, e);
    }
    AllKept(q, start, planned.selected);
    assert [] + planned.selected == planned.selected;
    DedupeNothing(q, planned.selected, []);
  }

  lemma {:induction false} AllKept(q: Request, s: Routing, ids: seq<string>)
    requires forall id :: id in ids ==> q.Judge(id).Keep?
    ensures q.Steps(s, ids).selected == s.selected + ids && q.Steps(s, ids).blocked == s.blocked
    decreases |ids|
  {
    if ids == [] {
      assert s.selected + ids == s.selected;
    } else {
      AllKept(q, q.Step(s, ids[0]), ids[1..]);
      HeadTail(ids);
      Assoc(s.selected, [ids[0]], ids[1..]);
    }
  }

  lemma {:induction false} DedupeNothing(q: Request, ids: seq<string>, out: seq<string>)
    requires NoDup(out + ids)
    ensures q.Dedupe(ids, [], out) == out + ids
    decreases |ids|
  {
    if ids == [] {
      assert out + ids == out;
    } else {
      assert (out + ids)[|out|] == ids[0];
      assert forall i :: 0 <= i < |out| ==> out[i] == (out + ids)[i];
      HeadTail(ids);
      Assoc(out, [ids[0]], ids[1..]);
      DedupeNothing(q, ids[1..], out + [ids[0]]);
    }
  }

  /** The fallback for a replaced server is the first target that will do. */
  lemma {:induction false} FirstTarget(q: Request, targets: seq<string>, blocked: seq<string>) returns (k: nat)
    requires q.PickFallback(targets, blocked).Some?
    ensures k < |targets| && q.PickFallback(targets, blocked) == Some(targets[k])
    ensures forall i :: 0 <= i < k ==> targets[i] in blocked || !q.Usable(targets[i])
    decreases |targets|
  {
    if targets[0] !in blocked && q.Usable(targets[0]) {
      k := 0;
    } else {
      var j := FirstTarget(q, targets[1..], blocked);
      k := j + 1;
      assert forall i :: 1 <= i < k ==> targets[i] == targets[1..][i - 1];
    }
  }

  /** If every planned server is blocked and no target takes over, the serviceable server of best priority
      that is not blocked does. */
  lemma LastResort(q: Request, id: string) returns (e: Entry)
    requires q.UniqueIds() && id in q.Enforce().selected
    requires id !in q.Plan().selected && !q.FallbackOf(id, q.Plan().selected)
    ensures e in q.registry && e.id == id && q.Enforce().selected == [id]
    ensures forall f :: f in q.registry && Serviceable(q, f) && f.id !in q.Enforce().blocked && f != e ==>
        AheadByPriority(q, e, f)
  {
    q.SelectedFrom(id);
    var blocked := q.Enforce().blocked;
    e := q.GlobalFallback(blocked).value;
    var p := (e: Entry) => e.id !in blocked && q.Sound(e) && q.Running(e.id) && q.Fresh(e.id, DegradeOrFallback);
    BestByPriority(q, p);
    assert q.GlobalFallback(blocked) == FirstWhere(q.ByPriority(), p);
    forall f | f in q.registry && Serviceable(q, f) && f.id !in blocked && f != e ensures AheadByPriority(q, e, f) {
      SoundIs(q, f);
      assert p(f);
    }
    OnlyLastResort(q, id);
  }

  lemma OnlyLastResort(q: Request, id: string)
    requires q.UniqueIds() && id in q.Enforce().selected
    requires id !in q.Plan().selected && !q.FallbackOf(id, q.Plan().selected)
    ensures q.Enforce().selected == [id]
  {
    var s := q.LoopResult();
    q.DedupeOk(s.selected, s.blocked, []);
    q.SourceIn(s, q.Plan().selected, id);
    q.Concluded(s, id);
  }
}
