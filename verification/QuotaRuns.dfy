/** Concurrent card requests of agents: the limit check and the creation are separate steps. */
module QuotaRuns {
  import opened Quota

  const NANOS_PER_HOUR := 3_600_000_000_000

  /** `pending` are the requests that passed their check and have not created their cards yet. */
  datatype State = State(cards: seq<Card>, now: int, pending: seq<Request>)

  datatype Action =
    | Check(request: Request)
    | Create(index: nat)                      // the index-th pending request creates its cards
    | Abort(index: nat)                       // or fails to
    | Unowned(count: nat, maxSessions: int)   // cards made without an agent are never checked
    | Delete(index: nat)                      // an admin deletes any card
    | Advance(to: int)

  predicate Enabled(agents: map<string, Agent>, s: State, a: Action) {
    match a
    case Check(r) => r.agentId != "" && Admitted(s.cards, agents, s.now, r)
    case Create(i) => i < |s.pending| && Creatable(s.pending[i].count, s.pending[i].duration, s.pending[i].maxSessions)
    case Abort(i) => i < |s.pending|
    case Unowned(_, maxSessions) => maxSessions >= 1
    case Delete(i) => i < |s.cards|
    case Advance(to) => s.now <= to
  }

  function Without<T>(s: seq<T>, i: nat): seq<T>
    requires i < |s|
  {
    s[..i] + s[i + 1..]
  }

  function Perform(agents: map<string, Agent>, s: State, a: Action): State
    requires Enabled(agents, s, a)
  {
    match a
    case Check(r) => s.(pending := s.pending + [r])
    case Create(i) =>
      var r := s.pending[i];
      s.(cards := s.cards + NewCards(r.agentId, s.now, r.count, r.maxSessions), pending := Without(s.pending, i))
    case Abort(i) => s.(pending := Without(s.pending, i))
    case Unowned(count, maxSessions) => s.(cards := s.cards + NewCards("", s.now, count, maxSessions))
    case Delete(i) => s.(cards := Without(s.cards, i))
    case Advance(to) => s.(now := to)
  }

  /** A schedule that can be carried out from s with at most k requests of the agent pending at any time. */
  predicate Schedule(agents: map<string, Agent>, s: State, actions: seq<Action>, agentId: string, k: nat)
    decreases |actions|
  {
    && PendingOf(s.pending, agentId) <= k
    && (actions == [] ||
        (Enabled(agents, s, actions[0]) && Schedule(agents, Perform(agents, s, actions[0]), actions[1..], agentId, k)))
  }

  function Final(agents: map<string, Agent>, s: State, actions: seq<Action>, agentId: string, k: nat): State
    requires Schedule(agents, s, actions, agentId, k)
    decreases |actions|
  {
    if actions == [] then s else Final(agents, Perform(agents, s, actions[0]), actions[1..], agentId, k)
  }

  function PendingOf(pending: seq<Request>, agentId: string): nat {
    if pending == [] then 0
    else PendingOf(pending[..|pending| - 1], agentId) + if pending[|pending| - 1].agentId == agentId then 1 else 0
  }

  /** Sessions a request will add if it gets to create its cards. */
  function Weight(r: Request): nat {
    if Creatable(r.count, r.duration, r.maxSessions) then Product(r.count, r.maxSessions) else 0
  }

  /** a times b, kept from the solver as a sum. */
  function Product(a: nat, b: nat): nat {
    if a == 0 then 0 else Product(a - 1, b) + b
  }

  lemma {:induction false} ProductIs(a: nat, b: nat)
    ensures Product(a, b) == a * b
  {
    if a > 0 {
      ProductIs(a - 1, b);
      assert a * b == (a - 1) * b + b;
    }
  }

  function WeightOf(pending: seq<Request>, agentId: string): nat {
    if pending == [] then 0
    else
      var r := pending[|pending| - 1];
      WeightOf(pending[..|pending| - 1], agentId) + if r.agentId == agentId then Weight(r) else 0
  }

  lemma {:induction false} PendingAppend(a: seq<Request>, b: seq<Request>, agentId: string)
    ensures PendingOf(a + b, agentId) == PendingOf(a, agentId) + PendingOf(b, agentId)
    ensures WeightOf(a + b, agentId) == WeightOf(a, agentId) + WeightOf(b, agentId)
    decreases |b|
  {
    if b == [] {
      assert a + b == a;
    } else {
      assert (a + b)[..|a + b| - 1] == a + b[..|b| - 1];
      PendingAppend(a, b[..|b| - 1], agentId);
    }
  }

  lemma PendingRemove(pending: seq<Request>, i: nat, agentId: string)
    requires i < |pending|
    ensures var own := pending[i].agentId == agentId;
      && PendingOf(pending, agentId) == PendingOf(Without(pending, i), agentId) + (if own then 1 else 0)
      && WeightOf(pending, agentId) == WeightOf(Without(pending, i), agentId) + (if own then Weight(pending[i]) else 0)
  {
    var one := [pending[i]];
    assert one[..0] == [];
    assert pending == pending[..i] + one + pending[i + 1..];
    PendingAppend(pending[..i] + one, pending[i + 1..], agentId);
    PendingAppend(pending[..i], one, agentId);
    PendingAppend(pending[..i], pending[i + 1..], agentId);
  }

  lemma {:induction false} WeightAtMost(pending: seq<Request>, agentId: string, limit: nat)
    requires forall i :: 0 <= i < |pending| && pending[i].agentId == agentId ==> Weight(pending[i]) <= limit
    ensures WeightOf(pending, agentId) <= Product(PendingOf(pending, agentId), limit)
    decreases |pending|
  {
    if pending != [] {
      WeightAtMost(pending[..|pending| - 1], agentId, limit);
    }
  }

  lemma {:induction false} ProductGrows(a: nat, b: nat, limit: nat)
    requires a <= b
    ensures Product(a, limit) <= Product(b, limit)
    decreases b
  {
    if a < b {
      ProductGrows(a, b - 1, limit);
    }
  }

  // ----- the bound

  /** A daily limit, and one more request's weight for each further request that may be pending. */
  function Bound(agent: Agent, k: nat, weight: nat): int
    requires k >= 1
  {
    agent.maxDaily + Product(k - 1, weight)
  }

  /** In numbers: k - 1 weights above the limit. */
  lemma BoundIs(agent: Agent, k: nat, weight: nat)
    requires k >= 1
    ensures Bound(agent, k, weight) == agent.maxDaily + (k - 1) * weight
  {
    ProductIs(k - 1, weight);
  }

  /** The agent's checked requests weigh at most `weight`, unless they are too heavy to be admitted at all. */
  predicate Fits(a: Action, agent: Agent, weight: nat) {
    a.Check? && a.request.agentId == agent.id ==>
      Weight(a.request) <= weight || Weight(a.request) > agent.maxDaily
  }

  /**
   * Pending requests weigh at most `weight` each; today's sessions together
   * with them, and those of every day since `from`, stay within the bound.
   */
  ghost predicate WithinBound(s: State, agent: Agent, k: nat, weight: nat, from: int)
    requires k >= 1
  {
    && Plausible(s.cards, s.now)
    && (forall i :: 0 <= i < |s.pending| && s.pending[i].agentId == agent.id ==> Weight(s.pending[i]) <= weight)
    && DailySessions(s.cards, agent.id, Day(s.now)) + WeightOf(s.pending, agent.id) <= Bound(agent, k, weight)
    && DaysWithin(s, agent, k, weight, from)
  }

  ghost predicate DaysWithin(s: State, agent: Agent, k: nat, weight: nat, from: int)
    requires k >= 1
  {
    forall d :: from <= d <= Day(s.now) ==> DailySessions(s.cards, agent.id, d) <= Bound(agent, k, weight)
  }

  lemma CheckKeepsBound(agents: map<string, Agent>, s: State, r: Request, agent: Agent, k: nat, weight: nat, from: int)
    requires agent.id in agents && agents[agent.id] == agent && agent.maxDaily > 0 && k >= 1
    requires WithinBound(s, agent, k, weight, from) && Enabled(agents, s, Check(r)) && Fits(Check(r), agent, weight)
    requires PendingOf(s.pending + [r], agent.id) <= k
    ensures WithinBound(s.(pending := s.pending + [r]), agent, k, weight, from)
  {
    assert (s.pending + [r])[..|s.pending|] == s.pending;
    if r.agentId == agent.id {
      var today := DailySessions(s.cards, agent.id, Day(s.now));
      DailyPlausible(s.cards, agent.id, s.now, Day(s.now));
      WeightAtMost(s.pending, agent.id, weight);
      ProductGrows(PendingOf(s.pending, agent.id), k - 1, weight);
      if Creatable(r.count, r.duration, r.maxSessions) {
        ProductIs(r.count, r.maxSessions);
        assert today + Weight(r) <= agent.maxDaily;
      }
    }
  }

  lemma CreateKeepsBound(s: State, i: nat, agent: Agent, k: nat, weight: nat, from: int)
    requires i < |s.pending| && k >= 1 && WithinBound(s, agent, k, weight, from)
    requires Creatable(s.pending[i].count, s.pending[i].duration, s.pending[i].maxSessions)
    ensures var r := s.pending[i];
      var cards := s.cards + NewCards(r.agentId, s.now, r.count, r.maxSessions);
      WithinBound(State(cards, s.now, Without(s.pending, i)), agent, k, weight, from)
  {
    var r := s.pending[i];
    PendingRemove(s.pending, i, agent.id);
    ProductIs(r.count, r.maxSessions);
    forall d
      ensures DailySessions(s.cards + NewCards(r.agentId, s.now, r.count, r.maxSessions), agent.id, d)
        == DailySessions(s.cards, agent.id, d) + if r.agentId == agent.id && Day(s.now) == d then Weight(r) else 0
    {
      DailyAppend(s.cards, NewCards(r.agentId, s.now, r.count, r.maxSessions), agent.id, d);
      DailyOfNew(r.agentId, s.now, r.count, r.maxSessions, agent.id, d);
    }
  }

  lemma AbortKeepsBound(s: State, i: nat, agent: Agent, k: nat, weight: nat, from: int)
    requires i < |s.pending| && k >= 1 && WithinBound(s, agent, k, weight, from)
    ensures WithinBound(s.(pending := Without(s.pending, i)), agent, k, weight, from)
  {
    PendingRemove(s.pending, i, agent.id);
  }

  lemma UnownedKeepsBound(s: State, count: nat, maxSessions: int, agent: Agent, k: nat, weight: nat, from: int)
    requires k >= 1 && WithinBound(s, agent, k, weight, from) && maxSessions >= 1 && agent.id != ""
    ensures WithinBound(s.(cards := s.cards + NewCards("", s.now, count, maxSessions)), agent, k, weight, from)
  {
    forall d
      ensures DailySessions(s.cards + NewCards("", s.now, count, maxSessions), agent.id, d)
        == DailySessions(s.cards, agent.id, d)
    {
      DailyAppend(s.cards, NewCards("", s.now, count, maxSessions), agent.id, d);
      DailyOfNew("", s.now, count, maxSessions, agent.id, d);
    }
  }

  lemma DailyRemove(cards: seq<Card>, i: nat, agentId: string, day: int)
    requires i < |cards| && cards[i].maxSessions >= 0
    ensures DailySessions(Without(cards, i), agentId, day) <= DailySessions(cards, agentId, day)
  {
    var one := [cards[i]];
    assert one[..0] == [];
    assert cards == cards[..i] + one + cards[i + 1..];
    DailyAppend(cards[..i] + one, cards[i + 1..], agentId, day);
    DailyAppend(cards[..i], one, agentId, day);
    DailyAppend(cards[..i], cards[i + 1..], agentId, day);
  }

  lemma DeleteKeepsBound(s: State, i: nat, agent: Agent, k: nat, weight: nat, from: int)
    requires k >= 1 && WithinBound(s, agent, k, weight, from) && i < |s.cards|
    ensures WithinBound(s.(cards := Without(s.cards, i)), agent, k, weight, from)
  {
    forall d
      ensures DailySessions(Without(s.cards, i), agent.id, d) <= DailySessions(s.cards, agent.id, d)
    {
      DailyRemove(s.cards, i, agent.id, d);
    }
  }

  /** On a new day nothing has been created yet, and what is pending fits by itself. */
  lemma AdvanceKeepsBound(s: State, to: int, agent: Agent, k: nat, weight: nat, from: int)
    requires k >= 1 && WithinBound(s, agent, k, weight, from) && s.now <= to
    requires weight <= agent.maxDaily && PendingOf(s.pending, agent.id) <= k
    ensures WithinBound(s.(now := to), agent, k, weight, from)
  {
    DayMonotone(s.now, to);
    WeightAtMost(s.pending, agent.id, weight);
    ProductGrows(PendingOf(s.pending, agent.id), k, weight);
    forall d | d > Day(s.now)
      ensures DailySessions(s.cards, agent.id, d) == 0
    {
      DailyPlausible(s.cards, agent.id, s.now, d);
    }
  }

  lemma StepKeepsBound(agents: map<string, Agent>, s: State, a: Action, agent: Agent, k: nat, weight: nat, from: int)
    requires agent.id in agents && agents[agent.id] == agent && agent.id != ""
    requires k >= 1 && agent.maxDaily > 0 && weight <= agent.maxDaily
    requires WithinBound(s, agent, k, weight, from) && Enabled(agents, s, a) && Fits(a, agent, weight)
    requires PendingOf(s.pending, agent.id) <= k && PendingOf(Perform(agents, s, a).pending, agent.id) <= k
    ensures WithinBound(Perform(agents, s, a), agent, k, weight, from)
  {
    match a
    case Check(r) => CheckKeepsBound(agents, s, r, agent, k, weight, from);
    case Create(i) => CreateKeepsBound(s, i, agent, k, weight, from);
    case Abort(i) => AbortKeepsBound(s, i, agent, k, weight, from);
    case Unowned(count, maxSessions) => UnownedKeepsBound(s, count, maxSessions, agent, k, weight, from);
    case Delete(i) => DeleteKeepsBound(s, i, agent, k, weight, from);
    case Advance(to) => AdvanceKeepsBound(s, to, agent, k, weight, from);
  }

  /**
   * Over every schedule, across midnights too: with at most k requests of the
   * agent between check and creation at a time, none heavier than `weight`, the
   * sessions on its cards of any day since the start never exceed its daily
   * limit by more than k - 1 weights.  With k = 1 the quota is exact.  Deleted
   * cards no longer count, so an agent may replace them.
   */
  lemma {:induction false} DailyLimitHolds(
    agents: map<string, Agent>, s: State, actions: seq<Action>, agent: Agent, k: nat, weight: nat, from: int)
    requires agent.id in agents && agents[agent.id] == agent && agent.id != ""
    requires k >= 1 && agent.maxDaily > 0 && weight <= agent.maxDaily
    requires forall i :: 0 <= i < |actions| ==> Fits(actions[i], agent, weight)
    requires Schedule(agents, s, actions, agent.id, k) && WithinBound(s, agent, k, weight, from)
    ensures var end := Final(agents, s, actions, agent.id, k);
      && WithinBound(end, agent, k, weight, from)
      && forall d :: from <= d <= Day(end.now) ==> DailySessions(end.cards, agent.id, d) <= Bound(agent, k, weight)
    decreases |actions|
  {
    if actions != [] {
      StepKeepsBound(agents, s, actions[0], agent, k, weight, from);
      DailyLimitHolds(agents, Perform(agents, s, actions[0]), actions[1..], agent, k, weight, from);
    }
  }

  /** Nothing pending and today's sessions within the limit: a start from which the bound holds. */
  lemma QuietStart(cards: seq<Card>, now: int, agent: Agent, k: nat, weight: nat)
    requires Plausible(cards, now) && k >= 1
    requires DailySessions(cards, agent.id, Day(now)) <= agent.maxDaily
    ensures WithinBound(State(cards, now, []), agent, k, weight, Day(now))
  {
    assert WeightOf([], agent.id) == 0;
  }

  // ----- what agents can ask for

  /** The agent panel's clamping: zero means the default. */
  function AgentClamp(val: int, min: int, max: int, default: int): int {
    if val == 0 then default else if val < min then min else if val > max then max else val
  }

  /** The request the panel passes on. */
  function PanelRequest(agentId: string, count: int, hours: int, maxSessions: int): Request {
    Request(agentId, AgentClamp(count, 1, 50, 1), AgentClamp(hours, 1, 8760, 720) * NANOS_PER_HOUR,
      AgentClamp(maxSessions, 1, 5, 1))
  }

  predicate Receivable(r: Request) {
    && 1 <= r.count <= 50 && 1 <= r.maxSessions <= 5
    && exists hours :: 1 <= hours <= 8760 && r.duration == hours * NANOS_PER_HOUR
  }

  /** Receivable requests are exactly the ones the panel can pass on. */
  lemma ReceivableIff(r: Request)
    ensures Receivable(r) <==>
      exists count, hours, maxSessions :: r == PanelRequest(r.agentId, count, hours, maxSessions)
  {
    if Receivable(r) {
      var hours :| 1 <= hours <= 8760 && r.duration == hours * NANOS_PER_HOUR;
      assert r == PanelRequest(r.agentId, r.count, hours, r.maxSessions);
    }
    if exists count, hours, maxSessions :: r == PanelRequest(r.agentId, count, hours, maxSessions) {
      var count, hours, maxSessions :| r == PanelRequest(r.agentId, count, hours, maxSessions);
      assert 1 <= AgentClamp(hours, 1, 8760, 720) <= 8760;
    }
  }

  /** In numbers: what is left out gets its default, and durations are whole hours. */
  lemma PanelRequestIs(agentId: string, count: int, hours: int, maxSessions: int)
    ensures var r := PanelRequest(agentId, count, hours, maxSessions);
      && r.agentId == agentId
      && r.count == (if count <= 1 then 1 else if count <= 50 then count else 50)
      && r.maxSessions == (if maxSessions <= 1 then 1 else if maxSessions <= 5 then maxSessions else 5)
      && r.duration == 60 * 60 * 1_000_000_000
          * (if hours == 0 then 720 else if hours <= 1 then 1 else if hours <= 8760 then hours else 8760)
  {
  }

  predicate AllReceivable(actions: seq<Action>) {
    forall i :: 0 <= i < |actions| && actions[i].Check? ==> Receivable(actions[i].request)
  }

  lemma ReceivableWeight(r: Request)
    requires Receivable(r)
    ensures 1 <= Weight(r) <= 250
  {
    ProductIs(r.count, r.maxSessions);
    MoreCostsMore(r.count, 50, r.maxSessions);
    MoreCostsMore(1, r.count, r.maxSessions);
  }

  /** For what agents can really ask for, no day exceeds the limit by more than 250 sessions per further request. */
  lemma ReceivableBound(agents: map<string, Agent>, cards: seq<Card>, now: int, actions: seq<Action>, agent: Agent,
      k: nat)
    requires agent.id in agents && agents[agent.id] == agent && agent.id != "" && k >= 1 && agent.maxDaily > 0
    requires Plausible(cards, now) && DailySessions(cards, agent.id, Day(now)) <= agent.maxDaily
    requires Schedule(agents, State(cards, now, []), actions, agent.id, k) && AllReceivable(actions)
    ensures var end := Final(agents, State(cards, now, []), actions, agent.id, k);
      var weight := if agent.maxDaily < 250 then agent.maxDaily else 250;
      forall d :: Day(now) <= d <= Day(end.now) ==> DailySessions(end.cards, agent.id, d) <= Bound(agent, k, weight)
  {
    var weight := if agent.maxDaily < 250 then agent.maxDaily else 250;
    forall i | 0 <= i < |actions|
      ensures Fits(actions[i], agent, weight)
    {
      if actions[i].Check? {
        ReceivableWeight(actions[i].request);
      }
    }
    QuietStart(cards, now, agent, k, weight);
    DailyLimitHolds(agents, State(cards, now, []), actions, agent, k, weight, Day(now));
  }

  // ----- the bound is reached

  function Times<T>(n: nat, x: T): (r: seq<T>)
    ensures |r| == n
  {
    seq(n, _ => x)
  }

  lemma TimesFirst<T>(n: nat, x: T, rest: seq<T>)
    ensures Times(0, x) + rest == rest
    ensures n > 0 ==> Times(n, x) + rest == [x] + (Times(n - 1, x) + rest)
  {
  }

  lemma {:induction false} PendingOfTimes(r: Request, n: nat)
    ensures PendingOf(Times(n, r), r.agentId) == n
    decreases n
  {
    if n > 0 {
      assert Times(n, r)[..n - 1] == Times(n - 1, r);
      PendingOfTimes(r, n - 1);
    }
  }

  /** The agent's limits other than the daily one let the request pass. */
  predicate PassesOtherLimits(agent: Agent, r: Request) {
    && !agent.disabled
    && (agent.maxMinutes <= 0 || r.duration <= agent.maxMinutes * NANOS_PER_MINUTE)
    && (agent.maxConcurrent <= 0 || r.maxSessions <= agent.maxConcurrent)
  }

  lemma AdmittedIff(agents: map<string, Agent>, cards: seq<Card>, now: int, agent: Agent, r: Request)
    requires agent.id in agents && agents[agent.id] == agent && agent.id != "" && agent.maxDaily > 0
    requires r.agentId == agent.id && Creatable(r.count, r.duration, r.maxSessions)
    ensures Admitted(cards, agents, now, r) <==>
      PassesOtherLimits(agent, r) && DailySessions(cards, agent.id, Day(now)) + Weight(r) <= agent.maxDaily
  {
    ProductIs(r.count, r.maxSessions);
  }

  lemma ScheduleFirst(agents: map<string, Agent>, s: State, a: Action, rest: seq<Action>, agentId: string, k: nat)
    requires PendingOf(s.pending, agentId) <= k && Enabled(agents, s, a)
    requires Schedule(agents, Perform(agents, s, a), rest, agentId, k)
    ensures Schedule(agents, s, [a] + rest, agentId, k)
    ensures Final(agents, s, [a] + rest, agentId, k) == Final(agents, Perform(agents, s, a), rest, agentId, k)
  {
    assert ([a] + rest)[1..] == rest;
  }

  /** One schedule after another. */
  lemma {:induction false} ScheduleThen(
    agents: map<string, Agent>, s: State, a: seq<Action>, b: seq<Action>, agentId: string, k: nat)
    requires Schedule(agents, s, a, agentId, k) && Schedule(agents, Final(agents, s, a, agentId, k), b, agentId, k)
    ensures Schedule(agents, s, a + b, agentId, k)
    ensures Final(agents, s, a + b, agentId, k) == Final(agents, Final(agents, s, a, agentId, k), b, agentId, k)
    decreases |a|
  {
    if a == [] {
      assert a + b == b;
    } else {
      assert a + b == [a[0]] + (a[1..] + b);
      ScheduleThen(agents, Perform(agents, s, a[0]), a[1..], b, agentId, k);
      ScheduleFirst(agents, s, a[0], a[1..] + b, agentId, k);
    }
  }

  /** The cards after n requests of one session each. */
  function AfterUnits(cards: seq<Card>, agentId: string, now: int, n: nat): seq<Card>
    decreases n
  {
    if n == 0 then cards else AfterUnits(cards + NewCards(agentId, now, 1, 1), agentId, now, n - 1)
  }

  lemma {:induction false} DailyAfterUnits(cards: seq<Card>, agentId: string, now: int, n: nat)
    ensures DailySessions(AfterUnits(cards, agentId, now, n), agentId, Day(now))
      == DailySessions(cards, agentId, Day(now)) + n
    decreases n
  {
    if n > 0 {
      UnitAdds(cards, agentId, now);
      DailyAfterUnits(cards + NewCards(agentId, now, 1, 1), agentId, now, n - 1);
    }
  }

  lemma UnitAdds(cards: seq<Card>, agentId: string, now: int)
    ensures DailySessions(cards + NewCards(agentId, now, 1, 1), agentId, Day(now))
      == DailySessions(cards, agentId, Day(now)) + 1
  {
    DailyAppend(cards, NewCards(agentId, now, 1, 1), agentId, Day(now));
    DailyOfNew(agentId, now, 1, 1, agentId, Day(now));
  }

  lemma OneMore(cards: seq<Card>, r: Request, now: int)
    requires Creatable(r.count, r.duration, r.maxSessions)
    ensures DailySessions(cards + NewCards(r.agentId, now, r.count, r.maxSessions), r.agentId, Day(now))
      == DailySessions(cards, r.agentId, Day(now)) + Weight(r)
  {
    ProductIs(r.count, r.maxSessions);
    DailyAppend(cards, NewCards(r.agentId, now, r.count, r.maxSessions), r.agentId, Day(now));
    DailyOfNew(r.agentId, now, r.count, r.maxSessions, r.agentId, Day(now));
  }

  /** n requests handled one at a time. */
  function Rounds(n: nat, r: Request): seq<Action> {
    if n == 0 then [] else [Check(r), Create(0)] + Rounds(n - 1, r)
  }

  predicate IsUnit(r: Request) {
    r.count == 1 && r.maxSessions == 1 && r.duration > 0
  }

  lemma OneRound(
    agents: map<string, Agent>, cards: seq<Card>, now: int, agent: Agent, unit: Request, k: nat, rest: seq<Action>)
    requires agent.id in agents && agents[agent.id] == agent && agent.id != "" && agent.maxDaily > 0
    requires unit.agentId == agent.id && IsUnit(unit) && PassesOtherLimits(agent, unit) && k >= 1
    requires DailySessions(cards, agent.id, Day(now)) + 1 <= agent.maxDaily
    requires Schedule(agents, State(cards + NewCards(agent.id, now, 1, 1), now, []), rest, agent.id, k)
    ensures var s := State(cards, now, []);
      var actions := [Check(unit), Create(0)] + rest;
      && Schedule(agents, s, actions, agent.id, k)
      && Final(agents, s, actions, agent.id, k)
          == Final(agents, State(cards + NewCards(agent.id, now, 1, 1), now, []), rest, agent.id, k)
  {
    var s, mid := State(cards, now, []), State(cards, now, [unit]);
    AdmittedIff(agents, cards, now, agent, unit);
    assert [] + [unit] == [unit];
    assert Perform(agents, s, Check(unit)) == mid;
    assert [unit][..0] == [];
    assert PendingOf(mid.pending, agent.id) == 1;
    assert Without([unit], 0) == [];
    ScheduleFirst(agents, mid, Create(0), rest, agent.id, k);
    ScheduleFirst(agents, s, Check(unit), [Create(0)] + rest, agent.id, k);
    assert [Check(unit)] + ([Create(0)] + rest) == [Check(unit), Create(0)] + rest;
  }

  /** n unit requests handled one at a time fill the day up by n sessions. */
  lemma {:induction false} FillUp(
    agents: map<string, Agent>, cards: seq<Card>, now: int, agent: Agent, unit: Request, n: nat, k: nat)
    requires agent.id in agents && agents[agent.id] == agent && agent.id != "" && agent.maxDaily > 0
    requires unit.agentId == agent.id && IsUnit(unit) && PassesOtherLimits(agent, unit) && k >= 1
    requires DailySessions(cards, agent.id, Day(now)) + n <= agent.maxDaily
    ensures var s := State(cards, now, []);
      && Schedule(agents, s, Rounds(n, unit), agent.id, k)
      && Final(agents, s, Rounds(n, unit), agent.id, k) == State(AfterUnits(cards, agent.id, now, n), now, [])
    decreases n
  {
    if n > 0 {
      UnitAdds(cards, agent.id, now);
      FillUp(agents, cards + NewCards(agent.id, now, 1, 1), now, agent, unit, n - 1, k);
      OneRound(agents, cards, now, agent, unit, k, Rounds(n - 1, unit));
    }
  }

  lemma FillThen(agents: map<string, Agent>, cards: seq<Card>, now: int, agent: Agent, unit: Request, n: nat, k: nat,
      rest: seq<Action>)
    requires agent.id in agents && agents[agent.id] == agent && agent.id != "" && agent.maxDaily > 0
    requires unit.agentId == agent.id && IsUnit(unit) && PassesOtherLimits(agent, unit) && k >= 1
    requires DailySessions(cards, agent.id, Day(now)) + n <= agent.maxDaily
    requires Schedule(agents, State(AfterUnits(cards, agent.id, now, n), now, []), rest, agent.id, k)
    ensures var s := State(cards, now, []);
      && Schedule(agents, s, Rounds(n, unit) + rest, agent.id, k)
      && Final(agents, s, Rounds(n, unit) + rest, agent.id, k)
          == Final(agents, State(AfterUnits(cards, agent.id, now, n), now, []), rest, agent.id, k)
  {
    FillUp(agents, cards, now, agent, unit, n, k);
    ScheduleThen(agents, State(cards, now, []), Rounds(n, unit), rest, agent.id, k);
  }

  lemma {:induction false} CreateAll(
    agents: map<string, Agent>, cards: seq<Card>, now: int, r: Request, n: nat, k: nat)
    requires Creatable(r.count, r.duration, r.maxSessions) && n <= k
    ensures var s := State(cards, now, Times(n, r));
      && Schedule(agents, s, Times(n, Create(0)), r.agentId, k)
      && DailySessions(Final(agents, s, Times(n, Create(0)), r.agentId, k).cards, r.agentId, Day(now))
          == DailySessions(cards, r.agentId, Day(now)) + Product(n, Weight(r))
    decreases n
  {
    PendingOfTimes(r, n);
    if n > 0 {
      var s := State(cards, now, Times(n, r));
      assert Without(Times(n, r), 0) == Times(n - 1, r);
      assert Times(n, Create(0))[1..] == Times(n - 1, Create(0));
      OneMore(cards, r, now);
      CreateAll(agents, cards + NewCards(r.agentId, now, r.count, r.maxSessions), now, r, n - 1, k);
    }
  }

  lemma CheckAgain(agents: map<string, Agent>, cards: seq<Card>, now: int, agent: Agent, r: Request, n: nat)
    requires agent.id in agents && agents[agent.id] == agent && agent.id != "" && agent.maxDaily > 0
    requires r.agentId == agent.id && Creatable(r.count, r.duration, r.maxSessions) && PassesOtherLimits(agent, r)
    requires DailySessions(cards, agent.id, Day(now)) + Weight(r) <= agent.maxDaily
    ensures var s := State(cards, now, Times(n, r));
      && Enabled(agents, s, Check(r)) && PendingOf(s.pending, agent.id) == n
      && Perform(agents, s, Check(r)) == State(cards, now, Times(n + 1, r))
  {
    AdmittedIff(agents, cards, now, agent, r);
    PendingOfTimes(r, n);
    assert Times(n, r) + [r] == Times(n + 1, r);
  }

  lemma {:induction false} CheckAll(
    agents: map<string, Agent>, cards: seq<Card>, now: int, agent: Agent, r: Request, done: nat, k: nat,
      rest: seq<Action>)
    requires agent.id in agents && agents[agent.id] == agent && agent.id != "" && agent.maxDaily > 0
    requires r.agentId == agent.id && Creatable(r.count, r.duration, r.maxSessions) && PassesOtherLimits(agent, r)
    requires DailySessions(cards, agent.id, Day(now)) + Weight(r) <= agent.maxDaily && done <= k
    requires Schedule(agents, State(cards, now, Times(k, r)), rest, agent.id, k)
    ensures var s := State(cards, now, Times(done, r));
      var actions := Times(k - done, Check(r)) + rest;
      && Schedule(agents, s, actions, agent.id, k)
      && Final(agents, s, actions, agent.id, k) == Final(agents, State(cards, now, Times(k, r)), rest, agent.id, k)
    decreases k - done
  {
    TimesFirst(k - done, Check(r), rest);
    if done < k {
      CheckAll(agents, cards, now, agent, r, done + 1, k, rest);
      CheckAgain(agents, cards, now, agent, r, done);
      ScheduleFirst(agents, State(cards, now, Times(done, r)),
        Check(r), Times(k - done - 1, Check(r)) + rest, agent.id, k);
    }
  }

  /**
   * From a day that has `already` so many sessions: fill it up to one weight
   * below the limit, then let k requests check before any of them creates.
   */
  function Overrun(agent: Agent, already: int, r: Request, k: nat): seq<Action>
    requires already + Weight(r) <= agent.maxDaily
  {
    Rounds(agent.maxDaily - already - Weight(r), UnitOf(r)) + (Times(k, Check(r)) + Times(k, Create(0)))
  }

  function UnitOf(r: Request): Request {
    r.(count := 1, maxSessions := 1)
  }

  /** k requests that all check before any of them creates add k weights. */
  lemma AllAtOnce(agents: map<string, Agent>, cards: seq<Card>, now: int, agent: Agent, r: Request, k: nat)
    requires agent.id in agents && agents[agent.id] == agent && agent.id != "" && agent.maxDaily > 0
    requires r.agentId == agent.id && Creatable(r.count, r.duration, r.maxSessions) && PassesOtherLimits(agent, r)
    requires DailySessions(cards, agent.id, Day(now)) + Weight(r) <= agent.maxDaily
    ensures var s := State(cards, now, []);
      var actions := Times(k, Check(r)) + Times(k, Create(0));
      && Schedule(agents, s, actions, agent.id, k)
      && DailySessions(Final(agents, s, actions, agent.id, k).cards, agent.id, Day(now))
          == DailySessions(cards, agent.id, Day(now)) + Product(k, Weight(r))
  {
    CreateAll(agents, cards, now, r, k, k);
    assert Times(0, r) == [];
    CheckAll(agents, cards, now, agent, r, 0, k, Times(k, Create(0)));
  }

  lemma OverrunRuns(agents: map<string, Agent>, cards: seq<Card>, now: int, agent: Agent, r: Request, k: nat)
    requires agent.id in agents && agents[agent.id] == agent && agent.id != "" && agent.maxDaily > 0 && k >= 1
    requires r.agentId == agent.id && Receivable(r) && PassesOtherLimits(agent, r)
    requires DailySessions(cards, agent.id, Day(now)) + Weight(r) <= agent.maxDaily
    ensures var s := State(cards, now, []);
      var actions := Overrun(agent, DailySessions(cards, agent.id, Day(now)), r, k);
      && Schedule(agents, s, actions, agent.id, k)
      && DailySessions(Final(agents, s, actions, agent.id, k).cards, agent.id, Day(now))
          == agent.maxDaily - Weight(r) + Product(k, Weight(r))
  {
    var n := agent.maxDaily - DailySessions(cards, agent.id, Day(now)) - Weight(r);
    DailyAfterUnits(cards, agent.id, now, n);
    AllAtOnce(agents, AfterUnits(cards, agent.id, now, n), now, agent, r, k);
    FillThen(agents, cards, now, agent, UnitOf(r), n, k, Times(k, Check(r)) + Times(k, Create(0)));
  }

  /**
   * The bound is tight, by requests the panel can pass on: from every card list
   * that leaves room for such a request, some schedule ends k - 1 of its
   * weights above the daily limit.
   */
  lemma DailyLimitReached(agents: map<string, Agent>, cards: seq<Card>, now: int, agent: Agent, r: Request, k: nat)
    requires agent.id in agents && agents[agent.id] == agent && agent.id != "" && agent.maxDaily > 0 && k >= 1
    requires r.agentId == agent.id && Receivable(r) && PassesOtherLimits(agent, r)
    requires DailySessions(cards, agent.id, Day(now)) + Weight(r) <= agent.maxDaily
    ensures var s := State(cards, now, []);
      var actions := Overrun(agent, DailySessions(cards, agent.id, Day(now)), r, k);
      && AllReceivable(actions)
      && (forall i :: 0 <= i < |actions| ==> Fits(actions[i], agent, Weight(r)))
      && Schedule(agents, s, actions, agent.id, k)
      && DailySessions(Final(agents, s, actions, agent.id, k).cards, agent.id, Day(now)) == Bound(agent, k, Weight(r))
  {
    OverrunRuns(agents, cards, now, agent, r, k);
    OverrunRequests(agent, DailySessions(cards, agent.id, Day(now)), r, k);
  }

  lemma OverrunActions(agent: Agent, already: int, r: Request, k: nat)
    requires already + Weight(r) <= agent.maxDaily
    ensures forall i :: 0 <= i < |Overrun(agent, already, r, k)| ==>
      var x := Overrun(agent, already, r, k)[i]; x == Check(UnitOf(r)) || x == Check(r) || x == Create(0)
  {
    var n := agent.maxDaily - already - Weight(r);
    RoundsOf(n, UnitOf(r));
    var a, b, c := Rounds(n, UnitOf(r)), Times(k, Check(r)), Times(k, Create(0));
    forall i | 0 <= i < |Overrun(agent, already, r, k)|
      ensures var x := Overrun(agent, already, r, k)[i]; x == Check(UnitOf(r)) || x == Check(r) || x == Create(0)
    {
      var x := Overrun(agent, already, r, k)[i];
      assert x == if i < |a| then a[i] else if i < |a| + |b| then b[i - |a|] else c[i - |a| - |b|];
    }
  }

  lemma OverrunRequests(agent: Agent, already: int, r: Request, k: nat)
    requires Receivable(r) && already + Weight(r) <= agent.maxDaily
    ensures AllReceivable(Overrun(agent, already, r, k))
    ensures forall i :: 0 <= i < |Overrun(agent, already, r, k)| ==>
      Fits(Overrun(agent, already, r, k)[i], agent, Weight(r))
  {
    OverrunActions(agent, already, r, k);
    ReceivableWeight(r);
    assert Receivable(UnitOf(r)) && Weight(UnitOf(r)) == 1;
  }

  lemma {:induction false} RoundsOf(n: nat, r: Request)
    ensures forall i :: 0 <= i < |Rounds(n, r)| ==> Rounds(n, r)[i] == Check(r) || Rounds(n, r)[i] == Create(0)
    decreases n
  {
    if n > 0 {
      RoundsOf(n - 1, r);
    }
  }

  // ----- when the quota is exact

  lemma {:induction false} WiderSchedule(agents: map<string, Agent>, s: State, actions: seq<Action>, agentId: string,
      k: nat, wider: nat)
    requires Schedule(agents, s, actions, agentId, k) && k <= wider
    ensures Schedule(agents, s, actions, agentId, wider)
    ensures Final(agents, s, actions, agentId, wider) == Final(agents, s, actions, agentId, k)
    decreases |actions|
  {
    if actions != [] {
      WiderSchedule(agents, Perform(agents, s, actions[0]), actions[1..], agentId, k, wider);
    }
  }

  /** No receivable request of the agent is ever admitted. */
  predicate ShutOut(agent: Agent) {
    agent.disabled || 0 < agent.maxMinutes < 60
  }

  lemma NeverAdmitted(agents: map<string, Agent>, s: State, agent: Agent, r: Request)
    requires agent.id in agents && agents[agent.id] == agent && agent.id != "" && ShutOut(agent)
    requires Receivable(r) && r.agentId == agent.id
    ensures !Enabled(agents, s, Check(r))
  {
    var hours :| 1 <= hours <= 8760 && r.duration == hours * NANOS_PER_HOUR;
    assert r.duration >= NANOS_PER_HOUR;
  }

  lemma {:induction false} NeverPending(agents: map<string, Agent>, s: State, actions: seq<Action>, agent: Agent,
      k: nat)
    requires agent.id in agents && agents[agent.id] == agent && agent.id != "" && ShutOut(agent)
    requires Schedule(agents, s, actions, agent.id, k) && AllReceivable(actions) && PendingOf(s.pending, agent.id) == 0
    ensures Schedule(agents, s, actions, agent.id, 0)
    decreases |actions|
  {
    if actions != [] {
      var a := actions[0];
      match a {
        case Check(r) =>
          if r.agentId == agent.id {
            NeverAdmitted(agents, s, agent, r);
          }
          assert (s.pending + [r])[..|s.pending|] == s.pending;
        case Create(i) => PendingRemove(s.pending, i, agent.id);
        case Abort(i) => PendingRemove(s.pending, i, agent.id);
        case Unowned(_, _) =>
        case Delete(_) =>
        case Advance(_) =>
      }
      NeverPending(agents, Perform(agents, s, a), actions[1..], agent, k);
    }
  }

  /** From these cards on, every schedule of receivable requests keeps the day within the limit itself. */
  ghost predicate QuotaExact(agents: map<string, Agent>, cards: seq<Card>, now: int, agent: Agent, k: nat) {
    forall actions :: Schedule(agents, State(cards, now, []), actions, agent.id, k) && AllReceivable(actions) ==>
      var end := Final(agents, State(cards, now, []), actions, agent.id, k);
      DailySessions(end.cards, agent.id, Day(end.now)) <= agent.maxDaily
  }

  /**
   * From every start within the limit, the daily limit itself is kept exactly
   * when at most one request of the agent is between check and creation at a
   * time, or none ever passes.
   */
  lemma QuotaExactIff(agents: map<string, Agent>, cards: seq<Card>, now: int, agent: Agent, k: nat)
    requires agent.id in agents && agents[agent.id] == agent && agent.id != "" && agent.maxDaily > 0
    requires Plausible(cards, now) && DailySessions(cards, agent.id, Day(now)) <= agent.maxDaily
    ensures QuotaExact(agents, cards, now, agent, k) <==> k <= 1 || ShutOut(agent)
  {
    if k <= 1 || ShutOut(agent) {
      forall actions | Schedule(agents, State(cards, now, []), actions, agent.id, k) && AllReceivable(actions)
        ensures var end := Final(agents, State(cards, now, []), actions, agent.id, k);
          DailySessions(end.cards, agent.id, Day(end.now)) <= agent.maxDaily
      {
        ExactRun(agents, cards, now, actions, agent, k);
      }
    } else {
      OverrunExists(agents, cards, now, agent, k);
    }
  }

  lemma ExactRun(agents: map<string, Agent>, cards: seq<Card>, now: int, actions: seq<Action>, agent: Agent, k: nat)
    requires agent.id in agents && agents[agent.id] == agent && agent.id != "" && agent.maxDaily > 0
    requires Plausible(cards, now) && DailySessions(cards, agent.id, Day(now)) <= agent.maxDaily
    requires k <= 1 || ShutOut(agent)
    requires Schedule(agents, State(cards, now, []), actions, agent.id, k) && AllReceivable(actions)
    ensures var end := Final(agents, State(cards, now, []), actions, agent.id, k);
      DailySessions(end.cards, agent.id, Day(end.now)) <= agent.maxDaily
  {
    var s := State(cards, now, []);
    if k <= 1 {
      WiderSchedule(agents, s, actions, agent.id, k, 1);
    } else {
      NeverPending(agents, s, actions, agent, k);
      WiderSchedule(agents, s, actions, agent.id, 0, 1);
      WiderSchedule(agents, s, actions, agent.id, 0, k);
    }
    QuietStart(cards, now, agent, 1, agent.maxDaily);
    DailyLimitHolds(agents, s, actions, agent, 1, agent.maxDaily, Day(now));
    BoundIs(agent, 1, agent.maxDaily);
  }

  /** The next day has room again. */
  lemma NextDay(cards: seq<Card>, now: int, agentId: string) returns (later: int)
    requires Plausible(cards, now)
    ensures later >= now && Plausible(cards, later) && DailySessions(cards, agentId, Day(later)) == 0
  {
    later := now + NANOS_PER_DAY;
    DailyPlausible(cards, agentId, now, Day(later));
  }

  lemma OverrunExists(agents: map<string, Agent>, cards: seq<Card>, now: int, agent: Agent, k: nat)
    requires agent.id in agents && agents[agent.id] == agent && agent.id != "" && agent.maxDaily > 0
    requires Plausible(cards, now) && k >= 2 && !ShutOut(agent)
    ensures !QuotaExact(agents, cards, now, agent, k)
  {
    var r := Request(agent.id, 1, 1 * NANOS_PER_HOUR, 1);
    assert Receivable(r) && PassesOtherLimits(agent, r);
    assert Weight(r) == 1;
    var later := NextDay(cards, now, agent.id);
    var s, actions := State(cards, now, []), Overrun(agent, 0, r, k);
    DailyLimitReached(agents, cards, later, agent, r, k);
    BoundIs(agent, k, 1);
    OverrunActions(agent, 0, r, k);
    TimeStands(agents, State(cards, later, []), actions, agent.id, k);
    ScheduleFirst(agents, s, Advance(later), actions, agent.id, k);
    AdvanceReceivable(later, actions);
    var end := Final(agents, s, [Advance(later)] + actions, agent.id, k);
    assert DailySessions(end.cards, agent.id, Day(end.now)) > agent.maxDaily;
  }

  lemma AdvanceReceivable(later: int, actions: seq<Action>)
    requires AllReceivable(actions)
    ensures AllReceivable([Advance(later)] + actions)
  {
  }

  lemma {:induction false} TimeStands(agents: map<string, Agent>, s: State, actions: seq<Action>, agentId: string,
      k: nat)
    requires Schedule(agents, s, actions, agentId, k)
    requires forall i :: 0 <= i < |actions| ==> !actions[i].Advance?
    ensures Final(agents, s, actions, agentId, k).now == s.now
    decreases |actions|
  {
    if actions != [] {
      TimeStands(agents, Perform(agents, s, actions[0]), actions[1..], agentId, k);
    }
  }
}
