/** Admission of an agent's card requests against its limits. */
module Quota {
  const NANOS_PER_MINUTE := 60_000_000_000
  const NANOS_PER_DAY := 86_400_000_000_000

  /** Instants are nanoseconds since a UTC midnight. */
  function Day(t: int): int {
    t / NANOS_PER_DAY
  }

  datatype Card = Card(agentId: string, createdAt: int, maxSessions: int)
  datatype Agent = Agent(id: string, disabled: bool, maxMinutes: int, maxDaily: int, maxConcurrent: int)
  datatype Request = Request(agentId: string, count: int, duration: int, maxSessions: int)
  datatype Verdict = Allowed | NoAgent | Disabled | TooLong | TooManySessions | DailyLimit | StoreError

  /** Sessions on the agent's cards created on the given day. */
  function DailySessions(cards: seq<Card>, agentId: string, day: int): int {
    if cards == [] then 0
    else
      var c := cards[|cards| - 1];
      DailySessions(cards[..|cards| - 1], agentId, day)
        + if c.agentId == agentId && Day(c.createdAt) == day then c.maxSessions else 0
  }

  function CheckLimits(cards: seq<Card>, agent: Agent, now: int, count: int, duration: int, maxSessions: int): Verdict {
    if agent.maxMinutes > 0 && duration > agent.maxMinutes * NANOS_PER_MINUTE then TooLong
    else if agent.maxConcurrent > 0 && maxSessions > agent.maxConcurrent then TooManySessions
    else if agent.maxDaily > 0 && DailySessions(cards, agent.id, Day(now)) + count * maxSessions > agent.maxDaily
      then DailyLimit
    else Allowed
  }

  /** What Create and BatchCreate demand of their arguments. */
  predicate Creatable(count: int, duration: int, maxSessions: int) {
    count >= 1 && duration > 0 && maxSessions >= 1
  }

  function NewCards(agentId: string, now: int, count: nat, maxSessions: int): seq<Card> {
    seq(count, _ => Card(agentId, now, maxSessions))
  }

  /** The active-agent and limit checks; cards without an agent skip them. */
  function AgentVerdict(cards: seq<Card>, agents: map<string, Agent>, now: int, r: Request): Verdict {
    if r.agentId == "" then Allowed
    else if r.agentId !in agents then NoAgent
    else if agents[r.agentId].disabled then Disabled
    else CheckLimits(cards, agents[r.agentId], now, r.count, r.duration, r.maxSessions)
  }

  predicate Admitted(cards: seq<Card>, agents: map<string, Agent>, now: int, r: Request) {
    AgentVerdict(cards, agents, now, r) == Allowed
  }

  // ----- what the limits mean, in numbers

  /** Days are counted in spans of 24 hours from a UTC midnight. */
  lemma DayIs(t: int, d: int)
    ensures Day(t) == d <==> d * (24 * 60 * 60 * 1_000_000_000) <= t < (d + 1) * (24 * 60 * 60 * 1_000_000_000)
  {
  }

  /** One entry for each session of the agent's cards created from `from` on and before `to`. */
  function SessionsBetween(cards: seq<Card>, agentId: string, from: int, to: int): set<(int, int)> {
    set i, j | 0 <= i < |cards| && cards[i].agentId == agentId && from <= cards[i].createdAt < to
      && 0 <= j < cards[i].maxSessions :: (i, j)
  }

  lemma {:induction false} OneCardsSessions(i: int, n: nat)
    ensures |set j | 0 <= j < n :: (i, j)| == n
    decreases n
  {
    if n == 0 {
      assert (set j | 0 <= j < n :: (i, j)) == {};
    } else {
      OneCardsSessions(i, n - 1);
      assert (set j | 0 <= j < n :: (i, j)) == (set j | 0 <= j < n - 1 :: (i, j)) + {(i, n - 1)};
    }
  }

  lemma SessionsSnoc(cards: seq<Card>, agentId: string, from: int, to: int)
    requires cards != [] && cards[|cards| - 1].maxSessions >= 0
    ensures var k := |cards| - 1;
      |SessionsBetween(cards, agentId, from, to)| == |SessionsBetween(cards[..k], agentId, from, to)|
        + if cards[k].agentId == agentId && from <= cards[k].createdAt < to then cards[k].maxSessions else 0
  {
    var k := |cards| - 1;
    var mine := if cards[k].agentId == agentId && from <= cards[k].createdAt < to then cards[k].maxSessions else 0;
    OneCardsSessions(k, mine);
    var more := set j | 0 <= j < mine :: (k, j);
    assert SessionsBetween(cards, agentId, from, to) == SessionsBetween(cards[..k], agentId, from, to) + more;
  }

  /** The sum over a day's cards is the number of their sessions. */
  lemma {:induction false} DailyIsCount(cards: seq<Card>, agentId: string, d: int)
    requires forall i :: 0 <= i < |cards| ==> cards[i].maxSessions >= 0
    ensures DailySessions(cards, agentId, d) == |SessionsBetween(cards, agentId,
      d * (24 * 60 * 60 * 1_000_000_000), (d + 1) * (24 * 60 * 60 * 1_000_000_000))|
    decreases |cards|
  {
    var from, to := d * (24 * 60 * 60 * 1_000_000_000), (d + 1) * (24 * 60 * 60 * 1_000_000_000);
    if cards == [] {
      assert SessionsBetween(cards, agentId, from, to) == {};
    } else {
      DailyIsCount(cards[..|cards| - 1], agentId, d);
      SessionsSnoc(cards, agentId, from, to);
      DayIs(cards[|cards| - 1].createdAt, d);
    }
  }

  /** The sessions of the agent's cards created within the same UTC day as `now`. */
  function TodaysSessions(cards: seq<Card>, agentId: string, now: int): nat {
    var midnight := now - now % (24 * 60 * 60 * 1_000_000_000);
    |SessionsBetween(cards, agentId, midnight, midnight + 24 * 60 * 60 * 1_000_000_000)|
  }

  lemma TodayIsCount(cards: seq<Card>, agentId: string, now: int)
    requires forall i :: 0 <= i < |cards| ==> cards[i].maxSessions >= 0
    ensures DailySessions(cards, agentId, Day(now)) == TodaysSessions(cards, agentId, now)
  {
    DailyIsCount(cards, agentId, Day(now));
    assert Day(now) * (24 * 60 * 60 * 1_000_000_000) == now - now % (24 * 60 * 60 * 1_000_000_000);
  }

  /** Each limit that is set, in the order in which they are checked. */
  ghost predicate Decides(
    verdict: Verdict, cards: seq<Card>, agent: Agent, now: int, count: int, duration: int, maxSessions: int)
  {
    var tooLong := agent.maxMinutes > 0 && duration > agent.maxMinutes * (60 * 1_000_000_000);
    var tooMany := agent.maxConcurrent > 0 && maxSessions > agent.maxConcurrent;
    var overTheDay := agent.maxDaily > 0 && TodaysSessions(cards, agent.id, now) + count * maxSessions > agent.maxDaily;
    && (verdict == TooLong <==> tooLong)
    && (verdict == TooManySessions <==> tooMany && !tooLong)
    && (verdict == DailyLimit <==> overTheDay && !tooLong && !tooMany)
    && (verdict == Allowed <==> !tooLong && !tooMany && !overTheDay)
  }

  lemma CheckDecides(cards: seq<Card>, agent: Agent, now: int, count: int, duration: int, maxSessions: int)
    requires forall i :: 0 <= i < |cards| ==> cards[i].maxSessions >= 0
    ensures Decides(CheckLimits(cards, agent, now, count, duration, maxSessions), cards, agent, now, count, duration,
      maxSessions)
  {
    TodayIsCount(cards, agent.id, now);
  }

  // ----- the adapter

  class Adapter {
    var cards: seq<Card>
    var agents: map<string, Agent>

    method CheckAgentLimits(agent: Agent, now: int, count: int, duration: int, maxSessions: int, mayFail: bool)
      returns (verdict: Verdict)
      ensures verdict == CheckLimits(cards, agent, now, count, duration, maxSessions)
        || (mayFail && verdict == StoreError)
      ensures (forall i :: 0 <= i < |cards| ==> cards[i].maxSessions >= 0) && verdict != StoreError ==>
        Decides(verdict, cards, agent, now, count, duration, maxSessions)
    {
      if forall i :: 0 <= i < |cards| ==> cards[i].maxSessions >= 0 {
        CheckDecides(cards, agent, now, count, duration, maxSessions);
      }
      if agent.maxMinutes > 0 && duration > agent.maxMinutes * NANOS_PER_MINUTE { return TooLong; }
      if agent.maxConcurrent > 0 && maxSessions > agent.maxConcurrent { return TooManySessions; }
      if agent.maxDaily > 0 {
        if mayFail {
          var fault: bool := *;
          if fault { return StoreError; }
        }
        var today := Day(now);
        var dailySessions := 0;
        for n := 0 to |cards|
          invariant dailySessions == DailySessions(cards[..n], agent.id, today)
        {
          var c := cards[n];
          assert cards[..n + 1][..n] == cards[..n];
          if c.agentId == agent.id && Day(c.createdAt) == today {
            dailySessions := dailySessions + c.maxSessions;
          }
        }
        assert cards[..|cards|] == cards;
        if dailySessions + count * maxSessions > agent.maxDaily { return DailyLimit; }
      }
      return Allowed;
    }

    /**
     * The batch call on its own, with nothing between check and creation; a
     * single GenerateCard is the call with count 1.  Cards appear all together
     * or not at all, and only after a check that let them through.
     */
    method BatchGenerateCards(now: int, count: int, duration: int, maxSessions: int, agentId: string, mayFail: bool)
      returns (verdict: Verdict, created: bool)
      requires forall id :: id in agents ==> agents[id].id == id
      modifies `cards
      ensures var r := Request(agentId, count, duration, maxSessions);
        && (verdict == AgentVerdict(old(cards), agents, now, r) || (mayFail && verdict == StoreError))
        && (created ==> verdict == Allowed && count >= 1 && duration > 0 && maxSessions >= 1)
        && (verdict == Allowed && count >= 1 && duration > 0 && maxSessions >= 1 && !created ==> mayFail)
        && old(cards) <= cards && |cards| == |old(cards)| + (if created then count else 0)
        && (forall i :: |old(cards)| <= i < |cards| ==> cards[i] == Card(agentId, now, maxSessions))
      ensures agentId != "" && agentId !in agents ==> verdict == NoAgent
      ensures agentId in agents && agentId != "" && agents[agentId].disabled ==> verdict == Disabled
      ensures agentId == "" ==> verdict == Allowed
      ensures agentId != "" && agentId in agents && !agents[agentId].disabled && verdict != StoreError ==>
        (forall i :: 0 <= i < |old(cards)| ==> old(cards)[i].maxSessions >= 0) ==>
        Decides(verdict, old(cards), agents[agentId], now, count, duration, maxSessions)
    {
      created, verdict := false, Allowed;
      if agentId != "" {
        if agentId !in agents { return NoAgent, false; }
        var agent := agents[agentId];
        if agent.disabled { return Disabled, false; }
        verdict := CheckAgentLimits(agent, now, count, duration, maxSessions, mayFail);
        if verdict != Allowed { return; }
      }
      if !Creatable(count, duration, maxSessions) { return; }
      if mayFail {
        var fault: bool := *;
        if fault { return; }
      }
      cards := cards + NewCards(agentId, now, count, maxSessions);
      created := true;
    }
  }

  // ----- sums over the card list

  lemma {:induction false} DailyAppend(a: seq<Card>, b: seq<Card>, agentId: string, day: int)
    ensures DailySessions(a + b, agentId, day) == DailySessions(a, agentId, day) + DailySessions(b, agentId, day)
    decreases |b|
  {
    if b == [] {
      assert a + b == a;
    } else {
      assert (a + b)[..|a + b| - 1] == a + b[..|b| - 1];
      DailyAppend(a, b[..|b| - 1], agentId, day);
    }
  }

  lemma {:induction false} DailyOfNew(owner: string, now: int, count: nat, maxSessions: int, agentId: string, day: int)
    ensures DailySessions(NewCards(owner, now, count, maxSessions), agentId, day)
      == if owner == agentId && Day(now) == day then count * maxSessions else 0
    decreases count
  {
    if count > 0 {
      var cards := NewCards(owner, now, count, maxSessions);
      assert cards[..|cards| - 1] == NewCards(owner, now, count - 1, maxSessions);
      DailyOfNew(owner, now, count - 1, maxSessions, agentId, day);
      assert count * maxSessions == (count - 1) * maxSessions + maxSessions;
    }
  }

  /** No card is dated after `now`, and none carries a negative allowance. */
  predicate Plausible(cards: seq<Card>, now: int) {
    forall i :: 0 <= i < |cards| ==> cards[i].createdAt <= now && cards[i].maxSessions >= 0
  }

  lemma {:induction false} DailyPlausible(cards: seq<Card>, agentId: string, now: int, day: int)
    requires Plausible(cards, now)
    ensures DailySessions(cards, agentId, day) >= 0
    ensures day > Day(now) ==> DailySessions(cards, agentId, day) == 0
    decreases |cards|
  {
    if cards != [] {
      DailyPlausible(cards[..|cards| - 1], agentId, now, day);
      DayMonotone(cards[|cards| - 1].createdAt, now);
    }
  }

  lemma DayMonotone(s: int, t: int)
    requires s <= t
    ensures Day(s) <= Day(t)
  {
  }

  // ----- one batch against repeated single requests

  /** The cards after the first n of the single requests made at `times`. */
  function AfterSingles(cards: seq<Card>, agentId: string, times: seq<int>, maxSessions: int, n: nat): seq<Card>
    requires n <= |times|
  {
    if n == 0 then cards
    else AfterSingles(cards, agentId, times, maxSessions, n - 1) + NewCards(agentId, times[n - 1], 1, maxSessions)
  }

  lemma {:induction false} DailyAfterSingles(
    cards: seq<Card>, agentId: string, times: seq<int>, maxSessions: int, n: nat, day: int)
    requires n <= |times| && forall i :: 0 <= i < |times| ==> Day(times[i]) == day
    ensures DailySessions(AfterSingles(cards, agentId, times, maxSessions, n), agentId, day)
      == DailySessions(cards, agentId, day) + n * maxSessions
    decreases n
  {
    if n > 0 {
      var before := AfterSingles(cards, agentId, times, maxSessions, n - 1);
      DailyAfterSingles(cards, agentId, times, maxSessions, n - 1, day);
      DailyAppend(before, NewCards(agentId, times[n - 1], 1, maxSessions), agentId, day);
      DailyOfNew(agentId, times[n - 1], 1, maxSessions, agentId, day);
      assert n * maxSessions == (n - 1) * maxSessions + maxSessions;
    }
  }

  lemma MoreCostsMore(n: int, count: int, maxSessions: int)
    requires n <= count && maxSessions >= 0
    ensures n * maxSessions <= count * maxSessions
  {
  }

  /** The n-th single request is up against the sessions of the n before it. */
  lemma SingleAfterSingles(cards: seq<Card>, agent: Agent, times: seq<int>, n: nat, duration: int, maxSessions: int,
      day: int)
    requires n < |times| && forall i :: 0 <= i < |times| ==> Day(times[i]) == day
    ensures CheckLimits(AfterSingles(cards, agent.id, times, maxSessions, n), agent, times[n], 1, duration, maxSessions)
      == if agent.maxMinutes > 0 && duration > agent.maxMinutes * NANOS_PER_MINUTE then TooLong
         else if agent.maxConcurrent > 0 && maxSessions > agent.maxConcurrent then TooManySessions
         else if agent.maxDaily > 0 && DailySessions(cards, agent.id, day) + (n + 1) * maxSessions > agent.maxDaily
           then DailyLimit
         else Allowed
  {
    DailyAfterSingles(cards, agent.id, times, maxSessions, n, day);
    assert (n + 1) * maxSessions == n * maxSessions + 1 * maxSessions;
  }

  /**
   * A batch passes its limits exactly when as many single requests of the same
   * day, each followed by its creation, would all pass theirs.
   */
  lemma BatchIffSingles(
    cards: seq<Card>, agent: Agent, now: int, times: seq<int>, count: nat, duration: int, maxSessions: int)
    requires count >= 1 && maxSessions >= 0 && |times| == count
    requires forall i :: 0 <= i < |times| ==> Day(times[i]) == Day(now)
    ensures CheckLimits(cards, agent, now, count, duration, maxSessions) == Allowed <==>
      forall n :: 0 <= n < count ==>
        CheckLimits(AfterSingles(cards, agent.id, times, maxSessions, n), agent, times[n], 1, duration, maxSessions)
          == Allowed
  {
    var batch := CheckLimits(cards, agent, now, count, duration, maxSessions);
    SingleAfterSingles(cards, agent, times, count - 1, duration, maxSessions, Day(now));
    if batch == Allowed {
      forall n | 0 <= n < count
        ensures CheckLimits(AfterSingles(cards, agent.id, times, maxSessions, n), agent, times[n], 1, duration,
          maxSessions) == Allowed
      {
        SingleAfterSingles(cards, agent, times, n, duration, maxSessions, Day(now));
        MoreCostsMore(n + 1, count, maxSessions);
      }
    } else {
      assert CheckLimits(AfterSingles(cards, agent.id, times, maxSessions, count - 1), agent, times[count - 1], 1,
        duration, maxSessions)
        == batch;
    }
  }
}
