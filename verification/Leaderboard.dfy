/** Per-agent card totals, largest first. */
module Leaderboard {
  import opened Ranking
  import opened Overview

  datatype Account = Account(id: string, username: string)
  datatype Item = Item(agentId: string, username: string, totalCards: nat, activeCards: nat, expiredCards: nat)
  datatype Tally = Tally(total: nat, active: nat, expired: nat)

  predicate CountsActive(c: Card, now: int) {
    c.status == Active && c.expiresAt > now
  }

  predicate CountsExpired(c: Card, now: int) {
    c.status == Expired || c.expiresAt < now
  }

  function TallyFor(cards: seq<Card>, agentId: string, now: int): Tally {
    if cards == [] then Tally(0, 0, 0)
    else
      var t := TallyFor(cards[..|cards| - 1], agentId, now);
      var c := cards[|cards| - 1];
      if c.agentId != agentId then t
      else Tally(t.total + 1,
        t.active + (if CountsActive(c, now) then 1 else 0), t.expired + if CountsExpired(c, now) then 1 else 0)
  }

  /** The positions of an agent's cards. */
  function Owned(cards: seq<Card>, agentId: string): set<int> {
    Where(cards, (c: Card) => c.agentId == agentId)
  }

  function OwnedActive(cards: seq<Card>, agentId: string, now: int): set<int> {
    Where(cards, (c: Card) => c.agentId == agentId && c.status == Active && now < c.expiresAt)
  }

  function OwnedExpired(cards: seq<Card>, agentId: string, now: int): set<int> {
    Where(cards, (c: Card) => c.agentId == agentId && (c.status == Expired || c.expiresAt < now))
  }

  /** Each of the three numbers counts positions in the card list. */
  lemma {:induction false} TallyCounts(cards: seq<Card>, agentId: string, now: int)
    ensures var t := TallyFor(cards, agentId, now);
      && t.total == |Owned(cards, agentId)|
      && t.active == |OwnedActive(cards, agentId, now)|
      && t.expired == |OwnedExpired(cards, agentId, now)|
    decreases |cards|
  {
    if cards == [] {
      assert Owned(cards, agentId) == {} && OwnedActive(cards, agentId, now) == {};
      assert OwnedExpired(cards, agentId, now) == {};
    } else {
      TallyCounts(cards[..|cards| - 1], agentId, now);
      WhereSnoc(cards, (c: Card) => c.agentId == agentId);
      WhereSnoc(cards, (c: Card) => c.agentId == agentId && c.status == Active && now < c.expiresAt);
      WhereSnoc(cards, (c: Card) => c.agentId == agentId && (c.status == Expired || c.expiresAt < now));
    }
  }

  /** The name of the last account with this id, if any. */
  function NameIn(accounts: seq<Account>, id: string): string {
    if accounts == [] then ""
    else if accounts[|accounts| - 1].id == id then accounts[|accounts| - 1].username
    else NameIn(accounts[..|accounts| - 1], id)
  }

  function DisplayName(accounts: seq<Account>, id: string): string {
    if NameIn(accounts, id) == "" then id else NameIn(accounts, id)
  }

  function ItemFor(cards: seq<Card>, accounts: seq<Account>, id: string, now: int): Item {
    var t := TallyFor(cards, id, now);
    Item(id, DisplayName(accounts, id), t.total, t.active, t.expired)
  }

  lemma {:induction false} LastAccount(accounts: seq<Account>, id: string, i: nat)
    requires i < |accounts| && accounts[i].id == id && forall j :: i < j < |accounts| ==> accounts[j].id != id
    ensures NameIn(accounts, id) == accounts[i].username
    decreases |accounts|
  {
    if i < |accounts| - 1 {
      LastAccount(accounts[..|accounts| - 1], id, i);
    }
  }

  lemma {:induction false} NoAccount(accounts: seq<Account>, id: string)
    requires forall i :: 0 <= i < |accounts| ==> accounts[i].id != id
    ensures NameIn(accounts, id) == ""
    decreases |accounts|
  {
    if accounts != [] {
      NoAccount(accounts[..|accounts| - 1], id);
    }
  }

  ghost predicate IsNameOf(name: string, accounts: seq<Account>, id: string) {
    if exists i :: IsLastOf(accounts, id, i) && accounts[i].username != ""
    then exists i :: IsLastOf(accounts, id, i) && name == accounts[i].username
    else name == id
  }

  predicate IsLastOf(accounts: seq<Account>, id: string, i: int) {
    0 <= i < |accounts| && accounts[i].id == id && forall j :: i < j < |accounts| ==> accounts[j].id != id
  }

  lemma {:induction false} SomeLast(accounts: seq<Account>, id: string, i: int) returns (last: int)
    requires 0 <= i < |accounts| && accounts[i].id == id
    ensures IsLastOf(accounts, id, last)
    decreases |accounts| - i
  {
    if j :| i < j < |accounts| && accounts[j].id == id {
      last := SomeLast(accounts, id, j);
    } else {
      last := i;
    }
  }

  /** The name shown is that of the last account with the id, or the id if there is none or it has no name. */
  lemma NameShown(accounts: seq<Account>, id: string)
    ensures IsNameOf(DisplayName(accounts, id), accounts, id)
  {
    if i :| 0 <= i < |accounts| && accounts[i].id == id {
      var last := SomeLast(accounts, id, i);
      LastAccount(accounts, id, last);
      assert forall j :: IsLastOf(accounts, id, j) ==> j == last;
    } else {
      NoAccount(accounts, id);
    }
  }

  function Agents(cards: seq<Card>): set<string> {
    set c | c in cards && c.agentId != "" :: c.agentId
  }

  function AgentIds(items: seq<Item>): (ids: set<string>)
    ensures forall i :: 0 <= i < |items| ==> items[i].agentId in ids
    ensures forall id :: id in ids ==> exists i :: 0 <= i < |items| && items[i].agentId == id
  {
    set i | 0 <= i < |items| :: items[i].agentId
  }

  /** One item for each agent with a card, in any order. */
  ghost predicate IsBoard(items: seq<Item>, cards: seq<Card>, accounts: seq<Account>, now: int) {
    && (forall i, j :: 0 <= i < j < |items| ==> items[i].agentId != items[j].agentId)
    && AgentIds(items) == Agents(cards)
    && (forall i :: 0 <= i < |items| ==> items[i] == ItemFor(cards, accounts, items[i].agentId, now))
  }

  /** The columns of a shown item. */
  ghost predicate MeansCounts(item: Item, cards: seq<Card>, accounts: seq<Account>, now: int) {
    && IsNameOf(item.username, accounts, item.agentId)
    && item.totalCards == |Owned(cards, item.agentId)|
    && item.activeCards == |OwnedActive(cards, item.agentId, now)|
    && item.expiredCards == |OwnedExpired(cards, item.agentId, now)|
  }

  lemma ItemCounts(cards: seq<Card>, accounts: seq<Account>, id: string, now: int)
    ensures MeansCounts(ItemFor(cards, accounts, id, now), cards, accounts, now)
  {
    TallyCounts(cards, id, now);
    NameShown(accounts, id);
  }

  function TotalOf(): Item -> int {
    (item: Item) => item.totalCards
  }

  // ----- the program

  method CollectNames(accounts: seq<Account>) returns (names: map<string, string>)
    ensures forall id :: (if id in names then names[id] else "") == NameIn(accounts, id)
  {
    names := map[];
    for n := 0 to |accounts|
      invariant forall id :: (if id in names then names[id] else "") == NameIn(accounts[..n], id)
    {
      assert accounts[..n + 1][..n] == accounts[..n];
      names := names[accounts[n].id := accounts[n].username];
    }
    assert accounts[..|accounts|] == accounts;
  }

  lemma AgentsSnoc(cards: seq<Card>, n: nat)
    requires n < |cards|
    ensures Agents(cards[..n + 1]) == Agents(cards[..n]) + if cards[n].agentId == "" then {} else {cards[n].agentId}
    ensures cards[..n + 1][..n] == cards[..n]
  {
    assert cards[..n + 1] == cards[..n] + [cards[n]];
  }

  lemma {:induction false} NoCardsNoTally(cards: seq<Card>, id: string, now: int)
    requires id != "" && id !in Agents(cards)
    ensures TallyFor(cards, id, now) == Tally(0, 0, 0)
    decreases |cards|
  {
    if cards != [] {
      AgentsSnoc(cards, |cards| - 1);
      assert cards[..|cards| - 1 + 1] == cards;
      NoCardsNoTally(cards[..|cards| - 1], id, now);
    }
  }

  lemma OthersUnchanged(cards: seq<Card>, n: nat, accounts: seq<Account>, id: string, now: int)
    requires n < |cards| && cards[n].agentId != id
    ensures ItemFor(cards[..n + 1], accounts, id, now) == ItemFor(cards[..n], accounts, id, now)
  {
    assert cards[..n + 1][..n] == cards[..n];
  }

  /** Counting one card of the item's agent. */
  method CountCard(item: Item, card: Card, now: int, ghost cards: seq<Card>, ghost n: nat, ghost accounts: seq<Account>)
    returns (more: Item)
    requires n < |cards| && card == cards[n] && item == ItemFor(cards[..n], accounts, card.agentId, now)
    ensures more == ItemFor(cards[..n + 1], accounts, card.agentId, now)
  {
    assert cards[..n + 1][..n] == cards[..n];
    more := item.(totalCards := item.totalCards + 1);
    if CountsActive(card, now) {
      more := more.(activeCards := more.activeCards + 1);
    }
    if CountsExpired(card, now) {
      more := more.(expiredCards := more.expiredCards + 1);
    }
  }

  /** The counting loop over the cards, into a map by agent. */
  method CountByAgent(cards: seq<Card>, accounts: seq<Account>, names: map<string, string>, now: int)
    returns (byAgent: map<string, Item>)
    requires forall id :: (if id in names then names[id] else "") == NameIn(accounts, id)
    ensures byAgent.Keys == Agents(cards)
    ensures forall id :: id in byAgent ==> byAgent[id] == ItemFor(cards, accounts, id, now)
  {
    byAgent := map[];
    for n := 0 to |cards|
      invariant byAgent.Keys == Agents(cards[..n])
      invariant forall id :: id in byAgent ==> byAgent[id] == ItemFor(cards[..n], accounts, id, now)
    {
      var card := cards[n];
      AgentsSnoc(cards, n);
      if card.agentId == "" {
        forall id | id in byAgent
          ensures byAgent[id] == ItemFor(cards[..n + 1], accounts, id, now)
        {
          OthersUnchanged(cards, n, accounts, id, now);
        }
        continue;
      }
      var item;
      if card.agentId in byAgent {
        item := byAgent[card.agentId];
      } else {
        NoCardsNoTally(cards[..n], card.agentId, now);
        var name := if card.agentId in names then names[card.agentId] else "";
        if name == "" {
          name := card.agentId;
        }
        item := Item(card.agentId, name, 0, 0, 0);
      }
      item := CountCard(item, card, now, cards, n, accounts);
      forall id | id in byAgent && id != card.agentId
        ensures byAgent[id] == ItemFor(cards[..n + 1], accounts, id, now)
      {
        OthersUnchanged(cards, n, accounts, id, now);
      }
      byAgent := byAgent[card.agentId := item];
    }
    assert cards[..|cards|] == cards;
  }

  lemma AppendItem(items: seq<Item>, item: Item)
    ensures AgentIds(items + [item]) == AgentIds(items) + {item.agentId}
  {
    var more := items + [item];
    assert more[|items|] == item;
    forall id | id in AgentIds(items)
      ensures id in AgentIds(more)
    {
      var i :| 0 <= i < |items| && items[i].agentId == id;
      assert more[i].agentId == id;
    }
  }

  /** The range loop over the map, which visits it in whatever order. */
  method CollectItems(byAgent: map<string, Item>) returns (result: seq<Item>)
    requires forall id :: id in byAgent ==> byAgent[id].agentId == id
    ensures forall i, j :: 0 <= i < j < |result| ==> result[i].agentId != result[j].agentId
    ensures AgentIds(result) == byAgent.Keys
    ensures forall i :: 0 <= i < |result| ==> result[i].agentId in byAgent && result[i] == byAgent[result[i].agentId]
  {
    result := [];
    var left := byAgent.Keys;
    while left != {}
      invariant left <= byAgent.Keys && AgentIds(result) == byAgent.Keys - left
      invariant forall i, j :: 0 <= i < j < |result| ==> result[i].agentId != result[j].agentId
      invariant forall i :: 0 <= i < |result| ==>
        result[i].agentId in byAgent && result[i] == byAgent[result[i].agentId]
    {
      var id :| id in left;
      AppendItem(result, byAgent[id]);
      result := result + [byAgent[id]];
      left := left - {id};
    }
  }

  /** The start of some sort of some board. */
  ghost predicate IsBoardTop(top: seq<Item>, cards: seq<Card>, accounts: seq<Account>, now: int) {
    exists items, all ::
      && IsBoard(items, cards, accounts, now) && IsSortOf(items, all, Descending(TotalOf()))
      && top == Top(all, LIST_LENGTH)
  }

  method BuildAgentLeaderboard(cards: seq<Card>, accounts: seq<Account>, now: int) returns (top: seq<Item>)
    ensures IsBoardTop(top, cards, accounts, now)
  {
    var names := CollectNames(accounts);
    var byAgent := CountByAgent(cards, accounts, names, now);
    var result := CollectItems(byAgent);
    DescendingIsOrder(TotalOf());
    top := Sort(result, Descending(TotalOf()));
    ghost var all := top;
    if |top| > LIST_LENGTH {
      top := top[..LIST_LENGTH];
    }
    assert top == Top(all, LIST_LENGTH);
  }

  // ----- results

  function SumOfTotals(items: seq<Item>): nat {
    if items == [] then 0 else items[0].totalCards + SumOfTotals(items[1..])
  }

  function OwnedCards(cards: seq<Card>): nat {
    if cards == [] then 0
    else OwnedCards(cards[..|cards| - 1]) + if cards[|cards| - 1].agentId != "" then 1 else 0
  }

  function SumFor(cards: seq<Card>, ids: seq<string>, now: int): nat {
    if ids == [] then 0 else TallyFor(cards, ids[0], now).total + SumFor(cards, ids[1..], now)
  }

  /** One more card adds one to the sum over distinct agents if its agent is among them. */
  lemma {:induction false} SumForSnoc(cards: seq<Card>, ids: seq<string>, now: int)
    requires cards != [] && forall i, j :: 0 <= i < j < |ids| ==> ids[i] != ids[j]
    ensures SumFor(cards, ids, now)
      == SumFor(cards[..|cards| - 1], ids, now) + if cards[|cards| - 1].agentId in ids then 1 else 0
    decreases |ids|
  {
    if ids != [] {
      SumForSnoc(cards, ids[1..], now);
      assert ids == [ids[0]] + ids[1..];
    }
  }

  lemma {:induction false} SumForNone(ids: seq<string>, now: int)
    ensures SumFor([], ids, now) == 0
    decreases |ids|
  {
    if ids != [] {
      SumForNone(ids[1..], now);
    }
  }

  lemma {:induction false} SumForAll(cards: seq<Card>, ids: seq<string>, now: int)
    requires forall i, j :: 0 <= i < j < |ids| ==> ids[i] != ids[j]
    requires forall c :: c in cards ==> (c.agentId in ids <==> c.agentId != "")
    ensures SumFor(cards, ids, now) == OwnedCards(cards)
    decreases |cards|
  {
    if cards == [] {
      SumForNone(ids, now);
    } else {
      SumForSnoc(cards, ids, now);
      assert cards[|cards| - 1] in cards;
      assert forall c :: c in cards[..|cards| - 1] ==> c in cards;
      SumForAll(cards[..|cards| - 1], ids, now);
    }
  }

  function IdsOf(items: seq<Item>): (ids: seq<string>)
    ensures |ids| == |items| && forall i :: 0 <= i < |items| ==> ids[i] == items[i].agentId
  {
    seq(|items|, i requires 0 <= i < |items| => items[i].agentId)
  }

  lemma {:induction false} SumsMatch(items: seq<Item>, cards: seq<Card>, accounts: seq<Account>, now: int)
    requires forall i :: 0 <= i < |items| ==> items[i] == ItemFor(cards, accounts, items[i].agentId, now)
    ensures SumOfTotals(items) == SumFor(cards, IdsOf(items), now)
    decreases |items|
  {
    if items != [] {
      SumsMatch(items[1..], cards, accounts, now);
      assert IdsOf(items)[1..] == IdsOf(items[1..]);
    }
  }

  /** Conservation: before the cut, the totals add up to the cards that have an agent. */
  lemma TotalsConserved(items: seq<Item>, cards: seq<Card>, accounts: seq<Account>, now: int)
    requires IsBoard(items, cards, accounts, now)
    ensures SumOfTotals(items) == OwnedCards(cards)
  {
    SumsMatch(items, cards, accounts, now);
    var ids := IdsOf(items);
    forall i | 0 <= i < |ids|
      ensures ids[i] != ""
    {
      assert items[i].agentId in Agents(cards);
    }
    forall c | c in cards && c.agentId != ""
      ensures c.agentId in ids
    {
      assert c.agentId in Agents(cards);
      var i :| 0 <= i < |items| && items[i].agentId == c.agentId;
      assert ids[i] == c.agentId;
    }
    SumForAll(cards, ids, now);
  }

  /** At any instant no card counts both as active and as expired. */
  lemma {:induction false} ActivePlusExpired(cards: seq<Card>, id: string, now: int)
    ensures var t := TallyFor(cards, id, now); t.active + t.expired <= t.total
    decreases |cards|
  {
    if cards != [] {
      ActivePlusExpired(cards[..|cards| - 1], id, now);
    }
  }

  lemma {:induction false} AsManyIdsAsItems(items: seq<Item>)
    requires forall i, j :: 0 <= i < j < |items| ==> items[i].agentId != items[j].agentId
    ensures |AgentIds(items)| == |items|
    decreases |items|
  {
    if items == [] {
      assert AgentIds(items) == {};
    } else {
      var front, last := items[..|items| - 1], items[|items| - 1];
      assert items == front + [last];
      AsManyIdsAsItems(front);
      AppendItem(front, last);
      assert last.agentId !in AgentIds(front);
    }
  }

  /** A sort of a board is a board. */
  lemma SortedBoard(items: seq<Item>, all: seq<Item>, cards: seq<Card>, accounts: seq<Account>, now: int)
    requires IsBoard(items, cards, accounts, now) && multiset(all) == multiset(items)
    ensures IsBoard(all, cards, accounts, now)
  {
    forall m
      ensures m in all <==> m in items
    {
      assert m in all <==> m in multiset(all);
      assert m in items <==> m in multiset(items);
    }
    forall i, j | 0 <= i < j < |all|
      ensures all[i].agentId != all[j].agentId
    {
      assert all[i] in items && all[j] in items;
      ItemOnce(items, all[i]);
      if all[i] == all[j] {
        RepeatedCounts(all, i, j);
      }
    }
    forall id
      ensures id in AgentIds(all) <==> id in AgentIds(items)
    {
      if id in AgentIds(all) {
        var i :| 0 <= i < |all| && all[i].agentId == id;
        assert all[i] in items;
      }
      if id in AgentIds(items) {
        var i :| 0 <= i < |items| && items[i].agentId == id;
        assert items[i] in all;
      }
    }
    forall i | 0 <= i < |all|
      ensures all[i] == ItemFor(cards, accounts, all[i].agentId, now)
    {
      assert all[i] in items;
    }
  }

  /**
   * What is shown, without mention of how it was computed: ten agents or all of
   * them, each once with its own counts, largest first, and nobody left out has
   * more cards than anybody shown.
   */
  lemma BoardTopMeaning(top: seq<Item>, cards: seq<Card>, accounts: seq<Account>, now: int)
    requires IsBoardTop(top, cards, accounts, now)
    ensures |top| == (if |Agents(cards)| > 10 then 10 else |Agents(cards)|)
    ensures AgentIds(top) <= Agents(cards) && forall i, j :: 0 <= i < j < |top| ==> top[i].agentId != top[j].agentId
    ensures forall i :: 0 <= i < |top| ==> top[i] == ItemFor(cards, accounts, top[i].agentId, now)
    ensures forall i, j :: 0 <= i < j < |top| ==> top[i].totalCards >= top[j].totalCards
    ensures forall id, i :: id in Agents(cards) && id !in AgentIds(top) && 0 <= i < |top| ==>
      TallyFor(cards, id, now).total <= top[i].totalCards
  {
    var items: seq<Item>, all: seq<Item> :| IsBoard(items, cards, accounts, now)
      && IsSortOf(items, all, Descending(TotalOf()))
      && top == Top(all, LIST_LENGTH);
    SortedBoard(items, all, cards, accounts, now);
    AsManyIdsAsItems(all);
    forall i, j | 0 <= i < j < |all|
      ensures all[i].totalCards >= all[j].totalCards
    {
      assert !Descending(TotalOf())(all[j], all[i]);
    }
    forall i | 0 <= i < |top|
      ensures top[i] == all[i] && top[i].agentId in AgentIds(all) && all[i].agentId in AgentIds(top)
    {
    }
    forall id, i | id in AgentIds(all) && id !in AgentIds(top) && 0 <= i < |top|
      ensures TallyFor(cards, id, now).total <= top[i].totalCards
    {
      var j :| 0 <= j < |all| && all[j].agentId == id;
      assert all[j] == ItemFor(cards, accounts, id, now);
    }
  }

  /** Each item shown has the name and the three counts of its agent. */
  lemma ShownItemsMean(top: seq<Item>, cards: seq<Card>, accounts: seq<Account>, now: int, i: nat)
    requires IsBoardTop(top, cards, accounts, now) && i < |top|
    ensures MeansCounts(top[i], cards, accounts, now)
  {
    BoardTopMeaning(top, cards, accounts, now);
    ItemCounts(cards, accounts, top[i].agentId, now);
  }

  /** Two walks of the map collect the same items. */
  lemma BoardFixed(a: seq<Item>, b: seq<Item>, cards: seq<Card>, accounts: seq<Account>, now: int)
    requires IsBoard(a, cards, accounts, now) && IsBoard(b, cards, accounts, now)
    ensures multiset(a) == multiset(b)
  {
    forall m
      ensures multiset(a)[m] == multiset(b)[m]
    {
      ItemOnce(a, m);
      ItemOnce(b, m);
      if m in a {
        assert m.agentId in Agents(cards);
        var i :| 0 <= i < |b| && b[i].agentId == m.agentId;
        assert b[i] == m;
      }
      if m in b {
        assert m.agentId in Agents(cards);
        var i :| 0 <= i < |a| && a[i].agentId == m.agentId;
        assert a[i] == m;
      }
    }
  }

  lemma {:induction false} ItemOnce(items: seq<Item>, m: Item)
    requires forall i, j :: 0 <= i < j < |items| ==> items[i].agentId != items[j].agentId
    ensures multiset(items)[m] == if m in items then 1 else 0
    decreases |items|
  {
    if items != [] {
      assert items == [items[0]] + items[1..];
      ItemOnce(items[1..], m);
    }
  }

  /** Whatever the map order and the sort, the totals shown are the same numbers in the same places. */
  lemma ShownTotalsFixed(
    a: seq<Item>, sortedA: seq<Item>, b: seq<Item>, sortedB: seq<Item>, cards: seq<Card>, accounts: seq<Account>,
      now: int)
    requires IsBoard(a, cards, accounts, now) && IsBoard(b, cards, accounts, now)
    requires IsSortOf(a, sortedA, Descending(TotalOf())) && IsSortOf(b, sortedB, Descending(TotalOf()))
    ensures Keys(Top(sortedA, LIST_LENGTH), TotalOf()) == Keys(Top(sortedB, LIST_LENGTH), TotalOf())
  {
    BoardFixed(a, b, cards, accounts, now);
    SortedKeysAgree(a, sortedA, sortedB, TotalOf());
    var ka, kb := Keys(sortedA, TotalOf()), Keys(sortedB, TotalOf());
    assert Keys(Top(sortedA, LIST_LENGTH), TotalOf()) == Top(ka, LIST_LENGTH);
    assert Keys(Top(sortedB, LIST_LENGTH), TotalOf()) == Top(kb, LIST_LENGTH);
  }

  /** Which agents are shown is independent of those accidents exactly when the cut splits no tie. */
  lemma ShownAgentsFixedIff(items: seq<Item>, all: seq<Item>, cards: seq<Card>, accounts: seq<Account>, now: int)
    requires IsBoard(items, cards, accounts, now) && IsSortOf(items, all, Descending(TotalOf()))
    ensures (forall b :: IsSortOf(items, b, Descending(TotalOf())) ==>
               multiset(Top(b, LIST_LENGTH)) == multiset(Top(all, LIST_LENGTH)))
      <==> |all| <= 10 || all[9].totalCards > all[10].totalCards
  {
    forall i, j | 0 <= i < j < |all|
      ensures all[i] != all[j]
    {
      ItemOnce(items, all[i]);
      if all[i] == all[j] {
        RepeatedCounts(all, i, j);
      }
    }
    DescendingIsOrder(TotalOf());
    KeptItemsFixedIff(items, all, LIST_LENGTH, Descending(TotalOf()));
  }
}
