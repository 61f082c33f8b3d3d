/** The risky-machine and expiring-card lists of the operations overview. */
module Overview {
  import opened Ranking

  datatype Status = Active | Disabled | Expired
  datatype Card = Card(code: string, machineId: string, agentId: string, status: Status, expiresAt: int)
  datatype BlacklistEntry = BlacklistEntry(kind: string, value: string)
  datatype MachineInfo = MachineInfo(machineId: string, cardCount: int, isBlacklisted: bool)

  const LIST_LENGTH := 10
  const EXPIRY_WINDOW := 604_800_000_000_000  // seven days in nanoseconds

  // ----- risky machines

  function CardsOn(cards: seq<Card>, machine: string): nat {
    if cards == [] then 0
    else CardsOn(cards[..|cards| - 1], machine) + if cards[|cards| - 1].machineId == machine then 1 else 0
  }

  /** The positions of a machine's cards. */
  function PositionsOn(cards: seq<Card>, machine: string): set<int> {
    Where(cards, (c: Card) => c.machineId == machine)
  }

  lemma {:induction false} CardsOnIsCount(cards: seq<Card>, machine: string)
    ensures CardsOn(cards, machine) == |PositionsOn(cards, machine)|
    decreases |cards|
  {
    if cards == [] {
      assert PositionsOn(cards, machine) == {};
    } else {
      CardsOnIsCount(cards[..|cards| - 1], machine);
      WhereSnoc(cards, (c: Card) => c.machineId == machine);
    }
  }

  /** The rows the GROUP BY ... HAVING query is about. */
  predicate MultiCard(cards: seq<Card>, machine: string) {
    machine != "" && CardsOn(cards, machine) > 1
  }

  function BlacklistedMachines(entries: seq<BlacklistEntry>): set<string> {
    set e | e in entries && e.kind == "machine" :: e.value
  }

  /** The number shown for a machine: its cards if the query listed it, otherwise zero. */
  function ShownCount(cards: seq<Card>, hasDb: bool, machine: string): nat {
    if hasDb && MultiCard(cards, machine) then CardsOn(cards, machine) else 0
  }

  predicate IdsDistinct(rows: seq<MachineInfo>) {
    forall i, j :: 0 <= i < j < |rows| ==> rows[i].machineId != rows[j].machineId
  }

  function Machines(rows: seq<MachineInfo>): (ids: set<string>)
    ensures forall i :: 0 <= i < |rows| ==> rows[i].machineId in ids
    ensures forall id :: id in ids ==> exists i :: 0 <= i < |rows| && rows[i].machineId == id
  {
    set i | 0 <= i < |rows| :: rows[i].machineId
  }

  function MultiCardMachines(cards: seq<Card>, hasDb: bool): set<string> {
    set c | c in cards && hasDb && MultiCard(cards, c.machineId) :: c.machineId
  }

  /** One row per multi-card or blacklisted machine, counted and flagged, in any order. */
  ghost predicate IsRiskyList(rows: seq<MachineInfo>, cards: seq<Card>, entries: seq<BlacklistEntry>, hasDb: bool) {
    && IdsDistinct(rows)
    && Machines(rows) == MultiCardMachines(cards, hasDb) + BlacklistedMachines(entries)
    && (forall i :: 0 <= i < |rows| ==>
          rows[i] == MachineInfo(rows[i].machineId, ShownCount(cards, hasDb, rows[i].machineId),
            rows[i].machineId in BlacklistedMachines(entries)))
  }

  /** Blacklisted machines first, then the ones with more cards. */
  function Riskier(): (MachineInfo, MachineInfo) -> bool {
    (a: MachineInfo, b: MachineInfo) =>
      if a.isBlacklisted != b.isBlacklisted then a.isBlacklisted else a.cardCount > b.cardCount
  }

  lemma RiskierIsOrder()
    ensures StrictWeakOrder(Riskier())
  {
  }

  /** The query: distinct machine ids in whatever order, those with more than one card kept. */
  method QueryMultiCard(cards: seq<Card>) returns (rows: seq<MachineInfo>)
    ensures IdsDistinct(rows) && Machines(rows) == MultiCardMachines(cards, true)
    ensures forall i :: 0 <= i < |rows| ==>
      rows[i] == MachineInfo(rows[i].machineId, ShownCount(cards, true, rows[i].machineId), false)
    ensures forall i :: 0 <= i < |rows| ==> rows[i].machineId != "" && rows[i].cardCount >= 2
    ensures forall i :: 0 <= i < |rows| ==> rows[i].cardCount == |PositionsOn(cards, rows[i].machineId)|
  {
    rows := [];
    var left := set c | c in cards && MultiCard(cards, c.machineId) :: c.machineId;
    ghost var done: set<string> := {};
    assert left == MultiCardMachines(cards, true);
    while left != {}
      invariant left !! done && left + done == MultiCardMachines(cards, true)
      invariant IdsDistinct(rows) && Machines(rows) == done
      invariant forall i :: 0 <= i < |rows| ==>
        rows[i] == MachineInfo(rows[i].machineId, ShownCount(cards, true, rows[i].machineId), false)
    {
      var machine :| machine in left;
      AppendMachine(rows, MachineInfo(machine, CardsOn(cards, machine), false));
      rows := rows + [MachineInfo(machine, CardsOn(cards, machine), false)];
      left, done := left - {machine}, done + {machine};
    }
    forall i | 0 <= i < |rows|
      ensures MultiCard(cards, rows[i].machineId)
      ensures CardsOn(cards, rows[i].machineId) == |PositionsOn(cards, rows[i].machineId)|
    {
      assert rows[i].machineId in MultiCardMachines(cards, true);
      CardsOnIsCount(cards, rows[i].machineId);
    }
  }

  lemma AppendMachine(rows: seq<MachineInfo>, m: MachineInfo)
    ensures Machines(rows + [m]) == Machines(rows) + {m.machineId}
    ensures IdsDistinct(rows) && m.machineId !in Machines(rows) ==> IdsDistinct(rows + [m])
  {
    var more := rows + [m];
    assert more[|rows|] == m;
    forall id | id in Machines(rows) + {m.machineId}
      ensures id in Machines(more)
    {
      if id in Machines(rows) {
        var i :| 0 <= i < |rows| && rows[i].machineId == id;
        assert more[i].machineId == id;
      }
    }
  }

  lemma MoreBlacklisted(entries: seq<BlacklistEntry>, n: nat)
    requires n < |entries|
    ensures BlacklistedMachines(entries[..n + 1])
      == BlacklistedMachines(entries[..n]) + if entries[n].kind == "machine" then {entries[n].value} else {}
  {
    assert entries[..n + 1] == entries[..n] + [entries[n]];
  }

  /** Merge the blacklist into the query rows; a value met twice is added once. */
  method MergeBlacklist(queried: seq<MachineInfo>, cards: seq<Card>, entries: seq<BlacklistEntry>, hasDb: bool)
    returns (rows: seq<MachineInfo>, blacklistSet: set<string>)
    requires IdsDistinct(queried) && Machines(queried) == MultiCardMachines(cards, hasDb)
    requires forall i :: 0 <= i < |queried| ==>
      queried[i] == MachineInfo(queried[i].machineId, ShownCount(cards, hasDb, queried[i].machineId), false)
    ensures IdsDistinct(rows) && Machines(rows) == MultiCardMachines(cards, hasDb) + BlacklistedMachines(entries)
    ensures forall i :: 0 <= i < |rows| ==>
      rows[i] == MachineInfo(rows[i].machineId, ShownCount(cards, hasDb, rows[i].machineId), false)
    ensures blacklistSet == BlacklistedMachines(entries)
  {
    rows, blacklistSet := queried, {};
    for n := 0 to |entries|
      invariant blacklistSet == BlacklistedMachines(entries[..n])
      invariant IdsDistinct(rows) && Machines(rows) == MultiCardMachines(cards, hasDb) + blacklistSet
      invariant forall i :: 0 <= i < |rows| ==>
        rows[i] == MachineInfo(rows[i].machineId, ShownCount(cards, hasDb, rows[i].machineId), false)
    {
      var b := entries[n];
      MoreBlacklisted(entries, n);
      if b.kind != "machine" { continue; }
      blacklistSet := blacklistSet + {b.value};
      var found := false;
      for i := 0 to |rows|
        invariant found <==> exists k :: 0 <= k < i && rows[k].machineId == b.value
      {
        if rows[i].machineId == b.value {
          found := true;
          break;
        }
      }
      if !found {
        UnlistedShowsZero(cards, hasDb, b.value);
        AppendMachine(rows, MachineInfo(b.value, 0, false));
        rows := rows + [MachineInfo(b.value, 0, false)];
      }
    }
    assert entries[..|entries|] == entries;
  }

  lemma UnlistedShowsZero(cards: seq<Card>, hasDb: bool, machine: string)
    ensures machine !in MultiCardMachines(cards, hasDb) ==> ShownCount(cards, hasDb, machine) == 0
  {
    if CardsOn(cards, machine) > 0 {
      var c := SomeCardOn(cards, machine);
    }
  }

  lemma {:induction false} SomeCardOn(cards: seq<Card>, machine: string) returns (c: Card)
    requires CardsOn(cards, machine) > 0
    ensures c in cards && c.machineId == machine
    decreases |cards|
  {
    c := cards[|cards| - 1];
    if c.machineId != machine {
      c := SomeCardOn(cards[..|cards| - 1], machine);
    }
  }

  /** A machine is risky if the blacklist names it as one, or it is a real one with at least two cards. */
  lemma RiskyIff(cards: seq<Card>, entries: seq<BlacklistEntry>, hasDb: bool, m: string)
    ensures m in MultiCardMachines(cards, hasDb) + BlacklistedMachines(entries) <==>
      || (exists i :: 0 <= i < |entries| && entries[i].kind == "machine" && entries[i].value == m)
      || (hasDb && m != "" && |PositionsOn(cards, m)| >= 2)
    ensures m in BlacklistedMachines(entries) <==>
      exists i :: 0 <= i < |entries| && entries[i].kind == "machine" && entries[i].value == m
  {
    CardsOnIsCount(cards, m);
    UnlistedShowsZero(cards, hasDb, m);
    if m in BlacklistedMachines(entries) {
      var e :| e in entries && e.kind == "machine" && e.value == m;
      var i :| 0 <= i < |entries| && entries[i] == e;
    }
  }

  /** The start of some ranked list of exactly the risky machines. */
  ghost predicate IsRiskyTop(top: seq<MachineInfo>, cards: seq<Card>, entries: seq<BlacklistEntry>, hasDb: bool) {
    exists all :: IsRiskyList(all, cards, entries, hasDb) && Sorted(all, Riskier()) && top == Top(all, LIST_LENGTH)
  }

  method RiskyMachines(cards: seq<Card>, entries: seq<BlacklistEntry>, hasDb: bool) returns (top: seq<MachineInfo>)
    ensures IsRiskyTop(top, cards, entries, hasDb)
  {
    var rows: seq<MachineInfo> := [];
    if hasDb {
      rows := QueryMultiCard(cards);
    } else {
      assert MultiCardMachines(cards, false) == {};
    }
    var blacklistSet;
    rows, blacklistSet := MergeBlacklist(rows, cards, entries, hasDb);
    ghost var merged := rows;
    for i := 0 to |rows|
      invariant |rows| == |merged|
      invariant forall k :: 0 <= k < |rows| ==>
        rows[k] == if k < i then merged[k].(isBlacklisted := merged[k].machineId in blacklistSet) else merged[k]
    {
      rows := rows[i := rows[i].(isBlacklisted := rows[i].machineId in blacklistSet)];
    }
    FlaggedList(merged, rows, cards, entries, hasDb);
    RiskierIsOrder();
    top := Sort(rows, Riskier());
    SortKeepsRiskyList(rows, top, cards, entries, hasDb);
    ghost var all := top;
    if |top| > LIST_LENGTH {
      top := top[..LIST_LENGTH];
    }
    assert top == Top(all, LIST_LENGTH);
  }

  lemma FlaggedList(merged: seq<MachineInfo>, rows: seq<MachineInfo>, cards: seq<Card>, entries: seq<BlacklistEntry>,
      hasDb: bool)
    requires IdsDistinct(merged) && Machines(merged) == MultiCardMachines(cards, hasDb) + BlacklistedMachines(entries)
    requires |rows| == |merged| && forall i :: 0 <= i < |merged| ==>
      && merged[i] == MachineInfo(merged[i].machineId, ShownCount(cards, hasDb, merged[i].machineId), false)
      && rows[i] == merged[i].(isBlacklisted := merged[i].machineId in BlacklistedMachines(entries))
    ensures IsRiskyList(rows, cards, entries, hasDb)
  {
    assert forall i :: 0 <= i < |rows| ==> rows[i].machineId == merged[i].machineId;
    assert Machines(rows) == Machines(merged);
  }

  // ----- permutations of distinct rows

  /** A permutation holds the same rows, and no machine twice if the original did not. */
  lemma PermutedRows(rows: seq<MachineInfo>, other: seq<MachineInfo>)
    requires multiset(rows) == multiset(other) && IdsDistinct(rows)
    ensures IdsDistinct(other) && Machines(other) == Machines(rows)
    ensures forall i :: 0 <= i < |other| ==> other[i] in rows
  {
    forall m
      ensures m in rows <==> m in other
    {
      assert m in rows <==> m in multiset(rows);
      assert m in other <==> m in multiset(other);
    }
    forall i, j | 0 <= i < j < |other|
      ensures other[i].machineId != other[j].machineId
    {
      if other[i].machineId == other[j].machineId {
        assert other[i] in rows && other[j] in rows;
        assert other[i] == other[j];
        AtMostOnce(rows, other[i]);
        RepeatedCounts(other, i, j);
        assert false;
      }
    }
    forall id
      ensures id in Machines(rows) <==> id in Machines(other)
    {
      if id in Machines(rows) {
        var i :| 0 <= i < |rows| && rows[i].machineId == id;
        assert rows[i] in other;
      }
      if id in Machines(other) {
        var i :| 0 <= i < |other| && other[i].machineId == id;
        assert other[i] in rows;
      }
    }
  }

  lemma AtMostOnce(rows: seq<MachineInfo>, m: MachineInfo)
    requires IdsDistinct(rows)
    ensures multiset(rows)[m] <= 1
  {
    assert forall i, j :: 0 <= i < j < |rows| ==> rows[i].machineId != rows[j].machineId;
    DistinctOnce(rows, m);
  }

  lemma SortKeepsRiskyList(
    rows: seq<MachineInfo>, sorted: seq<MachineInfo>, cards: seq<Card>, entries: seq<BlacklistEntry>, hasDb: bool)
    requires IsRiskyList(rows, cards, entries, hasDb) && multiset(sorted) == multiset(rows)
    ensures IsRiskyList(sorted, cards, entries, hasDb)
  {
    PermutedRows(rows, sorted);
  }

  // ----- results

  /** The row a machine gets if it is shown. */
  function RowOf(cards: seq<Card>, entries: seq<BlacklistEntry>, hasDb: bool, machine: string): MachineInfo {
    MachineInfo(machine, ShownCount(cards, hasDb, machine), machine in BlacklistedMachines(entries))
  }

  lemma {:induction false} AsManyIdsAsRows(rows: seq<MachineInfo>)
    requires IdsDistinct(rows)
    ensures |Machines(rows)| == |rows|
    decreases |rows|
  {
    if rows == [] {
      assert Machines(rows) == {};
    } else {
      var front, last := rows[..|rows| - 1], rows[|rows| - 1];
      assert rows == front + [last];
      AsManyIdsAsRows(front);
      AppendMachine(front, last);
      assert last.machineId !in Machines(front);
    }
  }

  /** What is shown: ten risky machines or all of them, each once with its own row, ranked. */
  lemma ShownMachines(top: seq<MachineInfo>, cards: seq<Card>, entries: seq<BlacklistEntry>, hasDb: bool)
    requires IsRiskyTop(top, cards, entries, hasDb)
    ensures var risky := MultiCardMachines(cards, hasDb) + BlacklistedMachines(entries);
      && |top| == (if |risky| > 10 then 10 else |risky|)
      && IdsDistinct(top) && Machines(top) <= risky
      && (forall i :: 0 <= i < |top| ==> top[i] == RowOf(cards, entries, hasDb, top[i].machineId))
    ensures Sorted(top, Riskier())
  {
    var all: seq<MachineInfo> :|
      IsRiskyList(all, cards, entries, hasDb) && Sorted(all, Riskier()) && top == Top(all, LIST_LENGTH);
    AsManyIdsAsRows(all);
    TopOfRows(all, top);
    TopSorted(all, LIST_LENGTH, Riskier());
    assert forall i :: 0 <= i < |top| ==> all[i] == RowOf(cards, entries, hasDb, all[i].machineId);
  }

  /**
   * No machine left out outranks one shown; so a blacklisted machine is left
   * out only when everything shown is blacklisted.
   */
  lemma LeftOutMachine(top: seq<MachineInfo>, cards: seq<Card>, entries: seq<BlacklistEntry>, hasDb: bool, m: string,
      i: nat)
    requires IsRiskyTop(top, cards, entries, hasDb) && i < |top|
    requires m in MultiCardMachines(cards, hasDb) + BlacklistedMachines(entries) && m !in Machines(top)
    ensures |top| == 10
    ensures m in BlacklistedMachines(entries) ==> top[i].isBlacklisted
    ensures top[i].isBlacklisted == (m in BlacklistedMachines(entries)) ==>
      ShownCount(cards, hasDb, m) <= top[i].cardCount
  {
    var all: seq<MachineInfo> :|
      IsRiskyList(all, cards, entries, hasDb) && Sorted(all, Riskier()) && top == Top(all, LIST_LENGTH);
    var out := LeftOut(all, top, m, i);
    assert out == RowOf(cards, entries, hasDb, m);
  }

  lemma TopOfRows(all: seq<MachineInfo>, top: seq<MachineInfo>)
    requires top == Top(all, LIST_LENGTH)
    ensures |top| <= |all| && forall i :: 0 <= i < |top| ==> top[i] == all[i]
    ensures IdsDistinct(all) ==> IdsDistinct(top)
    ensures Machines(top) <= Machines(all) && forall i :: 0 <= i < |top| ==> all[i].machineId in Machines(top)
  {
    forall id | id in Machines(top)
      ensures id in Machines(all)
    {
      var i :| 0 <= i < |top| && top[i].machineId == id;
      assert all[i].machineId == id;
    }
  }

  /** The row of a machine that was cut off, and that it does not outrank a kept one. */
  lemma LeftOut(all: seq<MachineInfo>, top: seq<MachineInfo>, m: string, i: nat) returns (out: MachineInfo)
    requires top == Top(all, LIST_LENGTH) && Sorted(all, Riskier())
    requires m in Machines(all) && m !in Machines(top) && i < |top|
    ensures out in all && out.machineId == m && !Riskier()(out, top[i])
  {
    TopOfRows(all, top);
    var j :| 0 <= j < |all| && all[j].machineId == m;
    out := all[j];
  }

  /** The list is fixed by its inputs: any two outcomes are permutations of each other. */
  lemma RiskyListFixed(a: seq<MachineInfo>, b: seq<MachineInfo>, cards: seq<Card>, entries: seq<BlacklistEntry>,
      hasDb: bool)
    requires IsRiskyList(a, cards, entries, hasDb) && IsRiskyList(b, cards, entries, hasDb)
    ensures multiset(a) == multiset(b)
  {
    forall m
      ensures multiset(a)[m] == multiset(b)[m]
    {
      AtMostOnce(a, m);
      AtMostOnce(b, m);
      assert m in a <==> m in multiset(a);
      assert m in b <==> m in multiset(b);
      if m in a {
        assert m.machineId in Machines(b);
      }
      if m in b {
        assert m.machineId in Machines(a);
      }
    }
  }

  /**
   * Which machines are shown depends on neither the order of the rows nor the
   * sort exactly when the cut at ten splits no tie.
   */
  lemma ShownMachinesFixedIff(all: seq<MachineInfo>, cards: seq<Card>, entries: seq<BlacklistEntry>, hasDb: bool)
    requires IsRiskyList(all, cards, entries, hasDb) && Sorted(all, Riskier())
    ensures (forall b :: IsRiskyList(b, cards, entries, hasDb) && Sorted(b, Riskier()) ==>
               multiset(Top(b, LIST_LENGTH)) == multiset(Top(all, LIST_LENGTH)))
      <==> |all| <= 10 || Riskier()(all[9], all[10])
  {
    RiskierIsOrder();
    forall i, j | 0 <= i < j < |all|
      ensures all[i] != all[j]
    {
      assert all[i].machineId != all[j].machineId;
    }
    KeptItemsFixedIff(all, all, LIST_LENGTH, Riskier());
    forall b
      ensures IsRiskyList(b, cards, entries, hasDb) && Sorted(b, Riskier()) <==> IsSortOf(all, b, Riskier())
    {
      if IsRiskyList(b, cards, entries, hasDb) {
        RiskyListFixed(b, all, cards, entries, hasDb);
      }
      if multiset(b) == multiset(all) {
        SortKeepsRiskyList(all, b, cards, entries, hasDb);
      }
    }
  }

  /** The count shown is the machine's real card count except for a listed machine that the query passed over. */
  lemma ShownCountTruthfulIff(rows: seq<MachineInfo>, cards: seq<Card>, entries: seq<BlacklistEntry>, hasDb: bool,
      i: nat)
    requires IsRiskyList(rows, cards, entries, hasDb) && i < |rows|
    ensures var held := CardsOn(cards, rows[i].machineId);
      rows[i].cardCount == held <==> held == 0 || (hasDb && rows[i].machineId != "" && held != 1)
  {
  }

  // ----- expiring cards

  predicate IsExpiring(c: Card, now: int) {
    c.status == Active && now < c.expiresAt < now + EXPIRY_WINDOW
  }

  function Expiring(cards: seq<Card>, now: int): seq<Card> {
    if cards == [] then []
    else Expiring(cards[..|cards| - 1], now) + if IsExpiring(cards[|cards| - 1], now) then [cards[|cards| - 1]] else []
  }

  function Sooner(): (Card, Card) -> bool {
    (a: Card, b: Card) => a.expiresAt < b.expiresAt
  }

  /** The start of some sort of the expiring cards. */
  ghost predicate IsExpiringTop(top: seq<Card>, cards: seq<Card>, now: int) {
    exists all :: IsSortOf(Expiring(cards, now), all, Sooner()) && top == Top(all, LIST_LENGTH)
  }

  method ExpiringCards(cards: seq<Card>, now: int) returns (top: seq<Card>)
    ensures IsExpiringTop(top, cards, now)
  {
    var expiring := [];
    for n := 0 to |cards|
      invariant expiring == Expiring(cards[..n], now)
    {
      assert cards[..n + 1][..n] == cards[..n];
      if IsExpiring(cards[n], now) {
        expiring := expiring + [cards[n]];
      }
    }
    assert cards[..|cards|] == cards;
    top := Sort(expiring, Sooner());
    ghost var all := top;
    if |top| > LIST_LENGTH {
      top := top[..LIST_LENGTH];
    }
    assert top == Top(all, LIST_LENGTH);
  }

  lemma {:induction false} ExpiringMembers(cards: seq<Card>, now: int, c: Card)
    ensures multiset(Expiring(cards, now))[c] == if IsExpiring(c, now) then multiset(cards)[c] else 0
    decreases |cards|
  {
    if cards != [] {
      assert cards == cards[..|cards| - 1] + [cards[|cards| - 1]];
      ExpiringMembers(cards[..|cards| - 1], now, c);
    }
  }

  /** Every card about to expire is shown, unless ten others expire no later. */
  lemma SoonestShown(cards: seq<Card>, now: int, top: seq<Card>, c: Card)
    requires IsExpiringTop(top, cards, now) && c in cards
    requires c.status == Active && now < c.expiresAt < now + 7 * 24 * 60 * 60 * 1_000_000_000
    ensures c in top
      || (&& |top| == 10
          && forall i :: 0 <= i < |top| ==> top[i].status == Active && now < top[i].expiresAt <= c.expiresAt)
  {
    var all: seq<Card> :| IsSortOf(Expiring(cards, now), all, Sooner()) && top == Top(all, LIST_LENGTH);
    ExpiringMembers(cards, now, c);
    assert c in multiset(cards);
    assert c in multiset(all);
    var j :| 0 <= j < |all| && all[j] == c;
    if |all| > LIST_LENGTH && j >= LIST_LENGTH {
      forall i | 0 <= i < LIST_LENGTH
        ensures IsExpiring(all[i], now) && all[i].expiresAt <= c.expiresAt
      {
        assert !Sooner()(all[j], all[i]);
        assert all[i] in multiset(all);
        ExpiringMembers(cards, now, all[i]);
      }
    } else {
      assert top[j] == c;
    }
  }

  lemma ExpiringSubmultiset(cards: seq<Card>, now: int)
    ensures multiset(Expiring(cards, now)) <= multiset(cards)
  {
    forall c
      ensures multiset(Expiring(cards, now))[c] <= multiset(cards)[c]
    {
      ExpiringMembers(cards, now, c);
    }
  }

  /** Only cards about to expire are shown, none more often than it occurs, soonest first. */
  lemma ShownAreExpiring(cards: seq<Card>, now: int, top: seq<Card>)
    requires IsExpiringTop(top, cards, now)
    ensures |top| <= 10 && multiset(top) <= multiset(cards)
    ensures forall i, j :: 0 <= i < j < |top| ==> top[i].expiresAt <= top[j].expiresAt
    ensures forall i :: 0 <= i < |top| ==>
      top[i].status == Active && now < top[i].expiresAt < now + 7 * 24 * 60 * 60 * 1_000_000_000
  {
    var all: seq<Card> :| IsSortOf(Expiring(cards, now), all, Sooner()) && top == Top(all, LIST_LENGTH);
    TopSubmultiset(all, LIST_LENGTH);
    TopSorted(all, LIST_LENGTH, Sooner());
    ExpiringSubmultiset(cards, now);
    forall i, j | 0 <= i < j < |top|
      ensures top[i].expiresAt <= top[j].expiresAt
    {
      assert !Sooner()(top[j], top[i]);
    }
    forall i | 0 <= i < |top|
      ensures IsExpiring(top[i], now)
    {
      assert top[i] in multiset(top) && top[i] in multiset(Expiring(cards, now));
      ExpiringMembers(cards, now, top[i]);
    }
  }

  lemma SortedExpiringDistinct(cards: seq<Card>, now: int, all: seq<Card>)
    requires forall i, j :: 0 <= i < j < |cards| ==> cards[i].code != cards[j].code
    requires multiset(all) == multiset(Expiring(cards, now))
    ensures forall i, j :: 0 <= i < j < |all| ==> all[i] != all[j]
  {
    forall i, j | 0 <= i < j < |cards|
      ensures cards[i] != cards[j]
    {
      assert cards[i].code != cards[j].code;
    }
    forall i, j | 0 <= i < j < |all|
      ensures all[i] != all[j]
    {
      DistinctOnce(cards, all[i]);
      ExpiringMembers(cards, now, all[i]);
      if all[i] == all[j] {
        RepeatedCounts(all, i, j);
      }
    }
  }

  /** Card codes are unique.  Which cards are shown is independent of the sort exactly when the cut splits no tie. */
  lemma ShownCardsFixedIff(cards: seq<Card>, now: int, all: seq<Card>)
    requires forall i, j :: 0 <= i < j < |cards| ==> cards[i].code != cards[j].code
    requires IsSortOf(Expiring(cards, now), all, Sooner())
    ensures (forall b :: IsSortOf(Expiring(cards, now), b, Sooner()) ==>
               multiset(Top(b, LIST_LENGTH)) == multiset(Top(all, LIST_LENGTH)))
      <==> |all| <= 10 || all[9].expiresAt < all[10].expiresAt
  {
    SortedExpiringDistinct(cards, now, all);
    KeptItemsFixedIff(Expiring(cards, now), all, LIST_LENGTH, Sooner());
  }
}
