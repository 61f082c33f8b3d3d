/** One-time copy of the legacy JSON data into the SQLite tables. */
module Migration {
  import opened AgentTable
  import opened FreshNames
  import Decimal
  import opened Options

  datatype CardRow = CardRow(
    code: string, machineId: string, agentId: string, createdAt: string, activatedAt: Option<string>,
    expiresAt: string, status: string, note: string, maxSessions: int)
  datatype SessionRow = SessionRow(
    token: string, cardCode: string, machineId: string, fingerprint: string, clientVersion: string,
    createdAt: string, lastSeen: string, expiresAt: string, remoteAddr: string)
  datatype BlacklistRow = BlacklistRow(value: string, kind: string, reason: string, createdAt: string)
  datatype AuditRow = AuditRow(
    time: string, action: string, card: string, machine: string, agentId: string, detail: string, addr: string)

  /** The decoded legacy file; an agent's id may be empty there. */
  datatype Legacy = Legacy(
    cards: map<string, CardRow>, sessions: map<string, SessionRow>, blacklist: seq<BlacklistRow>,
    agents: map<string, AgentRow>, audit: seq<AuditRow>)

  /** The five tables; maps for those with a text primary key and INSERT OR IGNORE. */
  datatype Db = Db(
    cards: map<string, CardRow>, sessions: map<string, SessionRow>, blacklist: map<string, BlacklistRow>,
    agents: seq<AgentRow>, audit: seq<AuditRow>)

  /** The orders in which the run happened to walk the legacy maps. */
  datatype Orders = Orders(cards: seq<string>, sessions: seq<string>, agents: seq<string>)

  datatype Outcome = Skipped | NothingToMigrate | Migrated | Failed

  function Elements(order: seq<string>): (r: set<string>)
    ensures forall k :: k in order <==> k in r
  {
    set k | k in order
  }

  predicate IsListing(order: seq<string>, keys: set<string>) {
    && Elements(order) == keys
    && (forall i, j :: 0 <= i < j < |order| ==> order[i] != order[j])
  }

  /** A map range: `left` holds the keys still to come, and k is the next. */
  lemma ListingNext(order: seq<string>, keys: set<string>, left: set<string>, k: string)
    requires IsListing(order, keys - left) && left <= keys && k in left
    ensures IsListing(order + [k], keys - (left - {k}))
  {
    assert keys - left + {k} == keys - (left - {k});
  }

  predicate AreOrders(o: Orders, data: Legacy) {
    && IsListing(o.cards, data.cards.Keys)
    && IsListing(o.sessions, data.sessions.Keys)
    && IsListing(o.agents, data.agents.Keys)
  }

  // ----- INSERT OR IGNORE

  function InsertOrIgnore<R>(table: map<string, R>, key: string, row: R): map<string, R> {
    if key in table then table else table[key := row]
  }

  function WithStatus(c: CardRow): CardRow {
    if c.status == "" then c.(status := "active") else c
  }

  function InsertCards(
    table: map<string, CardRow>, legacy: map<string, CardRow>, order: seq<string>): map<string, CardRow>
    requires forall k :: k in order ==> k in legacy
    decreases |order|
  {
    if order == [] then table
    else
      var c := WithStatus(legacy[order[0]]);
      InsertCards(InsertOrIgnore(table, c.code, c), legacy, order[1..])
  }

  function InsertSessions(
    table: map<string, SessionRow>, legacy: map<string, SessionRow>, order: seq<string>): map<string, SessionRow>
    requires forall k :: k in order ==> k in legacy
    decreases |order|
  {
    if order == [] then table
    else InsertSessions(InsertOrIgnore(table, legacy[order[0]].token, legacy[order[0]]), legacy, order[1..])
  }

  function InsertBlacklist(table: map<string, BlacklistRow>, entries: seq<BlacklistRow>): map<string, BlacklistRow>
    decreases |entries|
  {
    if entries == [] then table
    else InsertBlacklist(InsertOrIgnore(table, entries[0].value, entries[0]), entries[1..])
  }

  lemma {:induction false} CardsInserted(table: map<string, CardRow>, legacy: map<string, CardRow>, order: seq<string>)
    requires forall k :: k in order ==> k in legacy
    ensures var r := InsertCards(table, legacy, order);
      && (forall code :: code in table ==> code in r && r[code] == table[code])
      && (forall k :: k in order ==> legacy[k].code in r)
      && (forall code :: code in r && code !in table ==>
            exists k :: k in order && legacy[k].code == code && r[code] == WithStatus(legacy[k]))
    decreases |order|
  {
    if order != [] {
      var c := WithStatus(legacy[order[0]]);
      var next := InsertOrIgnore(table, c.code, c);
      CardsInserted(next, legacy, order[1..]);
      assert order == [order[0]] + order[1..];
      var r := InsertCards(table, legacy, order);
      forall code | code in r && code !in table
        ensures exists k :: k in order && legacy[k].code == code && r[code] == WithStatus(legacy[k])
      {
        if code in next {
          assert order[0] in order && legacy[order[0]].code == code;
        } else {
          var k :| k in order[1..] && legacy[k].code == code && r[code] == WithStatus(legacy[k]);
          assert k in order;
        }
      }
    }
  }

  lemma {:induction false} SessionsInserted(table: map<string, SessionRow>, legacy: map<string, SessionRow>,
      order: seq<string>)
    requires forall k :: k in order ==> k in legacy
    ensures var r := InsertSessions(table, legacy, order);
      && (forall token :: token in table ==> token in r && r[token] == table[token])
      && (forall k :: k in order ==> legacy[k].token in r)
      && (forall token :: token in r && token !in table ==>
            exists k :: k in order && legacy[k].token == token && r[token] == legacy[k])
      && ((forall k :: k in order ==> legacy[k].token in table) ==> r == table)
    decreases |order|
  {
    if order != [] {
      var next := InsertOrIgnore(table, legacy[order[0]].token, legacy[order[0]]);
      SessionsInserted(next, legacy, order[1..]);
      assert order == [order[0]] + order[1..];
      var r := InsertSessions(table, legacy, order);
      forall token | token in r && token !in table
        ensures exists k :: k in order && legacy[k].token == token && r[token] == legacy[k]
      {
        if token in next {
          assert order[0] in order && legacy[order[0]].token == token;
        } else {
          var k :| k in order[1..] && legacy[k].token == token && r[token] == legacy[k];
          assert k in order;
        }
      }
    }
  }

  /** Position i holds the first entry with this value. */
  ghost predicate FirstEntry(entries: seq<BlacklistRow>, i: nat, value: string) {
    i < |entries| && entries[i].value == value && forall j :: 0 <= j < i ==> entries[j].value != value
  }

  lemma {:induction false} BlacklistInserted(table: map<string, BlacklistRow>, entries: seq<BlacklistRow>)
    ensures var r := InsertBlacklist(table, entries);
      && (forall v :: v in table ==> v in r && r[v] == table[v])
      && (forall b :: b in entries ==> b.value in r)
      && (forall v :: v in r && v !in table ==> exists i: nat :: FirstEntry(entries, i, v) && r[v] == entries[i])
      && ((forall b :: b in entries ==> b.value in table) ==> r == table)
    decreases |entries|
  {
    if entries != [] {
      var next := InsertOrIgnore(table, entries[0].value, entries[0]);
      BlacklistInserted(next, entries[1..]);
      assert entries == [entries[0]] + entries[1..];
      var r := InsertBlacklist(table, entries);
      forall v | v in r && v !in table
        ensures exists i: nat :: FirstEntry(entries, i, v) && r[v] == entries[i]
      {
        if v in next {
          assert FirstEntry(entries, 0, v);
        } else {
          var i: nat :| FirstEntry(entries[1..], i, v) && r[v] == entries[1..][i];
          assert FirstEntry(entries, i + 1, v) && r[v] == entries[i + 1];
        }
      }
    }
  }

  // ----- the agent name search

  /** How many id prefixes of length 4, 5, ... the search can try. */
  function PrefixTries(id: string): nat {
    if |id| >= 4 then |id| - 3 else 0
  }

  /** The n-th username tried: the original, then growing id prefixes, then a counter. */
  function Attempt(username: string, id: string, n: nat): string {
    if n == 0 then username
    else if n <= PrefixTries(id) then username + "-" + id[..n + 3]
    else username + "-" + id + "_dup" + Decimal.Print(n - PrefixTries(id))
  }

  function Attempts(username: string, id: string): nat -> string {
    (n: nat) => Attempt(username, id, n)
  }

  lemma LaterAttemptsLonger(username: string, id: string, a: nat, b: nat)
    requires a < b
    ensures Attempt(username, id, a) != Attempt(username, id, b)
  {
    var p := PrefixTries(id);
    if a > p {
      var n := |username + "-" + id + "_dup"|;
      if Attempt(username, id, a) == Attempt(username, id, b) {
        assert Attempt(username, id, a)[n..] == Decimal.Print(a - p);
        assert Attempt(username, id, b)[n..] == Decimal.Print(b - p);
        Decimal.PrintInjective(a - p, b - p);
      }
    } else {
      assert |Attempt(username, id, a)| < |Attempt(username, id, b)|;
    }
  }

  /** No username is ever tried twice, whatever the id. */
  lemma AttemptsInjective(username: string, id: string)
    ensures Injective(Attempts(username, id))
  {
    forall a: nat, b: nat | Attempts(username, id)(a) == Attempts(username, id)(b)
      ensures a == b
    {
      if a < b {
        LaterAttemptsLonger(username, id, a, b);
      } else if b < a {
        LaterAttemptsLonger(username, id, b, a);
      }
    }
  }

  /** Position of the first username of the search that no row holds. */
  ghost function WinningAttempt(t: seq<AgentRow>, username: string, id: string): (n: nat)
    ensures Attempt(username, id, n) !in Usernames(t)
    ensures forall k: nat :: k < n ==> Attempt(username, id, k) in Usernames(t)
  {
    AttemptsInjective(username, id);
    var n := LeastFree(Usernames(t), Attempts(username, id), 0);
    assert forall k: nat :: Attempts(username, id)(k) == Attempt(username, id, k);
    n
  }

  /** At most one INSERT per existing row fails on the username, so rows + 1 attempts suffice. */
  lemma AttemptsBounded(t: seq<AgentRow>, username: string, id: string)
    ensures WinningAttempt(t, username, id) + 1 <= |t| + 1
  {
    AttemptsInjective(username, id);
    FewerNamesThanRows(t);
    SubsetSize(Ahead(Usernames(t), Attempts(username, id), 0), Usernames(t));
  }

  /**
   * The name used, without the attempt sequence: the username itself if nobody
   * holds it, otherwise with a dash and the shortest free id prefix of at least
   * four characters, otherwise with the whole id and the least free number.
   */
  ghost predicate IsFirstFree(taken: set<string>, username: string, id: string, name: string) {
    && name !in taken
    && (name != username ==>
          username in taken && (ByPrefix(taken, username, id, name) || ByNumber(taken, username, id, name)))
  }

  ghost predicate ByPrefix(taken: set<string>, username: string, id: string, name: string) {
    exists m :: 4 <= m <= |id| && name == username + "-" + id[..m] && PrefixesTaken(taken, username, id, m)
  }

  /** All prefixes shorter than m. */
  predicate PrefixesTaken(taken: set<string>, username: string, id: string, m: int) {
    forall l :: 4 <= l < m && l <= |id| ==> username + "-" + id[..l] in taken
  }

  ghost predicate ByNumber(taken: set<string>, username: string, id: string, name: string) {
    && PrefixesTaken(taken, username, id, |id| + 1)
    && exists text ::
         && Decimal.IsNumeral(text) && Decimal.Value(text) >= 1 && name == username + "-" + id + "_dup" + text
         && NumbersTaken(taken, username, id, Decimal.Value(text))
  }

  ghost predicate NumbersTaken(taken: set<string>, username: string, id: string, n: int) {
    forall text: string ::
      Decimal.IsNumeral(text) && 1 <= Decimal.Value(text) < n ==> username + "-" + id + "_dup" + text in taken
  }

  lemma EarlierPrefixesTaken(t: seq<AgentRow>, username: string, id: string, m: nat)
    requires m <= |id| + 1 && (m >= 4 ==> m - 3 <= WinningAttempt(t, username, id))
    ensures PrefixesTaken(Usernames(t), username, id, m)
  {
    forall l | 4 <= l < m && l <= |id|
      ensures username + "-" + id[..l] in Usernames(t)
    {
      assert Attempt(username, id, l - 3) == username + "-" + id[..l];
    }
  }

  lemma EarlierNumbersTaken(t: seq<AgentRow>, username: string, id: string, n: nat)
    requires PrefixTries(id) + n == WinningAttempt(t, username, id) && n >= 1
    ensures NumbersTaken(Usernames(t), username, id, n)
  {
    forall text: string | Decimal.IsNumeral(text) && 1 <= Decimal.Value(text) < n
      ensures username + "-" + id + "_dup" + text in Usernames(t)
    {
      Decimal.NumeralIsPrint(text);
      assert Attempt(username, id, PrefixTries(id) + Decimal.Value(text)) == username + "-" + id + "_dup" + text;
    }
  }

  lemma NumberedIsFirstFree(t: seq<AgentRow>, username: string, id: string, n: nat)
    requires PrefixTries(id) + n == WinningAttempt(t, username, id) && n >= 1
    ensures ByNumber(Usernames(t), username, id, Attempt(username, id, PrefixTries(id) + n))
  {
    EarlierPrefixesTaken(t, username, id, |id| + 1);
    EarlierNumbersTaken(t, username, id, n);
    Decimal.PrintReads(n);
    assert Attempt(username, id, PrefixTries(id) + n) == username + "-" + id + "_dup" + Decimal.Print(n);
  }

  lemma WinnerIsFirstFree(t: seq<AgentRow>, username: string, id: string)
    ensures IsFirstFree(Usernames(t), username, id, Attempt(username, id, WinningAttempt(t, username, id)))
  {
    var n := WinningAttempt(t, username, id);
    if n > 0 {
      assert Attempt(username, id, 0) == username;
      if n <= PrefixTries(id) {
        EarlierPrefixesTaken(t, username, id, n + 3);
        assert Attempt(username, id, n) == username + "-" + id[..n + 3];
      } else {
        NumberedIsFirstFree(t, username, id, n - PrefixTries(id));
      }
    }
  }

  // ----- inserting the agents

  function EffectiveId(key: string, a: AgentRow): string {
    if a.id == "" then key else a.id
  }

  ghost function NamedRow(t: seq<AgentRow>, key: string, a: AgentRow): AgentRow {
    var id := EffectiveId(key, a);
    a.(id := id, username := Attempt(a.username, id, WinningAttempt(t, a.username, id)))
  }

  /** All agents in the given order, or None when an id is already in use. */
  ghost function InsertAgents(
    t: seq<AgentRow>, legacy: map<string, AgentRow>, order: seq<string>): Option<seq<AgentRow>>
    requires forall k :: k in order ==> k in legacy
    decreases |order|
  {
    if order == [] then Some(t)
    else
      var row := NamedRow(t, order[0], legacy[order[0]]);
      if row.id in Ids(t) then None else InsertAgents(t + [row], legacy, order[1..])
  }

  /** Legacy ids, with empty ones replaced by their keys, clash neither with the table nor among themselves. */
  predicate NoIdClash(t: seq<AgentRow>, legacy: map<string, AgentRow>, keys: set<string>)
    requires keys <= legacy.Keys
  {
    && (forall k :: k in keys ==> EffectiveId(k, legacy[k]) !in Ids(t))
    && (forall k, l :: k in keys && l in keys && k != l ==> EffectiveId(k, legacy[k]) != EffectiveId(l, legacy[l]))
  }

  predicate Extends(base: string, name: string) {
    name == base || base + "-" <= name
  }

  lemma AppendRow(t: seq<AgentRow>, row: AgentRow)
    ensures Usernames(t + [row]) == Usernames(t) + {row.username}
    ensures Ids(t + [row]) == Ids(t) + {row.id}
    ensures row.username !in Usernames(t) && UsernamesDistinct(t) ==> UsernamesDistinct(t + [row])
    ensures row.id !in Ids(t) && IdsDistinct(t) ==> IdsDistinct(t + [row])
  {
    var u := t + [row];
    assert forall r :: r in u <==> r in t || r == row;
    forall i | 0 <= i < |t|
      ensures u[i] in t && u[i] == t[i]
    {
    }
  }

  /** A row of the result came from this legacy entry: own id, own columns, the name or an extension of it. */
  predicate Carries(row: AgentRow, key: string, a: AgentRow) {
    && row == a.(id := row.id, username := row.username)
    && row.id == (if a.id != "" then a.id else key)
    && Extends(a.username, row.username)
  }

  lemma NameExtends(t: seq<AgentRow>, key: string, a: AgentRow)
    ensures Carries(NamedRow(t, key, a), key, a)
    ensures a.username in Usernames(t) || NamedRow(t, key, a).username == a.username
  {
    var id := EffectiveId(key, a);
    var n := WinningAttempt(t, a.username, id);
    if n > 0 {
      assert Attempt(a.username, id, 0) in Usernames(t);
      var name := Attempt(a.username, id, n);
      assert name[..|a.username| + 1] == a.username + "-";
    }
  }

  lemma PrefixUsernames(t: seq<AgentRow>, r: seq<AgentRow>)
    requires t <= r
    ensures Usernames(t) <= Usernames(r)
  {
    assert forall row :: row in t ==> row in r;
  }

  lemma {:induction false} RowsStay(t: seq<AgentRow>, legacy: map<string, AgentRow>, order: seq<string>)
    requires forall k :: k in order ==> k in legacy
    requires InsertAgents(t, legacy, order).Some?
    ensures t <= InsertAgents(t, legacy, order).value && |InsertAgents(t, legacy, order).value| == |t| + |order|
    decreases |order|
  {
    if order != [] {
      RowsStay(t + [NamedRow(t, order[0], legacy[order[0]])], legacy, order[1..]);
    }
  }

  lemma {:induction false} AgentsStayUnique(t: seq<AgentRow>, legacy: map<string, AgentRow>, order: seq<string>)
    requires forall k :: k in order ==> k in legacy
    requires IdsDistinct(t) && UsernamesDistinct(t)
    requires InsertAgents(t, legacy, order).Some?
    ensures IdsDistinct(InsertAgents(t, legacy, order).value) && UsernamesDistinct(InsertAgents(t, legacy, order).value)
    decreases |order|
  {
    if order != [] {
      var row := NamedRow(t, order[0], legacy[order[0]]);
      AppendRow(t, row);
      AgentsStayUnique(t + [row], legacy, order[1..]);
    }
  }

  lemma FirstAgentCarried(t: seq<AgentRow>, legacy: map<string, AgentRow>, order: seq<string>, r: seq<AgentRow>)
    requires order != [] && forall k :: k in order ==> k in legacy
    requires InsertAgents(t, legacy, order) == Some(r)
    ensures |t| < |r| && Carries(r[|t|], order[0], legacy[order[0]])
  {
    var row := NamedRow(t, order[0], legacy[order[0]]);
    RowsStay(t + [row], legacy, order[1..]);
    assert r[|t|] == (t + [row])[|t|];
    NameExtends(t, order[0], legacy[order[0]]);
  }

  lemma AfterFirstAgent(t: seq<AgentRow>, legacy: map<string, AgentRow>, order: seq<string>, r: seq<AgentRow>)
    returns (more: seq<AgentRow>)
    requires order != [] && forall k :: k in order ==> k in legacy
    requires InsertAgents(t, legacy, order) == Some(r)
    ensures |more| == |t| + 1 && (forall k :: k in order[1..] ==> k in legacy)
    ensures InsertAgents(more, legacy, order[1..]) == Some(r)
  {
    more := t + [NamedRow(t, order[0], legacy[order[0]])];
  }

  /** Row number |t| + n of the result is the n-th agent's. */
  lemma {:induction false} AgentCarried(t: seq<AgentRow>, legacy: map<string, AgentRow>, order: seq<string>, n: nat,
      r: seq<AgentRow>, p: nat)
    requires forall k :: k in order ==> k in legacy
    requires InsertAgents(t, legacy, order) == Some(r) && n < |order| && p == |t| + n < |r|
    ensures Carries(r[p], order[n], legacy[order[n]])
    decreases |order|
  {
    if n == 0 {
      FirstAgentCarried(t, legacy, order, r);
    } else {
      var more := AfterFirstAgent(t, legacy, order, r);
      AgentCarried(more, legacy, order[1..], n - 1, r, p);
      SameCarried(r[p], order, n, legacy);
    }
  }

  lemma SameCarried(row: AgentRow, order: seq<string>, n: nat, legacy: map<string, AgentRow>)
    requires 0 < n < |order| && order[1..][n - 1] in legacy
    requires Carries(row, order[1..][n - 1], legacy[order[1..][n - 1]])
    ensures order[n] in legacy && Carries(row, order[n], legacy[order[n]])
  {
  }

  lemma {:induction false} UsernameHeld(t: seq<AgentRow>, legacy: map<string, AgentRow>, order: seq<string>, n: nat,
      r: seq<AgentRow>)
    requires forall k :: k in order ==> k in legacy
    requires InsertAgents(t, legacy, order) == Some(r) && n < |order|
    ensures legacy[order[n]].username in Usernames(r)
    decreases |order|
  {
    var row := NamedRow(t, order[0], legacy[order[0]]);
    if n == 0 {
      NameExtends(t, order[0], legacy[order[0]]);
      AppendRow(t, row);
      RowsStay(t + [row], legacy, order[1..]);
      PrefixUsernames(t + [row], r);
    } else {
      assert order[1..][n - 1] == order[n];
      UsernameHeld(t + [row], legacy, order[1..], n - 1, r);
    }
  }

  /** The ids in use after a successful run are the old ones and the agents' own. */
  lemma {:induction false} AgentIdsExactly(
    t: seq<AgentRow>, legacy: map<string, AgentRow>, order: seq<string>, id: string)
    requires forall k :: k in order ==> k in legacy
    requires InsertAgents(t, legacy, order).Some?
    ensures id in Ids(InsertAgents(t, legacy, order).value)
      <==> id in Ids(t) || exists k :: k in order && EffectiveId(k, legacy[k]) == id
    decreases |order|
  {
    if order != [] {
      var row := NamedRow(t, order[0], legacy[order[0]]);
      AppendRow(t, row);
      AgentIdsExactly(t + [row], legacy, order[1..], id);
      assert forall k :: k in order <==> k == order[0] || k in order[1..];
    }
  }

  /**
   * Whatever the order, a successful run appends exactly one row per legacy
   * agent, keeps every username unique, and leaves each legacy username held.
   */
  lemma AgentsMigrated(t: seq<AgentRow>, legacy: map<string, AgentRow>, order: seq<string>)
    requires forall k :: k in order ==> k in legacy
    requires IdsDistinct(t) && UsernamesDistinct(t)
    requires InsertAgents(t, legacy, order).Some?
    ensures var r := InsertAgents(t, legacy, order).value;
      && t <= r && |r| == |t| + |order|
      && IdsDistinct(r) && UsernamesDistinct(r)
      && (forall n :: 0 <= n < |order| ==> Carries(r[|t| + n], order[n], legacy[order[n]]))
      && (forall k :: k in order ==> legacy[k].username in Usernames(r))
  {
    RowsStay(t, legacy, order);
    AgentsStayUnique(t, legacy, order);
    var r := InsertAgents(t, legacy, order).value;
    AllCarried(t, legacy, order, r);
    AllUsernamesHeld(t, legacy, order, r);
  }

  lemma AllCarried(t: seq<AgentRow>, legacy: map<string, AgentRow>, order: seq<string>, r: seq<AgentRow>)
    requires forall k :: k in order ==> k in legacy
    requires InsertAgents(t, legacy, order) == Some(r) && |r| == |t| + |order|
    ensures forall n :: 0 <= n < |order| ==> Carries(r[|t| + n], order[n], legacy[order[n]])
  {
    forall n | 0 <= n < |order|
      ensures Carries(r[|t| + n], order[n], legacy[order[n]])
    {
      AgentCarried(t, legacy, order, n, r, |t| + n);
    }
  }

  lemma AllUsernamesHeld(t: seq<AgentRow>, legacy: map<string, AgentRow>, order: seq<string>, r: seq<AgentRow>)
    requires forall k :: k in order ==> k in legacy
    requires InsertAgents(t, legacy, order) == Some(r)
    ensures forall k :: k in order ==> legacy[k].username in Usernames(r)
  {
    forall n | 0 <= n < |order|
      ensures legacy[order[n]].username in Usernames(r)
    {
      UsernameHeld(t, legacy, order, n, r);
    }
  }

  lemma ClashStep(t: seq<AgentRow>, legacy: map<string, AgentRow>, keys: set<string>, key: string, row: AgentRow)
    requires keys <= legacy.Keys && key in keys && row.id == EffectiveId(key, legacy[key])
    ensures NoIdClash(t, legacy, keys) <==> row.id !in Ids(t) && NoIdClash(t + [row], legacy, keys - {key})
  {
    AppendRow(t, row);
  }

  /** Success does not depend on the walking order: it needs exactly that no id clashes. */
  lemma {:induction false} AgentsSucceedIff(t: seq<AgentRow>, legacy: map<string, AgentRow>, order: seq<string>,
      keys: set<string>)
    requires keys <= legacy.Keys && IsListing(order, keys)
    ensures InsertAgents(t, legacy, order).Some? <==> NoIdClash(t, legacy, keys)
    decreases |order|
  {
    if order != [] {
      var key, rest := order[0], keys - {order[0]};
      var row := NamedRow(t, key, legacy[key]);
      ClashStep(t, legacy, keys, key, row);
      assert order == [key] + order[1..];
      assert IsListing(order[1..], rest);
      AgentsSucceedIff(t + [row], legacy, order[1..], rest);
    }
  }

  // ----- the whole run

  predicate NothingIn(data: Legacy) {
    |data.cards| == 0 && |data.agents| == 0 && |data.sessions| == 0 && |data.blacklist| == 0
  }

  lemma NothingIsEmpty(data: Legacy)
    ensures NothingIn(data)
      <==> data.cards == map[] && data.agents == map[] && data.sessions == map[] && data.blacklist == []
  {
    if NothingIn(data) {
      NoKeys(data.cards);
      NoKeys(data.agents);
      NoKeys(data.sessions);
    }
  }

  ghost function Migrate(db: Db, data: Legacy, o: Orders): Option<Db>
    requires AreOrders(o, data)
  {
    match InsertAgents(db.agents, data.agents, o.agents)
    case None => None
    case Some(agents) => Some(Db(
      InsertCards(db.cards, data.cards, o.cards), InsertSessions(db.sessions, data.sessions, o.sessions),
      InsertBlacklist(db.blacklist, data.blacklist), agents, db.audit + data.audit))
  }

  /** What a run on a healthy database does. */
  ghost function Run(db: Db, data: Legacy, o: Orders): (Outcome, Db)
    requires AreOrders(o, data)
  {
    if |db.cards| > 0 then (Skipped, db)
    else if NothingIn(data) then (NothingToMigrate, db)
    else match Migrate(db, data, o)
      case None => (Failed, db)
      case Some(after) => (Migrated, after)
  }

  /** The row of a decoded card of this code: as it was, or with an empty status turned into active. */
  predicate StoredFrom(legacy: map<string, CardRow>, code: string, row: CardRow) {
    exists k :: k in legacy && legacy[k].code == code
      && (if legacy[k].status == "" then row == legacy[k].(status := "active") else row == legacy[k])
  }

  lemma CardsFromEmpty(legacy: map<string, CardRow>, order: seq<string>)
    requires IsListing(order, legacy.Keys)
    ensures var r := InsertCards(map[], legacy, order);
      && r.Keys == (set k | k in legacy :: legacy[k].code)
      && (forall code :: code in r ==> r[code].status != "")
      && (forall code :: code in r ==>
            exists k :: k in legacy && legacy[k].code == code && r[code] == WithStatus(legacy[k]))
  {
    CardsInserted(map[], legacy, order);
    var r := InsertCards(map[], legacy, order);
    forall k | k in legacy
      ensures legacy[k].code in r
    {
      assert k in Elements(order);
    }
    forall code | code in r
      ensures exists k :: k in legacy && legacy[k].code == code && r[code] == WithStatus(legacy[k])
    {
      var k :| k in order && legacy[k].code == code && r[code] == WithStatus(legacy[k]);
      assert k in Elements(order);
    }
  }

  /**
   * A migration out of an empty card table leaves exactly the legacy card
   * codes, each with the columns of a legacy card of that code and an empty
   * status turned into active; what the other tables held stays.
   */
  lemma CardsMigrated(db: Db, data: Legacy, o: Orders)
    requires AreOrders(o, data) && Run(db, data, o).0 == Migrated
    ensures var after := Run(db, data, o).1;
      && after.cards.Keys == (set k | k in data.cards :: data.cards[k].code)
      && (forall code :: code in after.cards ==>
            after.cards[code].status != "" && StoredFrom(data.cards, code, after.cards[code]))
      && db.agents <= after.agents && after.audit == db.audit + data.audit
  {
    NoKeys(db.cards);
    CardsFromEmpty(data.cards, o.cards);
    var after := Run(db, data, o).1;
    forall code | code in after.cards
      ensures StoredFrom(data.cards, code, after.cards[code])
    {
      var k :| k in data.cards && data.cards[k].code == code && after.cards[code] == WithStatus(data.cards[k]);
    }
    RowsStay(db.agents, data.agents, o.agents);
  }

  /**
   * Sessions and blacklist entries are added under tokens and values not yet
   * present, old rows untouched; of a repeated blacklist value the first entry wins.
   */
  lemma OtherTablesMigrated(db: Db, data: Legacy, o: Orders)
    requires AreOrders(o, data) && Run(db, data, o).0 == Migrated
    ensures var after := Run(db, data, o).1;
      && (forall t :: t in db.sessions ==> t in after.sessions && after.sessions[t] == db.sessions[t])
      && (forall k :: k in data.sessions ==> data.sessions[k].token in after.sessions)
      && (forall t :: t in after.sessions && t !in db.sessions ==>
            exists k :: k in data.sessions && data.sessions[k].token == t && after.sessions[t] == data.sessions[k])
      && (forall v :: v in db.blacklist ==> v in after.blacklist && after.blacklist[v] == db.blacklist[v])
      && (forall b :: b in data.blacklist ==> b.value in after.blacklist)
      && (forall v :: v in after.blacklist && v !in db.blacklist ==>
            exists i: nat :: FirstEntry(data.blacklist, i, v) && after.blacklist[v] == data.blacklist[i])
  {
    SessionsInserted(db.sessions, data.sessions, o.sessions);
    BlacklistInserted(db.blacklist, data.blacklist);
    assert forall k :: k in o.sessions <==> k in data.sessions;
  }

  /**
   * Calling the migration twice on the same tables, which the start-up gate
   * never does: the second call is a silent no-op exactly when the legacy data
   * has a card, or has neither agents nor audit entries, as the card count is
   * the function's own only mark that it already ran.
   */
  lemma RerunIsNoOpIff(db: Db, data: Legacy, first: Orders, second: Orders)
    requires AreOrders(first, data) && AreOrders(second, data)
    requires Run(db, data, first).0 == Migrated
    ensures var after := Run(db, data, first).1;
      && (Run(after, data, second).0 != Failed && Run(after, data, second).1 == after
          <==> |data.cards| > 0 || (|data.agents| == 0 && data.audit == []))
      && (|data.cards| > 0 ==> Run(after, data, second).0 == Skipped)
      && (|data.cards| == 0 && |data.agents| > 0 ==> Run(after, data, second) == (Failed, after))
  {
    if |data.cards| > 0 {
      RerunWithCards(db, data, first);
    } else if |data.agents| > 0 {
      RerunWithAgentsOnly(db, data, first, second);
    } else {
      RerunWithoutBoth(db, data, first, second);
    }
  }

  lemma RerunWithCards(db: Db, data: Legacy, first: Orders)
    requires AreOrders(first, data) && Run(db, data, first).0 == Migrated && |data.cards| > 0
    ensures |Run(db, data, first).1.cards| > 0
  {
    CardsMigrated(db, data, first);
    var k :| k in data.cards;
    assert data.cards[k].code in Run(db, data, first).1.cards.Keys;
  }

  lemma NoCardsEither(db: Db, data: Legacy, first: Orders)
    requires AreOrders(first, data) && Run(db, data, first).0 == Migrated && |data.cards| == 0
    ensures Run(db, data, first).1.cards == map[]
  {
    NoKeys(data.cards);
    CardsMigrated(db, data, first);
    assert Run(db, data, first).1.cards.Keys == {};
  }

  lemma RerunWithAgentsOnly(db: Db, data: Legacy, first: Orders, second: Orders)
    requires AreOrders(first, data) && AreOrders(second, data)
    requires Run(db, data, first).0 == Migrated && |data.cards| == 0 && |data.agents| > 0
    ensures Run(Run(db, data, first).1, data, second) == (Failed, Run(db, data, first).1)
  {
    var after := Run(db, data, first).1;
    NoCardsEither(db, data, first);
    var k :| k in data.agents;
    AgentIdsExactly(db.agents, data.agents, first.agents, EffectiveId(k, data.agents[k]));
    assert k in Elements(first.agents);
    assert !NoIdClash(after.agents, data.agents, data.agents.Keys);
    AgentsSucceedIff(after.agents, data.agents, second.agents, data.agents.Keys);
  }

  lemma SomeElement(order: seq<string>)
    ensures order != [] ==> Elements(order) != {}
  {
    if order != [] {
      assert order[0] in Elements(order);
    }
  }

  lemma SessionsAgain(
    table: map<string, SessionRow>, legacy: map<string, SessionRow>, first: seq<string>, second: seq<string>)
    requires IsListing(first, legacy.Keys) && IsListing(second, legacy.Keys)
    ensures var r := InsertSessions(table, legacy, first); InsertSessions(r, legacy, second) == r
  {
    var r := InsertSessions(table, legacy, first);
    SessionsInserted(table, legacy, first);
    SessionsInserted(r, legacy, second);
    forall k | k in second
      ensures legacy[k].token in r
    {
      assert k in Elements(second) && k in Elements(first);
    }
  }

  lemma BlacklistAgain(table: map<string, BlacklistRow>, entries: seq<BlacklistRow>)
    ensures var r := InsertBlacklist(table, entries); InsertBlacklist(r, entries) == r
  {
    BlacklistInserted(table, entries);
    BlacklistInserted(InsertBlacklist(table, entries), entries);
  }

  lemma RerunWithoutBoth(db: Db, data: Legacy, first: Orders, second: Orders)
    requires AreOrders(first, data) && AreOrders(second, data)
    requires Run(db, data, first).0 == Migrated && |data.cards| == 0 && |data.agents| == 0
    ensures var after := Run(db, data, first).1;
      Run(after, data, second) == (Migrated, after.(audit := after.audit + data.audit))
  {
    NoCardsEither(db, data, first);
    NoKeys(data.cards);
    NoKeys(data.agents);
    SomeElement(second.cards);
    SomeElement(second.agents);
    SessionsAgain(db.sessions, data.sessions, first.sessions, second.sessions);
    BlacklistAgain(db.blacklist, data.blacklist);
  }

  lemma NoKeys<R>(m: map<string, R>)
    requires |m| == 0
    ensures m == map[]
  {
  }
}
