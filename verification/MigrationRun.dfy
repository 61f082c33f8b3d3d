/** The migration as it runs: statements inside one transaction, any of which may fail. */
module MigrationRun {
  import opened AgentTable
  import opened LegacyFiles
  import opened Migration
  import opened Options
  import Decimal

  datatype InsertResult = Inserted | UsernameTaken | IdTaken | Fault

  /**
   * INSERT INTO agents.  When both unique constraints are violated the engine
   * may report either one.
   */
  method ExecInsertAgent(t: seq<AgentRow>, row: AgentRow, mayFail: bool)
    returns (res: InsertResult, after: seq<AgentRow>)
    ensures res == Inserted ==> row.id !in Ids(t) && row.username !in Usernames(t) && after == t + [row]
    ensures res != Inserted ==> after == t
    ensures res == UsernameTaken ==> row.username in Usernames(t)
    ensures res == IdTaken ==> row.id in Ids(t)
    ensures res == Fault ==> mayFail
  {
    after := t;
    if mayFail {
      var fault: bool := *;
      if fault { return Fault, t; }
    }
    var usernameFirst: bool := *;
    if row.username in Usernames(t) && (usernameFirst || row.id !in Ids(t)) {
      res := UsernameTaken;
    } else if row.id in Ids(t) {
      res := IdTaken;
    } else {
      res, after := Inserted, t + [row];
    }
  }

  /** Position in the attempt sequence that the loop variables stand for. */
  ghost predicate AtAttempt(a: AgentRow, name: string, suffixLen: nat, dupCounter: nat, n: nat) {
    && name == Attempt(a.username, a.id, n)
    && suffixLen == 4 + (if n <= PrefixTries(a.id) then n else PrefixTries(a.id))
    && dupCounter == (if n <= PrefixTries(a.id) then 0 else n - PrefixTries(a.id))
  }

  lemma NextByPrefix(a: AgentRow, name: string, suffixLen: nat, dupCounter: nat, n: nat)
    requires AtAttempt(a, name, suffixLen, dupCounter, n) && suffixLen <= |a.id|
    ensures AtAttempt(a, a.username + "-" + a.id[..suffixLen], suffixLen + 1, dupCounter, n + 1)
  {
  }

  lemma NextByCounter(a: AgentRow, name: string, suffixLen: nat, dupCounter: nat, n: nat)
    requires AtAttempt(a, name, suffixLen, dupCounter, n) && suffixLen > |a.id|
    ensures AtAttempt(
      a, a.username + "-" + a.id + "_dup" + Decimal.Print(dupCounter + 1), suffixLen, dupCounter + 1, n + 1)
  {
  }

  /** The branch of the loop after a taken username. */
  method NextUsername(a: AgentRow, name: string, suffixLen: nat, dupCounter: nat, ghost n: nat)
    returns (nextName: string, nextLen: nat, nextCounter: nat)
    requires AtAttempt(a, name, suffixLen, dupCounter, n)
    ensures AtAttempt(a, nextName, nextLen, nextCounter, n + 1)
  {
    nextLen, nextCounter := suffixLen, dupCounter;
    if suffixLen <= |a.id| {
      NextByPrefix(a, name, suffixLen, dupCounter, n);
      nextName := a.username + "-" + a.id[..suffixLen];
      nextLen := suffixLen + 1;
    } else {
      NextByCounter(a, name, suffixLen, dupCounter, n);
      nextCounter := dupCounter + 1;
      nextName := a.username + "-" + a.id + "_dup" + Decimal.Print(nextCounter);
    }
  }

  lemma TakenOrWinning(t: seq<AgentRow>, a: AgentRow, n: nat)
    requires n <= WinningAttempt(t, a.username, a.id)
    ensures Attempt(a.username, a.id, n) in Usernames(t) <==> n < WinningAttempt(t, a.username, a.id)
  {
  }

  lemma InsertedUnderFirstFree(t: seq<AgentRow>, a: AgentRow, after: seq<AgentRow>)
    requires after == t + [a.(username := Attempt(a.username, a.id, WinningAttempt(t, a.username, a.id)))]
    ensures |after| == |t| + 1 && IsFirstFree(Usernames(t), a.username, a.id, after[|t|].username)
  {
    WinnerIsFirstFree(t, a.username, a.id);
    assert after[|t|].username == Attempt(a.username, a.id, WinningAttempt(t, a.username, a.id));
  }

  /** The retry loop for one agent, its id already filled in. */
  method InsertAgent(t: seq<AgentRow>, a: AgentRow, mayFail: bool)
    returns (err: bool, after: seq<AgentRow>, ghost tries: nat)
    ensures !err ==>
      && a.id !in Ids(t)
      && after == t + [a.(username := Attempt(a.username, a.id, WinningAttempt(t, a.username, a.id)))]
    ensures !err ==> |after| == |t| + 1 && IsFirstFree(Usernames(t), a.username, a.id, after[|t|].username)
    ensures err ==> after == t && (mayFail || a.id in Ids(t))
    ensures tries <= |t| + 1
  {
    var currentUsername, suffixLen, dupCounter := a.username, 4, 0;
    tries := 0;
    AttemptsBounded(t, a.username, a.id);
    ghost var winning := WinningAttempt(t, a.username, a.id);
    while true
      invariant AtAttempt(a, currentUsername, suffixLen, dupCounter, tries)
      invariant tries <= winning
      decreases winning - tries
    {
      TakenOrWinning(t, a, tries);
      var res;
      res, after := ExecInsertAgent(t, a.(username := currentUsername), mayFail);
      tries := tries + 1;
      if res == Inserted {
        InsertedUnderFirstFree(t, a, after);
        return false, after, tries;
      }
      if res == UsernameTaken {
        currentUsername, suffixLen, dupCounter :=
          NextUsername(a, currentUsername, suffixLen, dupCounter, tries - 1);
        continue;
      }
      return true, t, tries;
    }
  }

  /** The loop over the legacy agent map, in an arbitrary order. */
  method InsertAllAgents(t: seq<AgentRow>, legacy: map<string, AgentRow>, mayFail: bool)
    returns (err: bool, after: seq<AgentRow>, ghost order: seq<string>)
    ensures !err ==> IsListing(order, legacy.Keys) && InsertAgents(t, legacy, order) == Some(after)
    ensures err ==> mayFail || !NoIdClash(t, legacy, legacy.Keys)
  {
    after, order := t, [];
    var left := legacy.Keys;
    assert InsertAgents(t, legacy, []) == Some(t);
    while left != {}
      invariant left <= legacy.Keys && IsListing(order, legacy.Keys - left)
      invariant InsertAgents(t, legacy, order) == Some(after)
      decreases |left|
    {
      var k :| k in left;
      var a := legacy[k];
      if a.id == "" {
        a := a.(id := k);
      }
      ghost var before := after;
      ghost var tries;
      err, after, tries := InsertAgent(after, a, mayFail);
      InsertAgentsSnoc(t, legacy, order, k);
      if err {
        if !mayFail {
          ClashSeen(t, legacy, order, k, before);
        }
        return;
      }
      ListingNext(order, legacy.Keys, left, k);
      order, left := order + [k], left - {k};
    }
    err := false;
  }

  lemma {:induction false} InsertAgentsSnoc(t: seq<AgentRow>, legacy: map<string, AgentRow>, order: seq<string>,
      k: string)
    requires k in legacy && (forall o :: o in order ==> o in legacy)
    requires InsertAgents(t, legacy, order).Some?
    ensures var now := InsertAgents(t, legacy, order).value;
      var row := NamedRow(now, k, legacy[k]);
      InsertAgents(t, legacy, order + [k]) == if row.id in Ids(now) then None else Some(now + [row])
    decreases |order|
  {
    if order == [] {
      assert order + [k] == [k];
      var row := NamedRow(t, k, legacy[k]);
      assert [k][1..] == [];
      assert row.id !in Ids(t) ==> InsertAgents(t + [row], legacy, []) == Some(t + [row]);
    } else {
      assert (order + [k])[1..] == order[1..] + [k];
      var row := NamedRow(t, order[0], legacy[order[0]]);
      InsertAgentsSnoc(t + [row], legacy, order[1..], k);
    }
  }

  /** An id found in use part-way is a clash of the whole map. */
  lemma ClashSeen(t: seq<AgentRow>, legacy: map<string, AgentRow>, order: seq<string>, k: string, now: seq<AgentRow>)
    requires k in legacy && k !in order && Elements(order) <= legacy.Keys
    requires forall i, j :: 0 <= i < j < |order| ==> order[i] != order[j]
    requires InsertAgents(t, legacy, order) == Some(now)
    requires EffectiveId(k, legacy[k]) in Ids(now)
    ensures !NoIdClash(t, legacy, legacy.Keys)
  {
    InsertAgentsSnoc(t, legacy, order, k);
    var keys := Elements(order + [k]);
    assert keys <= legacy.Keys;
    AgentsSucceedIff(t, legacy, order + [k], keys);
  }

  /** Load with its error dropped: neither a failing read nor a file that does not decode is noticed. */
  method LoadFile(prior: Legacy, f: File, mayFail: bool) returns (data: Legacy, ghost read: bool)
    ensures data == Load(prior, f) || (mayFail && data == prior)
    ensures data == if read then Load(prior, f) else prior
    ensures !read ==> mayFail
  {
    read := true;
    if mayFail {
      var fault: bool := *;
      if fault { return prior, false; }
    }
    data := Load(prior, f);
  }

  class MigrationTarget {
    var db: Db

    constructor (db: Db)
      ensures this.db == db
    {
      this.db := db;
    }

    method InsertAllCards(table: map<string, CardRow>, legacy: map<string, CardRow>, mayFail: bool)
      returns (err: bool, after: map<string, CardRow>, ghost order: seq<string>)
      ensures if err then mayFail else IsListing(order, legacy.Keys) && after == InsertCards(table, legacy, order)
    {
      after, order := table, [];
      var left := legacy.Keys;
      while left != {}
        invariant left <= legacy.Keys && IsListing(order, legacy.Keys - left)
        invariant after == InsertCards(table, legacy, order)
        decreases |left|
      {
        var k :| k in left;
        if mayFail {
          err := *;
          if err { return; }
        }
        var c := legacy[k];
        if c.status == "" {
          c := c.(status := "active");
        }
        InsertCardsSnoc(table, legacy, order, k);
        after := InsertOrIgnore(after, c.code, c);
        ListingNext(order, legacy.Keys, left, k);
        order, left := order + [k], left - {k};
      }
      err := false;
    }

    method InsertAllSessions(table: map<string, SessionRow>, legacy: map<string, SessionRow>, mayFail: bool)
      returns (err: bool, after: map<string, SessionRow>, ghost order: seq<string>)
      ensures if err then mayFail else IsListing(order, legacy.Keys) && after == InsertSessions(table, legacy, order)
    {
      after, order := table, [];
      var left := legacy.Keys;
      while left != {}
        invariant left <= legacy.Keys && IsListing(order, legacy.Keys - left)
        invariant after == InsertSessions(table, legacy, order)
        decreases |left|
      {
        var k :| k in left;
        if mayFail {
          err := *;
          if err { return; }
        }
        InsertSessionsSnoc(table, legacy, order, k);
        after := InsertOrIgnore(after, legacy[k].token, legacy[k]);
        ListingNext(order, legacy.Keys, left, k);
        order, left := order + [k], left - {k};
      }
      err := false;
    }

    method InsertAllBlacklist(table: map<string, BlacklistRow>, entries: seq<BlacklistRow>, mayFail: bool)
      returns (err: bool, after: map<string, BlacklistRow>)
      ensures if err then mayFail else after == InsertBlacklist(table, entries)
    {
      after := table;
      for n := 0 to |entries|
        invariant InsertBlacklist(after, entries[n..]) == InsertBlacklist(table, entries)
      {
        if mayFail {
          err := *;
          if err { return; }
        }
        after := InsertOrIgnore(after, entries[n].value, entries[n]);
        assert entries[n..][1..] == entries[n + 1..];
      }
      err := false;
    }

    method InsertAllAudit(log: seq<AuditRow>, entries: seq<AuditRow>, mayFail: bool)
      returns (err: bool, after: seq<AuditRow>)
      ensures if err then mayFail else after == log + entries
    {
      after := log;
      for n := 0 to |entries|
        invariant after == log + entries[..n]
      {
        if mayFail {
          err := *;
          if err { return; }
        }
        after := after + [entries[n]];
      }
      err := false;
    }

    /** The statements between begin and commit, on the transaction's view of the tables. */
    method RunTransaction(tx: Db, data: Legacy, mayFail: bool) returns (err: bool, after: Db, ghost o: Orders)
      ensures !err ==> AreOrders(o, data) && Migrate(tx, data, o) == Some(after)
      ensures err ==> mayFail || !NoIdClash(tx.agents, data.agents, data.agents.Keys)
    {
      after, o := tx, Orders([], [], []);
      var cards, sessions, blacklist, agents, audit;
      ghost var cardOrder, sessionOrder, agentOrder;
      err, cards, cardOrder := InsertAllCards(tx.cards, data.cards, mayFail);
      if err { return; }
      err, sessions, sessionOrder := InsertAllSessions(tx.sessions, data.sessions, mayFail);
      if err { return; }
      err, blacklist := InsertAllBlacklist(tx.blacklist, data.blacklist, mayFail);
      if err { return; }
      err, agents, agentOrder := InsertAllAgents(tx.agents, data.agents, mayFail);
      if err { return; }
      err, audit := InsertAllAudit(tx.audit, data.audit, mayFail);
      if err { return; }
      after, o := Db(cards, sessions, blacklist, agents, audit), Orders(cardOrder, sessionOrder, agentOrder);
    }

    /**
     * All or nothing: the tables end either as they were or as one complete
     * migration, at whatever statement a fault strikes.  On a healthy database
     * the outcome is that of Run, and it fails only because agent ids clash.
     * `data` is what loading the files left in memory.
     */
    method MigrateJSON(files: Files, mayFail: bool) returns (outcome: Outcome, ghost data: Legacy, ghost o: Orders)
      modifies this
      ensures Loads(files, data, mayFail)
      ensures
        && (outcome != Migrated ==> db == old(db))
        && (outcome == Migrated ==> AreOrders(o, data) && Run(old(db), data, o) == (Migrated, db))
        && (|old(db).cards| > 0 ==> outcome == Skipped)
        && (outcome == Skipped ==> mayFail || |old(db).cards| > 0)
        && (outcome == NothingToMigrate ==> NothingIn(data))
        && (outcome == NothingToMigrate ==>
              data.cards == map[] && data.agents == map[] && data.sessions == map[] && data.blacklist == [])
        && (outcome == Migrated ==> forall code :: code in db.cards ==> StoredFrom(data.cards, code, db.cards[code]))
        && (outcome == Failed ==> !NothingIn(data))
        && (outcome == Failed ==> mayFail || !NoIdClash(old(db).agents, data.agents, data.agents.Keys))
    {
      data, o := Decoded(files), Orders([], [], []);
      // an unreadable card table counts as already migrated
      if mayFail {
        var fault: bool := *;
        if fault { return Skipped, data, o; }
      }
      if |db.cards| > 0 { return Skipped, data, o; }
      var legacy;
      ghost var cardsRead, dataRead := true, true;
      legacy, cardsRead := LoadFile(NOTHING, files.cards, mayFail);
      if |legacy.cards| == 0 && |legacy.agents| == 0 {
        legacy, dataRead := LoadFile(legacy, files.data, mayFail);
      }
      data := legacy;
      assert data == DecodedIf(files, cardsRead, dataRead);
      if NothingIn(legacy) {
        NothingIsEmpty(legacy);
        return NothingToMigrate, data, o;
      }

      var err, tx;
      err, tx, o := RunTransaction(db, legacy, mayFail);
      if err { return Failed, data, o; }  // rolled back
      if mayFail {
        err := *;
        if err { return Failed, data, o; }
      }
      CardsMigrated(db, data, o);
      db := tx;  // commit
      outcome := Migrated;
    }
  }

  lemma {:induction false} InsertCardsSnoc(table: map<string, CardRow>, legacy: map<string, CardRow>,
      order: seq<string>, k: string)
    requires k in legacy && (forall o :: o in order ==> o in legacy)
    ensures var c := WithStatus(legacy[k]);
      InsertCards(table, legacy, order + [k]) == InsertOrIgnore(InsertCards(table, legacy, order), c.code, c)
    decreases |order|
  {
    if order == [] {
      assert order + [k] == [k];
    } else {
      assert (order + [k])[1..] == order[1..] + [k];
      var c := WithStatus(legacy[order[0]]);
      InsertCardsSnoc(InsertOrIgnore(table, c.code, c), legacy, order[1..], k);
    }
  }

  lemma {:induction false} InsertSessionsSnoc(table: map<string, SessionRow>, legacy: map<string, SessionRow>,
      order: seq<string>, k: string)
    requires k in legacy && (forall o :: o in order ==> o in legacy)
    ensures InsertSessions(table, legacy, order + [k])
      == InsertOrIgnore(InsertSessions(table, legacy, order), legacy[k].token, legacy[k])
    decreases |order|
  {
    if order == [] {
      assert order + [k] == [k];
    } else {
      assert (order + [k])[1..] == order[1..] + [k];
      InsertSessionsSnoc(InsertOrIgnore(table, legacy[order[0]].token, legacy[order[0]]), legacy, order[1..], k);
    }
  }
}
