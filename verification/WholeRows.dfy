/** The one chance of the migration once more, with rows compared whole and not only by their keys. */
module WholeRows {
  import opened AgentTable
  import opened LegacyFiles
  import opened Migration
  import opened MigrationRun
  import opened Options
  import opened Startup

  predicate IsCardOf(wanted: Legacy, row: CardRow) {
    exists k :: k in wanted.cards
      && (if wanted.cards[k].status == "" then row == wanted.cards[k].(status := "active") else row == wanted.cards[k])
  }

  /** The same card, an empty status being as good as active. */
  predicate SameCard(c: CardRow, d: CardRow) {
    || c == d
    || (&& c == d.(status := c.status)
        && ((c.status == "" && d.status == "active") || (c.status == "active" && d.status == "")))
  }

  predicate IsSessionOf(wanted: Legacy, row: SessionRow) {
    exists k :: k in wanted.sessions && wanted.sessions[k] == row
  }

  predicate HoldsAgent(t: seq<AgentRow>, x: AgentRow) {
    exists row :: row in t && row.(username := x.username) == x
  }

  predicate HasAgent(legacy: map<string, AgentRow>, keys: set<string>, x: AgentRow)
    requires keys <= legacy.Keys
  {
    exists k :: k in keys && legacy[k].(id := EffectiveId(k, legacy[k]), username := x.username) == x
  }

  predicate HoldsCard(table: map<string, CardRow>, wanted: Legacy, code: string) {
    code in table && IsCardOf(wanted, table[code])
  }

  predicate HoldsSession(table: map<string, SessionRow>, wanted: Legacy, token: string) {
    token in table && IsSessionOf(wanted, table[token])
  }

  predicate CardsHeld(table: map<string, CardRow>, wanted: Legacy) {
    forall k :: k in wanted.cards ==> HoldsCard(table, wanted, wanted.cards[k].code)
  }

  predicate SessionsHeld(table: map<string, SessionRow>, wanted: Legacy) {
    forall k :: k in wanted.sessions ==> HoldsSession(table, wanted, wanted.sessions[k].token)
  }

  predicate EntriesHeld(table: map<string, BlacklistRow>, wanted: Legacy) {
    forall b :: b in wanted.blacklist ==> b.value in table && table[b.value] in wanted.blacklist
  }

  predicate AgentsHeld(t: seq<AgentRow>, wanted: Legacy) {
    forall k :: k in wanted.agents ==> HoldsAgent(t, wanted.agents[k].(id := EffectiveId(k, wanted.agents[k])))
  }

  /** Every wanted row is there with all its columns. */
  ghost predicate HoldsWhole(db: Db, wanted: Legacy) {
    && CardsHeld(db.cards, wanted) && SessionsHeld(db.sessions, wanted)
    && EntriesHeld(db.blacklist, wanted) && AgentsHeld(db.agents, wanted)
    && multiset(wanted.audit) <= multiset(db.audit)
  }

  predicate HasCard(data: Legacy, wanted: Legacy, code: string) {
    exists l, k :: l in data.cards && k in wanted.cards && data.cards[l].code == code
      && SameCard(data.cards[l], wanted.cards[k])
  }

  predicate HasSession(data: Legacy, wanted: Legacy, token: string) {
    exists l :: l in data.sessions && data.sessions[l].token == token && IsSessionOf(wanted, data.sessions[l])
  }

  ghost predicate HasEntry(data: Legacy, wanted: Legacy, value: string) {
    exists i: nat :: FirstEntry(data.blacklist, i, value) && data.blacklist[i] in wanted.blacklist
  }

  predicate CardsCovered(data: Legacy, wanted: Legacy) {
    forall k :: k in wanted.cards ==> HasCard(data, wanted, wanted.cards[k].code)
  }

  predicate SessionsCovered(data: Legacy, wanted: Legacy) {
    forall k :: k in wanted.sessions ==> HasSession(data, wanted, wanted.sessions[k].token)
  }

  ghost predicate EntriesCovered(data: Legacy, wanted: Legacy) {
    forall b :: b in wanted.blacklist ==> HasEntry(data, wanted, b.value)
  }

  predicate AgentsCovered(data: Legacy, wanted: Legacy) {
    forall k :: k in wanted.agents ==>
      HasAgent(data.agents, data.agents.Keys, wanted.agents[k].(id := EffectiveId(k, wanted.agents[k])))
  }

  /** Every wanted row was decoded with all its columns. */
  ghost predicate CoversWhole(data: Legacy, wanted: Legacy) {
    && CardsCovered(data, wanted) && SessionsCovered(data, wanted)
    && EntriesCovered(data, wanted) && AgentsCovered(data, wanted)
    && multiset(wanted.audit) <= multiset(data.audit)
  }

  /**
   * No two decoded cards share a code, and no two sessions a token; otherwise
   * the walking order would decide which one is stored.
   */
  predicate UniqueKeys(data: Legacy) {
    && (forall k, l :: k in data.cards && l in data.cards && k != l ==> data.cards[k].code != data.cards[l].code)
    && (forall k, l :: k in data.sessions && l in data.sessions && k != l ==>
          data.sessions[k].token != data.sessions[l].token)
  }

  ghost predicate KeptWhole(db: Db, files: Files) {
    && HoldsWhole(db, Rows(files.cards))
    && (!HasMain(Rows(files.cards)) ==> HoldsWhole(db, Rows(files.data)))
  }

  ghost predicate LosslessWhole(files: Files, data: Legacy) {
    && CoversWhole(data, Rows(files.cards))
    && (!HasMain(Rows(files.cards)) ==> CoversWhole(data, Rows(files.data)))
  }

  // ----- table by table

  lemma StoredSame(c: CardRow, d: CardRow)
    ensures SameCard(c, d) <==> WithStatus(c) == if d.status == "" then d.(status := "active") else d
  {
  }

  lemma CardsWhole(data: Legacy, o: Orders, after: Db, wanted: Legacy, code: string)
    requires AreOrders(o, data) && Run(EMPTY_DB, data, o) == (Migrated, after) && UniqueKeys(data)
    ensures HoldsCard(after.cards, wanted, code) <==> HasCard(data, wanted, code)
  {
    MigratedCards(data, o, after, code);
    CardsFromEmpty(data.cards, o.cards);
    if code in after.cards {
      var l :| l in data.cards && data.cards[l].code == code && after.cards[code] == WithStatus(data.cards[l]);
      OneRowOfCode(data, wanted, l);
    }
  }

  lemma OneRowOfCode(data: Legacy, wanted: Legacy, l: string)
    requires UniqueKeys(data) && l in data.cards
    ensures IsCardOf(wanted, WithStatus(data.cards[l])) <==> HasCard(data, wanted, data.cards[l].code)
  {
    var row := WithStatus(data.cards[l]);
    if IsCardOf(wanted, row) {
      var k :| k in wanted.cards
        && (if wanted.cards[k].status == "" then row == wanted.cards[k].(status := "active")
            else row == wanted.cards[k]);
      StoredSame(data.cards[l], wanted.cards[k]);
    }
    if HasCard(data, wanted, data.cards[l].code) {
      var m, k :| m in data.cards && k in wanted.cards && data.cards[m].code == data.cards[l].code
        && SameCard(data.cards[m], wanted.cards[k]);
      StoredSame(data.cards[l], wanted.cards[k]);
    }
  }

  lemma SessionsWhole(data: Legacy, o: Orders, after: Db, wanted: Legacy, token: string)
    requires AreOrders(o, data) && Run(EMPTY_DB, data, o) == (Migrated, after) && UniqueKeys(data)
    ensures HoldsSession(after.sessions, wanted, token) <==> HasSession(data, wanted, token)
  {
    MigratedSessions(data, o, after, token);
    OtherTablesMigrated(EMPTY_DB, data, o);
    if token in after.sessions {
      var l :| l in data.sessions && data.sessions[l].token == token && after.sessions[token] == data.sessions[l];
    }
  }

  lemma {:induction false} FirstEntryOf(entries: seq<BlacklistRow>, j: nat) returns (i: nat)
    requires j < |entries|
    ensures i <= j && FirstEntry(entries, i, entries[j].value)
  {
    if h :| 0 <= h < j && entries[h].value == entries[j].value {
      i := FirstEntryOf(entries, h);
    } else {
      i := j;
    }
  }

  lemma BlacklistWhole(data: Legacy, o: Orders, after: Db, wanted: Legacy, value: string)
    requires AreOrders(o, data) && Run(EMPTY_DB, data, o) == (Migrated, after)
    ensures value in after.blacklist && after.blacklist[value] in wanted.blacklist <==> HasEntry(data, wanted, value)
  {
    BlacklistInserted(map[], data.blacklist);
    if i: nat :| FirstEntry(data.blacklist, i, value) {
      assert data.blacklist[i] in data.blacklist;
    }
  }

  lemma HoldsSnoc(t: seq<AgentRow>, row: AgentRow, x: AgentRow)
    ensures HoldsAgent(t + [row], x) <==> HoldsAgent(t, x) || row.(username := x.username) == x
  {
    assert forall r :: r in t + [row] <==> r in t || r == row;
  }

  lemma HasFirst(legacy: map<string, AgentRow>, order: seq<string>, x: AgentRow)
    requires order != [] && forall k :: k in order ==> k in legacy
    ensures HasAgent(legacy, Elements(order), x) <==>
      || HasAgent(legacy, Elements(order[1..]), x)
      || legacy[order[0]].(id := EffectiveId(order[0], legacy[order[0]]), username := x.username) == x
  {
    assert forall k :: k in order <==> k == order[0] || k in order[1..];
  }

  lemma {:induction false} AgentsWhole(t: seq<AgentRow>, legacy: map<string, AgentRow>, order: seq<string>, x: AgentRow)
    requires forall k :: k in order ==> k in legacy
    requires InsertAgents(t, legacy, order).Some?
    ensures HoldsAgent(InsertAgents(t, legacy, order).value, x)
      <==> HoldsAgent(t, x) || HasAgent(legacy, Elements(order), x)
    decreases |order|
  {
    if order != [] {
      var row := NamedRow(t, order[0], legacy[order[0]]);
      AgentsWhole(t + [row], legacy, order[1..], x);
      HoldsSnoc(t, row, x);
      HasFirst(legacy, order, x);
    }
  }

  lemma SameCards(table: map<string, CardRow>, data: Legacy, wanted: Legacy)
    requires forall code :: HoldsCard(table, wanted, code) <==> HasCard(data, wanted, code)
    ensures CardsHeld(table, wanted) <==> CardsCovered(data, wanted)
  {
  }

  lemma SameSessions(table: map<string, SessionRow>, data: Legacy, wanted: Legacy)
    requires forall token :: HoldsSession(table, wanted, token) <==> HasSession(data, wanted, token)
    ensures SessionsHeld(table, wanted) <==> SessionsCovered(data, wanted)
  {
  }

  lemma CardsHeldIff(data: Legacy, o: Orders, after: Db, wanted: Legacy)
    requires AreOrders(o, data) && Run(EMPTY_DB, data, o) == (Migrated, after) && UniqueKeys(data)
    ensures CardsHeld(after.cards, wanted) <==> CardsCovered(data, wanted)
  {
    forall code
      ensures HoldsCard(after.cards, wanted, code) <==> HasCard(data, wanted, code)
    {
      CardsWhole(data, o, after, wanted, code);
    }
    SameCards(after.cards, data, wanted);
  }

  lemma SessionsHeldIff(data: Legacy, o: Orders, after: Db, wanted: Legacy)
    requires AreOrders(o, data) && Run(EMPTY_DB, data, o) == (Migrated, after) && UniqueKeys(data)
    ensures SessionsHeld(after.sessions, wanted) <==> SessionsCovered(data, wanted)
  {
    forall token
      ensures HoldsSession(after.sessions, wanted, token) <==> HasSession(data, wanted, token)
    {
      SessionsWhole(data, o, after, wanted, token);
    }
    SameSessions(after.sessions, data, wanted);
  }

  lemma EntriesHeldIff(data: Legacy, o: Orders, after: Db, wanted: Legacy)
    requires AreOrders(o, data) && Run(EMPTY_DB, data, o) == (Migrated, after)
    ensures EntriesHeld(after.blacklist, wanted) <==> EntriesCovered(data, wanted)
  {
    forall b | b in wanted.blacklist
      ensures b.value in after.blacklist && after.blacklist[b.value] in wanted.blacklist
        <==> HasEntry(data, wanted, b.value)
    {
      BlacklistWhole(data, o, after, wanted, b.value);
    }
  }

  lemma AgentsHeldIff(data: Legacy, o: Orders, after: Db, wanted: Legacy)
    requires AreOrders(o, data) && Run(EMPTY_DB, data, o) == (Migrated, after)
    ensures AgentsHeld(after.agents, wanted) <==> AgentsCovered(data, wanted)
  {
    forall x
      ensures HoldsAgent(after.agents, x) <==> HasAgent(data.agents, data.agents.Keys, x)
    {
      AgentsWhole([], data.agents, o.agents, x);
    }
  }

  lemma MigratedWholeIff(data: Legacy, o: Orders, after: Db, wanted: Legacy)
    requires AreOrders(o, data) && Run(EMPTY_DB, data, o) == (Migrated, after) && UniqueKeys(data)
    ensures HoldsWhole(after, wanted) <==> CoversWhole(data, wanted)
  {
    CardsHeldIff(data, o, after, wanted);
    SessionsHeldIff(data, o, after, wanted);
    EntriesHeldIff(data, o, after, wanted);
    AgentsHeldIff(data, o, after, wanted);
    assert after.audit == data.audit;
  }

  // ----- the runs of starts

  lemma EmptyHoldsNothingWhole(wanted: Legacy)
    ensures HoldsWhole(EMPTY_DB, wanted) <==> wanted == NOTHING
  {
    EmptyHoldsNothing(wanted);
    if HoldsWhole(EMPTY_DB, wanted) {
      assert HoldsLegacy(EMPTY_DB, wanted);
    }
  }

  lemma MigratedKeepsWholeIff(after: Db, files: Files, data: Legacy, mayFail: bool)
    requires MigrationStep(EMPTY_DB, after, data, mayFail, Migrated) && UniqueKeys(data)
    ensures KeptWhole(after, files) <==> LosslessWhole(files, data)
  {
    var o :| AreOrders(o, data) && Run(EMPTY_DB, data, o) == (Migrated, after);
    MigratedWholeIff(data, o, after, Rows(files.cards));
    MigratedWholeIff(data, o, after, Rows(files.data));
  }

  lemma WholeRowsAfter(after: Db, files: Files, data: Legacy, mayFail: bool, migrated: bool)
    requires if migrated then MigrationStep(EMPTY_DB, after, data, mayFail, Migrated) else after == EMPTY_DB
    requires UniqueKeys(data)
    ensures KeptWhole(after, files) <==> (migrated && LosslessWhole(files, data)) || NothingWanted(files)
  {
    if migrated {
      MigratedKeepsWholeIff(after, files, data, mayFail);
    }
    EmptyHoldsNothingWhole(Rows(files.cards));
    EmptyHoldsNothingWhole(Rows(files.data));
    if NothingWanted(files) {
      assert CoversWhole(data, NOTHING);
    }
  }

  /**
   * For decoded data without repeated keys: after any start from the one that
   * created the file on, the rows of the files are held with all their columns,
   * usernames aside, exactly when that one start ended as migrated and no column
   * was lost in loading, or when the files hold nothing.
   */
  lemma WholeRowsKeptIff(starts: seq<Start>, i: nat, j: nat)
    requires IsRun(starts) && CreatesFile(starts, i) && i <= j < |starts| && Untouched(starts, i, j)
    requires UniqueKeys(starts[i].data)
    ensures KeptWhole(starts[j].after.db, starts[i].before.files) <==>
      || (starts[i].ending == Serving(Some(Migrated)) && LosslessWhole(starts[i].before.files, starts[i].data))
      || NothingWanted(starts[i].before.files)
  {
    AfterCreation(starts, i, j);
    CreatorFoundNoFile(starts, i);
    var s := starts[i];
    OpensEmpty(s.before, s.ready, s.ending == OpenFailed, s.mayFail);
    EndsEmptyOrMigrated(s.after.db, s.needsMigration, s.data, s.mayFail, s.ending);
    WholeRowsAfter(s.after.db, s.before.files, s.data, s.mayFail, s.ending == Serving(Some(Migrated)));
  }

  lemma EntryCoversItself(data: Legacy, j: nat)
    requires j < |data.blacklist|
    ensures HasEntry(data, data, data.blacklist[j].value)
  {
    var i := FirstEntryOf(data.blacklist, j);
    assert FirstEntry(data.blacklist, i, data.blacklist[j].value) && data.blacklist[i] in data.blacklist;
  }

  lemma EntriesCoverThemselves(data: Legacy)
    ensures EntriesCovered(data, data)
  {
    forall j: nat | j < |data.blacklist|
      ensures HasEntry(data, data, data.blacklist[j].value)
    {
      EntryCoversItself(data, j);
    }
  }

  lemma CoversItselfWhole(data: Legacy)
    ensures CoversWhole(data, data) && CoversWhole(data, NOTHING)
  {
    EntriesCoverThemselves(data);
    assert CardsCovered(data, data);
    assert SessionsCovered(data, data);
    assert AgentsCovered(data, data);
  }

  /** What is decoded from one readable file is whole. */
  lemma OneFileLosesNoColumn(files: Files)
    requires !files.cards.Broken? && !files.data.Broken?
    requires HasMain(Rows(files.cards)) || Rows(files.cards) == NOTHING
    ensures LosslessWhole(files, Decoded(files))
  {
    OneFileWhole(files);
    CoversItselfWhole(Decoded(files));
  }
}
