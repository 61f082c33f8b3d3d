/** The server's start-up: the gate in front of the one-time migration, and what later starts do. */
module Startup {
  import opened AgentSchema
  import opened AgentTable
  import opened Deduplication
  import opened LegacyFiles
  import opened Migration
  import opened MigrationRun
  import opened Options

  const EMPTY_DB := Db(map[], map[], map[], [], [])

  /** The data directory between two starts; `index` tells that the unique username index exists. */
  datatype Disk = Disk(dbFile: bool, files: Files, db: Db, index: bool) {
    ghost predicate Valid() {
      && IdsDistinct(db.agents)
      && (index ==> UsernamesDistinct(db.agents))
      && (!dbFile ==> db == EMPTY_DB && !index)
    }
  }

  datatype Ending = OpenFailed | MigrationFailed | Serving(migration: Option<Outcome>)

  /**
   * One start of the program: the directory it found, the directory after the
   * schema work and at the end, what the gate decided, and the legacy data that
   * loading the files left in memory, if it came to that.
   */
  datatype Start = Start(
    before: Disk, ready: Disk, after: Disk, needsMigration: bool, data: Legacy, mayFail: bool, ending: Ending)

  /** None, some or all of the duplicates were renamed. */
  ghost predicate PartRepaired(t: seq<AgentRow>, r: seq<AgentRow>) {
    || r == t
    || exists dups: seq<Dup>, done: nat ::
         IsDupListing(t, dups) && done <= |dups| && r == Repair(t, dups[..done])
  }

  /** Opening the database, which may fail before or after the file exists. */
  ghost predicate OpenStep(before: Disk, ready: Disk, err: bool, mayFail: bool) {
    && ready.Valid()
    && ready == before.(dbFile := ready.dbFile, db := before.db.(agents := ready.db.agents), index := ready.index)
    && PartRepaired(before.db.agents, ready.db.agents)
    && (before.dbFile ==> ready.dbFile)
    && (before.index ==> ready.index)
    && (err ==> mayFail)
    && (!err ==> ready.dbFile && ready.index)
  }

  /** What a call of the migration may do. */
  ghost predicate MigrationStep(before: Db, after: Db, data: Legacy, mayFail: bool, outcome: Outcome) {
    && (outcome != Migrated ==> after == before)
    && (outcome == Migrated ==> exists o :: AreOrders(o, data) && Run(before, data, o) == (Migrated, after))
    && (|before.cards| > 0 ==> outcome == Skipped)
    && (outcome == Skipped ==> mayFail || |before.cards| > 0)
    && (outcome == NothingToMigrate ==> NothingIn(data))
    && (outcome == Failed ==> !NothingIn(data) && (mayFail || !NoIdClash(before.agents, data.agents, data.agents.Keys)))
  }

  ghost predicate IsStart(s: Start) {
    Steps(s) && Loads(s.before.files, s.data, s.mayFail)
  }

  /** The gate, the opening and the migration, each as its own part of the code allows. */
  ghost predicate Steps(s: Start) {
    && s.before.Valid()
    && (s.needsMigration ==> !s.before.dbFile && s.before.files.data != Absent)
    && (!s.mayFail && !s.before.dbFile && s.before.files.data != Absent ==> s.needsMigration)
    && OpenStep(s.before, s.ready, s.ending == OpenFailed, s.mayFail)
    && s.after == s.ready.(db := s.after.db)
    && EndStep(s.ready.db, s.after.db, s.needsMigration, s.data, s.mayFail, s.ending)
  }

  /** From the opened database to the end of the start. */
  ghost predicate EndStep(before: Db, after: Db, needed: bool, data: Legacy, mayFail: bool, ending: Ending) {
    match ending
    case OpenFailed => after == before
    case MigrationFailed => needed && MigrationStep(before, after, data, mayFail, Failed)
    case Serving(None) => !needed && after == before
    case Serving(Some(outcome)) =>
      needed && outcome != Failed && MigrationStep(before, after, data, mayFail, outcome)
  }

  class DataDirectory {
    var disk: Disk

    /** Open the file, creating it if need be, and apply the schema. */
    method OpenDB(mayFail: bool) returns (err: bool)
      requires disk.Valid()
      modifies this
      ensures OpenStep(old(disk), disk, err, mayFail)
    {
      ghost var agents := disk.db.agents;
      if mayFail {
        err := *;
        if err { return; }
      }
      disk := disk.(dbFile := true);
      if mayFail {
        err := *;
        if err { return; }
      }
      var store := new AgentStore(disk.db.agents, disk.index);
      ghost var dups, done;
      err, dups, done := store.ApplyAgentSchema(mayFail);
      disk := disk.(db := disk.db.(agents := store.rows), index := store.usernameIndex);
      assert IsDupListing(agents, dups) && disk.db.agents == Repair(agents, dups[..done]);
      if !err && mayFail {
        err := *;  // one of the later statements
      }
    }

    /** From the gate to the point where the server goes on, or gives up. */
    method Launch(mayFail: bool) returns (ending: Ending, ghost s: Start)
      requires disk.Valid()
      modifies this
      ensures s.before == old(disk) && s.after == disk && s.ending == ending && s.mayFail == mayFail
      ensures IsStart(s)
    {
      ghost var before := disk;
      var needsMigration := !disk.dbFile && disk.files.data != Absent;
      if mayFail && needsMigration {
        needsMigration := *;  // a failing Stat call keeps the flag off
      }
      var err := OpenDB(mayFail);
      ghost var ready, data := disk, Decoded(disk.files);
      ending := OpenFailed;
      if !err {
        ending := Serving(None);
        if needsMigration {
          var target := new MigrationTarget(disk.db);
          var outcome;
          ghost var o;
          outcome, data, o := target.MigrateJSON(disk.files, mayFail);
          disk := disk.(db := target.db);
          ending := if outcome == Failed then MigrationFailed else Serving(Some(outcome));
        }
      }
      s := Start(before, ready, disk, needsMigration, data, mayFail, ending);
    }
  }

  // ----- one start

  lemma NothingToRepair(t: seq<AgentRow>, r: seq<AgentRow>)
    requires PartRepaired(t, r) && UsernamesDistinct(t)
    ensures r == t
  {
    forall dups: seq<Dup>, done: nat | IsDupListing(t, dups) && done <= |dups|
      ensures Repair(t, dups[..done]) == t
    {
      assert dups == [] || IsExtra(t, dups[0]);
    }
  }

  /**
   * A start that finds the database file never calls the migration.  It changes
   * usernames at most, and nothing at all once usernames are unique.
   */
  lemma LaterStartKeepsTables(s: Start)
    requires IsStart(s) && s.before.dbFile
    ensures s.ending == OpenFailed || s.ending == Serving(None)
    ensures s.after.dbFile && s.after.db == s.before.db.(agents := s.after.db.agents)
    ensures PartRepaired(s.before.db.agents, s.after.db.agents)
    ensures UsernamesDistinct(s.before.db.agents) ==> s.after.db == s.before.db
  {
    if UsernamesDistinct(s.before.db.agents) {
      NothingToRepair(s.before.db.agents, s.ready.db.agents);
    }
  }

  /** All these rows are there, by their keys; audit entries have none and are counted. */
  ghost predicate HoldsLegacy(db: Db, wanted: Legacy) {
    && (forall k :: k in wanted.cards ==> wanted.cards[k].code in db.cards)
    && (forall k :: k in wanted.sessions ==> wanted.sessions[k].token in db.sessions)
    && (forall b :: b in wanted.blacklist ==> b.value in db.blacklist)
    && (forall k :: k in wanted.agents ==> EffectiveId(k, wanted.agents[k]) in Ids(db.agents))
    && multiset(wanted.audit) <= multiset(db.audit)
  }

  /** The rows of the files are there: those of data.json count where cards.json has neither cards nor agents. */
  ghost predicate Kept(db: Db, files: Files) {
    && HoldsLegacy(db, Rows(files.cards))
    && (!HasMain(Rows(files.cards)) ==> HoldsLegacy(db, Rows(files.data)))
  }

  predicate NothingWanted(files: Files) {
    Rows(files.cards) == NOTHING && Rows(files.data) == NOTHING
  }

  lemma EmptyHoldsNothing(wanted: Legacy)
    ensures HoldsLegacy(EMPTY_DB, wanted) <==> wanted == NOTHING
  {
    assert wanted.blacklist != [] ==> wanted.blacklist[0] in wanted.blacklist;
    if HoldsLegacy(EMPTY_DB, wanted) {
      assert |multiset(wanted.audit)| == 0;
      assert wanted.cards == map[] && wanted.sessions == map[] && wanted.agents == map[];
    }
  }

  lemma MigratedAgents(data: Legacy, o: Orders)
    requires AreOrders(o, data) && Run(EMPTY_DB, data, o).0 == Migrated
    ensures UsernamesDistinct(Run(EMPTY_DB, data, o).1.agents)
    ensures NoIdClash([], data.agents, data.agents.Keys)
  {
    AgentsStayUnique([], data.agents, o.agents);
    AgentsSucceedIff([], data.agents, o.agents, data.agents.Keys);
  }

  lemma MigratedIds(data: Legacy, o: Orders, after: Db, id: string)
    requires AreOrders(o, data) && Run(EMPTY_DB, data, o) == (Migrated, after)
    ensures id in Ids(after.agents) <==> exists k :: k in data.agents && EffectiveId(k, data.agents[k]) == id
  {
    AgentIdsExactly([], data.agents, o.agents, id);
    assert forall k :: k in o.agents <==> k in Elements(o.agents);
  }

  lemma MigratedCards(data: Legacy, o: Orders, after: Db, code: string)
    requires AreOrders(o, data) && Run(EMPTY_DB, data, o) == (Migrated, after)
    ensures code in after.cards <==> exists k :: k in data.cards && data.cards[k].code == code
  {
    CardsFromEmpty(data.cards, o.cards);
    assert code in after.cards <==> code in after.cards.Keys;
  }

  lemma MigratedSessions(data: Legacy, o: Orders, after: Db, token: string)
    requires AreOrders(o, data) && Run(EMPTY_DB, data, o) == (Migrated, after)
    ensures token in after.sessions <==> exists k :: k in data.sessions && data.sessions[k].token == token
  {
    SessionsInserted(map[], data.sessions, o.sessions);
    assert forall k :: k in data.sessions <==> k in Elements(o.sessions);
  }

  lemma MigratedBlacklist(data: Legacy, o: Orders, after: Db, value: string)
    requires AreOrders(o, data) && Run(EMPTY_DB, data, o) == (Migrated, after)
    ensures value in after.blacklist <==> exists b :: b in data.blacklist && b.value == value
  {
    BlacklistInserted(map[], data.blacklist);
    if value in InsertBlacklist(map[], data.blacklist) {
      var i: nat :| FirstEntry(data.blacklist, i, value);
      assert data.blacklist[i] in data.blacklist;
    }
  }

  /** Tables with exactly the decoded keys hold what was decoded. */
  lemma SameKeys(data: Legacy, after: Db, wanted: Legacy)
    requires forall code :: code in after.cards <==> exists k :: k in data.cards && data.cards[k].code == code
    requires forall t :: t in after.sessions <==> exists k :: k in data.sessions && data.sessions[k].token == t
    requires forall v :: v in after.blacklist <==> exists b :: b in data.blacklist && b.value == v
    requires forall id ::
      id in Ids(after.agents) <==> exists k :: k in data.agents && EffectiveId(k, data.agents[k]) == id
    requires after.audit == data.audit
    ensures HoldsLegacy(after, wanted) <==> Covers(data, wanted)
  {
  }

  /** A complete migration holds exactly the rows that were decoded. */
  lemma MigratedHoldsIff(data: Legacy, o: Orders, after: Db, wanted: Legacy)
    requires AreOrders(o, data) && Run(EMPTY_DB, data, o) == (Migrated, after)
    ensures HoldsLegacy(after, wanted) <==> Covers(data, wanted)
  {
    assert after.audit == data.audit;
    forall code
      ensures code in after.cards <==> exists k :: k in data.cards && data.cards[k].code == code
    {
      MigratedCards(data, o, after, code);
    }
    forall t
      ensures t in after.sessions <==> exists k :: k in data.sessions && data.sessions[k].token == t
    {
      MigratedSessions(data, o, after, t);
    }
    forall v
      ensures v in after.blacklist <==> exists b :: b in data.blacklist && b.value == v
    {
      MigratedBlacklist(data, o, after, v);
    }
    forall id
      ensures id in Ids(after.agents) <==> exists k :: k in data.agents && EffectiveId(k, data.agents[k]) == id
    {
      MigratedIds(data, o, after, id);
    }
    SameKeys(data, after, wanted);
  }

  lemma MigratedMeans(after: Db, data: Legacy, mayFail: bool)
    requires MigrationStep(EMPTY_DB, after, data, mayFail, Migrated)
    ensures UsernamesDistinct(after.agents) && !NothingIn(data) && NoIdClash([], data.agents, data.agents.Keys)
  {
    var o :| AreOrders(o, data) && Run(EMPTY_DB, data, o) == (Migrated, after);
    MigratedAgents(data, o);
  }

  lemma MigratedKeepsIff(after: Db, files: Files, data: Legacy, mayFail: bool)
    requires MigrationStep(EMPTY_DB, after, data, mayFail, Migrated)
    ensures Kept(after, files) <==> Lossless(files, data)
  {
    var o :| AreOrders(o, data) && Run(EMPTY_DB, data, o) == (Migrated, after);
    MigratedHoldsIff(data, o, after, Rows(files.cards));
    MigratedHoldsIff(data, o, after, Rows(files.data));
  }

  lemma EmptyKeepsIff(files: Files)
    ensures Kept(EMPTY_DB, files) <==> NothingWanted(files)
  {
    EmptyHoldsNothing(Rows(files.cards));
    EmptyHoldsNothing(Rows(files.data));
  }

  lemma OpensEmpty(before: Disk, ready: Disk, err: bool, mayFail: bool)
    requires OpenStep(before, ready, err, mayFail) && before.db == EMPTY_DB
    ensures ready.db == EMPTY_DB
  {
    NothingToRepair([], ready.db.agents);
  }

  lemma EndsEmptyOrMigrated(after: Db, needed: bool, data: Legacy, mayFail: bool, ending: Ending)
    requires EndStep(EMPTY_DB, after, needed, data, mayFail, ending)
    ensures ending == Serving(Some(Migrated)) ==> MigrationStep(EMPTY_DB, after, data, mayFail, Migrated)
    ensures ending != Serving(Some(Migrated)) ==> after == EMPTY_DB
  {
  }

  lemma HealthyEnd(after: Db, needed: bool, data: Legacy, ending: Ending)
    requires EndStep(EMPTY_DB, after, needed, data, false, ending) && ending != OpenFailed
    ensures ending == (
      if !needed then Serving(None)
      else if NothingIn(data) then Serving(Some(NothingToMigrate))
      else if NoIdClash([], data.agents, data.agents.Keys) then Serving(Some(Migrated))
      else MigrationFailed)
  {
    if needed {
      var outcome := if ending == MigrationFailed then Failed else ending.migration.value;
      HealthyOutcome(after, data, outcome);
    }
  }

  lemma HealthyOutcome(after: Db, data: Legacy, outcome: Outcome)
    requires MigrationStep(EMPTY_DB, after, data, false, outcome)
    ensures outcome == (
      if NothingIn(data) then NothingToMigrate
      else if NoIdClash([], data.agents, data.agents.Keys) then Migrated
      else Failed)
  {
    if outcome == Migrated {
      MigratedMeans(after, data, false);
    }
  }

  /** The start that creates the database file leaves one complete migration of what was loaded, or empty tables. */
  lemma FirstStart(s: Start)
    requires IsStart(s) && !s.before.dbFile
    ensures UsernamesDistinct(s.after.db.agents)
    ensures s.ending == Serving(Some(Migrated)) || s.after.db == EMPTY_DB
    ensures Kept(s.after.db, s.before.files) <==>
      (s.ending == Serving(Some(Migrated)) && Lossless(s.before.files, s.data)) || NothingWanted(s.before.files)
  {
    OpensEmpty(s.before, s.ready, s.ending == OpenFailed, s.mayFail);
    EndsEmptyOrMigrated(s.after.db, s.needsMigration, s.data, s.mayFail, s.ending);
    WhatIsKept(s.after.db, s.before.files, s.data, s.mayFail, s.ending == Serving(Some(Migrated)));
  }

  lemma WhatIsKept(after: Db, files: Files, data: Legacy, mayFail: bool, migrated: bool)
    requires if migrated then MigrationStep(EMPTY_DB, after, data, mayFail, Migrated) else after == EMPTY_DB
    ensures UsernamesDistinct(after.agents)
    ensures Kept(after, files) <==> (migrated && Lossless(files, data)) || NothingWanted(files)
  {
    if migrated {
      MigratedMeans(after, data, mayFail);
      MigratedKeepsIff(after, files, data, mayFail);
    } else {
      EmptyKeepsIff(files);
    }
    if NothingWanted(files) {
      assert Covers(data, NOTHING);
    }
  }

  /** Without faults the end of the first start is decided by its files alone. */
  lemma HealthyFirstStart(s: Start)
    requires IsStart(s) && !s.before.dbFile && !s.mayFail
    ensures s.after.dbFile && s.data == Decoded(s.before.files)
    ensures s.ending == (
      if s.before.files.data == Absent then Serving(None)
      else if s.data.cards == map[] && s.data.agents == map[] && s.data.sessions == map[] && s.data.blacklist == []
        then Serving(Some(NothingToMigrate))
      else if NoIdClash([], s.data.agents, s.data.agents.Keys) then Serving(Some(Migrated))
      else MigrationFailed)
  {
    OpensEmpty(s.before, s.ready, s.ending == OpenFailed, s.mayFail);
    HealthyEnd(s.after.db, s.needsMigration, s.data, s.ending);
    NothingIsEmpty(s.data);
  }

  // ----- runs of starts

  /**
   * What may happen between two starts: a serving process may have changed the
   * tables, one that gave up has not; the legacy files may change; the database
   * file and its index stay.
   */
  ghost predicate Follows(earlier: Start, later: Start) {
    && later.before == earlier.after.(files := later.before.files, db := later.before.db)
    && (!earlier.ending.Serving? ==> later.before.db == earlier.after.db)
  }

  /** Starts one after another, in a directory that has no database file at first. */
  ghost predicate IsRun(starts: seq<Start>) {
    (forall i :: 0 <= i < |starts| ==> IsStart(starts[i])) && InOrder(starts)
  }

  ghost predicate InOrder(starts: seq<Start>) {
    && (forall i :: 0 < i < |starts| ==> Follows(starts[i - 1], starts[i]))
    && (starts != [] ==> !starts[0].before.dbFile)
  }

  /** Start i is the one after which the database file exists. */
  ghost predicate CreatesFile(starts: seq<Start>, i: nat) {
    i < |starts| && starts[i].after.dbFile && forall h :: 0 <= h < i ==> !starts[h].after.dbFile
  }

  /** No served request changed the tables between starts i and j. */
  ghost predicate Untouched(starts: seq<Start>, i: nat, j: nat)
    requires i <= j < |starts|
  {
    forall h :: i < h <= j ==> starts[h].before.db == starts[h - 1].after.db
  }

  lemma CreatorFoundNoFile(starts: seq<Start>, i: nat)
    requires InOrder(starts) && CreatesFile(starts, i)
    ensures !starts[i].before.dbFile
  {
    if i > 0 {
      assert Follows(starts[i - 1], starts[i]);
    }
  }

  lemma {:induction false} AfterCreation(starts: seq<Start>, i: nat, j: nat)
    requires IsRun(starts) && CreatesFile(starts, i) && i <= j < |starts|
    ensures starts[j].after.dbFile && UsernamesDistinct(starts[j].after.db.agents)
    ensures j > i ==> starts[j].before.dbFile && starts[j].after.db == starts[j].before.db
    ensures Untouched(starts, i, j) ==> starts[j].after.db == starts[i].after.db
    decreases j
  {
    if j == i {
      CreatorFoundNoFile(starts, i);
      FirstStart(starts[i]);
    } else {
      AfterCreation(starts, i, j - 1);
      assert Follows(starts[j - 1], starts[j]);
      assert starts[j].before.Valid();
      LaterStartKeepsTables(starts[j]);
    }
  }

  /**
   * The migration has one chance.  Whatever fails and wherever, every start
   * after the one that created the file leaves the tables as it found them.  So
   * the legacy rows are in the tables after any later start exactly when that
   * one start ended as migrated and had lost nothing in loading, or when the
   * files hold nothing.
   */
  lemma LegacyKeptIff(starts: seq<Start>, i: nat, j: nat)
    requires IsRun(starts) && CreatesFile(starts, i) && i <= j < |starts|
    ensures j > i ==> !starts[j].needsMigration && starts[j].after.db == starts[j].before.db
    ensures Untouched(starts, i, j) ==>
      (Kept(starts[j].after.db, starts[i].before.files) <==>
        || (starts[i].ending == Serving(Some(Migrated)) && Lossless(starts[i].before.files, starts[i].data))
        || NothingWanted(starts[i].before.files))
  {
    AfterCreation(starts, i, j);
    CreatorFoundNoFile(starts, i);
    FirstStart(starts[i]);
  }

  /**
   * With a healthy first start the files decide: data.json has to be there,
   * whichever file the data is in, something but audit entries has to be
   * decoded, no decoded agent id may clash, and no row may be lost in loading.
   */
  lemma HealthyLegacyKeptIff(starts: seq<Start>, j: nat)
    requires IsRun(starts) && j < |starts| && !starts[0].mayFail && Untouched(starts, 0, j)
    ensures var files := starts[0].before.files;
      var data := Decoded(files);
      Kept(starts[j].after.db, files) <==>
        || NothingWanted(files)
        || (&& files.data != Absent
            && (data.cards != map[] || data.agents != map[] || data.sessions != map[] || data.blacklist != [])
            && NoIdClash([], data.agents, data.agents.Keys) && Lossless(files, data))
  {
    HealthyFirstStart(starts[0]);
    LegacyKeptIff(starts, 0, j);
  }

  // ----- runs that lose data

  /** A healthy first start on these files, from which `data` is loaded. */
  function FirstOn(files: Files, data: Legacy, after: Db, ending: Ending): Start {
    Start(
      Disk(false, files, EMPTY_DB, false), Disk(true, files, EMPTY_DB, true), Disk(true, files, after, true),
      true, data, false, ending)
  }

  /** And the next one, with nothing in between. */
  function NextAfter(s: Start): Start {
    Start(s.after, s.after, s.after, false, s.data, false, Serving(None))
  }

  function EndingOf(outcome: Outcome): Ending {
    if outcome == Failed then MigrationFailed else Serving(Some(outcome))
  }

  lemma FirstSteps(files: Files, data: Legacy, after: Db, outcome: Outcome)
    requires files.data != Absent && MigrationStep(EMPTY_DB, after, data, false, outcome)
    ensures Steps(FirstOn(files, data, after, EndingOf(outcome)))
  {
    var s := FirstOn(files, data, after, EndingOf(outcome));
    assert s.before.Valid() && s.ready.Valid();
    assert EndStep(EMPTY_DB, after, true, data, false, EndingOf(outcome));
  }

  lemma NextSteps(s: Start)
    requires s.after.dbFile && s.after.index && s.after.Valid()
    ensures Steps(NextAfter(s))
  {
    assert OpenStep(s.after, s.after, false, false);
  }

  lemma TwoInOrder(s: Start)
    requires !s.before.dbFile
    ensures InOrder([s, NextAfter(s)])
  {
    assert Follows(s, NextAfter(s));
  }

  lemma BothStarts(s: Start, t: Start)
    requires IsStart(s) && IsStart(t)
    ensures forall i :: 0 <= i < |[s, t]| ==> IsStart([s, t][i])
  {
    assert [s, t][0] == s && [s, t][1] == t;
  }

  /** Two starts, the first of which ended with such an outcome. */
  lemma TwoStarts(files: Files, data: Legacy, after: Db, outcome: Outcome)
    requires files.data != Absent && data == Decoded(files)
    requires MigrationStep(EMPTY_DB, after, data, false, outcome)
    requires IdsDistinct(after.agents) && UsernamesDistinct(after.agents)
    ensures var s := FirstOn(files, data, after, EndingOf(outcome));
      IsRun([s, NextAfter(s)]) && NextAfter(s).after.db == after
  {
    var s := FirstOn(files, data, after, EndingOf(outcome));
    FirstSteps(files, data, after, outcome);
    NextSteps(s);
    TwoInOrder(s);
    BothStarts(s, NextAfter(s));
  }

  /** Two agents of one id: the first start gives up, the next one serves without any legacy row. */
  lemma ClashLosesData(a: AgentRow, b: AgentRow)
    requires a.id == b.id != ""
    ensures var file := Readable(Content(Missing, Missing, Missing, Value(map["1" := a, "2" := b]), Missing));
      var s := FirstOn(Files(Absent, file), Rows(file), EMPTY_DB, MigrationFailed);
      IsRun([s, NextAfter(s)]) && !Kept(NextAfter(s).after.db, Files(Absent, file))
  {
    var agents := map["1" := a, "2" := b];
    var files := Files(Absent, Readable(Content(Missing, Missing, Missing, Value(agents), Missing)));
    assert Decoded(files) == Legacy(map[], map[], [], agents, []);
    assert "1" in agents && "2" in agents && EffectiveId("1", agents["1"]) == EffectiveId("2", agents["2"]);
    assert !NoIdClash([], agents, agents.Keys);
    TwoStarts(files, Legacy(map[], map[], [], agents, []), EMPTY_DB, Failed);
    assert Rows(files.data).agents == agents;
    assert !HoldsLegacy(EMPTY_DB, Rows(files.data));
  }

  /** A data.json of which nothing decodes: the first start reports that there is nothing to migrate. */
  lemma BrokenFileLosesData(c: CardRow)
    ensures var file := Broken(
        Content(Value(map[c.code := c]), Missing, Missing, Missing, Missing),
        Content(Missing, Missing, Missing, Missing, Missing));
      var s := FirstOn(Files(Absent, file), NOTHING, EMPTY_DB, Serving(Some(NothingToMigrate)));
      IsRun([s, NextAfter(s)]) && !Kept(NextAfter(s).after.db, Files(Absent, file))
  {
    var cards := map[c.code := c];
    var whole := Content(Value(cards), Missing, Missing, Missing, Missing);
    var files := Files(Absent, Broken(whole, Content(Missing, Missing, Missing, Missing, Missing)));
    assert Decoded(files) == NOTHING;
    TwoStarts(files, NOTHING, EMPTY_DB, NothingToMigrate);
    assert Rows(files.data).cards == cards && c.code in cards;
  }

  /** A data.json that stops decoding after its cards: the first start migrates them, and the agents are gone. */
  lemma HalfDecodedLosesAgents(c: CardRow, a: AgentRow)
    ensures var files := Files(Absent, CardsDecoded(c, a));
      var s := FirstOn(files, OneCard(c), OneCardDb(c), Serving(Some(Migrated)));
      IsRun([s, NextAfter(s)]) && !Kept(NextAfter(s).after.db, files)
  {
    var files := Files(Absent, CardsDecoded(c, a));
    OneCardMigrates(c);
    OneCardDecoded(c, a);
    TwoStarts(files, OneCard(c), OneCardDb(c), Migrated);
    AgentNotKept(c, a);
  }

  /** One card and one agent, of which the card gets into memory. */
  function CardsDecoded(c: CardRow, a: AgentRow): File {
    Broken(
      Content(Value(map[c.code := c]), Missing, Missing, Value(map[a.id := a]), Missing),
      Content(Value(map[c.code := c]), Missing, Missing, Missing, Missing))
  }

  function OneCard(c: CardRow): Legacy {
    Legacy(map[c.code := c], map[], [], map[], [])
  }

  function OneCardDb(c: CardRow): Db {
    EMPTY_DB.(cards := map[c.code := WithStatus(c)])
  }

  lemma OneCardDecoded(c: CardRow, a: AgentRow)
    ensures Decoded(Files(Absent, CardsDecoded(c, a))) == OneCard(c)
  {
    assert map[] + map[c.code := c] == map[c.code := c];
  }

  lemma AgentNotKept(c: CardRow, a: AgentRow)
    ensures !Kept(OneCardDb(c), Files(Absent, CardsDecoded(c, a)))
  {
    var agents := Rows(CardsDecoded(c, a)).agents;
    assert a.id in agents && agents[a.id] == a;
    assert EffectiveId(a.id, a) !in Ids(OneCardDb(c).agents);
    assert !HoldsLegacy(OneCardDb(c), Rows(CardsDecoded(c, a)));
  }

  lemma OneCardMigrates(c: CardRow)
    ensures MigrationStep(EMPTY_DB, OneCardDb(c), OneCard(c), false, Migrated)
  {
    var data, o := OneCard(c), Orders([c.code], [], []);
    assert |data.cards| == 1;
    assert Elements(o.cards) == {c.code} && Elements([]) == {};
    assert AreOrders(o, data);
    assert [c.code][1..] == [];
    assert InsertCards(map[], data.cards, o.cards) == OneCardDb(c).cards;
    assert InsertSessions(map[], data.sessions, []) == map[] && InsertBlacklist(map[], []) == map[];
    assert InsertAgents([], data.agents, []) == Some([]) && EMPTY_DB.audit + data.audit == [];
    assert Migrate(EMPTY_DB, data, o) == Some(OneCardDb(c));
    assert Run(EMPTY_DB, data, o) == (Migrated, OneCardDb(c));
  }
}
