/** Imports with failing calls: which rows are called duplicates of a card that is not there. */
module ImportFaults {
  import opened CardCodes
  import opened CardImport
  import opened Options

  predicate Names(r: Row, n: Code) {
    r.Good? && r.normalized == n
  }

  /** Row j is the first of code n whose lookup does not fail. */
  ghost predicate FirstTry(rows: seq<Row>, faults: nat -> Fault, n: Code, j: nat) {
    && j < |rows| && Names(rows[j], n) && !faults(j + 1).lookup
    && forall i :: 0 <= i < j && Names(rows[i], n) ==> faults(i + 1).lookup
  }

  /** The same, as found by going through the rows. */
  function TryOf(rows: seq<Row>, faults: nat -> Fault, n: Code): Option<nat> {
    if rows == [] then None
    else
      var k := |rows| - 1;
      var earlier := TryOf(rows[..k], faults, n);
      if earlier.Some? then earlier
      else if Names(rows[k], n) && !faults(k + 1).lookup then Some(k)
      else None
  }

  lemma {:induction false} TryOfIsFirst(rows: seq<Row>, faults: nat -> Fault, n: Code)
    ensures forall j: nat :: TryOf(rows, faults, n) == Some(j) <==> FirstTry(rows, faults, n, j)
    ensures TryOf(rows, faults, n).None? ==>
      forall i :: 0 <= i < |rows| && Names(rows[i], n) ==> faults(i + 1).lookup
    decreases |rows|
  {
    if rows != [] {
      var k := |rows| - 1;
      var earlier := rows[..k];
      TryOfIsFirst(earlier, faults, n);
      assert forall i :: 0 <= i < k ==> rows[i] == earlier[i];
      assert forall j: nat :: j < k ==> (FirstTry(rows, faults, n, j) <==> FirstTry(earlier, faults, n, j));
    }
  }

  predicate NamedAfter(rows: seq<Row>, n: Code, j: nat) {
    exists k :: j < k < |rows| && Names(rows[k], n)
  }

  predicate CalledDuplicate(s: State, code: string) {
    exists i :: 0 <= i < |s.report.items| && s.report.items[i].status == Duplicate && s.report.items[i].code == code
  }

  /** What state s, reached through `rows`, knows of a code that was new to the store. */
  ghost predicate Tracks(s: State, rows: seq<Row>, faults: nat -> Fault, n: Code) {
    var t := TryOf(rows, faults, n);
    && (n in s.seen <==> t.Some?)
    && (StoredCode(n) in s.store <==> t.Some? && !faults(t.value + 1).create)
    && (CalledDuplicate(s, StoredCode(n)) <==> t.Some? && NamedAfter(rows, n, t.value))
  }

  lemma NamedAfterSnoc(rows: seq<Row>, n: Code, j: nat)
    requires rows != []
    ensures var k := |rows| - 1;
      NamedAfter(rows, n, j) <==> NamedAfter(rows[..k], n, j) || (j < k && Names(rows[k], n))
  {
    var k := |rows| - 1;
    assert forall i :: 0 <= i < k ==> rows[i] == rows[..k][i];
  }

  lemma CalledSnoc(s: State, next: State, item: Item, code: string)
    requires next.report.items == s.report.items + [item]
    ensures CalledDuplicate(next, code) <==> CalledDuplicate(s, code) || (item.status == Duplicate && item.code == code)
  {
    var items, k := next.report.items, |s.report.items|;
    assert items[k] == item;
    assert forall i :: 0 <= i < k ==> items[i] == s.report.items[i];
  }

  lemma OtherRowTracked(s: State, cfg: Config, rows: seq<Row>, faults: nat -> Fault, n: Code)
    requires rows != [] && !s.stopped && !cfg.dryRun
    requires Tracks(s, rows[..|rows| - 1], faults, n) && !Names(rows[|rows| - 1], n)
    ensures Tracks(Step(s, cfg, |rows|, rows[|rows| - 1], faults(|rows|)), rows, faults, n)
  {
    var k := |rows| - 1;
    var next := Step(s, cfg, |rows|, rows[k], faults(k + 1));
    var t := TryOf(rows[..k], faults, n);
    if t.Some? {
      NamedAfterSnoc(rows, n, t.value);
    }
    if rows[k].Good? && StoredCode(rows[k].normalized) == StoredCode(n) {
      StoredCodeInjective(rows[k].normalized, n);
    }
    if !rows[k].Ignored? {
      CalledSnoc(s, next, next.report.items[|s.report.items|], StoredCode(n));
    }
  }

  lemma OwnRowTracked(s: State, cfg: Config, rows: seq<Row>, faults: nat -> Fault, n: Code)
    requires rows != [] && !s.stopped && !cfg.dryRun && ConfigOk(cfg)
    requires Tracks(s, rows[..|rows| - 1], faults, n) && Names(rows[|rows| - 1], n)
    ensures Tracks(Step(s, cfg, |rows|, rows[|rows| - 1], faults(|rows|)), rows, faults, n)
  {
    var k := |rows| - 1;
    var next := Step(s, cfg, |rows|, rows[k], faults(k + 1));
    var t := TryOf(rows[..k], faults, n);
    TryOfIsFirst(rows[..k], faults, n);
    CalledSnoc(s, next, next.report.items[|s.report.items|], StoredCode(n));
    if t.Some? {
      NamedAfterSnoc(rows, n, t.value);
    } else {
      assert !NamedAfter(rows, n, k);
    }
  }

  /** A run that looks at all its rows also looks at all of any prefix, without stopping. */
  lemma {:induction false} ReachedPrefix(s: State, cfg: Config, rows: seq<Row>, faults: nat -> Fault, first: nat,
      k: nat)
    requires k <= Reached(s, cfg, rows, faults, first)
    ensures Reached(s, cfg, rows[..k], faults, first) == k
    ensures k < Reached(s, cfg, rows, faults, first) ==> !Run(s, cfg, rows[..k], faults, first).stopped
    ensures k == Reached(s, cfg, rows, faults, first) ==>
      Run(s, cfg, rows[..k], faults, first) == Run(s, cfg, rows, faults, first)
    decreases k
  {
    if k > 0 {
      assert rows[..k][1..] == rows[1..][..k - 1];
      ReachedPrefix(Step(s, cfg, first, rows[0], faults(first)), cfg, rows[1..], faults, first + 1, k - 1);
    }
  }

  lemma {:induction false} RunTracks(
    store: map<string, Card>, log: seq<Event>, cfg: Config, rows: seq<Row>, faults: nat -> Fault, n: Code)
    requires !cfg.dryRun && ConfigOk(cfg) && StoredCode(n) !in store
    requires Reached(Start(store, log), cfg, rows, faults, 1) == |rows|
    ensures Tracks(Run(Start(store, log), cfg, rows, faults, 1), rows, faults, n)
    decreases |rows|
  {
    if rows != [] {
      var start, k := Start(store, log), |rows| - 1;
      ReachedPrefix(start, cfg, rows, faults, 1, k);
      RunTracks(store, log, cfg, rows[..k], faults, n);
      RunNext(start, cfg, rows, k, faults);
      assert rows[..k + 1] == rows;
      var s := Run(start, cfg, rows[..k], faults, 1);
      if Names(rows[k], n) {
        OwnRowTracked(s, cfg, rows, faults, n);
      } else {
        OtherRowTracked(s, cfg, rows, faults, n);
      }
    }
  }

  /** Every item called a duplicate carries the stored form of a valid code, and old cards stay. */
  ghost predicate DuplicatesAreCodes(s: State, store: map<string, Card>) {
    && (forall c :: c in store ==> c in s.store)
    && (forall i :: 0 <= i < |s.report.items| && s.report.items[i].status == Duplicate ==>
          exists n: Code :: s.report.items[i].code == StoredCode(n))
  }

  lemma {:induction false} RunKeepsCodes(
    s: State, cfg: Config, rows: seq<Row>, faults: nat -> Fault, first: nat, store: map<string, Card>)
    requires DuplicatesAreCodes(s, store)
    ensures DuplicatesAreCodes(Run(s, cfg, rows, faults, first), store)
    decreases |rows|
  {
    if rows != [] && !s.stopped {
      RunKeepsCodes(Step(s, cfg, first, rows[0], faults(first)), cfg, rows[1..], faults, first + 1, store);
    }
  }

  /** Some row is called a duplicate of a card that is not in the store when the import is over. */
  ghost predicate Misreports(s: State) {
    exists i :: 0 <= i < |s.report.items| && s.report.items[i].status == Duplicate && s.report.items[i].code !in s.store
  }

  /** The creation fails for the first looked-up row j of a new code, and row k names the code again. */
  ghost predicate ShadowedRetry(
    store: map<string, Card>, rows: seq<Row>, faults: nat -> Fault, j: nat, k: nat)
  {
    && j < k < |rows| && rows[k].Good? && StoredCode(rows[k].normalized) !in store
    && FirstTry(rows, faults, rows[k].normalized, j) && faults(j + 1).create
  }

  lemma MisreportHasShadow(store: map<string, Card>, log: seq<Event>, cfg: Config, rows: seq<Row>, faults: nat -> Fault)
      returns (j: nat, k: nat)
    requires !cfg.dryRun && ConfigOk(cfg) && Reached(Start(store, log), cfg, rows, faults, 1) == |rows|
    requires Misreports(Run(Start(store, log), cfg, rows, faults, 1))
    ensures ShadowedRetry(store, rows, faults, j, k)
  {
    var s := Run(Start(store, log), cfg, rows, faults, 1);
    RunKeepsCodes(Start(store, log), cfg, rows, faults, 1, store);
    var i :| 0 <= i < |s.report.items| && s.report.items[i].status == Duplicate && s.report.items[i].code !in s.store;
    var n: Code :| s.report.items[i].code == StoredCode(n);
    RunTracks(store, log, cfg, rows, faults, n);
    TryOfIsFirst(rows, faults, n);
    assert CalledDuplicate(s, StoredCode(n));
    j := TryOf(rows, faults, n).value;
    k :| j < k < |rows| && Names(rows[k], n);
  }

  lemma ShadowMisreports(
    store: map<string, Card>, log: seq<Event>, cfg: Config, rows: seq<Row>, faults: nat -> Fault, j: nat, k: nat)
    requires !cfg.dryRun && ConfigOk(cfg) && Reached(Start(store, log), cfg, rows, faults, 1) == |rows|
    requires ShadowedRetry(store, rows, faults, j, k)
    ensures Misreports(Run(Start(store, log), cfg, rows, faults, 1))
  {
    var n := rows[k].normalized;
    RunTracks(store, log, cfg, rows, faults, n);
    TryOfIsFirst(rows, faults, n);
    assert NamedAfter(rows, n, j);
    assert CalledDuplicate(Run(Start(store, log), cfg, rows, faults, 1), StoredCode(n));
  }

  /**
   * Under any faults, a real import calls some row a duplicate of a card that
   * does not exist exactly when the creation failed for the first row of a new
   * code whose lookup succeeded, and a later row that was reached repeats the code.
   */
  lemma MisreportsIff(store: map<string, Card>, log: seq<Event>, cfg: Config, rows: seq<Row>, faults: nat -> Fault)
    requires !cfg.dryRun && ConfigOk(cfg)
    ensures var reached := rows[..Reached(Start(store, log), cfg, rows, faults, 1)];
      Misreports(Run(Start(store, log), cfg, rows, faults, 1)) <==>
        exists j: nat, k: nat :: ShadowedRetry(store, reached, faults, j, k)
  {
    var start := Start(store, log);
    var p := Reached(start, cfg, rows, faults, 1);
    ReachedPrefix(start, cfg, rows, faults, 1, p);
    if Misreports(Run(start, cfg, rows, faults, 1)) {
      var j, k := MisreportHasShadow(store, log, cfg, rows[..p], faults);
    }
    forall j: nat, k: nat | ShadowedRetry(store, rows[..p], faults, j, k)
      ensures Misreports(Run(start, cfg, rows, faults, 1))
    {
      ShadowMisreports(store, log, cfg, rows[..p], faults, j, k);
    }
  }

  /** In particular, as long as no creation fails every row called a duplicate has its card in the store. */
  lemma DuplicatesAreStored(store: map<string, Card>, log: seq<Event>, cfg: Config, rows: seq<Row>,
      faults: nat -> Fault)
    requires !cfg.dryRun && ConfigOk(cfg) && forall n :: !faults(n).create
    ensures !Misreports(Run(Start(store, log), cfg, rows, faults, 1))
  {
    MisreportsIff(store, log, cfg, rows, faults);
  }

  /** Two records of one new code, of which the first fails to be created, are such an input. */
  lemma FailedCreateShadowsRetry(n: Code, cfg: Config)
    requires !cfg.dryRun && ConfigOk(cfg)
    ensures var faults := (row: nat) => Fault(false, row == 1, false);
      Misreports(Run(Start(map[], []), cfg, ClassifyAll([[n], [n]]), faults, 1))
  {
    var faults := (row: nat) => Fault(false, row == 1, false);
    var good := Good(n, "imported");
    CodeRecord(n);
    var rows := ClassifyAll([[n], [n]]);
    assert rows == [good, good];
    var s1 := Step(Start(map[], []), cfg, 1, good, faults(1));
    assert rows[1..] == [good] && [good][1..] == [];
    assert Reached(s1, cfg, [good], faults, 2) == 1;
    assert ShadowedRetry(map[], rows, faults, 0, 1);
    ShadowMisreports(map[], [], cfg, rows, faults, 0, 1);
  }

  // ----- the whole report, under any faults

  /** The item of a data row, from the initial store, the rows before it and the faults alone. */
  function FaultyItem(
    store: map<string, Card>, earlier: seq<Row>, r: Row, faults: nat -> Fault, cfg: Config): seq<Item>
  {
    var row := |earlier| + 1;
    var f := faults(row);
    match r
    case Ignored => []
    case Blank => [Item(row, "", "", Skipped, EmptyCode)]
    case Bad(code, note, why) => [Item(row, code, note, Invalid, Rejected(why))]
    case Good(n, note) =>
      var code := StoredCode(n);
      if code !in store && TryOf(earlier, faults, n).Some? then [Item(row, code, note, Duplicate, AlreadyExists)]
      else if f.lookup then [Item(row, code, note, Errored, DatabaseError)]
      else if code in store then [Item(row, code, note, Duplicate, AlreadyExists)]
      else if cfg.dryRun then [Item(row, code, note, ValidRow, NoMessage)]
      else if f.create || !ConfigOk(cfg) then [Item(row, code, note, Invalid, CreateFailed)]
      else if f.audit then [Item(row, code, note, Errored, AuditFailed)]
      else [Item(row, code, note, Imported, NoMessage)]
  }

  function FaultyReport(store: map<string, Card>, rows: seq<Row>, faults: nat -> Fault, cfg: Config): seq<Item> {
    if rows == [] then []
    else
      var earlier := rows[..|rows| - 1];
      FaultyReport(store, earlier, faults, cfg) + FaultyItem(store, earlier, rows[|rows| - 1], faults, cfg)
  }

  /** What is marked as seen and what was added to the store, after these rows. */
  ghost predicate KnowsNew(s: State, store: map<string, Card>, rows: seq<Row>, faults: nat -> Fault) {
    && (forall n: Code :: n in s.seen <==> StoredCode(n) !in store && TryOf(rows, faults, n).Some?)
    && (forall c :: c in store ==> c in s.store)
    && (forall n: Code :: StoredCode(n) in s.store ==> StoredCode(n) in store || n in s.seen)
  }

  lemma StepReportsFaulty(s: State, cfg: Config, store: map<string, Card>, rows: seq<Row>, faults: nat -> Fault)
    requires rows != [] && !s.stopped && KnowsNew(s, store, rows[..|rows| - 1], faults)
    ensures var next := Step(s, cfg, |rows|, rows[|rows| - 1], faults(|rows|));
      var more := FaultyItem(store, rows[..|rows| - 1], rows[|rows| - 1], faults, cfg);
      && next.report.items == s.report.items + more
      && (next.stopped <==> FailsAudit(store, rows[..|rows| - 1], rows[|rows| - 1], faults, cfg))
  {
  }

  lemma StepKnowsNew(s: State, cfg: Config, store: map<string, Card>, rows: seq<Row>, faults: nat -> Fault)
    requires rows != [] && !s.stopped && KnowsNew(s, store, rows[..|rows| - 1], faults)
    ensures KnowsNew(Step(s, cfg, |rows|, rows[|rows| - 1], faults(|rows|)), store, rows, faults)
  {
    var r := rows[|rows| - 1];
    var next := Step(s, cfg, |rows|, r, faults(|rows|));
    forall n: Code
      ensures n in next.seen <==> StoredCode(n) !in store && TryOf(rows, faults, n).Some?
      ensures StoredCode(n) in next.store ==> StoredCode(n) in store || n in next.seen
    {
      if r.Good? && StoredCode(n) == StoredCode(r.normalized) {
        StoredCodeInjective(n, r.normalized);
      }
    }
  }

  lemma {:induction false} ReachedKnowsNew(
    store: map<string, Card>, log: seq<Event>, cfg: Config, rows: seq<Row>, faults: nat -> Fault)
    requires Reached(Start(store, log), cfg, rows, faults, 1) == |rows|
    ensures KnowsNew(Run(Start(store, log), cfg, rows, faults, 1), store, rows, faults)
    decreases |rows|
  {
    if rows != [] {
      var start, k := Start(store, log), |rows| - 1;
      ReachedPrefix(start, cfg, rows, faults, 1, k);
      ReachedKnowsNew(store, log, cfg, rows[..k], faults);
      RunNext(start, cfg, rows, k, faults);
      assert rows[..k + 1] == rows;
      StepKnowsNew(Run(start, cfg, rows[..k], faults, 1), cfg, store, rows, faults);
    }
  }

  /** The last row's step, on top of what the rows before it led to. */
  lemma LastReport(store: map<string, Card>, log: seq<Event>, cfg: Config, rows: seq<Row>, faults: nat -> Fault)
    requires rows != [] && Reached(Start(store, log), cfg, rows, faults, 1) == |rows|
    ensures var r, k := Run(Start(store, log), cfg, rows, faults, 1), |rows| - 1;
      && r.report.items == Run(Start(store, log), cfg, rows[..k], faults, 1).report.items
          + FaultyItem(store, rows[..k], rows[k], faults, cfg)
      && (r.stopped <==> FailsAudit(store, rows[..k], rows[k], faults, cfg))
  {
    var start, k := Start(store, log), |rows| - 1;
    ReachedPrefix(start, cfg, rows, faults, 1, k);
    ReachedKnowsNew(store, log, cfg, rows[..k], faults);
    RunNext(start, cfg, rows, k, faults);
    assert rows[..k + 1] == rows;
    StepReportsFaulty(Run(start, cfg, rows[..k], faults, 1), cfg, store, rows, faults);
  }

  lemma {:induction false} ReachedReport(
    store: map<string, Card>, log: seq<Event>, cfg: Config, rows: seq<Row>, faults: nat -> Fault)
    requires Reached(Start(store, log), cfg, rows, faults, 1) == |rows|
    ensures Run(Start(store, log), cfg, rows, faults, 1).report.items == FaultyReport(store, rows, faults, cfg)
    decreases |rows|
  {
    if rows != [] {
      ReachedPrefix(Start(store, log), cfg, rows, faults, 1, |rows| - 1);
      LastReport(store, log, cfg, rows, faults);
      ReachedReport(store, log, cfg, rows[..|rows| - 1], faults);
    }
  }

  /** The card of the row after `earlier` is created and its audit event is not. */
  predicate FailsAudit(store: map<string, Card>, earlier: seq<Row>, r: Row, faults: nat -> Fault, cfg: Config) {
    var items := FaultyItem(store, earlier, r, faults, cfg);
    items != [] && items[0].message == AuditFailed
  }

  lemma StopsAtFailure(
    store: map<string, Card>, log: seq<Event>, cfg: Config, rows: seq<Row>, faults: nat -> Fault, k: nat)
    requires k < Reached(Start(store, log), cfg, rows, faults, 1)
    ensures Run(Start(store, log), cfg, rows[..k + 1], faults, 1).stopped
      <==> FailsAudit(store, rows[..k], rows[k], faults, cfg)
  {
    ReachedPrefix(Start(store, log), cfg, rows, faults, 1, k + 1);
    LastReport(store, log, cfg, rows[..k + 1], faults);
    assert rows[..k + 1][..k] == rows[..k];
  }

  lemma GoesOnBefore(
    store: map<string, Card>, log: seq<Event>, cfg: Config, rows: seq<Row>, faults: nat -> Fault, k: nat)
    requires k + 1 < Reached(Start(store, log), cfg, rows, faults, 1)
    ensures !FailsAudit(store, rows[..k], rows[k], faults, cfg)
  {
    ReachedPrefix(Start(store, log), cfg, rows, faults, 1, k + 1);
    StopsAtFailure(store, log, cfg, rows, faults, k);
  }

  lemma {:induction false} UnstoppedReachesAll(s: State, cfg: Config, rows: seq<Row>, faults: nat -> Fault, first: nat)
    requires !Run(s, cfg, rows, faults, first).stopped
    ensures Reached(s, cfg, rows, faults, first) == |rows|
    decreases |rows|
  {
    if rows != [] && !s.stopped {
      UnstoppedReachesAll(Step(s, cfg, first, rows[0], faults(first)), cfg, rows[1..], faults, first + 1);
    }
  }

  /**
   * Under any faults, dry or not, the import looks at the rows up to and
   * including the first whose audit event fails, or at all, and reports of each
   * what the plain definition says.
   */
  lemma ReportUnderFaults(
    store: map<string, Card>, log: seq<Event>, cfg: Config, rows: seq<Row>, faults: nat -> Fault)
    ensures var r := Run(Start(store, log), cfg, rows, faults, 1);
      var p := Reached(Start(store, log), cfg, rows, faults, 1);
      && r.report.items == FaultyReport(store, rows[..p], faults, cfg)
      && (forall k: nat :: k + 1 < p ==> !FailsAudit(store, rows[..k], rows[k], faults, cfg))
      && (r.stopped <==> p > 0 && FailsAudit(store, rows[..p - 1], rows[p - 1], faults, cfg))
      && (!r.stopped ==> p == |rows|)
  {
    var start := Start(store, log);
    var p := Reached(start, cfg, rows, faults, 1);
    ReachedPrefix(start, cfg, rows, faults, 1, p);
    ReachedReport(store, log, cfg, rows[..p], faults);
    if !Run(start, cfg, rows, faults, 1).stopped {
      UnstoppedReachesAll(start, cfg, rows, faults, 1);
    }
    if p > 0 {
      StopsAtFailure(store, log, cfg, rows, faults, p - 1);
    }
    forall k: nat | k + 1 < p
      ensures !FailsAudit(store, rows[..k], rows[k], faults, cfg)
    {
      GoesOnBefore(store, log, cfg, rows, faults, k);
    }
  }

  // ----- the counters

  datatype Counter = ValidCount | ImportedCount | DuplicateCount | InvalidCount | SkippedCount

  /** Which items a counter is about. */
  predicate Counts(c: Counter, item: Item) {
    match c
    case ValidCount => item.status == ValidRow || item.status == Imported || item.message == AuditFailed
    case ImportedCount => item.status == Imported || item.message == AuditFailed
    case DuplicateCount => item.status == Duplicate
    case InvalidCount => item.status == Invalid || item.message == DatabaseError
    case SkippedCount => item.status == Skipped
  }

  function Counted(items: seq<Item>, c: Counter): set<int> {
    set i | 0 <= i < |items| && Counts(c, items[i])
  }

  lemma CountedSnoc(items: seq<Item>, item: Item, c: Counter)
    ensures |Counted(items + [item], c)| == |Counted(items, c)| + if Counts(c, item) then 1 else 0
  {
    var more := items + [item];
    assert Counted(more, c) == Counted(items, c) + if Counts(c, item) then {|items|} else {};
  }

  predicate CountersCount(r: Report) {
    && r.validRows == |Counted(r.items, ValidCount)|
    && r.imported == |Counted(r.items, ImportedCount)|
    && r.duplicates == |Counted(r.items, DuplicateCount)|
    && r.invalid == |Counted(r.items, InvalidCount)|
    && r.skipped == |Counted(r.items, SkippedCount)|
  }

  function One(c: Counter, item: Item): nat {
    if Counts(c, item) then 1 else 0
  }

  /** One more item, counted where it belongs. */
  function CountedUp(r: Report, item: Item): Report {
    Report(r.totalRows + 1, r.validRows + One(ValidCount, item), r.imported + One(ImportedCount, item),
      r.duplicates + One(DuplicateCount, item), r.invalid + One(InvalidCount, item),
      r.skipped + One(SkippedCount, item), r.items + [item])
  }

  lemma CountedUpCounts(r: Report, item: Item)
    requires CountersCount(r)
    ensures CountersCount(CountedUp(r, item))
  {
    CountedSnoc(r.items, item, ValidCount);
    CountedSnoc(r.items, item, ImportedCount);
    CountedSnoc(r.items, item, DuplicateCount);
    CountedSnoc(r.items, item, InvalidCount);
    CountedSnoc(r.items, item, SkippedCount);
  }

  lemma GoodCountsUp(s: State, cfg: Config, row: nat, n: Code, note: string, f: Fault) returns (item: Item)
    ensures Step(s, cfg, row, Good(n, note), f).report == CountedUp(s.report, item)
  {
    var code := StoredCode(n);
    if n in s.seen || (!f.lookup && code in s.store) {
      item := Item(row, code, note, Duplicate, AlreadyExists);
    } else if f.lookup {
      item := Item(row, code, note, Errored, DatabaseError);
    } else {
      item := if cfg.dryRun then Item(row, code, note, ValidRow, NoMessage)
        else if f.create || !ConfigOk(cfg) then Item(row, code, note, Invalid, CreateFailed)
        else if f.audit then Item(row, code, note, Errored, AuditFailed)
        else Item(row, code, note, Imported, NoMessage);
    }
  }

  lemma StepCounts(s: State, cfg: Config, row: nat, r: Row, f: Fault)
    requires CountersCount(s.report)
    ensures CountersCount(Step(s, cfg, row, r, f).report)
  {
    match r
    case Ignored =>
    case Blank => CountedUpCounts(s.report, Item(row, "", "", Skipped, EmptyCode));
    case Bad(code, note, why) => CountedUpCounts(s.report, Item(row, code, note, Invalid, Rejected(why)));
    case Good(n, note) =>
      var item := GoodCountsUp(s, cfg, row, n, note, f);
      CountedUpCounts(s.report, item);
  }

  /** Under any faults each counter is the number of the items it is about. */
  lemma {:induction false} RunCounts(s: State, cfg: Config, rows: seq<Row>, faults: nat -> Fault, first: nat)
    requires CountersCount(s.report)
    ensures CountersCount(Run(s, cfg, rows, faults, first).report)
    decreases |rows|
  {
    if rows != [] && !s.stopped {
      StepCounts(s, cfg, first, rows[0], faults(first));
      RunCounts(Step(s, cfg, first, rows[0], faults(first)), cfg, rows[1..], faults, first + 1);
    }
  }
}
