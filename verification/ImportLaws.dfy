/** Laws relating several imports: an import cut in two, and an import repeated. */
module ImportLaws {
  import opened CardImport

  // ----- splitting an import

  function Shift(items: seq<Item>, offset: nat): seq<Item> {
    seq(|items|, i requires 0 <= i < |items| => items[i].(row := items[i].row + offset))
  }

  /** Report a followed by report b, whose rows come `offset` later. */
  function Joined(a: Report, b: Report, offset: nat): Report {
    Report(a.totalRows + b.totalRows, a.validRows + b.validRows, a.imported + b.imported, a.duplicates + b.duplicates,
      a.invalid + b.invalid, a.skipped + b.skipped, a.items + Shift(b.items, offset))
  }

  /** `w` continues after report `a`; `b` started afresh on the store it left. */
  ghost predicate Continues(a: Report, w: State, b: State, offset: nat) {
    && !w.stopped && !b.stopped && w.store == b.store && w.audit == b.audit
    && w.report == Joined(a, b.report, offset)
    && b.seen <= w.seen
    && (forall n: Code :: n in w.seen && n !in b.seen ==> StoredCode(n) in b.store)
  }

  lemma StepContinues(a: Report, cfg: Config, w: State, b: State, row: nat, offset: nat, x: Row)
    requires !cfg.dryRun && ConfigOk(cfg) && Continues(a, w, b, offset)
    ensures Continues(a, Step(w, cfg, row + offset, x, NO_FAULT), Step(b, cfg, row, x, NO_FAULT), offset)
  {
    var b' := Step(b, cfg, row, x, NO_FAULT);
    if x != Ignored {
      var item := b'.report.items[|b.report.items|];
      assert b'.report.items == b.report.items + [item];
      assert Shift(b'.report.items, offset) == Shift(b.report.items, offset) + [item.(row := item.row + offset)];
    }
  }

  lemma {:induction false} RunsContinue(
    a: Report, cfg: Config, w: State, b: State, rows: seq<Row>, faults: nat -> Fault, first: nat, offset: nat)
    requires !cfg.dryRun && ConfigOk(cfg) && FaultFree(faults) && Continues(a, w, b, offset)
    ensures Continues(a, Run(w, cfg, rows, faults, first + offset), Run(b, cfg, rows, faults, first), offset)
    decreases |rows|
  {
    if rows != [] {
      StepContinues(a, cfg, w, b, first, offset, rows[0]);
      RunsContinue(a, cfg, Step(w, cfg, first + offset, rows[0], NO_FAULT), Step(b, cfg, first, rows[0], NO_FAULT),
        rows[1..], faults, first + 1, offset);
    }
  }

  /** After a healthy real run every code it has seen is in the store. */
  ghost predicate SeenStored(s: State) {
    !s.stopped && forall n: Code :: n in s.seen ==> StoredCode(n) in s.store
  }

  lemma {:induction false} SeenIsStored(s: State, cfg: Config, rows: seq<Row>, faults: nat -> Fault, first: nat)
    requires !cfg.dryRun && ConfigOk(cfg) && FaultFree(faults) && SeenStored(s)
    ensures SeenStored(Run(s, cfg, rows, faults, first))
    ensures s.store.Keys <= Run(s, cfg, rows, faults, first).store.Keys
    decreases |rows|
  {
    if rows != [] {
      SeenIsStored(Step(s, cfg, first, rows[0], NO_FAULT), cfg, rows[1..], faults, first + 1);
    }
  }

  lemma JoinedFresh(r: Report, offset: nat)
    ensures Joined(r, Report(0, 0, 0, 0, 0, 0, []), offset) == r
  {
  }

  /** Going on from a healthy import, or starting over on its store. */
  lemma ResumeImport(one: State, cfg: Config, b: seq<Row>, faults: nat -> Fault, offset: nat)
    requires !cfg.dryRun && ConfigOk(cfg) && FaultFree(faults) && SeenStored(one)
    ensures Continues(one.report,
      Run(one, cfg, b, faults, 1 + offset), Run(Start(one.store, one.audit), cfg, b, faults, 1), offset)
  {
    JoinedFresh(one.report, offset);
    RunsContinue(one.report, cfg, one, Start(one.store, one.audit), b, faults, 1, offset);
  }

  /**
   * Importing a ++ b at once, or a and then b, leaves the same store and audit
   * log and the joined report: across the cut the store lookup stands in for
   * the in-memory set of codes already seen.
   */
  lemma SplitImport(
    store: map<string, Card>, log: seq<Event>, cfg: Config, a: seq<Row>, b: seq<Row>, faults: nat -> Fault)
    requires !cfg.dryRun && ConfigOk(cfg) && FaultFree(faults)
    ensures SplitsAt(store, log, cfg, a, b, faults)
  {
    SeenIsStored(Start(store, log), cfg, a, faults, 1);
    RunAppend(Start(store, log), cfg, a, b, faults, 1);
    ResumeImport(Run(Start(store, log), cfg, a, faults, 1), cfg, b, faults, |a|);
  }

  ghost predicate SplitsAt(
    store: map<string, Card>, log: seq<Event>, cfg: Config, a: seq<Row>, b: seq<Row>, faults: nat -> Fault)
  {
    var whole := Run(Start(store, log), cfg, a + b, faults, 1);
    var one := Run(Start(store, log), cfg, a, faults, 1);
    var two := Run(Start(one.store, one.audit), cfg, b, faults, 1);
    && whole.store == two.store && whole.audit == two.audit
    && whole.report == Joined(one.report, two.report, |a|)
  }

  // ----- splitting a pass that imports nothing

  /** The report with one more item counted under its status. */
  function Tally(r: Report, item: Item): Report {
    var t := r.(totalRows := r.totalRows + 1);
    AddItem(
      match item.status
        case Skipped => t.(skipped := t.skipped + 1)
        case Invalid => t.(invalid := t.invalid + 1)
        case Duplicate => t.(duplicates := t.duplicates + 1)
        case Errored => t
        case ValidRow => t.(validRows := t.validRows + 1)
        case Imported => t.(validRows := t.validRows + 1, imported := t.imported + 1),
      item)
  }

  /** The report that goes with these items on a healthy store. */
  function Summary(items: seq<Item>): Report {
    if items == [] then Report(0, 0, 0, 0, 0, 0, []) else Tally(Summary(items[..|items| - 1]), items[|items| - 1])
  }

  lemma SummarySnoc(items: seq<Item>, item: Item)
    ensures Summary(items + [item]) == Tally(Summary(items), item)
  {
    assert (items + [item])[..|items|] == items;
  }

  lemma GoodTallies(s: State, cfg: Config, row: nat, n: Code, note: string) returns (item: Item)
    requires !s.stopped
    ensures Step(s, cfg, row, Good(n, note), NO_FAULT).report == Tally(s.report, item)
  {
    item := Item(row, StoredCode(n), note, Duplicate, AlreadyExists);
    if n !in s.seen && StoredCode(n) !in s.store {
      item := if cfg.dryRun then item.(status := ValidRow, message := NoMessage)
        else if ConfigOk(cfg) then item.(status := Imported, message := NoMessage)
        else item.(status := Invalid, message := CreateFailed);
    }
  }

  /** On a healthy store a data row is counted once, under its item's status. */
  lemma StepTallies(s: State, cfg: Config, row: nat, r: Row) returns (item: Item)
    requires !s.stopped && !r.Ignored?
    ensures Step(s, cfg, row, r, NO_FAULT).report == Tally(s.report, item)
  {
    match r
    case Blank => item := Item(row, "", "", Skipped, EmptyCode);
    case Bad(code, note, why) => item := Item(row, code, note, Invalid, Rejected(why));
    case Good(n, note) => item := GoodTallies(s, cfg, row, n, note);
  }

  lemma TallyItems(r: Report, item: Item)
    ensures Tally(r, item).items == r.items + [item]
  {
  }

  lemma {:induction false} SummaryItems(items: seq<Item>)
    ensures Summary(items).items == items
    decreases |items|
  {
    if items != [] {
      var front, last := items[..|items| - 1], items[|items| - 1];
      SummaryItems(front);
      TallyItems(Summary(front), last);
      assert items == front + [last];
    }
  }

  /** Without faults the counters say no more than the items do. */
  lemma {:induction false} RunSummary(s: State, cfg: Config, rows: seq<Row>, faults: nat -> Fault, first: nat,
      items: seq<Item>)
    returns (all: seq<Item>)
    requires FaultFree(faults) && s.report == Summary(items)
    ensures Run(s, cfg, rows, faults, first).report == Summary(all)
    decreases |rows|
  {
    all := items;
    if rows != [] && !s.stopped {
      if !rows[0].Ignored? {
        var item := StepTallies(s, cfg, first, rows[0]);
        SummarySnoc(items, item);
        all := items + [item];
      }
      all := RunSummary(Step(s, cfg, first, rows[0], NO_FAULT), cfg, rows[1..], faults, first + 1, all);
    }
  }

  lemma CountersFromItems(store: map<string, Card>, log: seq<Event>, cfg: Config, rows: seq<Row>, faults: nat -> Fault)
    requires FaultFree(faults)
    ensures var r := Run(Start(store, log), cfg, rows, faults, 1).report; r == Summary(r.items)
  {
    var items := RunSummary(Start(store, log), cfg, rows, faults, 1, []);
    SummaryItems(items);
  }

  lemma ShiftSnoc(items: seq<Item>, item: Item, offset: nat)
    ensures Shift(items + [item], offset) == Shift(items, offset) + [item.(row := item.row + offset)]
  {
  }

  lemma {:induction false} SummaryJoins(a: seq<Item>, b: seq<Item>, offset: nat)
    ensures Summary(a + Shift(b, offset)) == Joined(Summary(a), Summary(b), offset)
    decreases |b|
  {
    if b == [] {
      assert a + Shift(b, offset) == a;
    } else {
      var front, last := b[..|b| - 1], b[|b| - 1];
      SummaryJoins(a, front, offset);
      assert b == front + [last];
      ShiftSnoc(front, last, offset);
      assert a + Shift(b, offset) == (a + Shift(front, offset)) + [last.(row := last.row + offset)];
      SummarySnoc(a + Shift(front, offset), last.(row := last.row + offset));
      TallyJoins(Summary(a), Summary(front), last, offset);
    }
  }

  lemma TallyJoins(a: Report, b: Report, item: Item, offset: nat)
    ensures Tally(Joined(a, b, offset), item.(row := item.row + offset)) == Joined(a, Tally(b, item), offset)
  {
    ShiftSnoc(b.items, item, offset);
  }

  /** Some code new to the store is on both sides of the cut. */
  ghost predicate SharesNewCode(store: map<string, Card>, a: seq<Row>, b: seq<Row>) {
    exists j :: 0 <= j < |b| && b[j].Good? && StoredCode(b[j].normalized) !in store && Mentions(a, b[j].normalized)
  }

  ghost predicate Mentions(rows: seq<Row>, n: Code) {
    exists i :: 0 <= i < |rows| && rows[i].Good? && rows[i].normalized == n
  }

  lemma MentionsAppend(a: seq<Row>, b: seq<Row>, n: Code)
    ensures Mentions(a + b, n) <==> Mentions(a, n) || Mentions(b, n)
  {
    if Mentions(a, n) {
      var i :| 0 <= i < |a| && a[i].Good? && a[i].normalized == n;
      assert (a + b)[i] == a[i];
    }
    if Mentions(b, n) {
      var i :| 0 <= i < |b| && b[i].Good? && b[i].normalized == n;
      assert (a + b)[|a| + i] == b[i];
    }
  }

  function DataCount(rows: seq<Row>): nat {
    if rows == [] then 0 else DataCount(rows[..|rows| - 1]) + if rows[|rows| - 1].Ignored? then 0 else 1
  }

  lemma {:induction false} DataCountAppend(a: seq<Row>, b: seq<Row>)
    ensures DataCount(a + b) == DataCount(a) + DataCount(b)
    decreases |b|
  {
    if b == [] {
      assert a + b == a;
    } else {
      assert (a + b)[..|a + b| - 1] == a + b[..|b| - 1];
      DataCountAppend(a, b[..|b| - 1]);
    }
  }

  lemma {:induction false} ReferenceLength(store: map<string, Card>, rows: seq<Row>, cfg: Config)
    ensures |Reference(store, rows, cfg)| == DataCount(rows)
    decreases |rows|
  {
    if rows != [] {
      ReferenceLength(store, rows[..|rows| - 1], cfg);
    }
  }

  /** The row's new code is named before the cut, but not after it. */
  ghost predicate OnlyBefore(store: map<string, Card>, a: seq<Row>, b: seq<Row>, x: Row) {
    x.Good? && StoredCode(x.normalized) !in store && Mentions(a, x.normalized) && !Mentions(b, x.normalized)
  }

  lemma KnownAcrossCut(store: map<string, Card>, a: seq<Row>, b: seq<Row>, n: Code)
    ensures Known(store, a + b, n) <==> StoredCode(n) in store || Mentions(a, n) || Mentions(b, n)
    ensures Known(store, b, n) <==> StoredCode(n) in store || Mentions(b, n)
  {
    MentionsAppend(a, b, n);
  }

  /** The last row after the cut reads differently exactly when only the first part names its new code. */
  lemma LastRowDiffers(store: map<string, Card>, a: seq<Row>, b: seq<Row>, x: Row, cfg: Config)
    ensures ReferenceItem(store, a + b, |a| + |b| + 1, x, cfg) == Shift(ReferenceItem(store, b, |b| + 1, x, cfg), |a|)
      <==> !OnlyBefore(store, a, b, x)
  {
    var after := ReferenceItem(store, b, |b| + 1, x, cfg);
    if x.Ignored? {
      assert Shift(after, |a|) == [];
    } else {
      assert Shift(after, |a|) == [after[0].(row := |a| + |b| + 1)];
      if x.Good? {
        KnownAcrossCut(store, a, b, x.normalized);
        assert OnlyBefore(store, a, b, x) <==> Known(store, a + b, x.normalized) && !Known(store, b, x.normalized);
        assert ReferenceItem(store, a + b, |a| + |b| + 1, x, cfg)[0].status == Duplicate <==>
          Known(store, a + b, x.normalized);
        assert after[0].status == Duplicate <==> Known(store, b, x.normalized);
      }
    }
  }

  lemma SharesSnoc(store: map<string, Card>, a: seq<Row>, b: seq<Row>, x: Row)
    ensures SharesNewCode(store, a, b + [x]) <==> SharesNewCode(store, a, b) || OnlyBefore(store, a, b, x)
  {
    var more := b + [x];
    if SharesNewCode(store, a, b) {
      var j :| 0 <= j < |b| && b[j].Good? && StoredCode(b[j].normalized) !in store && Mentions(a, b[j].normalized);
      assert more[j] == b[j];
    }
    if x.Good? && Mentions(b, x.normalized) {
      var j :| 0 <= j < |b| && b[j].Good? && b[j].normalized == x.normalized;
      assert more[|b|] == x;
    } else {
      assert more[|b|] == x;
    }
    if SharesNewCode(store, a, more) {
      var j :| 0 <= j < |more| && more[j].Good? && StoredCode(more[j].normalized) !in store
        && Mentions(a, more[j].normalized);
      assert j < |b| ==> more[j] == b[j];
    }
  }

  ghost predicate ReferenceSplits(store: map<string, Card>, a: seq<Row>, b: seq<Row>, cfg: Config) {
    Reference(store, a + b, cfg) == Reference(store, a, cfg) + Shift(Reference(store, b, cfg), |a|)
  }

  lemma ReferenceSnoc(store: map<string, Card>, rows: seq<Row>, x: Row, cfg: Config)
    ensures Reference(store, rows + [x], cfg)
      == Reference(store, rows, cfg) + ReferenceItem(store, rows, |rows| + 1, x, cfg)
  {
    assert (rows + [x])[..|rows|] == rows;
  }

  lemma AppendAcross(a: seq<Row>, b: seq<Row>, x: Row)
    ensures a + (b + [x]) == (a + b) + [x]
  {
  }

  lemma ReferenceSnocAcross(store: map<string, Card>, a: seq<Row>, b: seq<Row>, x: Row, cfg: Config)
    ensures Reference(store, a + (b + [x]), cfg)
      == Reference(store, a + b, cfg) + ReferenceItem(store, a + b, |a| + |b| + 1, x, cfg)
  {
    AppendAcross(a, b, x);
    ReferenceSnoc(store, a + b, x, cfg);
  }

  lemma ReferenceSnocShifted(store: map<string, Card>, b: seq<Row>, x: Row, cfg: Config, offset: nat)
    ensures Shift(Reference(store, b + [x], cfg), offset)
      == Shift(Reference(store, b, cfg), offset) + Shift(ReferenceItem(store, b, |b| + 1, x, cfg), offset)
  {
    ReferenceSnoc(store, b, x, cfg);
    ShiftAppend(Reference(store, b, cfg), ReferenceItem(store, b, |b| + 1, x, cfg), offset);
  }

  lemma SplitStep(store: map<string, Card>, a: seq<Row>, b: seq<Row>, x: Row, cfg: Config)
    ensures ReferenceSplits(store, a, b + [x], cfg) <==>
      ReferenceSplits(store, a, b, cfg) && !OnlyBefore(store, a, b, x)
  {
    ReferenceSnocAcross(store, a, b, x, cfg);
    ReferenceSnocShifted(store, b, x, cfg, |a|);
    SplitLengths(store, a, b, cfg);
    LastRowDiffers(store, a, b, x, cfg);
    AppendsEqual(Reference(store, a + b, cfg), Reference(store, a, cfg), Shift(Reference(store, b, cfg), |a|),
      ReferenceItem(store, a + b, |a| + |b| + 1, x, cfg), Shift(ReferenceItem(store, b, |b| + 1, x, cfg), |a|));
  }

  lemma {:induction false} ReferenceSplitsIff(store: map<string, Card>, a: seq<Row>, b: seq<Row>, cfg: Config)
    ensures ReferenceSplits(store, a, b, cfg) <==> !SharesNewCode(store, a, b)
    decreases |b|
  {
    if b == [] {
      assert a + b == a;
      assert Shift(Reference(store, b, cfg), |a|) == [];
    } else {
      var front, x := b[..|b| - 1], b[|b| - 1];
      assert b == front + [x];
      ReferenceSplitsIff(store, a, front, cfg);
      SplitStep(store, a, front, x, cfg);
      SharesSnoc(store, a, front, x);
    }
  }

  lemma ShiftAppend(a: seq<Item>, b: seq<Item>, offset: nat)
    ensures Shift(a + b, offset) == Shift(a, offset) + Shift(b, offset)
  {
  }

  lemma AppendsEqual<T>(whole: seq<T>, one: seq<T>, two: seq<T>, x: seq<T>, y: seq<T>)
    requires |whole| == |one + two|
    ensures whole + x == one + (two + y) <==> whole == one + two && x == y
  {
    assert one + (two + y) == (one + two) + y;
    if whole + x == (one + two) + y {
      assert whole == (whole + x)[..|whole|] && one + two == ((one + two) + y)[..|whole|];
      assert x == (whole + x)[|whole|..] && y == ((one + two) + y)[|whole|..];
    }
  }

  lemma SplitLengths(store: map<string, Card>, a: seq<Row>, b: seq<Row>, cfg: Config)
    ensures |Reference(store, a + b, cfg)| == |Reference(store, a, cfg) + Shift(Reference(store, b, cfg), |a|)|
  {
    DataCountAppend(a, b);
    ReferenceLength(store, a + b, cfg);
    ReferenceLength(store, a, cfg);
    ReferenceLength(store, b, cfg);
  }

  /** A dry run, or a run CreateWithCode refuses, leaves the store alone. */
  lemma {:induction false} ImportsNothing(s: State, cfg: Config, rows: seq<Row>, faults: nat -> Fault, first: nat)
    requires cfg.dryRun || !ConfigOk(cfg)
    ensures var r := Run(s, cfg, rows, faults, first); r.store == s.store && r.audit == s.audit
    decreases |rows|
  {
    if rows != [] && !s.stopped {
      ImportsNothing(Step(s, cfg, first, rows[0], faults(first)), cfg, rows[1..], faults, first + 1);
    }
  }

  /**
   * Whether a healthy pass may be split: always if it really imports, and
   * otherwise, as in a dry run, exactly when no code new to the store is on
   * both sides of the cut.
   */
  lemma SplitImportIff(
    store: map<string, Card>, log: seq<Event>, cfg: Config, a: seq<Row>, b: seq<Row>, faults: nat -> Fault)
    requires FaultFree(faults)
    ensures SplitsAt(store, log, cfg, a, b, faults) <==> (!cfg.dryRun && ConfigOk(cfg)) || !SharesNewCode(store, a, b)
  {
    if !cfg.dryRun && ConfigOk(cfg) {
      SplitImport(store, log, cfg, a, b, faults);
    } else {
      var start := Start(store, log);
      ImportsNothing(start, cfg, a, faults, 1);
      ImportsNothing(start, cfg, b, faults, 1);
      ImportsNothing(start, cfg, a + b, faults, 1);
      ReportIsReference(store, log, cfg, a, faults);
      ReportIsReference(store, log, cfg, b, faults);
      ReportIsReference(store, log, cfg, a + b, faults);
      CountersFromItems(store, log, cfg, a, faults);
      CountersFromItems(store, log, cfg, b, faults);
      CountersFromItems(store, log, cfg, a + b, faults);
      ReferenceSplitsIff(store, a, b, cfg);
      SummaryJoins(Reference(store, a, cfg), Reference(store, b, cfg), |a|);
    }
  }

  /** Two records of one new code, previewed one by one: the second preview misses the repetition. */
  lemma CutPreviewMissesRepeat(n: Code, cfg: Config, faults: nat -> Fault)
    requires cfg.dryRun && FaultFree(faults)
    ensures !SplitsAt(map[], [], cfg, ClassifyAll([[n]]), ClassifyAll([[n]]), faults)
  {
    CodeRecord(n);
    var rows := ClassifyAll([[n]]);
    assert rows[0].Good? && rows[0].normalized == n;
    assert Mentions(rows, n);
    assert SharesNewCode(map[], rows, rows);
    SplitImportIff(map[], [], cfg, rows, rows, faults);
  }

  // ----- importing the same records again

  /** `two` re-reads the records of `one` on the final store. */
  ghost predicate Rereads(one: State, two: State, final: map<string, Card>, log: seq<Event>) {
    && SeenStored(one) && !two.stopped && two.seen == {} && two.store == final && two.audit == log
    && two.report == one.report.(
      imported := 0, validRows := 0, duplicates := one.report.duplicates + one.report.validRows,
      items := Relabel(one.report.items, Imported, Duplicate, AlreadyExists))
  }

  lemma StepRereads(cfg: Config, one: State, two: State, row: nat, x: Row, final: map<string, Card>, log: seq<Event>)
    requires !cfg.dryRun && ConfigOk(cfg) && Rereads(one, two, final, log)
    requires Step(one, cfg, row, x, NO_FAULT).store.Keys <= final.Keys
    ensures Rereads(Step(one, cfg, row, x, NO_FAULT), Step(two, cfg, row, x, NO_FAULT), final, log)
  {
    var next := Step(one, cfg, row, x, NO_FAULT);
    if x != Ignored {
      var item := next.report.items[|one.report.items|];
      assert next.report.items == one.report.items + [item];
      RelabelSnoc(one.report.items, item, Imported, Duplicate, AlreadyExists);
    }
    if x.Good? {
      assert StoredCode(x.normalized) in next.store.Keys;
    }
  }

  lemma {:induction false} RunsReread(
    cfg: Config, one: State, two: State, rows: seq<Row>, faults: nat -> Fault, first: nat, log: seq<Event>)
    requires !cfg.dryRun && ConfigOk(cfg) && FaultFree(faults)
    requires Rereads(one, two, Run(one, cfg, rows, faults, first).store, log)
    ensures var r := Run(one, cfg, rows, faults, first); Rereads(r, Run(two, cfg, rows, faults, first), r.store, log)
    decreases |rows|
  {
    if rows != [] {
      var next := Step(one, cfg, first, rows[0], NO_FAULT);
      SeenIsStored(one, cfg, rows[..1], faults, first);
      assert Run(one, cfg, rows[..1], faults, first) == next;
      SeenIsStored(next, cfg, rows[1..], faults, first + 1);
      StepRereads(cfg, one, two, first, rows[0], Run(one, cfg, rows, faults, first).store, log);
      RunsReread(cfg, next, Step(two, cfg, first, rows[0], NO_FAULT), rows[1..], faults, first + 1, log);
    }
  }

  /** Importing the same records a second time adds nothing and calls every imported row a duplicate. */
  lemma ReimportAddsNothing(store: map<string, Card>, log: seq<Event>, cfg: Config, rows: seq<Row>,
      faults: nat -> Fault)
    requires !cfg.dryRun && FaultFree(faults)
    ensures var one := Run(Start(store, log), cfg, rows, faults, 1);
      var two := Run(Start(one.store, one.audit), cfg, rows, faults, 1);
      && two.store == one.store && two.audit == one.audit
      && two.report == one.report.(
        imported := 0, validRows := 0, duplicates := one.report.duplicates + one.report.validRows,
        items := Relabel(one.report.items, Imported, Duplicate, AlreadyExists))
  {
    var one := Run(Start(store, log), cfg, rows, faults, 1);
    if ConfigOk(cfg) {
      RunsReread(cfg, Start(store, log), Start(one.store, one.audit), rows, faults, 1, one.audit);
    } else {
      ImportsNothing(Start(store, log), cfg, rows, faults, 1);
      RefusedImport(Start(store, log), cfg, rows, faults, 1);
      assert Relabel(one.report.items, Imported, Duplicate, AlreadyExists) == one.report.items;
    }
  }

  lemma {:induction false} RefusedImport(s: State, cfg: Config, rows: seq<Row>, faults: nat -> Fault, first: nat)
    requires !cfg.dryRun && !ConfigOk(cfg)
    requires s.report.imported == s.report.validRows == 0
    requires forall i :: 0 <= i < |s.report.items| ==> s.report.items[i].status != Imported
    ensures var r := Run(s, cfg, rows, faults, first).report;
      r.imported == r.validRows == 0 && forall i :: 0 <= i < |r.items| ==> r.items[i].status != Imported
    decreases |rows|
  {
    if rows != [] && !s.stopped {
      RefusedImport(Step(s, cfg, first, rows[0], faults(first)), cfg, rows[1..], faults, first + 1);
    }
  }
}
