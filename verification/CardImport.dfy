/** CSV card import: one pass over the records, with a report, a store and an audit log. */
module CardImport {
  import opened CardCodes
  import opened ImportText

  // ----- records

  type Code = n: string | IsCanonical(n) witness "000000000000000000"

  /** The key a code is stored under. */
  function StoredCode(n: Code): string {
    CanonicalIsFixed(n);
    FormatCardCode(n)
  }

  /** Three groups of six, joined by dashes. */
  lemma StoredWithDashes(n: Code)
    ensures StoredCode(n) == n[..6] + "-" + n[6..12] + "-" + n[12..]
  {
    CanonicalFormat(n);
    assert n[0..6] + ("-" + (n[6..12] + ("-" + n[12..18]))) == n[..6] + "-" + n[6..12] + "-" + n[12..];
  }

  lemma StoredCodeInjective(m: Code, n: Code)
    requires StoredCode(m) == StoredCode(n)
    ensures m == n
  {
    FormatInjective(m, n);
  }

  /** What the import reads in a record. */
  datatype Row =
    | Ignored                                           // no fields, or a header
    | Blank                                             // empty code
    | Bad(code: string, note: string, why: Validation)  // rejected code
    | Good(normalized: Code, note: string)

  function Classify(record: seq<string>): Row {
    if record == [] then Ignored
    else
      var code := TrimSpace(record[0]);
      if IsHeader(code) then Ignored
      else if code == "" then Blank
      else
        ValidIffCanonical(code);
        match ValidateImportCardCode(code)
        case Valid(n) => Good(n, NoteOf(record))
        case why => Bad(code, NoteOf(record), why)
  }

  /**
   * What reading makes of a record, without the functions that do it: the code
   * is the first field without the white space around it; titles and empty
   * records are ignored, and nothing else is.
   */
  ghost predicate ReadsAs(record: seq<string>, row: Row) {
    if record == [] then row == Ignored
    else exists code :: IsTrimOf(code, record[0]) && CodeReadsAs(code, record, row)
  }

  ghost predicate CodeReadsAs(code: string, record: seq<string>, row: Row) {
    && (row.Ignored? <==> ReadsTitle(code))
    && (row.Blank? <==> code == "")
    && (row.Bad? ==> row.code == code && IsNoteOf(row.note, record) && row.why == ValidateImportCardCode(code))
    && (row.Good? ==> IsNoteOf(row.note, record) && Valid(row.normalized) == ValidateImportCardCode(code))
    && (row.Bad? || row.Good? ==> (row.Good? <==> ValidateImportCardCode(code).Valid?))
  }

  lemma ClassifyReads(record: seq<string>)
    ensures ReadsAs(record, Classify(record))
  {
    if record != [] {
      var code := TrimSpace(record[0]);
      TrimIsTrim(record[0]);
      HeaderIsTitle(code);
      NoteIsNote(record);
      ValidIffCanonical(code);
      assert CodeReadsAs(code, record, Classify(record));
    }
  }

  function ClassifyAll(records: seq<seq<string>>): (rows: seq<Row>)
    ensures |rows| == |records|
    ensures forall i :: 0 <= i < |records| ==> rows[i] == Classify(records[i])
  {
    seq(|records|, i requires 0 <= i < |records| => Classify(records[i]))
  }

  lemma {:induction false} NoTrimming(s: string)
    requires forall i :: 0 <= i < |s| ==> !IsSpace(s[i])
    ensures TrimSpace(s) == s
  {
  }

  lemma {:induction false} LowerKeepsAscii(s: string)
    requires IsAscii(s)
    ensures |ToLower(s)| == |s| && IsAscii(ToLower(s))
  {
    if s != "" {
      LowerKeepsAscii(s[1..]);
    }
  }

  /** A record that holds just a valid code is read as that code. */
  lemma CodeRecord(n: Code)
    ensures Classify([n]) == Good(n, "imported")
  {
    CanonicalIsFixed(n);
    ValidIffCanonical(n);
    NoTrimming(n);
    LowerKeepsAscii(n);
    assert |ToLower(n)| == 18 && !IsHeader(n);
  }

  // ----- state

  datatype Status = Skipped | Invalid | Duplicate | Errored | ValidRow | Imported
  datatype Message =
    | NoMessage | EmptyCode | Rejected(why: Validation) | AlreadyExists | DatabaseError | CreateFailed | AuditFailed
  datatype Item = Item(row: nat, code: string, note: string, status: Status, message: Message)
  datatype Report = Report(
    totalRows: int, validRows: int, imported: int, duplicates: int, invalid: int, skipped: int, items: seq<Item>)
  datatype Card = Card(code: string, note: string, duration: int, maxSessions: int)
  datatype Event = Event(card: string, duration: int, maxSessions: int)
  datatype Config = Config(duration: int, maxSessions: int, dryRun: bool)

  /** Which of the calls made for a row fail for reasons outside the model. */
  datatype Fault = Fault(lookup: bool, create: bool, audit: bool)
  const NO_FAULT := Fault(false, false, false)

  datatype State = State(report: Report, seen: set<string>, store: map<string, Card>, audit: seq<Event>, stopped: bool)

  function Start(store: map<string, Card>, audit: seq<Event>): State {
    State(Report(0, 0, 0, 0, 0, 0, []), {}, store, audit, false)
  }

  /** CreateWithCode's own demands on its arguments. */
  predicate ConfigOk(cfg: Config) {
    cfg.duration > 0 && cfg.maxSessions >= 1
  }

  function ClampInt(val: int, min: int, max: int, default: int): int {
    var v := if val <= 0 then default else val;
    var w := if v < min then min else v;
    if w > max then max else w
  }

  /** The request handler only ever asks for acceptable cards; what is missing gets its default. */
  lemma HandlerConfigOk(hours: int, maxSessions: int, dryRun: bool)
    ensures ClampInt(hours, 1, 17520, 720) == if hours <= 0 then 720 else if hours <= 17520 then hours else 17520
    ensures ClampInt(maxSessions, 1, 100, 1)
      == if maxSessions <= 0 then 1 else if maxSessions <= 100 then maxSessions else 100
    ensures ConfigOk(
      Config(ClampInt(hours, 1, 17520, 720) * 3_600_000_000_000, ClampInt(maxSessions, 1, 100, 1), dryRun))
  {
  }

  function AddItem(r: Report, item: Item): Report {
    r.(items := r.items + [item])
  }

  /** One record; `row` is its 1-based number. */
  function Step(s: State, cfg: Config, row: nat, r: Row, f: Fault): State {
    var report := s.report.(totalRows := s.report.totalRows + 1);
    match r
    case Ignored => s
    case Blank => s.(report := AddItem(report.(skipped := report.skipped + 1), Item(row, "", "", Skipped, EmptyCode)))
    case Bad(code, note, why) =>
      s.(report := AddItem(report.(invalid := report.invalid + 1), Item(row, code, note, Invalid, Rejected(why))))
    case Good(n, note) =>
      var code := StoredCode(n);
      if n in s.seen || (!f.lookup && code in s.store) then
        var counted := report.(duplicates := report.duplicates + 1);
        s.(report := AddItem(counted, Item(row, code, note, Duplicate, AlreadyExists)))
      else if f.lookup then
        s.(report := AddItem(report.(invalid := report.invalid + 1), Item(row, code, note, Errored, DatabaseError)))
      else
        Accept(s.(report := report, seen := s.seen + {n}), cfg, row, code, note, f)
  }

  /** The part after the duplicate checks. */
  function Accept(s: State, cfg: Config, row: nat, code: string, note: string, f: Fault): State {
    var report := s.report;
    if cfg.dryRun then
      s.(report := AddItem(report.(validRows := report.validRows + 1), Item(row, code, note, ValidRow, NoMessage)))
    else if f.create || !ConfigOk(cfg) then
      s.(report := AddItem(report.(invalid := report.invalid + 1), Item(row, code, note, Invalid, CreateFailed)))
    else
      var made := report.(validRows := report.validRows + 1, imported := report.imported + 1);
      var stored := s.store[code := Card(code, note, cfg.duration, cfg.maxSessions)];
      if f.audit then
        s.(report := AddItem(made, Item(row, code, note, Errored, AuditFailed)), store := stored, stopped := true)
      else
        s.(report := AddItem(made, Item(row, code, note, Imported, NoMessage)), store := stored,
           audit := s.audit + [Event(code, cfg.duration, cfg.maxSessions)])
  }

  /** All records in turn, until an audit failure stops the run. */
  function Run(s: State, cfg: Config, rows: seq<Row>, faults: nat -> Fault, first: nat): State
    decreases |rows|
  {
    if rows == [] || s.stopped then s
    else Run(Step(s, cfg, first, rows[0], faults(first)), cfg, rows[1..], faults, first + 1)
  }

  /** How many records a run looks at. */
  function Reached(s: State, cfg: Config, rows: seq<Row>, faults: nat -> Fault, first: nat): (n: nat)
    ensures n <= |rows|
    decreases |rows|
  {
    if rows == [] || s.stopped then 0
    else 1 + Reached(Step(s, cfg, first, rows[0], faults(first)), cfg, rows[1..], faults, first + 1)
  }

  ghost predicate FaultFree(faults: nat -> Fault) {
    forall n :: faults(n) == NO_FAULT
  }

  lemma {:induction false} RunAppend(s: State, cfg: Config, a: seq<Row>, b: seq<Row>, faults: nat -> Fault, first: nat)
    ensures Run(s, cfg, a + b, faults, first) == Run(Run(s, cfg, a, faults, first), cfg, b, faults, first + |a|)
    decreases |a|
  {
    if a == [] {
      assert a + b == b;
    } else if !s.stopped {
      assert (a + b)[1..] == a[1..] + b;
      RunAppend(Step(s, cfg, first, a[0], faults(first)), cfg, a[1..], b, faults, first + 1);
    }
  }

  // ----- every row is accounted for once

  /** Numbers of the rows that are neither empty records nor headers. */
  function DataRows(rows: seq<Row>, first: nat): seq<nat> {
    if rows == [] then [] else (if rows[0].Ignored? then [] else [first]) + DataRows(rows[1..], first + 1)
  }

  function RowsOf(items: seq<Item>): seq<nat> {
    seq(|items|, i requires 0 <= i < |items| => items[i].row)
  }

  predicate Balanced(r: Report) {
    r.totalRows == r.validRows + r.duplicates + r.invalid + r.skipped == |r.items|
  }

  lemma {:induction false} DataRowsIncrease(rows: seq<Row>, first: nat)
    ensures forall i :: 0 <= i < |DataRows(rows, first)| ==> first <= DataRows(rows, first)[i]
    ensures forall i, j :: 0 <= i < j < |DataRows(rows, first)| ==> DataRows(rows, first)[i] < DataRows(rows, first)[j]
  {
    if rows != [] {
      DataRowsIncrease(rows[1..], first + 1);
    }
  }

  lemma StepCounted(s: State, cfg: Config, row: nat, r: Row, f: Fault)
    requires Balanced(s.report) && !s.stopped
    ensures var next := Step(s, cfg, row, r, f);
      && Balanced(next.report)
      && RowsOf(next.report.items) == RowsOf(s.report.items) + (if r.Ignored? then [] else [row])
  {
  }

  /**
   * Under any faults, from any point of the loop on: the counters keep adding up
   * to the number of items, and the new items name the data rows looked at.
   */
  lemma {:induction false} EveryRowCounted(s: State, cfg: Config, rows: seq<Row>, faults: nat -> Fault, first: nat)
    requires Balanced(s.report) && !s.stopped
    ensures var r := Run(s, cfg, rows, faults, first);
      var n := Reached(s, cfg, rows, faults, first);
      && Balanced(r.report)
      && RowsOf(r.report.items) == RowsOf(s.report.items) + DataRows(rows[..n], first)
      && (!r.stopped ==> n == |rows|)
    decreases |rows|
  {
    if rows != [] {
      var next := Step(s, cfg, first, rows[0], faults(first));
      StepCounted(s, cfg, first, rows[0], faults(first));
      var n := Reached(next, cfg, rows[1..], faults, first + 1);
      assert rows[..n + 1][1..] == rows[1..][..n];
      if !next.stopped {
        EveryRowCounted(next, cfg, rows[1..], faults, first + 1);
      }
      var here, later := RowsOf(s.report.items), DataRows(rows[1..][..n], first + 1);
      assert (here + [first]) + later == here + ([first] + later);
    }
  }

  /**
   * So at both exits, and at every loop head, which is the exit for a prefix of
   * `rows`, the counters add up to the number of items, and the row numbers of
   * the items increase and are exactly those of the data rows looked at.
   */
  lemma ImportAccounts(store: map<string, Card>, log: seq<Event>, cfg: Config, rows: seq<Row>, faults: nat -> Fault)
    ensures var r := Run(Start(store, log), cfg, rows, faults, 1);
      var n := Reached(Start(store, log), cfg, rows, faults, 1);
      var numbers := RowsOf(r.report.items);
      && Balanced(r.report)
      && (!r.stopped ==> n == |rows|)
      && (forall i, j :: 0 <= i < j < |numbers| ==> numbers[i] < numbers[j])
      && (forall row: nat :: row in numbers <==> 1 <= row <= n && !rows[row - 1].Ignored?)
  {
    EveryRowCounted(Start(store, log), cfg, rows, faults, 1);
    var numbers := DataRows(rows[..Reached(Start(store, log), cfg, rows, faults, 1)], 1);
    assert RowsOf([]) + numbers == numbers;
    DataRowsMeaning(rows, Reached(Start(store, log), cfg, rows, faults, 1));
  }

  lemma DataRowsMeaning(rows: seq<Row>, n: nat)
    requires n <= |rows|
    ensures var numbers := DataRows(rows[..n], 1);
      && (forall i, j :: 0 <= i < j < |numbers| ==> numbers[i] < numbers[j])
      && (forall row: nat :: row in numbers <==> 1 <= row <= n && !rows[row - 1].Ignored?)
  {
    DataRowsIncrease(rows[..n], 1);
    forall row: nat | row in DataRows(rows[..n], 1)
      ensures 1 <= row <= n && !rows[row - 1].Ignored?
    {
      ListedIsData(rows[..n], 1, row);
    }
    forall row: nat | 1 <= row <= n && !rows[row - 1].Ignored?
      ensures row in DataRows(rows[..n], 1)
    {
      DataIsListed(rows[..n], 1, row - 1);
    }
  }

  lemma {:induction false} ListedIsData(rows: seq<Row>, first: nat, row: nat)
    requires row in DataRows(rows, first)
    ensures first <= row < first + |rows| && !rows[row - first].Ignored?
    decreases |rows|
  {
    if row in DataRows(rows[1..], first + 1) {
      ListedIsData(rows[1..], first + 1, row);
    }
  }

  lemma {:induction false} DataIsListed(rows: seq<Row>, first: nat, i: nat)
    requires i < |rows| && !rows[i].Ignored?
    ensures first + i in DataRows(rows, first)
    decreases |rows|
  {
    if i > 0 {
      DataIsListed(rows[1..], first + 1, i - 1);
    }
  }

  // ----- what an item says of its row

  /** Code and note of the item are those of the row. */
  predicate ItemReads(item: Item, r: Row) {
    match r
    case Ignored => false
    case Blank => item.code == "" && item.note == "" && item.status == Skipped && item.message == EmptyCode
    case Bad(code, note, why) =>
      item.code == code && item.note == note && item.status == Invalid && item.message == Rejected(why)
    case Good(n, note) => item.code == StoredCode(n) && item.note == note
  }

  predicate ItemsRead(items: seq<Item>, rows: seq<Row>) {
    forall i :: 0 <= i < |items| ==> 1 <= items[i].row <= |rows| && ItemReads(items[i], rows[items[i].row - 1])
  }

  lemma StepReads(s: State, cfg: Config, row: nat, r: Row, f: Fault)
    ensures var next := Step(s, cfg, row, r, f).report.items;
      && s.report.items <= next && |next| <= |s.report.items| + 1
      && forall i :: |s.report.items| <= i < |next| ==> next[i].row == row && ItemReads(next[i], r)
  {
  }

  lemma {:induction false} RunReads(
    s: State, cfg: Config, all: seq<Row>, faults: nat -> Fault, first: nat, rows: seq<Row>)
    requires first >= 1 && first - 1 <= |all| && rows == all[first - 1..] && ItemsRead(s.report.items, all)
    ensures ItemsRead(Run(s, cfg, rows, faults, first).report.items, all)
    decreases |rows|
  {
    if rows != [] && !s.stopped {
      StepReads(s, cfg, first, rows[0], faults(first));
      RunReads(Step(s, cfg, first, rows[0], faults(first)), cfg, all, faults, first + 1, rows[1..]);
    }
  }

  // ----- what a real import does to the store and the audit log

  predicate CreatedCard(item: Item) {
    item.status == Imported || item.message == AuditFailed
  }

  /** Codes of the cards the reported run created, in order. */
  function CreatedCodes(items: seq<Item>): seq<string> {
    if items == [] then []
    else
      var last := items[|items| - 1];
      CreatedCodes(items[..|items| - 1]) + if CreatedCard(last) then [last.code] else []
  }

  function CardsOf(events: seq<Event>): seq<string> {
    seq(|events|, i requires 0 <= i < |events| => events[i].card)
  }

  /** State s was reached from `store` and `log`, having created exactly the cards it reports. */
  ghost predicate Effects(s: State, store: map<string, Card>, log: seq<Event>) {
    var codes := CreatedCodes(s.report.items);
    && s.report.imported == s.report.validRows == |codes|
    && (forall i, j :: 0 <= i < j < |codes| ==> codes[i] != codes[j])
    && (forall c :: c in codes ==> c !in store)
    && (forall c :: c in s.store <==> c in store || c in codes)
    && (forall c :: c in store ==> s.store[c] == store[c])
    && log <= s.audit
    && CardsOf(s.audit[|log|..]) == (if s.stopped && codes != [] then codes[..|codes| - 1] else codes)
    && (s.stopped ==> codes != [])
  }

  lemma CreatedSnoc(items: seq<Item>, item: Item)
    ensures CreatedCodes(items + [item]) == CreatedCodes(items) + if CreatedCard(item) then [item.code] else []
  {
    assert (items + [item])[..|items|] == items;
  }

  lemma CardsOfSnoc(log: seq<Event>, audit: seq<Event>, e: Event)
    requires log <= audit
    ensures log <= audit + [e] && CardsOf((audit + [e])[|log|..]) == CardsOf(audit[|log|..]) + [e.card]
  {
    assert (audit + [e])[|log|..] == audit[|log|..] + [e];
  }

  /** Reporting a row that creates nothing keeps the effects. */
  lemma OtherRowEffects(s: State, next: State, item: Item, store: map<string, Card>, log: seq<Event>)
    requires Effects(s, store, log) && !s.stopped && !CreatedCard(item)
    requires next.report.items == s.report.items + [item]
    requires next.report.imported == s.report.imported && next.report.validRows == s.report.validRows
    requires next.store == s.store && next.audit == s.audit && !next.stopped
    ensures Effects(next, store, log)
  {
    CreatedSnoc(s.report.items, item);
  }

  /** Creating one card, with or without its audit event, keeps the effects. */
  lemma CreatedRowEffects(s: State, next: State, item: Item, card: Card, event: Event, store: map<string, Card>,
      log: seq<Event>)
    requires Effects(s, store, log) && !s.stopped && CreatedCard(item) && item.code !in s.store
      && event.card == item.code
    requires next.report.items == s.report.items + [item]
    requires next.report.imported == s.report.imported + 1 && next.report.validRows == s.report.validRows + 1
    requires next.store == s.store[item.code := card]
    requires next.audit == if next.stopped then s.audit else s.audit + [event]
    ensures Effects(next, store, log)
  {
    CreatedSnoc(s.report.items, item);
    var codes := CreatedCodes(s.report.items);
    assert (codes + [item.code])[..|codes|] == codes;
    CardsOfSnoc(log, s.audit, event);
  }

  /** What one data row of a real import can change. */
  lemma RealStep(s: State, cfg: Config, row: nat, r: Row, f: Fault) returns (item: Item)
    requires !s.stopped && !cfg.dryRun && !r.Ignored?
    ensures var next := Step(s, cfg, row, r, f);
      && next.report.items == s.report.items + [item]
      && (if CreatedCard(item) then
            && item.code !in s.store
            && next.report.imported == s.report.imported + 1 && next.report.validRows == s.report.validRows + 1
            && next.store == s.store[item.code := Card(item.code, item.note, cfg.duration, cfg.maxSessions)]
            && next.audit == s.audit +
                 if next.stopped then [] else [Event(item.code, cfg.duration, cfg.maxSessions)]
          else
            && next.report.imported == s.report.imported && next.report.validRows == s.report.validRows
            && next.store == s.store && next.audit == s.audit && !next.stopped)
  {
    item := Step(s, cfg, row, r, f).report.items[|s.report.items|];
  }

  lemma StepEffects(s: State, cfg: Config, row: nat, r: Row, f: Fault, store: map<string, Card>, log: seq<Event>)
    requires !s.stopped && !cfg.dryRun && Effects(s, store, log)
    ensures Effects(Step(s, cfg, row, r, f), store, log)
  {
    if !r.Ignored? {
      var item := RealStep(s, cfg, row, r, f);
      var next := Step(s, cfg, row, r, f);
      if CreatedCard(item) {
        var card := Card(item.code, item.note, cfg.duration, cfg.maxSessions);
        CreatedRowEffects(s, next, item, card, Event(item.code, cfg.duration, cfg.maxSessions), store, log);
      } else {
        OtherRowEffects(s, next, item, store, log);
      }
    }
  }

  /**
   * Under any faults a real import reports as imported, and as valid, exactly
   * the cards it added; they are pairwise distinct and new; and the audit log
   * gained one event per added card, except for the last card of a run that
   * an audit failure stopped.
   */
  lemma {:induction false} RealImportEffects(
    s: State, cfg: Config, rows: seq<Row>, faults: nat -> Fault, first: nat, store: map<string, Card>, log: seq<Event>)
    requires !cfg.dryRun && Effects(s, store, log)
    ensures Effects(Run(s, cfg, rows, faults, first), store, log)
    decreases |rows|
  {
    if rows != [] && !s.stopped {
      StepEffects(s, cfg, first, rows[0], faults(first), store, log);
      RealImportEffects(Step(s, cfg, first, rows[0], faults(first)), cfg, rows[1..], faults, first + 1, store, log);
    }
  }

  /** Every card reported as created is in the store just as its row asked for it. */
  ghost predicate StoredAsReported(s: State, cfg: Config) {
    forall i :: 0 <= i < |s.report.items| && CreatedCard(s.report.items[i]) ==>
      var item := s.report.items[i];
      item.code in s.store && s.store[item.code] == Card(item.code, item.note, cfg.duration, cfg.maxSessions)
  }

  lemma {:induction false} CardsStoredAsReported(s: State, cfg: Config, rows: seq<Row>, faults: nat -> Fault,
      first: nat)
    requires !cfg.dryRun && StoredAsReported(s, cfg)
    ensures StoredAsReported(Run(s, cfg, rows, faults, first), cfg)
    decreases |rows|
  {
    if rows != [] && !s.stopped {
      CardsStoredAsReported(Step(s, cfg, first, rows[0], faults(first)), cfg, rows[1..], faults, first + 1);
    }
  }

  lemma {:induction false} SizeOfDistinct(codes: seq<string>)
    requires forall i, j :: 0 <= i < j < |codes| ==> codes[i] != codes[j]
    ensures |set c | c in codes| == |codes|
  {
    if codes != [] {
      SizeOfDistinct(codes[1..]);
      assert (set c | c in codes) == (set c | c in codes[1..]) + {codes[0]};
    }
  }

  lemma StoreGrowth(store: map<string, Card>, after: map<string, Card>, codes: seq<string>)
    requires forall i, j :: 0 <= i < j < |codes| ==> codes[i] != codes[j]
    requires forall c :: c in codes ==> c !in store
    requires forall c :: c in after <==> c in store || c in codes
    ensures |after| == |store| + |codes|
  {
    var added := set c | c in codes;
    SizeOfDistinct(codes);
    assert after.Keys == store.Keys + added && store.Keys !! added;
    assert |after.Keys| == |store.Keys| + |added|;
  }

  lemma EffectsAsCounts(r: State, store: map<string, Card>, log: seq<Event>)
    requires Effects(r, store, log)
    ensures r.report.imported == |r.store| - |store|
    ensures |r.audit| - |log| == r.report.imported - (if r.stopped then 1 else 0)
  {
    StoreGrowth(store, r.store, CreatedCodes(r.report.items));
    assert |CardsOf(r.audit[|log|..])| == |r.audit| - |log|;
  }

  /** The same from a fresh start, as counts. */
  lemma RealImportCounts(store: map<string, Card>, log: seq<Event>, cfg: Config, rows: seq<Row>, faults: nat -> Fault)
    requires !cfg.dryRun
    ensures var r := Run(Start(store, log), cfg, rows, faults, 1);
      && Effects(r, store, log)
      && r.report.imported == r.report.validRows == |r.store| - |store|
      && |r.audit| - |log| == r.report.imported - (if r.stopped then 1 else 0)
  {
    assert CardsOf(log[|log|..]) == [];
    RealImportEffects(Start(store, log), cfg, rows, faults, 1, store, log);
    EffectsAsCounts(Run(Start(store, log), cfg, rows, faults, 1), store, log);
  }

  // ----- dry run

  lemma {:induction false} DryRunTouchesNothing(s: State, cfg: Config, rows: seq<Row>, faults: nat -> Fault, first: nat)
    requires cfg.dryRun && !s.stopped
    ensures var r := Run(s, cfg, rows, faults, first);
      r.store == s.store && r.audit == s.audit && r.report.imported == s.report.imported && !r.stopped
    decreases |rows|
  {
    if rows != [] {
      DryRunTouchesNothing(Step(s, cfg, first, rows[0], faults(first)), cfg, rows[1..], faults, first + 1);
    }
  }

  function Relabel(items: seq<Item>, was: Status, now: Status, message: Message): (r: seq<Item>)
    ensures |r| == |items|
  {
    seq(|items|, i requires 0 <= i < |items| =>
      if items[i].status == was then items[i].(status := now, message := message) else items[i])
  }

  lemma RelabelSnoc(items: seq<Item>, item: Item, was: Status, now: Status, message: Message)
    ensures Relabel(items + [item], was, now, message)
      == Relabel(items, was, now, message)
         + [if item.status == was then item.(status := now, message := message) else item]
  {
  }

  /** The real report is the dry one with every valid row imported. */
  ghost predicate Predicts(dry: Report, actual: Report) {
    actual == dry.(imported := dry.validRows, items := Relabel(dry.items, ValidRow, Imported, NoMessage))
  }

  /** A dry run and a real run side by side. */
  ghost predicate InStep(store: map<string, Card>, d: State, r: State) {
    && !d.stopped && !r.stopped && d.store == store && d.seen == r.seen
    && Predicts(d.report, r.report)
    && (forall c :: c in r.store ==> c in store || exists n: Code :: n in d.seen && StoredCode(n) == c)
    && (forall c :: c in store ==> c in r.store)
  }

  /** Both runs look a code up with the same answer. */
  lemma SameLookup(store: map<string, Card>, d: State, r: State, n: Code)
    requires InStep(store, d, r) && n !in d.seen
    ensures StoredCode(n) in r.store <==> StoredCode(n) in store
  {
    var code := StoredCode(n);
    if code in r.store && code !in store {
      var m: Code :| m in d.seen && StoredCode(m) == code;
      StoredCodeInjective(m, n);
    }
  }

  /** One row reported by both runs, and seen or stored alike. */
  lemma RowInStep(store: map<string, Card>, d: State, r: State, d': State, r': State, item: Item)
    requires InStep(store, d, r) && !d'.stopped && !r'.stopped && d'.store == store && d'.seen == r'.seen
    requires d'.report.items == d.report.items + [item]
    requires r'.report == d'.report.(imported := d'.report.validRows,
      items := r.report.items
        + [if item.status == ValidRow then item.(status := Imported, message := NoMessage) else item])
    requires d'.seen >= d.seen && r'.store.Keys >= r.store.Keys
    requires forall c :: c in r'.store && c !in r.store ==> exists n: Code :: n in d'.seen && StoredCode(n) == c
    ensures InStep(store, d', r')
  {
    RelabelSnoc(d.report.items, item, ValidRow, Imported, NoMessage);
    forall c | c in r'.store && c !in store
      ensures exists m: Code :: m in d'.seen && StoredCode(m) == c
    {
      if c in r.store {
        var m: Code :| m in d.seen && StoredCode(m) == c;
        assert m in d'.seen;
      }
    }
  }

  lemma StepInStep(store: map<string, Card>, cfg: Config, d: State, r: State, row: nat, x: Row)
    requires !cfg.dryRun && ConfigOk(cfg) && InStep(store, d, r)
    ensures InStep(store, Step(d, cfg.(dryRun := true), row, x, NO_FAULT), Step(r, cfg, row, x, NO_FAULT))
  {
    if !x.Ignored? {
      var d', r' := Step(d, cfg.(dryRun := true), row, x, NO_FAULT), Step(r, cfg, row, x, NO_FAULT);
      if x.Good? && x.normalized !in d.seen {
        SameLookup(store, d, r, x.normalized);
      }
      RowInStep(store, d, r, d', r', d'.report.items[|d.report.items|]);
    }
  }

  lemma {:induction false} RunsInStep(
    store: map<string, Card>, cfg: Config, d: State, r: State, rows: seq<Row>, faults: nat -> Fault, first: nat)
    requires !cfg.dryRun && ConfigOk(cfg) && FaultFree(faults) && InStep(store, d, r)
    ensures Predicts(Run(d, cfg.(dryRun := true), rows, faults, first).report, Run(r, cfg, rows, faults, first).report)
    decreases |rows|
  {
    if rows != [] {
      StepInStep(store, cfg, d, r, first, rows[0]);
      RunsInStep(store, cfg,
        Step(d, cfg.(dryRun := true), first, rows[0], NO_FAULT), Step(r, cfg, first, rows[0], NO_FAULT),
        rows[1..], faults, first + 1);
    }
  }

  lemma {:induction false} ValidRowsGrow(s: State, cfg: Config, rows: seq<Row>, faults: nat -> Fault, first: nat)
    ensures Run(s, cfg, rows, faults, first).report.validRows >= s.report.validRows
    decreases |rows|
  {
    if rows != [] && !s.stopped {
      ValidRowsGrow(Step(s, cfg, first, rows[0], faults(first)), cfg, rows[1..], faults, first + 1);
    }
  }

  /** With arguments CreateWithCode refuses, nothing is ever imported. */
  lemma {:induction false} BadConfigImportsNothing(s: State, cfg: Config, rows: seq<Row>, faults: nat -> Fault,
      first: nat)
    requires !ConfigOk(cfg)
    ensures Run(s, cfg, rows, faults, first).report.imported == s.report.imported
    decreases |rows|
  {
    if rows != [] && !s.stopped {
      BadConfigImportsNothing(Step(s, cfg, first, rows[0], faults(first)), cfg, rows[1..], faults, first + 1);
    }
  }

  /** If the dry run finds no valid row, the real run takes the same branches whatever its arguments. */
  lemma {:induction false} NothingValidSame(s: State, cfg: Config, rows: seq<Row>, faults: nat -> Fault, first: nat)
    requires !cfg.dryRun && FaultFree(faults) && s.report.validRows == 0
    requires Run(s, cfg.(dryRun := true), rows, faults, first).report.validRows == 0
    ensures Run(s, cfg, rows, faults, first) == Run(s, cfg.(dryRun := true), rows, faults, first)
    decreases |rows|
  {
    if rows != [] && !s.stopped {
      var dry := cfg.(dryRun := true);
      var next := Step(s, dry, first, rows[0], NO_FAULT);
      ValidRowsGrow(next, dry, rows[1..], faults, first + 1);
      assert next == Step(s, cfg, first, rows[0], NO_FAULT);
      NothingValidSame(next, cfg, rows[1..], faults, first + 1);
    }
  }

  lemma {:induction false} NoValidItems(s: State, cfg: Config, rows: seq<Row>, faults: nat -> Fault, first: nat)
    requires (forall i :: 0 <= i < |s.report.items| ==> s.report.items[i].status != ValidRow) && s.report.validRows == 0
    requires Run(s, cfg, rows, faults, first).report.validRows == 0
    ensures var items := Run(s, cfg, rows, faults, first).report.items;
      forall i :: 0 <= i < |items| ==> items[i].status != ValidRow
    decreases |rows|
  {
    if rows != [] && !s.stopped {
      var next := Step(s, cfg, first, rows[0], faults(first));
      ValidRowsGrow(next, cfg, rows[1..], faults, first + 1);
      NoValidItems(next, cfg, rows[1..], faults, first + 1);
    }
  }

  /** Every valid code of the import is in the store already. */
  predicate NothingNew(store: map<string, Card>, rows: seq<Row>) {
    forall i :: 0 <= i < |rows| && rows[i].Good? ==> StoredCode(rows[i].normalized) in store
  }

  lemma {:induction false} NoValidRowsIff(s: State, cfg: Config, rows: seq<Row>, faults: nat -> Fault, first: nat)
    requires cfg.dryRun && FaultFree(faults) && s.seen == {} && !s.stopped
    ensures Run(s, cfg, rows, faults, first).report.validRows == s.report.validRows <==> NothingNew(s.store, rows)
    decreases |rows|
  {
    if rows != [] {
      var next := Step(s, cfg, first, rows[0], NO_FAULT);
      ValidRowsGrow(next, cfg, rows[1..], faults, first + 1);
      assert NothingNew(s.store, rows) <==>
        NothingNew(s.store, rows[1..]) && (rows[0].Good? ==> StoredCode(rows[0].normalized) in s.store);
      if next.report.validRows == s.report.validRows {
        NoValidRowsIff(next, cfg, rows[1..], faults, first + 1);
      }
    }
  }

  /**
   * On a healthy store a dry run foretells the real one exactly when the card
   * arguments are acceptable to CreateWithCode, or every valid code is stored already.
   */
  lemma DryRunPredictsIff(store: map<string, Card>, log: seq<Event>, cfg: Config, rows: seq<Row>, faults: nat -> Fault)
    requires !cfg.dryRun && FaultFree(faults)
    ensures var dry := Run(Start(store, log), cfg.(dryRun := true), rows, faults, 1);
      var actual := Run(Start(store, log), cfg, rows, faults, 1);
      Predicts(dry.report, actual.report) <==> ConfigOk(cfg) || NothingNew(store, rows)
  {
    var start := Start(store, log);
    NoValidRowsIff(start, cfg.(dryRun := true), rows, faults, 1);
    var dry := Run(start, cfg.(dryRun := true), rows, faults, 1);
    if ConfigOk(cfg) {
      RunsInStep(store, cfg, start, start, rows, faults, 1);
    } else {
      BadConfigImportsNothing(start, cfg, rows, faults, 1);
      ValidRowsGrow(start, cfg.(dryRun := true), rows, faults, 1);
      if dry.report.validRows == 0 {
        NothingValidSame(start, cfg, rows, faults, 1);
        NoValidItems(start, cfg.(dryRun := true), rows, faults, 1);
        DryRunTouchesNothing(start, cfg.(dryRun := true), rows, faults, 1);
        assert Relabel(dry.report.items, ValidRow, Imported, NoMessage) == dry.report.items;
      }
    }
  }

  // ----- a healthy run against its meaning

  /** The card is in the store beforehand, or an earlier row names it. */
  ghost predicate Known(store: map<string, Card>, earlier: seq<Row>, n: Code) {
    StoredCode(n) in store || exists j :: 0 <= j < |earlier| && earlier[j].Good? && earlier[j].normalized == n
  }

  /** What the report should say of a row, given only the initial store and the rows before it. */
  ghost function ReferenceItem(store: map<string, Card>, earlier: seq<Row>, row: nat, r: Row, cfg: Config): seq<Item> {
    match r
    case Ignored => []
    case Blank => [Item(row, "", "", Skipped, EmptyCode)]
    case Bad(code, note, why) => [Item(row, code, note, Invalid, Rejected(why))]
    case Good(n, note) =>
      if Known(store, earlier, n) then [Item(row, StoredCode(n), note, Duplicate, AlreadyExists)]
      else if cfg.dryRun then [Item(row, StoredCode(n), note, ValidRow, NoMessage)]
      else if ConfigOk(cfg) then [Item(row, StoredCode(n), note, Imported, NoMessage)]
      else [Item(row, StoredCode(n), note, Invalid, CreateFailed)]
  }

  ghost function Reference(store: map<string, Card>, rows: seq<Row>, cfg: Config): seq<Item>
    decreases |rows|
  {
    if rows == [] then []
    else
      var earlier := rows[..|rows| - 1];
      Reference(store, earlier, cfg) + ReferenceItem(store, earlier, |rows|, rows[|rows| - 1], cfg)
  }

  /** The run knows, in memory or in the store, exactly the codes it should. */
  ghost predicate KnowsExactly(s: State, store: map<string, Card>, rows: seq<Row>) {
    forall n: Code :: n in s.seen || StoredCode(n) in s.store <==> Known(store, rows, n)
  }

  lemma KnownSnoc(store: map<string, Card>, rows: seq<Row>, n: Code)
    requires rows != []
    ensures var last := rows[|rows| - 1];
      Known(store, rows, n) <==> Known(store, rows[..|rows| - 1], n) || (last.Good? && last.normalized == n)
  {
    var earlier := rows[..|rows| - 1];
    if Known(store, earlier, n) && StoredCode(n) !in store {
      var j :| 0 <= j < |earlier| && earlier[j].Good? && earlier[j].normalized == n;
      assert rows[j] == earlier[j];
    }
    if Known(store, rows, n) && StoredCode(n) !in store {
      var j :| 0 <= j < |rows| && rows[j].Good? && rows[j].normalized == n;
      assert j < |earlier| ==> earlier[j] == rows[j];
    }
  }

  lemma StepKnows(s: State, cfg: Config, row: nat, rows: seq<Row>, store: map<string, Card>)
    requires rows != [] && !s.stopped && KnowsExactly(s, store, rows[..|rows| - 1])
    ensures KnowsExactly(Step(s, cfg, row, rows[|rows| - 1], NO_FAULT), store, rows)
  {
    var next := Step(s, cfg, row, rows[|rows| - 1], NO_FAULT);
    forall n: Code
      ensures n in next.seen || StoredCode(n) in next.store <==> Known(store, rows, n)
    {
      KnownSnoc(store, rows, n);
      if rows[|rows| - 1].Good? && StoredCode(n) == StoredCode(rows[|rows| - 1].normalized) {
        StoredCodeInjective(n, rows[|rows| - 1].normalized);
      }
    }
  }

  lemma StepReports(s: State, cfg: Config, row: nat, rows: seq<Row>, store: map<string, Card>)
    requires rows != [] && !s.stopped && KnowsExactly(s, store, rows[..|rows| - 1])
    ensures var next := Step(s, cfg, row, rows[|rows| - 1], NO_FAULT);
      && !next.stopped
      && next.report.items
          == s.report.items + ReferenceItem(store, rows[..|rows| - 1], row, rows[|rows| - 1], cfg)
  {
  }

  /**
   * On a healthy store the stateful loop, with its set of seen codes and its
   * growing store, reports row by row exactly what the plain definition says.
   */
  lemma {:induction false} ReportIsReference(store: map<string, Card>, log: seq<Event>, cfg: Config, rows: seq<Row>,
      faults: nat -> Fault)
    requires FaultFree(faults)
    ensures var s := Run(Start(store, log), cfg, rows, faults, 1);
      !s.stopped && s.report.items == Reference(store, rows, cfg) && KnowsExactly(s, store, rows)
    decreases |rows|
  {
    if rows != [] {
      var k := |rows| - 1;
      ReportIsReference(store, log, cfg, rows[..k], faults);
      RunNext(Start(store, log), cfg, rows, k, faults);
      assert rows[..k + 1] == rows;
      var s := Run(Start(store, log), cfg, rows[..k], faults, 1);
      StepReports(s, cfg, k + 1, rows, store);
      StepKnows(s, cfg, k + 1, rows, store);
    }
  }

  // ----- the loop itself

  class Importer {
    var store: map<string, Card>
    var audit: seq<Event>

    /** The reading half of an iteration: trimming, header and blank checks, note, validation. */
    method ReadRecord(record: seq<string>) returns (row: Row)
      ensures row == Classify(record) && ReadsAs(record, row)
    {
      ClassifyReads(record);
      if record == [] { return Ignored; }
      var code := TrimSpace(record[0]);
      if IsHeader(code) { return Ignored; }
      if code == "" { return Blank; }
      var note := "imported";
      if |record| > 1 && TrimSpace(record[1]) != "" {
        note := TrimSpace(record[1]);
      }
      ValidIffCanonical(code);
      var validation := ValidateImportCardCode(code);
      if !validation.Valid? { return Bad(code, note, validation); }
      return Good(validation.normalized, note);
    }

    /** The accepting half: count the row as valid, and in a real run create and log its card. */
    method AcceptRow(before: Report, rowNumber: nat, formatted: string, note: string, cfg: Config, fault: Fault,
        ghost seen: set<string>)
      returns (report: Report, err: bool)
      modifies this
      ensures State(report, seen, store, audit, err)
        == Accept(State(before, seen, old(store), old(audit), false), cfg, rowNumber, formatted, note, fault)
    {
      report := before.(validRows := before.validRows + 1);
      var item := Item(rowNumber, formatted, note, ValidRow, NoMessage);
      if !cfg.dryRun {
        if fault.create || !ConfigOk(cfg) {
          report := report.(invalid := report.invalid + 1, validRows := report.validRows - 1);
          item := item.(status := Invalid, message := CreateFailed);
        } else {
          store := store[formatted := Card(formatted, note, cfg.duration, cfg.maxSessions)];
          report := report.(imported := report.imported + 1);
          item := item.(status := Imported);
          if fault.audit {
            item := item.(status := Errored, message := AuditFailed);
            report := AddItem(report, item);
            return report, true;
          }
          audit := audit + [Event(formatted, cfg.duration, cfg.maxSessions)];
        }
      }
      report, err := AddItem(report, item), false;
    }

    /** The rest of an iteration, once the record is read. */
    method ImportRow(before: Report, seenBefore: set<string>, rowNumber: nat, row: Row, cfg: Config, fault: Fault)
      returns (report: Report, seen: set<string>, err: bool)
      modifies this
      ensures State(report, seen, store, audit, err)
        == Step(State(before, seenBefore, old(store), old(audit), false), cfg, rowNumber, row, fault)
    {
      report, seen, err := before, seenBefore, false;
      if row.Ignored? { return; }

      report := report.(totalRows := report.totalRows + 1);
      if row.Blank? {
        report := report.(skipped := report.skipped + 1);
        report := AddItem(report, Item(rowNumber, "", "", Skipped, EmptyCode));
        return;
      }
      if row.Bad? {
        report := report.(invalid := report.invalid + 1);
        report := AddItem(report, Item(rowNumber, row.code, row.note, Invalid, Rejected(row.why)));
        return;
      }
      var formatted := StoredCode(row.normalized);
      if row.normalized in seen {
        report := report.(duplicates := report.duplicates + 1);
        report := AddItem(report, Item(rowNumber, formatted, row.note, Duplicate, AlreadyExists));
        return;
      }
      if !fault.lookup && formatted in store {
        report := report.(duplicates := report.duplicates + 1);
        report := AddItem(report, Item(rowNumber, formatted, row.note, Duplicate, AlreadyExists));
        return;
      } else if fault.lookup {
        report := report.(invalid := report.invalid + 1);
        report := AddItem(report, Item(rowNumber, formatted, row.note, Errored, DatabaseError));
        return;
      }
      seen := seen + {row.normalized};
      report, err := AcceptRow(report, rowNumber, formatted, row.note, cfg, fault, seen);
    }

    /** The loop over the records, with its running counters and its early exit. */
    method ImportCardsFromRecords(records: seq<seq<string>>, cfg: Config, faults: nat -> Fault)
      returns (report: Report, err: bool)
      modifies this
      ensures var r := Run(Start(old(store), old(audit)), cfg, ClassifyAll(records), faults, 1);
        report == r.report && store == r.store && audit == r.audit && err == r.stopped
      ensures !cfg.dryRun ==> CreatedFrom(State(report, {}, store, audit, err), cfg, records)
    {
      report, err := Report(0, 0, 0, 0, 0, 0, []), false;
      if !cfg.dryRun {
        AllNotesCarried(store, audit, cfg, records, faults);
      }
      var seen: set<string> := {};
      ghost var start, rows := Start(store, audit), ClassifyAll(records);
      for idx := 0 to |records|
        invariant !err && State(report, seen, store, audit, false) == Run(start, cfg, rows[..idx], faults, 1)
      {
        RunNext(start, cfg, rows, idx, faults);
        var row := ReadRecord(records[idx]);
        assert row == rows[idx];
        report, seen, err := ImportRow(report, seen, idx + 1, row, cfg, faults(idx + 1));
        if err {
          RunStopped(start, cfg, rows, idx + 1, faults);
          return;
        }
      }
      assert rows[..|records|] == rows;
    }
  }

  lemma CreatedNote(item: Item, record: seq<string>)
    requires CreatedCard(item) && ItemReads(item, Classify(record))
    ensures IsNoteOf(item.note, record)
  {
    NoteIsNote(record);
  }

  /** A created card carries the note of its record. */
  lemma NotesCarried(
    store: map<string, Card>, log: seq<Event>, cfg: Config, records: seq<seq<string>>, faults: nat -> Fault, i: nat)
    requires !cfg.dryRun
    requires var items := Run(Start(store, log), cfg, ClassifyAll(records), faults, 1).report.items;
      i < |items| && CreatedCard(items[i])
    ensures var r := Run(Start(store, log), cfg, ClassifyAll(records), faults, 1);
      var item := r.report.items[i];
      && 1 <= item.row <= |records| && item.code in r.store
      && IsNoteOf(r.store[item.code].note, records[item.row - 1])
      && r.store[item.code].duration == cfg.duration && r.store[item.code].maxSessions == cfg.maxSessions
  {
    var rows := ClassifyAll(records);
    var r := Run(Start(store, log), cfg, rows, faults, 1);
    CardsStoredAsReported(Start(store, log), cfg, rows, faults, 1);
    assert rows == rows[0..];
    RunReads(Start(store, log), cfg, rows, faults, 1, rows);
    var item := r.report.items[i];
    CreatedNote(item, records[item.row - 1]);
  }

  ghost predicate CreatedFrom(r: State, cfg: Config, records: seq<seq<string>>) {
    forall i :: 0 <= i < |r.report.items| && CreatedCard(r.report.items[i]) ==>
      var item := r.report.items[i];
      && 1 <= item.row <= |records| && item.code in r.store
      && IsNoteOf(r.store[item.code].note, records[item.row - 1])
      && r.store[item.code].duration == cfg.duration && r.store[item.code].maxSessions == cfg.maxSessions
  }

  lemma AllNotesCarried(
    store: map<string, Card>, log: seq<Event>, cfg: Config, records: seq<seq<string>>, faults: nat -> Fault)
    requires !cfg.dryRun
    ensures CreatedFrom(Run(Start(store, log), cfg, ClassifyAll(records), faults, 1), cfg, records)
  {
    var items := Run(Start(store, log), cfg, ClassifyAll(records), faults, 1).report.items;
    forall i: nat | i < |items| && CreatedCard(items[i]) {
      NotesCarried(store, log, cfg, records, faults, i);
    }
  }

  lemma RunStopped(start: State, cfg: Config, rows: seq<Row>, idx: nat, faults: nat -> Fault)
    requires idx <= |rows| && Run(start, cfg, rows[..idx], faults, 1).stopped
    ensures Run(start, cfg, rows, faults, 1) == Run(start, cfg, rows[..idx], faults, 1)
  {
    assert rows == rows[..idx] + rows[idx..];
    RunAppend(start, cfg, rows[..idx], rows[idx..], faults, 1);
  }

  lemma RunNext(start: State, cfg: Config, rows: seq<Row>, idx: nat, faults: nat -> Fault)
    requires idx < |rows| && !Run(start, cfg, rows[..idx], faults, 1).stopped
    ensures Run(start, cfg, rows[..idx + 1], faults, 1)
      == Step(Run(start, cfg, rows[..idx], faults, 1), cfg, idx + 1, rows[idx], faults(idx + 1))
  {
    assert rows[..idx + 1] == rows[..idx] + [rows[idx]];
    RunAppend(start, cfg, rows[..idx], [rows[idx]], faults, 1);
    var s := Run(start, cfg, rows[..idx], faults, 1);
    assert [rows[idx]][1..] == [];
    assert Run(s, cfg, [rows[idx]], faults, 1 + idx)
      == Run(Step(s, cfg, idx + 1, rows[idx], faults(idx + 1)), cfg, [], faults, idx + 2);
  }
}
