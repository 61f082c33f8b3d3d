# Verified model of the server's bookkeeping

A Dafny model of the Go server's stateful bookkeeping, and of the reference
counting in the vendored CEF base header, with proofs about them.

- **Usernames** (`Decimal.dfy`, `FreshNames.dfy`, `AgentTable.dfy`,
  `Deduplication.dfy`, `AgentSchema.dfy`): the start-up repair of colliding agent usernames. A table
  is a sequence of rows in rowid order. Both username searches of the server go
  through `FreshNames.LeastFree`; the pigeonhole argument that makes them stop
  rests on the injectivity of decimal printing.
- **Migration** (`Migration.dfy`, `MigrationRun.dfy`): the one-time copy of the
  legacy JSON data into five tables. Go map ranges are loops that pick any
  remaining key; a flag `mayFail` lets any statement fail.
- **Start-up** (`LegacyFiles.dfy`, `Startup.dfy`, `WholeRows.dfy`): what loading the legacy files
  leaves in memory, the gate in front of the migration, the schema work and the
  migration as one start, and runs of starts with served traffic between them.
- **Card import** (`CardCodes.dfy`, `ImportText.dfy`, `CardImport.dfy`,
  `ImportFaults.dfy`, `ImportLaws.dfy`): code normalization and display, the
  reading of fields, and the import loop with its report, store, audit log and
  early exit. Lookup, create and audit faults
  are given per row and are arbitrary.
- **Quota** (`Quota.dfy`, `QuotaRuns.dfy`): the limit checks, and check and
  creation as separate steps of concurrent requests, among deletions of cards.
- **Announcement slot** (`AnnouncementSlot.dfy`): lazy getters racing with the
  configuring thread, one lock region per step.
- **Overview** (`Ranking.dfy`, `Overview.dfy`, `Leaderboard.dfy`,
  `Pagination.dfy`): merged, sorted and cut lists. The sort is any result that
  is ordered and a permutation, as `sort.Slice` is not stable.
- **Reference counts** (`RefCount.dfy`): AddRef and Release over a 32-bit
  counter, under every schedule.

Methods follow the Go code; each is proved equal to a function of its inputs
and the old state, and the results below are proved about those functions. What
the small functions compute, such as a printed number, a trimmed field, a day or
a count, is stated again in terms of characters, numbers and positions.

## Where the code does not do what it says

- The migration has a single chance. The gate in `server/main.go:64-69` lets it
  run only in the start that creates `lingqiao.db`, and that file is there
  before the migration begins. Whatever goes wrong in that start once the file
  exists, every later start serves without the legacy data and says nothing.
  - The errors of loading the files are dropped (`server/db.go:240`, `243`). A
    file that does not decode passes for an empty one, or for one that ends
    where decoding stopped, and the start still reports success
    (`Startup.BrokenFileLosesData`, `Startup.HalfDecodedLosesAgents`).
  - The legacy rows are kept exactly when that one start ends as migrated and
    nothing was lost in loading, or when the files hold nothing
    (`Startup.LegacyKeptIff`, by keys; `WholeRows.WholeRowsKeptIff`, with all
    columns).
  - Without faults the files decide: `data.json` has to be there, even if the
    data is in `cards.json`; something but audit entries has to be decoded; no
    decoded agent id may clash; and no row may be lost in loading
    (`Startup.HealthyLegacyKeptIff`). Nothing is lost from one readable file
    (`LegacyFiles.OneFileWhole`). Of two, the lists of `data.json` replace those
    that `cards.json` had.
- A row whose creation fails leaves its code marked as seen, so a later row with
  that code is reported as an existing card that does not exist. That happens
  exactly when the failed row was the first of a new code whose lookup
  succeeded, and the later row is reached (`ImportFaults.MisreportsIff`).
- Cutting an import in two gives the same result, but a dry run, which leaves no
  cards behind, may be cut exactly where no new code is on both sides
  (`ImportLaws.SplitImportIff`, with an input in
  `ImportLaws.CutPreviewMissesRepeat`).
- The daily limit is exact only for requests handled one at a time. With k of
  them between check and creation, an agent exceeds it by at most k - 1 times
  the heaviest request, and requests the agent panel can pass on reach that
  bound. From every start within the limit, the limit itself is kept exactly
  when k is at most 1, or the agent may not generate at all
  (`QuotaRuns.QuotaExactIff`). Deleted cards no longer count.
- Which agents, machines and expiring cards are shown is determined exactly when
  the cut at ten does not split a tie; the leaderboard's totals always are.
- A blacklisted machine with exactly one card is shown with zero cards
  (`Overview.ShownCountTruthfulIff`).
- The reference-count discipline is safe exactly up to 2^32 outstanding
  references (`RefCount.SafeIffNarrow`).
- `paginate` can return bounds that cannot be sliced with
  (`Pagination.InBoundsIff`), or those of another page: page
  0x4000_0000_0000_0001 with four rows per page is shown as the first page. The
  slice is the requested page's own exactly when the last row number fits, or
  the wrapped page lies past the end as well (`Pagination.OwnPageIff`).

Two conditions that the deployed server meets:

- A getter for the announcement service may return one for another directory
  than the configured one exactly if a getter built its candidate before the
  configuration was set, and that directory is not the default
  (`AnnouncementSlot.GettersRightIff`, with a schedule in
  `AnnouncementSlot.EarlyBuildGoesWrong`). `server/main.go:54-57` configures before
  anything that calls a getter is started.
- A dry run foretells the real import exactly when the card arguments are
  acceptable or every valid code is stored already
  (`CardImport.DryRunPredictsIff`). The request handler clamps the arguments
  into the acceptable range (`CardImport.HandlerConfigOk`).

## Assumptions

- Agent ids are distinct and not null. A failed statement, creation or audit
  append changes nothing; a rollback restores the state at begin.
- SQLite reports a violated unique constraint by its name, either one when two
  are violated at once.
- One process at a time uses the data directory. Between two starts the database
  file and its username index stay; a start that gave up changes nothing more.
- Nobody changes an agent's limits while its requests are under way, raises the
  allowance of a card an agent owns, or hands a card to an agent; admins may
  delete cards at any time.
- Generated card codes are new. Card creation is stamped with the current time,
  and the clock does not run backwards; to start with, no stored card is dated
  in the future or carries a negative allowance.
- A caller of AddRef, except for the creator's first call, and of Release holds
  a reference.

## Model

| member | source | states |
|---|---|---|
| Decimal.PrintInjective | server/db.go:161 | counting up never prints the same suffix twice |
| Decimal.PrintReads | server/db.go:161 | what is printed is decimal notation, digits without a leading zero, and reads back as the number |
| Decimal.NumeralIsPrint | server/db.go:161 | the decimal notation of a number is what is printed for it, and no other text |
| FreshNames.LeastFree | server/db.go:160-174 | counting through distinct candidates stops at the first free one, after at most as many failures as taken names lie ahead |
| Deduplication.FreshSuffixLeast | server/db.go:157-174 | a duplicate gets the least positive suffix nobody uses at that moment, and no other |
| Deduplication.SuffixBound | server/db.go:157-174 | while the duplicate and its keeper share the base name, that suffix is at most the row count minus one |
| Deduplication.RepairStep | server/db.go:167-171 | one rename keeps keepers, pending rows and all columns but the username, and leaves only pending rows sharing names |
| Deduplication.RepairSound | server/db.go:134-177 | for every table and listing order all usernames end distinct, exactly the keepers are unchanged, and renamed rows are the base, "_dup" and the decimal notation of a number from 1 up to below the row count |
| Deduplication.SecondOfTwo | server/db.go:157-174 | of two rows with one username the second ends with _dup1 appended |
| Deduplication.RepairIdempotent | server/db.go:134-177 | a second repair lists no row and changes nothing |
| Deduplication.RestartAfterFault | server/db.go:157-177 | if a fault stops the untransacted loop anywhere, the next repair ends with distinct usernames, exactly the original keepers unchanged, every other row renamed to base_dupN, and none renamed twice |
| AgentSchema.AgentStore.ListDuplicates | server/db.go:135-155 | the query returns every row but the lowest-rowid one of each username, once each, in any order |
| AgentSchema.AgentStore.SearchSuffix | server/db.go:158-174 | the unbounded inner loop terminates with the least free suffix |
| AgentSchema.AgentStore.RenameListed | server/db.go:157-176 | the table is the repair by exactly the listed rows processed before a fault |
| AgentSchema.AgentStore.DeduplicateAgentUsernames | server/db.go:134-177 | success leaves distinct usernames, keepers as they were and every other row with "_dup" and a number in decimal notation; the second of two namesakes gets _dup1; a fault leaves a repair cut short |
| AgentSchema.AgentStore.ApplyAgentSchema | server/db.go:87-107 | on a healthy database the unique index is always built |
| Migration.AttemptsInjective | server/db.go:289-307 | the name loop never tries a username twice, whatever the id |
| Migration.WinningAttempt | server/db.go:292-311 | the username used is the first attempt of the sequence that no row holds |
| Migration.AttemptsBounded | server/db.go:292-311 | at most current rows plus one attempts |
| Migration.WinnerIsFirstFree | server/db.go:289-307 | the name used is the username if free, else with a dash and the shortest free id prefix of at least four characters, else with the whole id and the least free number |
| Migration.AgentsMigrated | server/db.go:285-311 | in every order: one appended row per legacy agent under its own id, or its key if it has none, its other columns copied, its name kept or extended with a dash, all usernames unique, every legacy username held by a row |
| Migration.AgentsSucceedIff | server/db.go:285-311 | the agents can be inserted in one order exactly when in all: when no effective id is in use or repeated |
| Migration.CardsMigrated | server/db.go:256-268 | the card codes are exactly the legacy ones; each row is a legacy card of its code, unchanged if it has a status, and with the status active if it has none; audit entries and agents are appended |
| Migration.OtherTablesMigrated | server/db.go:269-284 | old sessions and blacklist rows stay, all legacy ones are present, the first of a repeated blacklist value wins |
| Migration.RerunIsNoOpIff | server/db.go:182-187 | calling the function a second time on the same tables, which the start-up gate never does, is a silent no-op exactly when the legacy data has a card or has neither agents nor audit entries |
| MigrationRun.ExecInsertAgent | server/db.go:293-299 | an insert succeeds only if id and username are free, and otherwise names a violated constraint |
| MigrationRun.InsertAgent | server/db.go:289-310 | the retry loop walks the attempt sequence, never slices past the id, tries at most rows plus one names, stores the first free one, and fails only on a taken id or a fault |
| MigrationRun.InsertAllAgents | server/db.go:285-311 | the map range inserts all agents in some order, or fails because of an id clash or a fault |
| MigrationRun.ClashSeen | server/db.go:285-311 | an id found in use part-way means the legacy ids clash, independent of the order |
| MigrationRun.MigrationTarget.RunTransaction | server/db.go:250-318 | the transaction's view ends as the complete migration, or an error is returned |
| MigrationRun.LoadFile | server/internal/storage/storage.go:61-77 | an absent file loads nothing, a readable one goes over what is there, of a broken one whatever was decoded stays, and neither a broken file nor a failed read is reported |
| LegacyFiles.OneFileWhole | server/db.go:239-244 | one readable file is decoded whole, row by row: cards.json if it has cards or agents, otherwise data.json when cards.json holds nothing |
| LegacyFiles.SecondFileRead | server/db.go:240-244 | data.json is read exactly if cards.json yields neither a card nor an agent |
| LegacyFiles.MainOfSecond | server/db.go:241-244 | cards and agents are then those of data.json |
| LegacyFiles.ListsOfBoth | server/db.go:241-244 | its blacklist and audit list replace the first ones unless it has no such member |
| LegacyFiles.SessionsOfBoth | server/db.go:241-244 | its sessions go over the first ones key by key, and a null clears them |
| MigrationRun.MigrationTarget.MigrateJSON | server/db.go:182-326 | the data worked on is what loading left in memory; all or nothing over the five tables for every failure point; stored cards keep their columns and their status unless it is empty; a present card means no change; failure without faults only by an id clash |
| Startup.DataDirectory.OpenDB | server/db.go:17-27 | opening creates the file, keeps four tables and repairs only usernames; success leaves the unique index, and it can fail before or after the file exists |
| Startup.DataDirectory.Launch | server/main.go:61-82 | one start: gate, opening, loading and migration if the gate says so, and giving up or going on to serve, for every content of the files and at whatever point a fault strikes |
| Startup.LaterStartKeepsTables | server/main.go:64-82 | a start that finds the database file never migrates and changes at most usernames, and nothing once they are unique |
| Startup.HealthyFirstStart | server/main.go:64-82 | without faults the first start serves migrated, serves with nothing to migrate, gives up or never looks at the legacy data, decided by data.json being there and by what the files decode to |
| Startup.MigratedHoldsIff | server/db.go:255-318 | a migration into empty tables holds exactly those legacy rows, by key, that were decoded |
| Startup.LegacyKeptIff | server/main.go:64-82 | in every run of starts, for every content of the files and every failure point: no start after the one that created the file changes a table, and the rows of the files are held ever after exactly when that one ended as migrated with nothing lost in loading, or there were none |
| Startup.HealthyLegacyKeptIff | server/main.go:64-82 | with a healthy first start the rows of the files are held ever after exactly when data.json was there, more than audit entries was decoded, no decoded agent id clashed and nothing was lost in loading, or there were none |
| WholeRows.MigratedWholeIff | server/db.go:255-318 | a migration into empty tables holds a legacy row with all its columns, an agent's username aside, exactly when it was decoded so, if no decoded code or token repeats |
| WholeRows.WholeRowsKeptIff | server/main.go:64-82 | the same law over runs of starts with rows compared whole: a column lost in loading one row counts as a loss |
| WholeRows.OneFileLosesNoColumn | server/db.go:239-244 | loading one readable file loses no column |
| Startup.ClashLosesData | server/main.go:77-81 | two legacy agents of one id: a two-start run that ends serving without them |
| Startup.BrokenFileLosesData | server/db.go:243-247 | a data.json of which nothing decodes: a healthy run that reports nothing to migrate and loses its card |
| Startup.HalfDecodedLosesAgents | server/db.go:243-328 | a data.json that stops decoding after its cards: a healthy run that ends as migrated without its agent |
| CardCodes.AlphabetListed | server/internal/features/cards/card_types.go:5-20 | the character class used is the Crockford alphabet string |
| CardCodes.AcceptedIffSpelled | server/internal/features/cards/helpers.go:83-115 | a text is accepted as a code exactly if the code is eighteen characters of that alphabet and the text spells it, in either case and with blanks and dashes anywhere |
| CardCodes.RejectedBecause | server/internal/features/cards/helpers.go:104-111 | an ASCII text is refused for its length exactly if it does not hold eighteen characters besides blanks and dashes |
| CardCodes.ShownWithDashes | server/internal/features/cards/helpers.go:90-96 | of the twenty characters shown the seventh and the fourteenth are dashes and the rest is the code |
| CardCodes.ValidIffCanonical | server/internal/features/cards/helpers.go:83-115 | validation accepts exactly the spellings of 18 alphabet characters, and returns the normalized code |
| CardCodes.FormatRoundTrip | server/internal/features/cards/helpers.go:83-115 | the display form normalizes and validates back to its code and is its own display form |
| CardCodes.FormatInjective | server/internal/features/cards/helpers.go:90-96 | two valid codes share a display form only if equal |
| CardImport.HandlerConfigOk | server/admin_cards.go:83-94 | the handler's clamping, with defaults of 720 hours and one session and limits of 17520 and 100, makes the card arguments acceptable |
| CardImport.StoredWithDashes | server/admin_cards.go:167 | a code is stored as three groups of six joined by dashes |
| ImportText.SpaceCodes | server/admin_cards.go:144 | the characters trimmed, by code point |
| ImportText.TrimIsTrim | server/admin_cards.go:144 | trimming gives the slice outside which there is only white space and whose ends are none |
| ImportText.TrimUnique | server/admin_cards.go:144 | there is only one such slice |
| ImportText.HeaderIsTitle | server/admin_cards.go:145-148 | titles are "code" in any letter case and texts with the Chinese title in them |
| ImportText.NoteIsNote | server/admin_cards.go:157-160 | the note is the second field trimmed if anything is left of it, otherwise "imported" |
| CardImport.ClassifyReads | server/admin_cards.go:141-166 | a record is ignored exactly if it is empty or starts with a title, blank if its first field is, and otherwise accepted or rejected by its trimmed first field, with that note |
| CardImport.RunReads | server/admin_cards.go:150-208 | under any faults each item has the code and note of the record at its row number |
| CardImport.EveryRowCounted | server/admin_cards.go:139-210 | under any faults, from any loop head on, total = valid + duplicates + invalid + skipped = items, and the new items name the data rows looked at |
| CardImport.ImportAccounts | server/admin_cards.go:136-211 | so at both exits, and at every loop head, the counters add up to the items, whose row numbers strictly increase and are exactly those of the data rows reached |
| CardImport.RealImportEffects | server/admin_cards.go:182-206 | under any faults the reported imports are the added cards, distinct and new, with their audit events in order |
| CardImport.RealImportCounts | server/admin_cards.go:182-206 | imported = valid = cards added, and audit events number imported, or one less after an audit failure |
| CardImport.CardsStoredAsReported | server/admin_cards.go:184-206 | each created card is stored with the code and note of its report item and the requested arguments |
| CardImport.DryRunTouchesNothing | server/admin_cards.go:184-208 | a dry run changes neither store nor audit log and imports nothing |
| CardImport.DryRunPredictsIff | server/admin_cards.go:161-209 | without faults the real report is the dry one with valid rows imported, exactly when the arguments are acceptable or every valid code is in the store already |
| CardImport.ReportIsReference | server/admin_cards.go:139-210 | without faults the report says of each row what a definition over the initial store and the earlier rows says |
| ImportFaults.ReportUnderFaults | server/admin_cards.go:136-211 | under any faults, dry or not, the import looks at all rows or up to the first whose audit event fails, and reports of each what a definition over the initial store, the earlier rows and the faults says |
| ImportFaults.RunCounts | server/admin_cards.go:150-208 | under any faults each counter is the number of the items it is about |
| ImportLaws.SplitImport | server/admin_cards.go:136-211 | importing a ++ b equals importing a, then b: same store, audit log and imported codes, counters added, row numbers shifted |
| ImportLaws.SplitImportIff | server/admin_cards.go:136-211 | a pass may be split that way always if it imports, and otherwise (dry run, refused arguments) exactly when no code new to the store is on both sides of the cut |
| ImportLaws.CutPreviewMissesRepeat | server/admin_cards.go:136-211 | two records of one new code, previewed one by one, are such a pass that may not be split |
| ImportLaws.ReimportAddsNothing | server/admin_cards.go:168-206 | importing the same records again adds nothing and turns imported rows into duplicates, other counters unchanged |
| ImportFaults.RunTracks | server/admin_cards.go:168-192 | under any faults, of a code new to the store: it is marked as seen exactly if some row of it had its lookup succeed, stored exactly if the first such row was created, and called a duplicate exactly if a row follows that one |
| ImportFaults.MisreportsIff | server/admin_cards.go:168-192 | under any faults, a real import calls a row a duplicate of a card that is not stored exactly when the creation failed for the first looked-up row of a new code and a later reached row repeats it |
| ImportFaults.DuplicatesAreStored | server/admin_cards.go:168-182 | as long as no creation fails, a row is called a duplicate only if its card is stored |
| ImportFaults.FailedCreateShadowsRetry | server/admin_cards.go:182-192 | two records of one new code, the first of which fails to be created, are such an import |
| CardImport.Importer.ReadRecord | server/admin_cards.go:141-166 | the record is classified as trimming, titles, blanks, note and validation demand, stated without the functions that do it |
| CardImport.Importer.AcceptRow | server/admin_cards.go:183-208 | the accepting half of an iteration, with the valid counter taken back on a failed creation and the early exit |
| CardImport.Importer.ImportRow | server/admin_cards.go:150-208 | one iteration after reading: counters, item, in-memory and stored duplicate checks, acceptance |
| CardImport.Importer.ImportCardsFromRecords | server/admin_cards.go:136-211 | report, store, audit log and error of the loop are those of the specified run; a created card is stored with the note of its record and the requested arguments |
| Quota.DayIs | server/agent_cards_adapter.go:52-56 | a day is a span of 24 hours from a UTC midnight |
| Quota.DailyIsCount | server/agent_cards_adapter.go:53-58 | the sum for a day is the number of sessions on the agent's cards created within that span |
| Quota.Adapter.CheckAgentLimits | server/agent_cards_adapter.go:38-65 | the verdict follows the three limits in order: minutes of sixty seconds, sessions per card, and the sessions created within the same 24 hours as now together with the requested ones |
| Quota.Adapter.BatchGenerateCards | server/agent_cards_adapter.go:75-127 | missing and disabled agents are refused, others as the limits say; `count` cards with the requested sessions appear all together, only after an admitted check, and always do on a healthy store |
| Quota.BatchIffSingles | server/agent_cards_adapter.go:60-62 | a batch passes exactly when as many successive same-day single requests all pass |
| QuotaRuns.DailyLimitHolds | server/agent_cards_adapter.go:38-127 | over every schedule, across midnights and deletions of cards, with at most k requests of at most a given weight between check and creation, the agent's cards of no day since the start exceed the limit by more than k - 1 weights |
| QuotaRuns.PanelRequestIs | server/internal/features/agents/handler.go:445-449 | the clamping in numbers: 1 to 50 cards, 1 to 5 sessions, 1 to 8760 whole hours with 720 as the default |
| QuotaRuns.ReceivableIff | server/internal/features/agents/handler.go:445-447 | the requests used are exactly those the agent panel's clamping can pass on |
| QuotaRuns.ReceivableBound | server/agent_cards_adapter.go:38-127 | so no day exceeds the limit by more than 250 sessions, or the limit itself if smaller, per further request |
| QuotaRuns.QuietStart | server/agent_cards_adapter.go:46-62 | any card list whose day total is within the limit is a valid start |
| QuotaRuns.DailyLimitReached | server/agent_cards_adapter.go:38-127 | for every k, every card list and every request the panel can pass on that still fits the agent's limits, some schedule ends exactly k - 1 of its weights above the daily limit |
| QuotaRuns.QuotaExactIff | server/agent_cards_adapter.go:38-127 | from every card list within the limit, the daily limit is kept in every schedule of receivable requests exactly when at most one is under way at a time or the agent may not generate at all |
| AnnouncementSlot.Runtime.NewAnnouncementService | server/announcement.go:24 | a new service for the directory configured at that moment |
| AnnouncementSlot.Runtime.InstallCandidate | server/announcement.go:25-31 | an empty slot takes the candidate, a full one keeps its service, and that service is returned |
| AnnouncementSlot.Runtime.CurrentAnnouncementService | server/announcement.go:16-32 | an uninterrupted getter returns the slot's service, allocating only if the slot was empty |
| AnnouncementSlot.Runtime.InitAnnouncement | server/announcement.go:58-63 | the slot is replaced by a new service |
| AnnouncementSlot.Runtime.ConfigureRuntime | server/runtime.go:28-45 | the directory is the given one or "data" if none is given, the session time the given one or four hours, and the slot holds a new service for that directory |
| AnnouncementSlot.GettersReturnInstalled | server/announcement.go:16-32 | in every interleaving each getter returns a service that was installed, and at most one getter's candidate is ever installed |
| AnnouncementSlot.NoStaleCandidate | server/announcement.go:25-30 | once configuration is through, slot and directory stay, and every getter still under way or later returns the configured service |
| AnnouncementSlot.SettledOnConfigured | server/main.go:54-84 | with the start-up sequence of main, once it is through, configuration, slot and all later returns have the given directory, or "data" if none is given |
| AnnouncementSlot.StartupSettles | server/runtime.go:28-45 | a start-up sequence whose configurations each end with an init leaves the slot settled when it is done |
| AnnouncementSlot.GettersAgree | server/announcement.go:16-32 | without a configuring thread all getters return the same service |
| AnnouncementSlot.TimelyGettersRight | server/main.go:54-57 | if no getter builds its candidate before the configuration is set, every getter that returns, even before the first init, returns a service for the given directory, or for "data" if none is given |
| AnnouncementSlot.GettersRightIff | server/announcement.go:24-31 | stopped anywhere before the configuration is set: all continuations without a further early build give every getter the configured directory exactly when nothing was built so far or that directory is the default |
| AnnouncementSlot.EarlyBuildGoesWrong | server/announcement.go:24-31 | a getter that builds its candidate first and installs it before the configuration returns the default directory |
| Ranking.Sort | server/admin_overview.go:177-182 | a sort by a strict weak order gives an ordered permutation |
| Ranking.SortedKeysAgree | server/admin_helpers.go:143 | any two sorts show the same numbers position by position |
| Ranking.KeptItemsFixedIff | server/admin_helpers.go:143-146 | for every strict weak order the kept items are independent of the sort exactly when nothing is cut or the cut splits no tie |
| Overview.RiskierIsOrder | server/admin_overview.go:177-182 | the comparator is a strict weak order |
| Overview.CardsOnIsCount | server/admin_overview.go:126-132 | a machine's count is the number of positions with its id |
| Overview.RiskyIff | server/admin_overview.go:126-173 | a machine is risky exactly if the blacklist has it as a machine, or it has an id and at least two cards |
| Overview.QueryMultiCard | server/admin_overview.go:126-149 | one row with its count per non-empty machine id on more than one card |
| Overview.MergeBlacklist | server/admin_overview.go:157-173 | the rows become multi-card machines united with blacklisted ones, no id twice even for repeated values |
| Overview.RiskyMachines | server/admin_overview.go:124-185 | the list shown is the start of a ranked list of exactly those machines, correctly counted and flagged |
| Overview.RiskyListFixed | server/admin_overview.go:124-176 | the uncut list is determined by its inputs up to order |
| Overview.ShownMachines | server/admin_overview.go:124-185 | ten risky machines are shown, or all of them, each once with its own row, ranked |
| Overview.LeftOutMachine | server/admin_overview.go:177-185 | a machine left out outranks nothing shown; a blacklisted one is left out only if all shown are blacklisted |
| Overview.ShownMachinesFixedIff | server/admin_overview.go:177-185 | the machines shown are independent of row order and sort exactly when the cut splits no tie |
| Overview.ShownCountTruthfulIff | server/admin_overview.go:126-173 | the count shown is the real one exactly when the machine has no card or the query listed it |
| Overview.ExpiringCards | server/admin_overview.go:107-117 | the list shown is the start of a sort, by expiry, of the active cards expiring within seven days |
| Overview.ShownAreExpiring | server/admin_overview.go:107-117 | at most ten cards are shown, all given, active and expiring after now and before seven times 24 hours from now, soonest first |
| Overview.SoonestShown | server/admin_overview.go:107-117 | an expiring card is shown unless ten shown ones expire no later |
| Overview.ShownCardsFixedIff | server/admin_overview.go:107-117 | the expiring cards shown are independent of the sort exactly when the cut splits no tie |
| Leaderboard.CollectNames | server/admin_helpers.go:114-117 | the last account of an id gives its name |
| Leaderboard.CountByAgent | server/admin_helpers.go:118-138 | one entry per agent with a card, holding its exact counts and display name |
| Leaderboard.CollectItems | server/admin_helpers.go:139-142 | the map range yields every entry once, in any order |
| Leaderboard.BuildAgentLeaderboard | server/admin_helpers.go:113-148 | the board shown is the start of a sort of exactly those entries |
| Leaderboard.TotalsConserved | server/admin_helpers.go:119-142 | before the cut the totals add up to the cards that have an agent |
| Leaderboard.ActivePlusExpired | server/admin_helpers.go:131-137 | active plus expired never exceeds total, at any instant |
| Leaderboard.BoardTopMeaning | server/admin_helpers.go:113-148 | ten agents or all, each once with its own counts and name, largest first; nobody left out has more cards than anybody shown |
| Leaderboard.TallyCounts | server/admin_helpers.go:131-137 | total, active and expired are the numbers of positions with the agent, and with the status and expiry asked for |
| Leaderboard.NameShown | server/admin_helpers.go:114-129 | the name is that of the last account with the id, or the id if there is none or it has no name |
| Leaderboard.ShownItemsMean | server/admin_helpers.go:113-148 | each item shown has that name and those three numbers of its agent |
| Leaderboard.ShownTotalsFixed | server/admin_helpers.go:139-147 | the totals shown do not depend on map order or sort |
| Leaderboard.ShownAgentsFixedIff | server/admin_helpers.go:143-146 | the agents shown are independent of the sort exactly when the cut splits no tie |
| Pagination.ParsePagination | server/admin_helpers.go:38-57 | defaults and clamping of page and page size |
| Pagination.Paginate | server/admin_helpers.go:59-69 | the two bounds in wrapping 64-bit arithmetic |
| Pagination.InBoundsIff | server/admin_helpers.go:59-69 | the bounds can be sliced with exactly when the wrapped start leaves room for a page |
| Pagination.HugePageOutOfBounds | server/admin_helpers.go:59-69 | a page number for which they cannot |
| Pagination.OwnPageIff | server/admin_helpers.go:59-69 | the bounds are the requested page's own exactly when the last row number fits or the wrapped start lies past the end with room for a page |
| Pagination.HugePageShowsFirst | server/admin_helpers.go:59-69 | a page number far past the end that gives the bounds of the first page |
| Pagination.PagesTile | server/admin_helpers.go:59-69 | while the last row number fits, pages laid end to end give the list |
| RefCount.RefCounted.AddRef | cef/include/cef_base.h:98 | one more reference, counted modulo the width |
| RefCount.RefCounted.Release | cef/include/cef_base.h:126-136 | one reference less; true is returned exactly when the object was deleted |
| RefCount.CountedRun | cef/include/cef_base.h:91-142 | in every schedule with at most 2^32 outstanding references the count is their number below 2^32 and 0 at 2^32, and the object is deleted exactly when the last goes, once, never while held |
| RefCount.DeletedIsDead | cef/include/cef_base.h:126-136 | nobody can act on a deleted object |
| RefCount.SafeIffNarrow | cef/include/base/cef_atomic_ref_count.h:102-135 | all disciplined schedules up to a number of outstanding references are safe exactly when it does not exceed 2^32 |
| RefCount.OneRefMeansAlone | cef/include/base/cef_atomic_ref_count.h:137-149 | HasOneRef tells a holder exactly whether it is the only one |
| RefCount.AtLeastOneRefIff | cef/include/cef_base.h:109-114 | HasAtLeastOneRef holds exactly when references are out, but not all 2^32 |

## Left out

- HTTP handling, cookies, CORS, TLS, routing, signals and logging: I/O without state of its own.
- DLL and payload serving and encryption, client hooks and page scripts: they rest on libraries and code outside the modelled logic.
- `server/db_invites_migrate.go`: the same transactional pattern as the modelled migration, without the name search.
- Startup.LegacyKeptIff: rows are compared by their keys, for any decoded data; WholeRows.WholeRowsKeptIff compares them whole.
- WholeRows.WholeRowsKeptIff: leaves usernames aside, which the migration may extend, and repeated codes or tokens in decoded data, where the order of the map walk decides which row is stored.
- Elements of a list in data.json that leave out fields, which the decoder fills from the element of cards.json at the same place: rows are decoded as wholes.
- CSV parsing and the CSV export: a library parses, and the exported columns are not the imported ones.
- Error message texts: errors are values; the text of a rejected code is its reason.
- Concurrent writers during an import or a migration: only the quota, slot and reference-count models interleave callers.
- Invalid UTF-8 in card codes, and the case of runes beyond ASCII except those with ASCII counterparts: such codes are never valid.
- FormatCardCode on non-ASCII codes, where the source slices bytes inside runes: the import only formats validated codes.
- Timestamps of imported cards and audit events: the split and repeat results compare everything else.
- Integer widths in the quota sums: the request handlers clamp counts to 50 and sessions to 5 per card.
- Risk-limit columns of the agents table: neither the repair nor the migration writes them.
- Rows with a null agent id, which SQLite lets a text primary key hold: the repair's row scan returns an error for them.
- The cards map of the leaderboard holds pointers in the source; the entries are reached only through the map, so values stand in for them.
- Sort: sorts a sequence value by insertion, since the library's in-place algorithm is not part of the repository; results use only its contract.
- AddRef and Release: the weaker memory orderings of the atomic operations are not modelled; each is one step.
- Today's activations and new machines, and the dashboard counters: single counting loops.
