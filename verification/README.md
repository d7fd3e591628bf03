# Verified core of a legal practice dashboard

This project models, in Dafny, the parts of a law practice system where a wrong
step loses money, records or text, and proves what those parts promise:

- the trust ledger: double-entry posting that is balanced, idempotent and
  reversible and that never overdraws a client, as a state machine over whole
  runs; the balance table that the database keeps beside it, as a refinement;
- intake forms: the evaluator of branch rules, the static checker of form
  definitions and the builder's generated ids, and how the three fit together;
- the calendar lists (events, reminders, guest sessions) as refinements of
  finite maps, and the iCalendar text that the feed writes and the import reads;
- billing: cached totals over whole runs, rounding bounds, locked periods;
- parsers and printers: the CSV export, identifier and alias boxes;
- the bounded lifecycle history of a matter, draft documents, saved queue views
  and the edit distance behind fuzzy conflict matches.

Every module is one file. `Sequences`, `Sorting`, `KeyedLists`, `Grouping`,
`Text`, `Words` and `Utf16` hold the shared JavaScript list and string
operations; the others follow one source file or component each. `dafny verify dfyconfig.toml`
checks the whole project.

## Choices

- Code that loops or updates variables is a method proved against a function,
  and the theorems are about that function. The in-memory ledger, whose
  transaction list is reassigned, the store of billing locks and the recursive
  visit of a draft, which pushes onto a shared list, are classes; the edit
  distance fills an array.
- Timestamps are integers and only valid dates occur, except where dates are
  validated, printed or parsed (locks, timer forms, iCalendar); `localeCompare`
  is any total order on ids and any total preorder on dates and addresses, a
  parameter.
- `Array.prototype.sort` is stable: `Sorting` defines one stable sort and proves
  that no other list is a sorted, stable rearrangement, so nothing depends on
  how it sorts.
- `trim` and `\s` share one whitespace predicate. Money is whole cents.
- The canonical fingerprint of a ledger request is a function parameter: the
  theorems hold for every such function.
- Text is a sequence of UTF-16 units, as in JavaScript: a character of the model
  stands for one unit. Dafny has no surrogate characters, so U+10D800 to U+10DFFF
  stand in for the surrogate halves (`Utf16`), and a text that is sent as UTF-8
  loses the halves that stand alone.

## Findings

Some promises do not hold on all inputs. Each has a lemma with a concrete input
and one with the exact condition:

- Exported calendar text is not always read back: a backslash followed by `n`
  or `N` becomes a line break, and CR becomes LF
  (`ICalendarText.PathDoesNotSurvive`, `ICalendarText.EscapeRoundTripIff`).
- The import refuses an event that the CalDAV server itself has sent when it
  starts and ends within one second of the clock, and drops milliseconds
  otherwise (`ICalendarRoundTrip.ShortEventRefused`,
  `ICalendarRoundTrip.DocumentReadBack`, `ICalendarRoundTrip.EventRoundTripIff`).
- An attendee's name is quoted when it is written, but the line is read up to its
  first `:` and cut at every `;`. A name such as "Lee: Counsel" makes the import
  refuse the event, and a `;` or an empty name changes the name
  (`ICalendarRoundTrip.ColonAttendeeRefused`,
  `ICalendarAttendees.AttendeeReturnsIff`).
- Folding counts UTF-16 units and can cut a character in two, which is lost when
  the document is sent: an emoji after 66 letters of a title
  (`ICalendarRoundTrip.EmojiTitleIsCut`, `ICalendarTransport.NotCutIff`).
- One folding leaves lines of 76 units for content lines of 150 or more. The
  feed folds its events twice but its header once, so a long calendar name makes
  it too wide, and the CalDAV server folds its events once
  (`ICalendarDocuments.LongNameIsTooWide`,
  `ICalendarDocuments.CalendarFeedWidthIff`, `ICalendarDocuments.DocumentWidthIff`).
- The balance table groups by a text joined with `:`. Owners that share the
  text are merged, so the table is exact only if all but the first of them net
  to nothing (`TrustBalances.TableCanGoWrong`, `TrustBalances.CacheExactIff`).
- The ledger takes lines with neither side and amounts of any size; the entries
  table takes exactly one positive side of at most 2147483647 cents. A deposit
  with a line of nothing, or of thirty million dollars, is kept in memory and
  refused by the database (`TrustBalances.StoresCanDiffer`,
  `TrustBalances.DatabaseAgreesWithMemory`).
- A posted transaction can be reversed more than once; a second reversal passes
  exactly when every client had twice what the transaction gave it
  (`TrustLedger.CanReverseTwice`, `TrustLedger.SecondReversalAcceptedIff`).
- The database has no column for the mark that a reversal puts on its lines, so
  the receipt of a repeated reversal comes back changed
  (`TrustRows.ReversalReceiptChanges`, `TrustRows.ReceiptReturnsIff`).
- The in-memory ledger hands out a receipt that it never stores for a request
  under a new key whose transaction id is taken
  (`TrustLedger.ReceiptCanBeLost`, `TrustLedger.ReceiptStoredIff`).
- Recording a lifecycle id a second time with an older date can lose a record
  (`MatterLifecycle.ReappendCanLose`, `MatterLifecycle.ReappendSafeIff`).
- The draft invoice total drifts when an invoice's matter is missing or another
  matter holds its id (`BillingDashboard.DraftTotalCanDrift`,
  `BillingDashboard.DraftTotalExactIff`).
- The checker does not warn about a branch value that prints like an option of
  a selection but is not text, and such a rule never matches
  (`IntakeChecker.DeadRuleUnreported`, `IntakeChecker.MatchableIff`).

## Model

| member | source | states |
|---|---|---|
| TrustLedger.AcceptedIff | packages/domain/src/ledger.ts:782-839 | Under a new key a request is accepted if and only if it is balanced, no line is negative or has both sides, its reversal mirrors a posted transaction, its accounts exist, and afterwards no client of any matter is below zero, although only touched clients are checked |
| TrustLedger.RunSound | packages/domain/src/ledger.ts:762-839 | Whatever requests and new accounts arrive in whatever order, every reachable ledger is balanced, never overdrawn, has one transaction per key and per id, and every reversal mirrors an earlier transaction |
| TrustLedger.BooksBalance | packages/domain/src/ledger.ts:762-780 | Over a whole reachable ledger the debits equal the credits |
| TrustLedger.ReplayIsHarmless | packages/domain/src/ledger.ts:786-799 | After any run, a request under a stored key gets the stored receipt if the fingerprint agrees and is refused otherwise, and the ledger does not change |
| TrustLedger.RetryGetsReceipt | packages/domain/src/ledger.ts:782-839 | The receipt of a new request carries its id, firm, key, what it reverses and its lines in order, with its id and date; after any run the same request gets it again, and one under its key gets it if and only if its text, sent or made from its payload, is the same |
| TrustLedger.RefusedBecause | packages/domain/src/ledger.ts:762-839 | A request under a new key is refused for its first fault: sums, lines in order, what it reverses, then unknown accounts and overdrawn clients line by line |
| TrustLedger.ReversalAcceptedIff | packages/domain/src/ledger.ts:964-1028 | The reversal made for a posted transaction is accepted if and only if every client still has what that transaction gave it |
| TrustLedger.MadeReversalIs | packages/domain/src/ledger.ts:964-998 | The made reversal exchanges the sides of every line, puts the prefix before its memo, marks it with the transaction and keeps the rest |
| TrustLedger.ReversalUndoes | packages/domain/src/ledger.ts:964-998 | A stored reversal, however it was made, takes back exactly the balances of the transaction it names, client by client |
| TrustLedger.SecondReversalAcceptedIff | packages/domain/src/ledger.ts:800-802 | Once a reversal is stored, a second one of the same transaction under another key is accepted if and only if every client had twice what the transaction gave it |
| TrustLedger.CanReverseTwice | packages/domain/src/ledger.ts:964-1028 | After two deposits of a client the first can be reversed twice, whatever distinct ids and keys are used |
| TrustLedger.DepositAccepted | packages/domain/src/ledger.ts:762-839 | A balanced request on known accounts that takes from no client is accepted in every reachable ledger |
| TrustLedger.MemoryLedger.PostTransaction | packages/database/src/repository/ledger-core/memory.ts:89-102 | The repository's object answers as the posting rules say and appends the result unless its id is stored |
| TrustLedger.ReceiptStoredIff | packages/database/src/repository/ledger-core/memory.ts:89-102 | The receipt handed out is in the store if and only if its key was stored before or its id was free |
| TrustLedger.ReceiptCanBeLost | packages/database/src/repository/ledger-core/memory.ts:89-102 | A second deposit with the id of the first under a new key is answered with a receipt that is not stored |
| TrustBalances.ClientTrustBalanceDeltas | packages/domain/src/ledger.ts:1055-1084 | The one-pass gathering loop yields the non-zero delta of every key group, in order of first appearance |
| TrustBalances.DeltasExactIff | packages/domain/src/ledger.ts:1055-1084 | No owner appears twice, and the deltas are exactly the owners whose entries do not cancel, with their nets, if and only if every owner that shares a key text with an earlier one nets to nothing |
| TrustBalances.ColonFreeIsFaithful | packages/domain/src/ledger.ts:1073-1073 | Matter ids without a colon make key texts identify owners within a firm |
| TrustBalances.FaithfulCancels | packages/domain/src/ledger.ts:1073-1073 | Where key texts identify owners, the condition for exact deltas holds |
| TrustBalances.KeysCanClash | packages/domain/src/ledger.ts:1073-1073 | Otherwise clients of two matters of one firm can have the same key text |
| TrustBalances.ClashMergesOwners | packages/domain/src/ledger.ts:1070-1083 | Two owners with one key text are merged: the first is credited with the money of both |
| TrustBalances.UpdateBalances | packages/database/src/repository/ledger-core/drizzle.ts:216-260 | The update loop adds the deltas one by one and fails as a whole when raising a row beyond the range of its column, or lowering one that is missing or would go below zero |
| TrustRows.PostIgnoresMarks | packages/database/src/repository/ledger-core/drizzle.ts:140-162 | Posting against what the database reads back decides as posting against the full ledger; only the receipt of a repeated request lacks the marks of its lines |
| TrustRows.SoundOfRows | packages/database/src/repository/ledger-core/drizzle.ts:164-193 | What the database reads back of a sound ledger is a sound ledger |
| TrustRows.ReceiptReturnsIff | packages/database/src/schema/ledger.ts:72-107 | A receipt is read back as it was given, its date compared as an instant, if and only if no line carries the mark of a reversal |
| TrustRows.ReversalReceiptChanges | packages/database/src/schema/ledger.ts:72-107 | The receipt of a made reversal is never read back as it was given |
| TrustBalances.CacheExactIff | packages/database/src/repository/ledger-core/drizzle.ts:122-264 | From a sound database, a request that the ledger accepts is stored with the table equal to the ledger's sums if and only if every line has one positive side in range, no balance leaves the range and later owners of a shared key net to nothing; once it is stored, the last decides; a request that is not stored changes nothing |
| TrustBalances.UncancelledGoesWrong | packages/database/src/repository/ledger-core/drizzle.ts:216-260 | An accepted request that takes from no client and credits a later owner of a shared key is stored if and only if its lines and the balances of its key groups are in range, and then the table is wrong |
| TrustBalances.TableCanGoWrong | packages/database/src/repository/ledger-core/drizzle.ts:216-260 | From an empty database one payment for two clients whose key texts agree is accepted and the table is wrong |
| TrustBalances.CacheRefinesLedger | packages/database/src/repository/ledger-core/drizzle.ts:122-264 | Over any run of requests that meet that condition and newly opened accounts, each request by the rows and accounts of its time, the table shows for every client of every matter the sum over the whole ledger, never negative |
| TrustBalances.DatabaseAgreesWithMemory | packages/database/src/repository/ledger-core/drizzle.ts:122-264 | For one request the database keeps the rows of what the in-memory ledger keeps if and only if a request new to the ledger has one positive side in range on every line and moves no balance out of range; it answers alike, except that a repeated request gets its receipt without marks, and a taken id or a row out of bounds is refused; its guard never fires |
| TrustBalances.StoresCanDiffer | packages/database/src/schema/ledger.ts:72-107 | A deposit with a third line of nothing, and one of thirty million dollars, are kept in memory and refused by the database |
| TrustBalances.DatabaseRunAgrees | packages/database/src/repository/ledger-core/drizzle.ts:122-264 | Over any run of requests that meet the conditions above at their time and newly opened accounts the database keeps the rows of what the in-memory ledger keeps |
| TrustPostings.RecentTrustPostings | apps/web/app/trust-controls-dashboard.ts:450-486 | The loop that updates Map entries, the sort and the cut give the first `limit` of the stable newest-first sort of the matter's postings |
| TrustPostings.PostingsAreGroups | apps/web/app/trust-controls-dashboard.ts:460-481 | Every transaction of the matter has one posting, with the count, latest date, first non-empty memo and net liability credit of exactly its entries; together they come to the matter's total liability credit minus debit |
| TrustPostings.ShownAreNewest | apps/web/app/trust-controls-dashboard.ts:483-485 | As many postings as asked for are shown, or all; they descend in date and none left out is newer than one shown |
| Grouping.GatherInOrder | apps/web/app/trust-controls-dashboard.ts:460-481 | One pass with a Map leaves each key once, by first appearance, with the fold over exactly its own items in order |
| Grouping.GroupsAddUp | apps/web/app/trust-controls-dashboard.ts:460-481 | Nothing is lost or counted twice: the groups' sums add up to the sum over the kept items |
| IntakeForms.SummarizeIntakePath | apps/web/app/intake-forms-dashboard.ts:619-675 | The loop that fills two Sets and an array computes the path that the next rows are about |
| IntakeForms.VisibleIff | apps/web/app/intake-forms-dashboard.ts:624-642 | A question id is visible if and only if it is a question no rule shows, or some matching rule shows it; each id once |
| IntakeForms.EligibleIff | apps/web/app/intake-forms-dashboard.ts:632-642 | A package id is eligible if and only if it is a default or some matching rule grants it; each id once |
| IntakeForms.MatchesIff | apps/web/app/intake-forms-dashboard.ts:694-705 | When a rule matches, operator by operator; an absent answer counts as undefined |
| IntakeForms.PathListsIff | apps/web/app/intake-forms-dashboard.ts:619-675 | A path lists exactly the visible questions and eligible packages, each once, and the matching rules in their order |
| IntakeForms.SelectedAreEligible | apps/web/app/intake-forms-dashboard.ts:644-646 | Only eligible packages are ever selected, whatever is requested |
| IntakeForms.SelectedIff | apps/web/app/intake-forms-dashboard.ts:644-646 | Without a request the eligible packages are selected; with one a package is selected if and only if it is requested and eligible, in the order and as often as requested |
| IntakeForms.DocumentsCounted | apps/web/app/intake-forms-dashboard.ts:647-649 | With distinct package ids the count is the number of pairs of a selected package and a document of it |
| IntakeForms.RequestDuplicatesIrrelevant | apps/web/app/intake-forms-dashboard.ts:644-649 | The document count depends on the set of requested packages only |
| IntakeForms.RuleOrderIrrelevant | apps/web/app/intake-forms-dashboard.ts:619-675 | Reordering or repeating rules changes no visible question, item, missing item, eligible package or document count |
| IntakeForms.IdleRuleChangesNothing | apps/web/app/intake-forms-dashboard.ts:619-675 | A rule that shows and grants nothing changes the matched list only |
| IntakeForms.SampleMatchesIff | apps/web/app/intake-forms-dashboard.ts:687-705 | The sample answer makes its rule match if and only if the operator is present or not_equals or the value is set |
| IntakeForms.SampleAnswerIs | apps/web/app/intake-forms-dashboard.ts:687-692 | What the sample answer is where a rule has no value, and that of not_equals differs from a text by its prefix |
| IntakeForms.RulePathMatchesIff | apps/web/app/intake-forms-dashboard.ts:590-603 | Under that condition the rule is on the matched list of its own path summary; with a unique id, only then |
| IntakeChecker.FindDuplicateValues | apps/web/app/intake-forms-dashboard.ts:707-711 | Counting in a Map finds the repeated values, each once, in order of first appearance |
| IntakeChecker.NoDuplicatesIff | apps/web/app/intake-forms-dashboard.ts:707-711 | Nothing is found if and only if all values are distinct |
| IntakeChecker.PushDuplicates | apps/web/app/intake-forms-dashboard.ts:713-729 | The findings so far are kept and one is appended per repeated value |
| IntakeChecker.PushSections | apps/web/app/intake-forms-dashboard.ts:802-849 | The nested loops over sections and items append what each section and each item has wrong, in order |
| IntakeChecker.PushRules | apps/web/app/intake-forms-dashboard.ts:851-909 | The loop over rules, with loops over shown questions and granted packages, appends what each has wrong, in order |
| IntakeChecker.PushPackages | apps/web/app/intake-forms-dashboard.ts:911-932 | The loop over packages appends an empty package and repeated document ids, in order |
| IntakeChecker.BuildDiagnostics | apps/web/app/intake-forms-dashboard.ts:731-935 | The pushing loops leave the findings of every check in the source's order |
| IntakeChecker.ReportedIff | apps/web/app/intake-forms-dashboard.ts:731-935 | A finding is reported if and only if what it says is the case, kind by kind and with the ids that it names |
| IntakeChecker.NothingBlockingIffWellFormed | apps/web/app/intake-forms-dashboard.ts:731-935 | No blocking finding if and only if ids are unique per kind, mappings supported, no section or package empty, and every reference resolves |
| IntakeChecker.WellFormedPathsAreClosed | apps/web/app/intake-forms-dashboard.ts:619-675 | With no blocking finding, for all answers and requests every question, item, package and rule id on the path exists in the definition and no visible question, item, missing item or eligible package appears twice |
| IntakeChecker.ItemMissingIff | apps/web/app/intake-forms-dashboard.ts:650-663 | Then an item shows if and only if its question is visible, and is missing if and only if it shows, is required and is not answered |
| IntakeChecker.MatchableIff | apps/web/app/intake-forms-dashboard.ts:862-884 | On a yes/no or select question, whose answers are single values, an equals rule can be met by an allowed answer if and only if there is no value warning and, for a selection, the value is text; otherwise not_equals always matches; an includes rule, which asks for a list, never matches |
| IntakeChecker.DeadRuleUnreported | apps/web/app/intake-forms-dashboard.ts:862-884 | A definition with a rule that compares a selection with the number 5 has no finding at all, and no allowed answer meets the rule |
| IntakeBuilder.UniqueDefinitionId | apps/web/app/intake-forms-dashboard.ts:677-685 | The search ends and returns the first free candidate from one past the length on, which is unused |
| IntakeBuilder.UniqueIdIsUnused | apps/web/app/intake-forms-dashboard.ts:677-685 | The id is the prefix, a hyphen and the first free number past the count of ids, found after at most as many retries as there are ids |
| IntakeBuilder.AddRuleWellFormedIff | apps/web/app/intake-forms-dashboard.ts:532-545 | A generated rule keeps a definition well formed if and only if its question exists |
| IntakeBuilder.AddedRulesStayClean | apps/web/app/intake-forms-dashboard.ts:532-545 | After any positive number of added rules there is no blocking finding if and only if there was none and there is a question |
| IntakeBuilder.AddedRuleMatchesIff | apps/web/app/intake-forms-dashboard.ts:532-545 | An added rule stands last under a free id and is matched on a path if and only if the first question has an answer |
| IntakeBuilder.AddedRulesKeepPaths | apps/web/app/intake-forms-dashboard.ts:532-545 | Any number of added rules leaves every path as it was, but for more ids at the end of the matched list |
| IntakeBuilder.AddedScenariosStayDistinct | apps/web/app/intake-forms-dashboard.ts:547-559 | Any number of added scenarios keeps scenario ids distinct |
| IntakeBuilder.AddedScenarioIsBlank | apps/web/app/intake-forms-dashboard.ts:547-559 | An added scenario stands last under a free id, answers nothing and selects no package |
| IntakeBuilder.AddedScenariosKeepFindings | apps/web/app/intake-forms-dashboard.ts:731-935 | Added scenarios change no finding of the checker |
| CalendarCollections.UpsertRunIsTheListing | apps/web/app/calendar-dashboard.ts:899-908 | From distinct ids, a list is the (start, id)-sorted listing of the map that a non-empty run of upserts denotes if and only if it is the list the run leaves |
| CalendarCollections.EventsAscend | apps/web/app/calendar-dashboard.ts:28-33 | After any run of upserts the earlier start stands first, and the smaller id where starts are equal |
| CalendarCollections.SameMapSameList | apps/web/app/calendar-dashboard.ts:899-908 | Two runs leave the same list if and only if they denote the same map |
| CalendarCollections.UpsertsCommute | apps/web/app/calendar-dashboard.ts:899-908 | Upserts of different ids commute |
| CalendarCollections.LaterUpsertWins | apps/web/app/calendar-dashboard.ts:899-908 | A later upsert of an id erases the earlier one, so repeating one changes nothing |
| CalendarCollections.MatterRunIsSliceRun | apps/web/app/calendar-dashboard.ts:882-897 | A run on one matter is the standalone run on its slice and leaves other matters alone |
| CalendarCollections.RemoveIsTombstone | apps/web/app/calendar-dashboard.ts:945-1002 | Upserting a tombstone equals removing the reminder if and only if what remains is live and sorted |
| CalendarCollections.ReminderRunListed | apps/web/app/calendar-dashboard.ts:945-1002 | Any run of upserts and removals keeps the list the sorted enumeration of the live reminders of the map it denotes |
| CalendarCollections.RemindersAscend | apps/web/app/calendar-dashboard.ts:945-1002 | After any run the earlier reminder stands first, the smaller id where times are equal, and none is deleted |
| CalendarCollections.PutIsListedIff | apps/web/app/calendar-dashboard.ts:945-1002 | A reminder that is put is listed if and only if it is not deleted |
| CalendarCollections.MatterStepIsStandalone | apps/web/app/calendar-dashboard.ts:919-1002 | The matter-keyed upsert and removal, written out on their own, equal the standalone ones on the matter's slice |
| CalendarCollections.MatterRemindersAreStandalone | apps/web/app/calendar-dashboard.ts:919-1002 | Matter-keyed runs are standalone runs on the matter's slice and leave other matters alone |
| CalendarCollections.RunActsOnOneEvent | apps/web/app/calendar-dashboard.ts:945-1002 | A run changes only the reminders of the addressed event, by the run on those reminders |
| CalendarCollections.GroupGuestSessions | apps/web/app/calendar-dashboard.ts:1064-1085 | Append-and-resort inside the loop equals grouping all sessions by event and sorting each group once; exactly the events with sessions are keys |
| CalendarCollections.SessionsGrouped | apps/web/app/calendar-dashboard.ts:1064-1085 | An event has a group if and only if it has a session, and the group holds exactly its sessions |
| CalendarCollections.SessionsInOrder | apps/web/app/calendar-dashboard.ts:628-637 | In a group no ended session stands before one that has not ended; among the others the later update is first, then the smaller id |
| KeyedLists.ListingUnique | apps/web/app/calendar-dashboard.ts:28-33 | An order that falls back on the id leaves one sorted listing per map |
| Sorting.StableSortUnique | apps/web/app/calendar-dashboard.ts:28-33 | A list that is sorted and keeps the order of equivalent elements is the stable sort |
| BillingDashboard.UpdateWithCreatedInvoice | apps/web/app/billing-dashboard.ts:540-594 | The update that assigns removed amounts while mapping computes the invoice step that the next rows are about |
| BillingDashboard.InvoiceTakesListed | apps/web/app/billing-dashboard.ts:554-572 | In the matter of an invoice exactly the entries that it was made from are gone, the others keep their order, it stands first in place of any invoice with its id, and no other matter changes |
| BillingDashboard.TotalsFallByListed | apps/web/app/billing-dashboard.ts:557-591 | The unbilled totals fall by exactly the amounts of those entries, never below zero |
| BillingDashboard.ConsistentTotalsFall | apps/web/app/billing-dashboard.ts:557-591 | On a consistent dashboard they fall by exactly those amounts |
| BillingDashboard.UnbilledTotalsStayExact | apps/web/app/billing-dashboard.ts:554-591 | With distinct matters and non-negative amounts, unbilled totals stay equal to the sums over matters for any invoice, and the clamp at zero never changes a result |
| BillingDashboard.DraftTotalExactIff | apps/web/app/billing-dashboard.ts:574-592 | The draft total stays exact if and only if the draft money that found no matter equals the draft money under the same id elsewhere |
| BillingDashboard.DraftTotalCanDrift | apps/web/app/billing-dashboard.ts:574-592 | A draft of 100 cents whose matter is absent from a consistent dashboard is counted in the total and held by no matter |
| BillingDashboard.TotalsStayExact | apps/web/app/billing-dashboard.ts:540-675 | Over any run of invoices whose matters are present, timer drafts, expense drafts and added matters, all three totals stay equal to the sums over matters and ids stay unique |
| BillingDashboard.AddMatterKeeps | apps/web/app/dashboard-client.tsx:6474-6491 | An empty matter is put in front unless one with its id is there, and all totals stay exact and all ids unique |
| BillingDashboard.InvoiceStepIsIdempotent | apps/web/app/billing-dashboard.ts:540-594 | Applying the same created invoice again changes nothing |
| BillingDashboard.TimerDraftFiled | apps/web/app/billing-dashboard.ts:633-652 | The draft stands first in its matter and nowhere else, other drafts keep their order, no other matter changes |
| BillingDashboard.TimerFiledAs | apps/web/app/billing-dashboard.ts:596-614 | A started timer is filed with its own fields and the nearest cent to its minutes at its rate, the higher one of two |
| BillingDashboard.ExpenseDraftFiled | apps/web/app/billing-dashboard.ts:654-675 | The draft stands first in its matter and nowhere else, other drafts keep their order, no other matter changes |
| BillingDashboard.LaterTimerDraftWins | apps/web/app/billing-dashboard.ts:633-652 | Filing a timer draft under an id again is filing only the later one |
| BillingDashboard.LaterExpenseDraftWins | apps/web/app/billing-dashboard.ts:654-675 | Filing an expense draft under an id again is filing only the later one |
| BillingDashboard.RoundingErrorBound | apps/web/app/billing-dashboard.ts:596-614 | For n entries, 60 times the summed amounts differs from the summed minutes times rate by at most 30n, for every division by 60 that is off by less than a sixtieth and exact at the halves |
| BillingDashboard.SplitEntryBound | apps/web/app/billing-dashboard.ts:596-614 | Splitting an entry into k at the same rate moves the total by at most (k+1)/2 cents, for every such division |
| BillingDashboard.FloatingQuotientRounds | apps/web/app/billing-dashboard.ts:609-609 | Rounding the quotient of such a division gives the cents of the exact quotient |
| BillingLocks.LockStore.CreateLock | packages/database/src/repository/billing-controls/memory.ts:27-39 | The repository's object refuses what the validator or an overlap refuses and appends the lock otherwise |
| BillingLocks.ValidIff | packages/domain/src/billing.ts:1399-1408 | The validator passes exactly the locks with a firm and an actor that are not blank and a start before their end, and refuses any other for its first fault |
| BillingLocks.LockCreatedIff | packages/database/src/repository/billing-controls/memory.ts:27-39 | A lock is created if and only if it is valid in that sense and shares no instant with a stored lock of its firm; a valid one is refused for such an overlap only; the stored locks stay valid and disjoint |
| BillingLocks.LocksStaySound | packages/domain/src/billing.ts:1399-1408 | Whatever locks are asked for, all stored ones pass the validator and no two of a firm share an instant |
| BillingLocks.ListedLocks | packages/database/src/repository/billing-controls/memory.ts:16-25 | Exactly the locks of the firm are listed, in order |
| BillingLocks.TimerLockIff | apps/web/app/billing-dashboard.ts:365-407 | An empty window meets no lock; any other meets one if and only if it starts before the end of a lock and stops after its start |
| BillingLocks.WindowTestIsExact | apps/web/app/billing-dashboard.ts:375-377 | For a lock that passes the validator the window test fires if and only if the instant test does somewhere in the window |
| BillingLocks.StoredLocksDecide | apps/web/app/billing-dashboard.ts:365-407 | For the listed locks of a firm after any run of creations, timer check and expense check agree on every window, and the lock an expense date meets is the only one |
| BillingLocks.TimerLockIsExpenseLock | apps/web/app/billing-dashboard.ts:365-407 | For locks that pass the validator a timer is stopped if and only if an expense at some instant of its window would be |
| BillingLocks.TimerAcceptedIff | apps/web/app/billing-dashboard.ts:409-448 | With locks that pass the validator a timer form yields a payload if and only if it is complete and no instant of its window is locked |
| BillingLocks.TimerRefused | apps/web/app/billing-dashboard.ts:409-448 | A timer form is refused for its first fault, in the order matter, times, locks, narrative, rate |
| BillingLocks.AcceptedTimerIsClear | apps/web/app/billing-dashboard.ts:409-448 | Whatever the locks, an accepted payload carries the form's own window, text and rate and its window is disjoint from every lock; a lock refusal names a lock that the window meets |
| ConflictText.ParseConflictIdentifiers | apps/web/app/conflict-check-dashboard.ts:69-91 | The loop with its early return computes the parse that the next rows are about |
| ConflictText.LineReadsIff | apps/web/app/conflict-check-dashboard.ts:76-87 | A line is skipped if and only if it is blank, and read as an identifier if and only if it has text on both sides of its first delimiter |
| ConflictText.ReadsAllIff | apps/web/app/conflict-check-dashboard.ts:69-91 | The identifiers are those of the lines that are not blank, in order, if no line is bad |
| ConflictText.AliasIff | apps/web/app/conflict-check-dashboard.ts:58-67 | The aliases of a text are its parts between commas and line breaks, trimmed, if anything is left of them, each once |
| ConflictText.IdentifierRoundTripIff | apps/web/app/conflict-check-dashboard.ts:69-91 | Parsing gives back the printed list if and only if types are trimmed, non-empty and free of delimiters and newline and values are trimmed, non-empty and free of newline |
| ConflictText.ParsePrintParse | apps/web/app/conflict-check-dashboard.ts:69-91 | Every successful parse, printed and parsed again, gives itself |
| ConflictText.AliasRoundTripIff | apps/web/app/conflict-check-dashboard.ts:58-67 | Printed aliases parse back if and only if they are distinct, trimmed, non-empty and free of comma and newline |
| ConflictText.PrefillRoundTripIff | apps/web/app/contact-dossiers-dashboard.ts:31-48 | A dossier's prefill is parsed back as printed if and only if its names and identifiers are clean |
| ConflictText.PrefillIs | apps/web/app/contact-dossiers-dashboard.ts:36-44 | Aliases come before former names, and the own identifiers before those of the contact methods that have a value and are not excluded |
| CsvExport.ExportDecodes | apps/web/app/dashboard-client.tsx:540-592 | A decoder after section 2 of RFC 4180 reads back the header and every cell's text, whatever the cells contain |
| CsvExport.ExportedColumns | apps/web/app/dashboard-client.tsx:548-592 | In the decoded export record i stands for row i, and under every header stands the text of the field that the header names, empty when it is missing |
| CsvExport.ExportEqualIff | apps/web/app/dashboard-client.tsx:540-592 | Two reports have the same export if and only if all their cell texts are the same |
| CsvExport.TableReads | apps/web/app/dashboard-client.tsx:540-544 | Every table of non-empty records is decoded from its encoding |
| ICalendarText.EscapeRoundTripIff | packages/domain/src/calendar.ts:339-349 | Unescaping an escaped text gives it back if and only if it has no CR and no backslash directly followed by n or N |
| ICalendarText.EscapeFitsOneLine | packages/domain/src/calendar.ts:339-345 | An escaped value contains no line break |
| ICalendarText.PathDoesNotSurvive | packages/domain/src/calendar.ts:339-349 | A Windows path with a folder in n is not read back |
| ICalendarLines.FoldICalendarLine | packages/domain/src/calendar.ts:362-373 | The loop that cuts after every 75 UTF-16 units computes the folding that the next rows are about |
| ICalendarLines.FoldingIsInvisible | packages/domain/src/calendar.ts:519-533 | Folding any stream, folded before or not, never changes what unfolding reads |
| ICalendarLines.FoldedWidthIff | packages/domain/src/calendar.ts:362-373 | One folding keeps lines to 75 UTF-16 units if and only if the line is under 150, and to 76 always |
| ICalendarLines.FeedWidthIff | packages/domain/src/calendar.ts:495-517 | The lines of a feed keep to 75 UTF-16 units if and only if every line of its header and its footer is shorter than 150; only the events are folded twice |
| ICalendarDocuments.CalendarFeedWidthIff | packages/domain/src/calendar.ts:495-517 | For the feed's own header this means that the product line and the calendar name line are shorter than 150, whatever the events |
| ICalendarDocuments.LongNameIsTooWide | packages/domain/src/calendar.ts:495-517 | A calendar name of 140 letters makes the feed too wide |
| ICalendarDocuments.DocumentWidthIff | apps/api/src/routes/caldav.ts:97-104 | The lines of a CalDAV document keep to 75 UTF-16 units if and only if every line of the event, attendees included, is shorter than 150 |
| ICalendarLines.EventReads | packages/domain/src/calendar.ts:444-478 | Unfolding an event's text gives back its content lines, however long |
| ICalendarLines.FeedReads | packages/domain/src/calendar.ts:495-533 | Unfolding a feed gives back its header, the content lines of every event in order, and its footer |
| ICalendarLines.AnyFoldReads | packages/domain/src/calendar.ts:519-532 | A line that is cut anywhere, the rest marked by spaces or tabs, is read as a whole, and empty lines are skipped |
| ICalendarDocuments.CalendarFeedReads | packages/domain/src/calendar.ts:495-517 | A feed is read as its six header lines, the lines of every event in order, stamped with the date of the feed or the start of 1970, and its last line |
| ICalendarLines.PublishedPropertiesReadIff | packages/domain/src/calendar.ts:444-555 | The text properties of an event are all read back as written if and only if every text survives escaping |
| ICalendarEvents.DateReadsBack | packages/domain/src/calendar.ts:585-598 | A printed date is read back without its milliseconds |
| ICalendarEvents.ListedIff | packages/domain/src/calendar.ts:472-476 | The attendees sent are exactly those not deleted, each as often as the event has it, ascending by address and in their order at one address |
| ICalendarEvents.GatherLines | packages/domain/src/calendar.ts:622-637 | The loop that fills the Map and pushes attendees keeps the first value of every other name, and stops at the first attendee that cannot be read |
| ICalendarImport.FieldIff | packages/domain/src/calendar.ts:534-555 | A line is read as a field if and only if the name in upper case ends at its first colon or semicolon and the value follows the first colon |
| ICalendarImport.SupportedIff | packages/domain/src/calendar.ts:557-583 | The first check passes if and only if no line lacks a colon, names an unsupported component or property or a method other than PUBLISH; otherwise the first such line decides |
| ICalendarImport.ParamIff | packages/domain/src/calendar.ts:541-547 | The value of a parameter is what the last one that sets its name sets |
| ICalendarImport.UtcIff | packages/domain/src/calendar.ts:585-597 | A date is read if and only if it is a UTC time without punctuation that the clock knows, and read as the ISO text of that time |
| ICalendarImport.LookupIff | packages/domain/src/calendar.ts:622-637 | The value of a name is that of its first line |
| ICalendarImport.PartsReadIff | packages/domain/src/calendar.ts:677-707 | An attendee is read if and only if its value is a mailto address with an at sign and role and status are supported words; the name defaults to the address |
| ICalendarImport.PartsRefused | packages/domain/src/calendar.ts:677-707 | Any other attendee is refused for its first fault |
| ICalendarImport.AttendeesReadIff | packages/domain/src/calendar.ts:622-637 | All attendees are read if and only if every attendee line is, in order |
| ICalendarImport.ImportedIff | packages/domain/src/calendar.ts:599-674 | A payload is imported as a content if and only if all its lines are supported, exactly one opens an event, another closes it, and the lines between carry that content |
| ICalendarImport.ImportRefused | packages/domain/src/calendar.ts:599-674 | Any other payload is refused for its first fault: an unsupported line, the lines that open and close the event, its attendees, what it must have, its status, its sequence number, its dates |
| Utf16.ArrivesIff | apps/api/src/routes/caldav.ts:584-591 | A text sent as UTF-8 arrives as it was if and only if every surrogate half stands next to its other half |
| ICalendarTransport.ArrivedIff | packages/domain/src/calendar.ts:362-373 | A content line that is folded, sent as UTF-8 and unfolded arrives as it was if and only if each folded piece is whole |
| ICalendarTransport.NotCutIff | packages/domain/src/calendar.ts:362-373 | The pieces are whole if and only if the line is and no character of two units is cut after a multiple of 75 units |
| ICalendarTransport.ArrivedReads | packages/domain/src/calendar.ts:519-533 | Unfolding a sent text of folded content lines gives each line as it arrives, however long |
| ICalendarTransport.FadedTextReadsIff | packages/domain/src/calendar.ts:339-349 | An escaped text of which some halves may have been lost is read back as it was if and only if none has been and the text survives escaping |
| ICalendarAttendees.ParamReadsBack | packages/domain/src/calendar.ts:351-360 | A quoted and escaped parameter without line breaks is unquoted and unescaped to itself |
| ICalendarAttendees.AttendeeReturnsIff | packages/domain/src/calendar.ts:481-707 | An attendee whose line is written, sent and read is read back as it was if and only if its name is not empty and has no colon, semicolon or line break, its address survives escaping, is trimmed and has an at sign, and no character of the line is cut |
| ICalendarAttendees.ColonNameRefused | packages/domain/src/calendar.ts:677-707 | A name such as "Lee: Counsel" makes the import refuse the attendee for lack of a mailto value |
| ICalendarRoundTrip.AttendeesReturnIff | packages/domain/src/calendar.ts:481-707 | All attendees are read back in their order if and only if each one is |
| ICalendarRoundTrip.DocumentReadBack | packages/domain/src/calendar.ts:599-707 | The import refuses a valid event's own CalDAV document, as it is sent, if and only if an attendee cannot be read, the title is empty or start and end fall in one second; otherwise it gives the event and its attendees as read, but for cut characters, escaping, milliseconds and empty notes |
| ICalendarRoundTrip.DocumentFramed | apps/api/src/routes/caldav.ts:584-591 | The sent document is read as five opening lines, the lines of the event and two closing lines |
| ICalendarRoundTrip.MarksArrive | packages/domain/src/calendar.ts:447-466 | A reader of the sent document finds the dates of creation and of the last change, which is also the stamp, and the ids of firm, matter and client |
| ICalendarRoundTrip.EventRoundTripIff | packages/domain/src/calendar.ts:444-707 | An event that is sent is read back as it was if and only if its title is not empty, its texts survive escaping and are not cut inside a character, its notes are not empty texts, it starts and ends on a second, and every attendee that is not deleted comes back |
| ICalendarRoundTrip.ShortEventRefused | packages/domain/src/calendar.ts:599-674 | An event of eight tenths of a second is exported and refused on import, for a concrete clock and number parser that meet the conditions above |
| ICalendarRoundTrip.ColonAttendeeRefused | packages/domain/src/calendar.ts:599-707 | An event whose first attendee has such a name is exported and refused on import |
| ICalendarRoundTrip.EmojiTitleIsCut | packages/domain/src/calendar.ts:362-373 | A title of 66 letters and an emoji is whole and survives escaping, but does not come back |
| MatterLifecycle.StreamingEqualsOffline | apps/web/app/matter-command-center.ts:146-159 | After any run of appends with distinct ids the list is the first eight of one stable newest-first sort of everything: cutting at every step loses nothing |
| MatterLifecycle.ListedAreNewest | apps/web/app/matter-command-center.ts:146-159 | The list has at most eight records, later dates first, and no record left out is newer than one listed |
| MatterLifecycle.ReappendSafeIff | apps/web/app/matter-command-center.ts:146-159 | For a repeated id this still holds if and only if the old copy was cut off, or nothing was, or the new copy is as recent as the newest record cut off |
| MatterLifecycle.ReappendSafeIfVisible | apps/web/app/matter-command-center.ts:146-159 | It holds whenever the stored list has fewer than eight records, or does not have the id, or the new copy is as recent as its last record |
| MatterLifecycle.ReappendCanLose | apps/web/app/matter-command-center.ts:146-159 | There is a history and a record for which it fails |
| DraftDocuments.PartsCollector.Visit | apps/web/app/drafting-dashboard.ts:149-156 | The recursive visit appends the texts of the tree, a node before its children, to the shared list |
| DraftDocuments.ExtractDraftPlainText | apps/web/app/drafting-dashboard.ts:146-161 | The method computes the preview that the next rows are about |
| DraftDocuments.PreviewIsWords | apps/web/app/drafting-dashboard.ts:146-161 | The preview is the words of all texts in order with single spaces between, or the placeholder if there are none |
| DraftDocuments.InsertAppendsWords | apps/web/app/drafting-dashboard.ts:146-188 | Inserting a text adds exactly its words, in order, after the document's words |
| DraftDocuments.InsertedNodes | apps/web/app/drafting-dashboard.ts:163-182 | Each paragraph becomes a paragraph node with one text node after the document's own children, and nothing else changes |
| DraftDocuments.InsertTwiceIsInsertOnce | apps/web/app/drafting-dashboard.ts:163-188 | Inserting a then b gives the same document as inserting a, a blank line and b |
| DraftDocuments.ParagraphRoundTripIff | apps/web/app/drafting-dashboard.ts:163-182 | Texts joined by blank lines come back as the paragraphs if and only if each is trimmed, not empty and without a blank line of its own |
| Words.CollapsedIsWords | apps/web/app/drafting-dashboard.ts:160-160 | Collapsing whitespace and trimming leaves the words with single spaces between |
| QueueViews.ApplyRowLimit | apps/web/app/dashboard-utils.ts:295-304 | The map that decrements the remaining budget, never below zero, computes the limiting that the next row is about |
| QueueViews.KeptIff | apps/web/app/dashboard-utils.ts:289-319 | A section is kept if and only if the view names its key, or names no key at all |
| QueueViews.KeptInOrder | apps/web/app/dashboard-utils.ts:289-319 | The kept sections stand in their order, each as often as before |
| QueueViews.ViewShowsFirst | apps/web/app/dashboard-utils.ts:289-321 | A saved view shows the sections that it names, or all when it names none, in order with exactly the first min(limit, total) of their items together, none for a negative limit; applying it again changes nothing, and without a view all is shown |
| NameSimilarity.Levenshtein | packages/domain/src/conflicts.ts:96-111 | The table over the UTF-16 units of two texts, filled row by row, ends with the distance that the next rows are about |
| NameSimilarity.FillRow | packages/domain/src/conflicts.ts:100-108 | A row is computed from the row above it and no other row changes |
| NameSimilarity.DistanceIsLeast | packages/domain/src/conflicts.ts:96-111 | The distance is the least number of edits of a single UTF-16 unit that lead from one text to the other |
| NameSimilarity.TriangleInequality | packages/domain/src/conflicts.ts:96-111 | A detour is never shorter |
| NameSimilarity.DistanceSymmetric | packages/domain/src/conflicts.ts:96-111 | The order of the two texts does not matter |
| NameSimilarity.DistanceZeroIff | packages/domain/src/conflicts.ts:96-111 | The distance is zero for equal texts only |
| NameSimilarity.SimilarityProperties | packages/domain/src/conflicts.ts:113-117 | Similarity lies between 0 and 1, is symmetric, is 1 for equal names only, and reaches the match threshold of 0.86 if and only if there are at most 14 edits per 100 units of the longer name |
| NameSimilarity.FloatingSimilarityDecides | packages/domain/src/conflicts.ts:313-313 | A computed similarity and threshold whose joint error is below one in fifty times the longer length, and which do not miss an exact tie, decide a match as the exact numbers do |

## Left out

- IntakeChecker.PushDuplicates: findings carry no id or message text, only their kind and what they refer to.
- IntakeChecker.PushSections: findings carry no id or message text, only their kind and what they refer to.
- IntakeChecker.PushRules: findings carry no id or message text, only their kind and what they refer to.
- IntakeChecker.PushPackages: findings carry no id or message text, only their kind and what they refer to.
- IntakeChecker.BuildDiagnostics: findings carry no id or message text, only their kind and what they refer to.
- A rule's value is a string, number, truth value, null or undefined, not an object; answers are own properties of the answer record.
- The server's intake validator and resolver are a second implementation and are not modelled.
- Keyed lists of attendees and scheduling requests, radar buckets and the loader's other records would only add easy members beside events, reminders and sessions.
- ICalendarLines.PublishedPropertiesReadIff: reads line by line, for any list of text properties; the import of a whole event is `ICalendarRoundTrip.EventRoundTripIff`.
- ICalendarRoundTrip.EventRoundTripIff: dates that are ISO texts with a year of four digits; `Date.parse` and `Number` are parameters that read such dates to the second and printed naturals.
- The order and the filtering of the events of a feed; `ICalendarDocuments.CalendarFeedWidthIff` takes the events as listed.
- Other date, number and locale parsing and formatting; the timer form takes its two parsers as parameters.
- Upper and lower case of letters beyond ASCII, in property names, parameters and statuses of imported calendars.
- BillingDashboard.RoundingErrorBound: takes the error bound of a floating-point division as a condition; floating-point formats are not modelled.
- BillingDashboard.SplitEntryBound: takes the error bound of a floating-point division as a condition, as above.
- NameSimilarity.SimilarityProperties: real arithmetic; `NameSimilarity.FloatingSimilarityDecides` says when a floating-point similarity and threshold decide the same.
- CsvExport.ExportDecodes: truth values, which no cell of the report has, are not among the cells.
- A ledger entry's id, made of the transaction id and its position, is the pair of both; a reversal is compared field by field instead of by canonical text.
- TrustBalances.CacheRefinesLedger: one firm's rows, read back in the order they were stored; concurrent transactions, foreign keys and texts that a database column cannot hold are not modelled.
- TrustRows.ReceiptReturnsIff: a posted date is an instant, so a date text that is printed back in another form counts as unchanged.
- Party and matter scope checks before a post, posting requests and their review.
- Draft nodes keep kind, text and children; marks and attributes are dropped, and cloning is the identity.
- User interface, network calls, routes, configuration and label functions.
