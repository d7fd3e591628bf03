/** The billing dashboard's state: matters with their unbilled items and
    invoices, and cached totals that each local update adjusts. */
module BillingDashboard {
  import opened Sequences

  datatype TimeItem = TimeItem(id: string, matterId: string, minutes: int, rateCents: int, amountCents: int, narrative: string)

  datatype ExpenseItem = ExpenseItem(id: string, matterId: string, amountCents: int, description: string)

  datatype InvoiceStatus = Draft | Approved | Issued | PartiallyPaid | Paid | Void

  datatype Invoice = Invoice(id: string, matterId: string, number: string, status: InvoiceStatus, totalCents: int, balanceDueCents: int)

  datatype Matter = Matter(
    matterId: string, captureReviewTime: seq<TimeItem>, captureReviewExpenses: seq<ExpenseItem>,
    unbilledTime: seq<TimeItem>, unbilledExpenses: seq<ExpenseItem>, invoices: seq<Invoice>)

  datatype Summary = Summary(unbilledTimeCents: int, unbilledExpenseCents: int, draftInvoiceCents: int)

  datatype Dashboard = Dashboard(summary: Summary, matters: seq<Matter>)

  /** An invoice was created from the given time and expense entries. */
  datatype Creation = Creation(invoice: Invoice, timeEntryIds: seq<string>, expenseEntryIds: seq<string>)

  // ----- An invoice is created -----

  function TimeAmount(t: TimeItem): int {
    t.amountCents
  }

  function ExpenseAmount(e: ExpenseItem): int {
    e.amountCents
  }

  function DraftAmount(i: Invoice): int {
    if i.status == Draft then i.totalCents else 0
  }

  function BilledTime(ids: seq<string>): TimeItem -> bool {
    (t: TimeItem) => t.id in ids
  }

  function BilledExpense(ids: seq<string>): ExpenseItem -> bool {
    (e: ExpenseItem) => e.id in ids
  }

  function HasInvoiceId(id: string): Invoice -> bool {
    (i: Invoice) => i.id == id
  }

  function BillMatter(m: Matter, c: Creation): Matter {
    m.(unbilledTime := Filter(Not(BilledTime(c.timeEntryIds)), m.unbilledTime),
       unbilledExpenses := Filter(Not(BilledExpense(c.expenseEntryIds)), m.unbilledExpenses),
       invoices := [c.invoice] + Filter(Not(HasInvoiceId(c.invoice.id)), m.invoices))
  }

  function BillMatters(matters: seq<Matter>, c: Creation): seq<Matter> {
    Map((m: Matter) => if m.matterId == c.invoice.matterId then BillMatter(m, c) else m, matters)
  }

  function RemovedTimeOf(m: Matter, c: Creation): int {
    Sum(TimeAmount, Filter(BilledTime(c.timeEntryIds), m.unbilledTime))
  }

  function RemovedExpenseOf(m: Matter, c: Creation): int {
    Sum(ExpenseAmount, Filter(BilledExpense(c.expenseEntryIds), m.unbilledExpenses))
  }

  /** What the loop variable holds at the end: set by the last matching matter. */
  function LastMatching(removed: (Matter, Creation) -> int, matters: seq<Matter>, c: Creation): int
    decreases |matters|
  {
    if matters == [] then 0
    else
      var last := matters[|matters| - 1];
      if last.matterId == c.invoice.matterId then removed(last, c) else LastMatching(removed, matters[..|matters| - 1], c)
  }

  function AllInvoices(matters: seq<Matter>): seq<Invoice> {
    FlatMap((m: Matter) => m.invoices, matters)
  }

  /** The first draft invoice with the id, if any. */
  function FindDraft(invoices: seq<Invoice>, id: string): Option<Invoice> {
    if invoices == [] then None
    else if invoices[0].id == id && invoices[0].status == Draft then Some(invoices[0])
    else FindDraft(invoices[1..], id)
  }

  function Clamp(n: int): int {
    if n < 0 then 0 else n
  }

  function PreviousDraftCents(matters: seq<Matter>, id: string): int {
    var previous := FindDraft(AllInvoices(matters), id);
    if previous.Some? then previous.value.totalCents else 0
  }

  function CreateInvoice(d: Dashboard, c: Creation): Dashboard {
    Dashboard(
      Summary(Clamp(d.summary.unbilledTimeCents - LastMatching(RemovedTimeOf, d.matters, c)),
              Clamp(d.summary.unbilledExpenseCents - LastMatching(RemovedExpenseOf, d.matters, c)),
              d.summary.draftInvoiceCents + DraftAmount(c.invoice) - PreviousDraftCents(d.matters, c.invoice.id)),
      BillMatters(d.matters, c))
  }

  lemma {:induction false} LastMatchingStep(removed: (Matter, Creation) -> int, matters: seq<Matter>, i: nat, c: Creation)
    requires i < |matters|
    ensures LastMatching(removed, matters[..i + 1], c)
         == if matters[i].matterId == c.invoice.matterId then removed(matters[i], c) else LastMatching(removed, matters[..i], c)
  {
    assert matters[..i + 1][..i] == matters[..i];
  }

  lemma {:induction false} MatterStep(matters: seq<Matter>, i: nat, c: Creation)
    requires i < |matters|
    ensures var own := matters[i].matterId == c.invoice.matterId;
            && BillMatters(matters[..i + 1], c) == BillMatters(matters[..i], c) + [if own then BillMatter(matters[i], c) else matters[i]]
            && LastMatching(RemovedTimeOf, matters[..i + 1], c)
               == (if own then RemovedTimeOf(matters[i], c) else LastMatching(RemovedTimeOf, matters[..i], c))
            && LastMatching(RemovedExpenseOf, matters[..i + 1], c)
               == (if own then RemovedExpenseOf(matters[i], c) else LastMatching(RemovedExpenseOf, matters[..i], c))
  {
    LastMatchingStep(RemovedTimeOf, matters, i, c);
    LastMatchingStep(RemovedExpenseOf, matters, i, c);
  }

  /** `updateBillingDashboardWithCreatedInvoice`: the removed amounts are
      assigned while the matters are mapped over. */
  method UpdateWithCreatedInvoice(d: Dashboard, c: Creation) returns (updated: Dashboard)
    ensures updated == CreateInvoice(d, c)
  {
    var removedTimeCents, removedExpenseCents := 0, 0;
    var matters: seq<Matter> := [];
    for i := 0 to |d.matters|
      invariant matters == BillMatters(d.matters[..i], c)
      invariant removedTimeCents == LastMatching(RemovedTimeOf, d.matters[..i], c)
      invariant removedExpenseCents == LastMatching(RemovedExpenseOf, d.matters[..i], c)
    {
      var matter := d.matters[i];
      MatterStep(d.matters, i, c);
      if matter.matterId != c.invoice.matterId {
        matters := matters + [matter];
      } else {
        removedTimeCents := RemovedTimeOf(matter, c);
        removedExpenseCents := RemovedExpenseOf(matter, c);
        matters := matters + [BillMatter(matter, c)];
      }
    }
    assert d.matters[..|d.matters|] == d.matters;
    var draftDelta := DraftAmount(c.invoice) - PreviousDraftCents(d.matters, c.invoice.id);
    updated := Dashboard(
      Summary(Clamp(d.summary.unbilledTimeCents - removedTimeCents),
              Clamp(d.summary.unbilledExpenseCents - removedExpenseCents),
              d.summary.draftInvoiceCents + draftDelta),
      matters);
  }

  // ----- The other steps -----

  /** Math.round(n / 60): to the nearest cent, halves upwards. */
  function RoundedPerHour(n: int): int {
    (n + 30) / 60
  }

  datatype TimerEntry = Item(item: TimeItem) | Started(id: string, matterId: string, minutes: int, rateCents: int, narrative: string)

  /** `timerDraftDashboardItem`. */
  function TimerItem(entry: TimerEntry): TimeItem {
    match entry
    case Item(item) => item
    case Started(id, matterId, minutes, rateCents, narrative) =>
      TimeItem(id, matterId, minutes, rateCents, RoundedPerHour(minutes * rateCents), narrative)
  }

  function OtherTime(id: string): TimeItem -> bool {
    (t: TimeItem) => t.id != id
  }

  function OtherExpense(id: string): ExpenseItem -> bool {
    (e: ExpenseItem) => e.id != id
  }

  function AddTimerDraft(d: Dashboard, entry: TimerEntry): Dashboard {
    var item := TimerItem(entry);
    d.(matters := Map((m: Matter) =>
      if m.matterId == item.matterId
      then m.(captureReviewTime := [item] + Filter(OtherTime(item.id), m.captureReviewTime)) else m, d.matters))
  }

  function AddExpenseDraft(d: Dashboard, item: ExpenseItem): Dashboard {
    d.(matters := Map((m: Matter) =>
      if m.matterId == item.matterId
      then m.(captureReviewExpenses := [item] + Filter(OtherExpense(item.id), m.captureReviewExpenses)) else m, d.matters))
  }

  predicate HasMatter(matters: seq<Matter>, matterId: string) {
    exists i :: 0 <= i < |matters| && matters[i].matterId == matterId
  }

  function AddMatter(d: Dashboard, matterId: string): Dashboard {
    if HasMatter(d.matters, matterId) then d
    else d.(matters := [Matter(matterId, [], [], [], [], [])] + d.matters)
  }

  datatype Step = InvoiceCreated(creation: Creation) | TimerDrafted(entry: TimerEntry) | ExpenseDrafted(item: ExpenseItem) | MatterAdded(matterId: string)

  function Take(d: Dashboard, step: Step): Dashboard {
    match step
    case InvoiceCreated(c) => CreateInvoice(d, c)
    case TimerDrafted(entry) => AddTimerDraft(d, entry)
    case ExpenseDrafted(item) => AddExpenseDraft(d, item)
    case MatterAdded(matterId) => AddMatter(d, matterId)
  }

  function Run(d: Dashboard, steps: seq<Step>): Dashboard
    decreases |steps|
  {
    if steps == [] then d else Run(Take(d, steps[0]), steps[1..])
  }

  /** A run does every step in turn. */
  lemma {:induction false} RunSnoc(d: Dashboard, steps: seq<Step>, step: Step)
    ensures Run(d, []) == d
    ensures var before, after := Run(d, steps), Run(d, steps + [step]);
            match step
            case InvoiceCreated(c) => after == CreateInvoice(before, c)
            case TimerDrafted(entry) => after == AddTimerDraft(before, entry)
            case ExpenseDrafted(item) => after == AddExpenseDraft(before, item)
            case MatterAdded(matterId) => after == AddMatter(before, matterId)
    decreases |steps|
  {
    var all := steps + [step];
    if steps == [] {
      assert all[0] == step && all[1..] == [];
    } else {
      assert all[0] == steps[0] && all[1..] == steps[1..] + [step];
      RunSnoc(Take(d, steps[0]), steps[1..], step);
    }
  }

  // ----- What is kept -----

  function MatterTime(m: Matter): int {
    Sum(TimeAmount, m.unbilledTime)
  }

  function MatterExpense(m: Matter): int {
    Sum(ExpenseAmount, m.unbilledExpenses)
  }

  function MatterDraft(m: Matter): int {
    Sum(DraftAmount, m.invoices)
  }

  /** The cached totals equal the sums over the matters. */
  ghost predicate Consistent(d: Dashboard) {
    && d.summary.unbilledTimeCents == Sum(MatterTime, d.matters)
    && d.summary.unbilledExpenseCents == Sum(MatterExpense, d.matters)
    && d.summary.draftInvoiceCents == Sum(MatterDraft, d.matters)
  }

  ghost predicate DistinctMatters(matters: seq<Matter>) {
    forall i, j :: 0 <= i < j < |matters| ==> matters[i].matterId != matters[j].matterId
  }

  ghost predicate DistinctIds(invoices: seq<Invoice>) {
    forall i, j :: 0 <= i < j < |invoices| ==> invoices[i].id != invoices[j].id
  }

  /** No invoice id appears twice, within a matter or across matters. */
  ghost predicate UniqueInvoices(matters: seq<Matter>) {
    && (forall i :: 0 <= i < |matters| ==> DistinctIds(matters[i].invoices))
    && (forall i, j, x, y :: 0 <= i < j < |matters| && x in matters[i].invoices && y in matters[j].invoices ==> x.id != y.id)
  }

  ghost predicate AmountsNonNegative(m: Matter) {
    && (forall t :: t in m.unbilledTime ==> t.amountCents >= 0)
    && (forall e :: e in m.unbilledExpenses ==> e.amountCents >= 0)
  }

  ghost predicate WellKept(d: Dashboard) {
    && DistinctMatters(d.matters)
    && UniqueInvoices(d.matters)
    && (forall m :: m in d.matters ==> AmountsNonNegative(m))
  }

  // ----- Unbilled totals -----

  /** What billing takes from a matter and what it leaves make up what it had. */
  lemma BilledAndLeft(m: Matter, c: Creation)
    ensures MatterTime(BillMatter(m, c)) == MatterTime(m) - RemovedTimeOf(m, c)
    ensures MatterExpense(BillMatter(m, c)) == MatterExpense(m) - RemovedExpenseOf(m, c)
  {
    SumSplit(TimeAmount, BilledTime(c.timeEntryIds), m.unbilledTime);
    SumSplit(ExpenseAmount, BilledExpense(c.expenseEntryIds), m.unbilledExpenses);
  }

  lemma RemovedWithinBounds(m: Matter, c: Creation)
    requires AmountsNonNegative(m)
    ensures 0 <= RemovedTimeOf(m, c) <= MatterTime(m) && 0 <= RemovedExpenseOf(m, c) <= MatterExpense(m)
    ensures AmountsNonNegative(BillMatter(m, c))
  {
    BilledAndLeft(m, c);
    SumNonNegative(TimeAmount, Filter(BilledTime(c.timeEntryIds), m.unbilledTime));
    SumNonNegative(TimeAmount, BillMatter(m, c).unbilledTime);
    SumNonNegative(ExpenseAmount, Filter(BilledExpense(c.expenseEntryIds), m.unbilledExpenses));
    SumNonNegative(ExpenseAmount, BillMatter(m, c).unbilledExpenses);
  }

  lemma {:induction false} SumSnoc(f: Matter -> int, matters: seq<Matter>, last: Matter)
    ensures Sum(f, matters + [last]) == Sum(f, matters) + f(last)
  {
    SumConcat(f, matters, [last]);
  }

  /** With distinct matters, the sum of a per-matter quantity over the updated
      matters changes by what `removed` reports for the invoice's matter. */
  lemma {:induction false} MatterSumChanges(f: Matter -> int, removed: (Matter, Creation) -> int, matters: seq<Matter>, c: Creation)
    requires DistinctMatters(matters)
    requires forall m :: m in matters ==> f(BillMatter(m, c)) == f(m) - removed(m, c)
    ensures Sum(f, BillMatters(matters, c)) == Sum(f, matters) - LastMatching(removed, matters, c)
    decreases |matters|
  {
    if matters != [] {
      var n := |matters| - 1;
      var before, last := matters[..n], matters[n];
      MatterSumChanges(f, removed, before, c);
      var updated := if last.matterId == c.invoice.matterId then BillMatter(last, c) else last;
      assert matters == before + [last];
      assert BillMatters(matters, c) == BillMatters(before, c) + [updated];
      SumSnoc(f, before, last);
      SumSnoc(f, BillMatters(before, c), updated);
      assert last in matters;
      if last.matterId == c.invoice.matterId { NoneMatching(removed, before, c); }
    }
  }

  lemma {:induction false} NoneMatching(removed: (Matter, Creation) -> int, matters: seq<Matter>, c: Creation)
    requires forall m :: m in matters ==> m.matterId != c.invoice.matterId
    ensures LastMatching(removed, matters, c) == 0
    decreases |matters|
  {
    if matters != [] { NoneMatching(removed, matters[..|matters| - 1], c); }
  }

  lemma {:induction false} RemovedWithinTotal(f: Matter -> int, removed: (Matter, Creation) -> int, matters: seq<Matter>, c: Creation)
    requires forall m :: m in matters ==> 0 <= removed(m, c) <= f(m)
    ensures 0 <= LastMatching(removed, matters, c) <= Sum(f, matters)
    decreases |matters|
  {
    if matters != [] {
      var n := |matters| - 1;
      assert matters == matters[..n] + [matters[n]];
      SumConcat(f, matters[..n], [matters[n]]);
      RemovedWithinTotal(f, removed, matters[..n], c);
      SumNonNegative(f, matters[..n]);
    }
  }

  /** The unbilled totals stay exact whichever invoice arrives, and the clamp at
      zero never changes anything. */
  lemma UnbilledTotalsStayExact(d: Dashboard, c: Creation)
    requires DistinctMatters(d.matters) && forall m :: m in d.matters ==> AmountsNonNegative(m)
    requires d.summary.unbilledTimeCents == Sum(MatterTime, d.matters) && d.summary.unbilledExpenseCents == Sum(MatterExpense, d.matters)
    ensures var after := CreateInvoice(d, c);
            && after.summary.unbilledTimeCents == Sum(MatterTime, after.matters) == d.summary.unbilledTimeCents - LastMatching(RemovedTimeOf, d.matters, c)
            && after.summary.unbilledExpenseCents == Sum(MatterExpense, after.matters)
               == d.summary.unbilledExpenseCents - LastMatching(RemovedExpenseOf, d.matters, c)
  {
    forall m | m in d.matters
      ensures 0 <= RemovedTimeOf(m, c) <= MatterTime(m) && 0 <= RemovedExpenseOf(m, c) <= MatterExpense(m)
      ensures MatterTime(BillMatter(m, c)) == MatterTime(m) - RemovedTimeOf(m, c)
      ensures MatterExpense(BillMatter(m, c)) == MatterExpense(m) - RemovedExpenseOf(m, c)
    {
      RemovedWithinBounds(m, c);
      BilledAndLeft(m, c);
    }
    MatterSumChanges(MatterTime, RemovedTimeOf, d.matters, c);
    MatterSumChanges(MatterExpense, RemovedExpenseOf, d.matters, c);
    RemovedWithinTotal(MatterTime, RemovedTimeOf, d.matters, c);
    RemovedWithinTotal(MatterExpense, RemovedExpenseOf, d.matters, c);
  }

  // ----- What an invoice takes -----

  /** What the entries that the invoice was made from come to. */
  function ListedTimeCents(items: seq<TimeItem>, ids: seq<string>): int {
    if items == [] then 0 else (if items[0].id in ids then items[0].amountCents else 0) + ListedTimeCents(items[1..], ids)
  }

  function ListedExpenseCents(items: seq<ExpenseItem>, ids: seq<string>): int {
    if items == [] then 0 else (if items[0].id in ids then items[0].amountCents else 0) + ListedExpenseCents(items[1..], ids)
  }

  lemma {:induction false} ListedTimeIs(items: seq<TimeItem>, ids: seq<string>)
    ensures Sum(TimeAmount, Filter(BilledTime(ids), items)) == ListedTimeCents(items, ids)
  {
    if items != [] { ListedTimeIs(items[1..], ids); }
  }

  lemma {:induction false} ListedExpenseIs(items: seq<ExpenseItem>, ids: seq<string>)
    ensures Sum(ExpenseAmount, Filter(BilledExpense(ids), items)) == ListedExpenseCents(items, ids)
  {
    if items != [] { ListedExpenseIs(items[1..], ids); }
  }

  /** `matters[k]` is the one matter with the id. */
  ghost predicate OnlyMatter(matters: seq<Matter>, matterId: string, k: int) {
    0 <= k < |matters| && forall i :: 0 <= i < |matters| ==> (matters[i].matterId == matterId <==> i == k)
  }

  /** An invoice takes from its matter exactly the entries it was made from,
      leaves the others in their order, stands first among the invoices in place
      of any with its id, and touches no other matter. */
  lemma {:induction false} InvoiceTakesListed(d: Dashboard, c: Creation, i: nat)
    requires i < |d.matters|
    ensures |CreateInvoice(d, c).matters| == |d.matters|
    ensures var m, after := d.matters[i], CreateInvoice(d, c).matters[i];
            if m.matterId != c.invoice.matterId then after == m
            else
              && after == m.(unbilledTime := after.unbilledTime, unbilledExpenses := after.unbilledExpenses, invoices := after.invoices)
              && after.unbilledTime == Filter((t: TimeItem) => t.id !in c.timeEntryIds, m.unbilledTime)
              && after.unbilledExpenses == Filter((e: ExpenseItem) => e.id !in c.expenseEntryIds, m.unbilledExpenses)
              && after.invoices == [c.invoice] + Filter((v: Invoice) => v.id != c.invoice.id, m.invoices)
  {
    var m := d.matters[i];
    FilterAgree(Not(BilledTime(c.timeEntryIds)), (t: TimeItem) => t.id !in c.timeEntryIds, m.unbilledTime);
    FilterAgree(Not(BilledExpense(c.expenseEntryIds)), (e: ExpenseItem) => e.id !in c.expenseEntryIds, m.unbilledExpenses);
    FilterAgree(Not(HasInvoiceId(c.invoice.id)), (v: Invoice) => v.id != c.invoice.id, m.invoices);
  }

  /** The unbilled totals fall by exactly what the listed entries come to, though
      never below zero. */
  lemma {:induction false} TotalsFallByListed(d: Dashboard, c: Creation, k: nat)
    requires OnlyMatter(d.matters, c.invoice.matterId, k)
    ensures var m, before, after := d.matters[k], d.summary, CreateInvoice(d, c).summary;
            var time, expense := ListedTimeCents(m.unbilledTime, c.timeEntryIds), ListedExpenseCents(m.unbilledExpenses, c.expenseEntryIds);
            && after.unbilledTimeCents == (if time <= before.unbilledTimeCents then before.unbilledTimeCents - time else 0)
            && after.unbilledExpenseCents == (if expense <= before.unbilledExpenseCents then before.unbilledExpenseCents - expense else 0)
  {
    ListedTimeIs(d.matters[k].unbilledTime, c.timeEntryIds);
    ListedExpenseIs(d.matters[k].unbilledExpenses, c.expenseEntryIds);
    LastMatchingIs(RemovedTimeOf, d.matters, c, k);
    LastMatchingIs(RemovedExpenseOf, d.matters, c, k);
  }

  lemma {:induction false} LastMatchingIs(removed: (Matter, Creation) -> int, matters: seq<Matter>, c: Creation, k: nat)
    requires OnlyMatter(matters, c.invoice.matterId, k)
    ensures LastMatching(removed, matters, c) == removed(matters[k], c)
    decreases |matters|
  {
    var n := |matters| - 1;
    if k < n { LastMatchingIs(removed, matters[..n], c, k); }
  }

  /** On a consistent dashboard they never reach below zero, so they fall by
      exactly that. */
  lemma {:induction false} ConsistentTotalsFall(d: Dashboard, c: Creation, k: nat)
    requires WellKept(d) && Consistent(d) && OnlyMatter(d.matters, c.invoice.matterId, k)
    ensures var m, before, after := d.matters[k], d.summary, CreateInvoice(d, c).summary;
            && after.unbilledTimeCents == before.unbilledTimeCents - ListedTimeCents(m.unbilledTime, c.timeEntryIds)
            && after.unbilledExpenseCents == before.unbilledExpenseCents - ListedExpenseCents(m.unbilledExpenses, c.expenseEntryIds)
  {
    UnbilledTotalsStayExact(d, c);
    ListedTimeIs(d.matters[k].unbilledTime, c.timeEntryIds);
    ListedExpenseIs(d.matters[k].unbilledExpenses, c.expenseEntryIds);
    LastMatchingIs(RemovedTimeOf, d.matters, c, k);
    LastMatchingIs(RemovedExpenseOf, d.matters, c, k);
  }

  // ----- The draft total -----

  /** Draft cents held in a matter under an invoice id. */
  function HeldDraft(id: string): Matter -> int {
    (m: Matter) => Sum(DraftAmount, Filter(HasInvoiceId(id), m.invoices))
  }

  function NetDraft(m: Matter, c: Creation): int {
    HeldDraft(c.invoice.id)(m) - DraftAmount(c.invoice)
  }

  lemma DraftChanges(m: Matter, c: Creation)
    ensures MatterDraft(BillMatter(m, c)) == MatterDraft(m) - NetDraft(m, c)
  {
    SumSplit(DraftAmount, HasInvoiceId(c.invoice.id), m.invoices);
    var left := Filter(Not(HasInvoiceId(c.invoice.id)), m.invoices);
    assert ([c.invoice] + left)[1..] == left;
  }

  lemma {:induction false} NoSuchInvoice(invoices: seq<Invoice>, id: string)
    requires forall i :: i in invoices ==> i.id != id
    ensures FindDraft(invoices, id).None? && Filter(HasInvoiceId(id), invoices) == []
  {
    if invoices != [] { NoSuchInvoice(invoices[1..], id); }
  }

  /** With unique ids, the draft found is all the draft money under the id. */
  lemma {:induction false} FoundDraftIsAll(invoices: seq<Invoice>, id: string)
    requires DistinctIds(invoices)
    ensures Sum(DraftAmount, Filter(HasInvoiceId(id), invoices))
         == if FindDraft(invoices, id).Some? then FindDraft(invoices, id).value.totalCents else 0
  {
    if invoices != [] {
      FoundDraftIsAll(invoices[1..], id);
      if invoices[0].id == id { NoSuchInvoice(invoices[1..], id); }
    }
  }

  lemma {:induction false} FlatDistinct(matters: seq<Matter>)
    requires UniqueInvoices(matters)
    ensures DistinctIds(AllInvoices(matters))
  {
    if matters != [] {
      FlatDistinct(matters[1..]);
      forall x, y | x in matters[0].invoices && y in AllInvoices(matters[1..]) ensures x.id != y.id {
        FirstApart(matters, x, y);
      }
      IdsConcat(matters[0].invoices, AllInvoices(matters[1..]));
      assert AllInvoices(matters) == matters[0].invoices + AllInvoices(matters[1..]);
    }
  }

  lemma FirstApart(matters: seq<Matter>, x: Invoice, y: Invoice)
    requires UniqueInvoices(matters) && matters != []
    requires x in matters[0].invoices && y in AllInvoices(matters[1..])
    ensures x.id != y.id
  {
    FlatMapMembers((m: Matter) => m.invoices, matters[1..]);
    var m :| m in matters[1..] && y in m.invoices;
    var j :| 1 <= j < |matters| && matters[j] == m;
  }

  lemma {:induction false} IdsConcat(xs: seq<Invoice>, ys: seq<Invoice>)
    requires DistinctIds(xs) && DistinctIds(ys) && forall x, y :: x in xs && y in ys ==> x.id != y.id
    ensures DistinctIds(xs + ys)
  {
  }

  lemma {:induction false} HeldAddsUp(matters: seq<Matter>, id: string)
    ensures Sum(HeldDraft(id), matters) == Sum(DraftAmount, Filter(HasInvoiceId(id), AllInvoices(matters)))
  {
    if matters != [] {
      HeldAddsUp(matters[1..], id);
      FilterConcat(HasInvoiceId(id), matters[0].invoices, AllInvoices(matters[1..]));
      SumConcat(DraftAmount, Filter(HasInvoiceId(id), matters[0].invoices), Filter(HasInvoiceId(id), AllInvoices(matters[1..])));
    }
  }

  function OfMatter(matterId: string): Matter -> bool {
    (m: Matter) => m.matterId == matterId
  }

  /** Draft cents under the invoice's id that sit in other matters. */
  function HeldElsewhere(matters: seq<Matter>, c: Creation): int {
    Sum(HeldDraft(c.invoice.id), Filter(Not(OfMatter(c.invoice.matterId)), matters))
  }

  lemma {:induction false} MatchingIsOwn(matters: seq<Matter>, c: Creation)
    requires DistinctMatters(matters)
    ensures LastMatching(NetDraft, matters, c)
         == Sum(HeldDraft(c.invoice.id), Filter(OfMatter(c.invoice.matterId), matters))
          - if HasMatter(matters, c.invoice.matterId) then DraftAmount(c.invoice) else 0
    decreases |matters|
  {
    if matters != [] {
      var n := |matters| - 1;
      var before, last := matters[..n], matters[n];
      OwnSnoc(HeldDraft(c.invoice.id), before, last, c.invoice.matterId);
      HasMatterSnoc(before, last, c.invoice.matterId);
      assert matters == before + [last];
      if last.matterId == c.invoice.matterId {
        NoneOwn(HeldDraft(c.invoice.id), before, c.invoice.matterId);
      } else {
        MatchingIsOwn(before, c);
      }
    }
  }

  lemma {:induction false} HasMatterSnoc(before: seq<Matter>, last: Matter, matterId: string)
    ensures HasMatter(before + [last], matterId) <==> HasMatter(before, matterId) || last.matterId == matterId
  {
    var all := before + [last];
    assert all[|before|] == last && forall i :: 0 <= i < |before| ==> all[i] == before[i];
  }

  lemma {:induction false} NoneOwn(f: Matter -> int, matters: seq<Matter>, matterId: string)
    requires forall i :: 0 <= i < |matters| ==> matters[i].matterId != matterId
    ensures Sum(f, Filter(OfMatter(matterId), matters)) == 0
  {
    FilterNone(OfMatter(matterId), matters);
  }

  lemma OwnSnoc(f: Matter -> int, before: seq<Matter>, last: Matter, matterId: string)
    ensures Sum(f, Filter(OfMatter(matterId), before + [last]))
         == Sum(f, Filter(OfMatter(matterId), before)) + if last.matterId == matterId then f(last) else 0
  {
    var p := OfMatter(matterId);
    FilterConcat(p, before, [last]);
    SumConcat(f, Filter(p, before), Filter(p, [last]));
    assert Filter(p, [last]) == if p(last) then [last] else [];
    assert Sum(f, [last]) == f(last);
  }

  lemma DraftsAfter(matters: seq<Matter>, c: Creation)
    requires DistinctMatters(matters)
    ensures Sum(MatterDraft, BillMatters(matters, c))
         == Sum(MatterDraft, matters) - Sum(HeldDraft(c.invoice.id), Filter(OfMatter(c.invoice.matterId), matters))
          + if HasMatter(matters, c.invoice.matterId) then DraftAmount(c.invoice) else 0
  {
    forall m | m in matters ensures MatterDraft(BillMatter(m, c)) == MatterDraft(m) - NetDraft(m, c) { DraftChanges(m, c); }
    MatterSumChanges(MatterDraft, NetDraft, matters, c);
    MatchingIsOwn(matters, c);
  }

  lemma {:induction false} PreviousIsHeld(matters: seq<Matter>, c: Creation)
    requires UniqueInvoices(matters)
    ensures PreviousDraftCents(matters, c.invoice.id)
         == Sum(HeldDraft(c.invoice.id), Filter(OfMatter(c.invoice.matterId), matters)) + HeldElsewhere(matters, c)
  {
    SumSplit(HeldDraft(c.invoice.id), OfMatter(c.invoice.matterId), matters);
    HeldAddsUp(matters, c.invoice.id);
    FlatDistinct(matters);
    FoundDraftIsAll(AllInvoices(matters), c.invoice.id);
  }

  /** The draft total stays exact exactly when the draft money that found no
      matter equals the draft money under the same id in other matters: both
      are zero when the matter is present and holds any earlier copy. */
  lemma DraftTotalExactIff(d: Dashboard, c: Creation)
    requires WellKept(d) && d.summary.draftInvoiceCents == Sum(MatterDraft, d.matters)
    ensures CreateInvoice(d, c).summary.draftInvoiceCents == Sum(MatterDraft, CreateInvoice(d, c).matters)
        <==> (if HasMatter(d.matters, c.invoice.matterId) then 0 else DraftAmount(c.invoice)) == HeldElsewhere(d.matters, c)
  {
    DraftsAfter(d.matters, c);
    PreviousIsHeld(d.matters, c);
  }

  /** A draft of 100 cents whose matter is not on the dashboard is counted in the
      total and held by no matter. */
  lemma {:induction false} DraftTotalCanDrift(d: Dashboard, c: Creation)
    requires d == Dashboard(Summary(0, 0, 0), []) && c == Creation(Invoice("i", "m", "1", Draft, 100, 100), [], [])
    ensures WellKept(d) && Consistent(d)
    ensures CreateInvoice(d, c).summary.draftInvoiceCents == 100 && Sum(MatterDraft, CreateInvoice(d, c).matters) == 0
  {
    DraftTotalExactIff(d, c);
  }

  // ----- Runs -----

  /** The invoice's matter is on the dashboard and no other matter holds its id. */
  ghost predicate Placed(matters: seq<Matter>, c: Creation) {
    && HasMatter(matters, c.invoice.matterId)
    && forall m, i :: m in matters && i in m.invoices && i.id == c.invoice.id ==> m.matterId == c.invoice.matterId
  }

  lemma PlacedHoldsNothingElsewhere(matters: seq<Matter>, c: Creation)
    requires Placed(matters, c)
    ensures HeldElsewhere(matters, c) == 0
  {
    var others := Filter(Not(OfMatter(c.invoice.matterId)), matters);
    forall m | m in others ensures HeldDraft(c.invoice.id)(m) == 0 {
      NoSuchInvoice(m.invoices, c.invoice.id);
    }
    SumZero(HeldDraft(c.invoice.id), others);
  }

  lemma {:induction false} FilteredIdsDistinct(p: Invoice -> bool, invoices: seq<Invoice>)
    requires DistinctIds(invoices)
    ensures DistinctIds(Filter(p, invoices))
  {
    if invoices != [] {
      FilteredIdsDistinct(p, invoices[1..]);
      assert forall x :: x in Filter(p, invoices[1..]) ==> x.id != invoices[0].id;
    }
  }

  lemma BilledIdsDistinct(m: Matter, c: Creation)
    requires DistinctIds(m.invoices)
    ensures DistinctIds(BillMatter(m, c).invoices)
  {
    var left := Filter(Not(HasInvoiceId(c.invoice.id)), m.invoices);
    FilteredIdsDistinct(Not(HasInvoiceId(c.invoice.id)), m.invoices);
    assert forall i :: 0 <= i < |left| ==> left[i] in left;
  }

  lemma {:induction false} BillingKeepsUnique(matters: seq<Matter>, c: Creation)
    requires UniqueInvoices(matters) && Placed(matters, c) && DistinctMatters(matters)
    ensures UniqueInvoices(BillMatters(matters, c))
  {
    var after := BillMatters(matters, c);
    forall i | 0 <= i < |matters| ensures DistinctIds(after[i].invoices) {
      BilledIdsDistinct(matters[i], c);
    }
    forall i, j, x, y | 0 <= i < j < |after| && x in after[i].invoices && y in after[j].invoices ensures x.id != y.id {
      assert matters[i].matterId != matters[j].matterId;
      assert matters[i] in matters && matters[j] in matters;
      assert x in matters[i].invoices || (x == c.invoice && matters[i].matterId == c.invoice.matterId);
      assert y in matters[j].invoices || (y == c.invoice && matters[j].matterId == c.invoice.matterId);
    }
  }

  lemma {:induction false} InvoiceStepWellKept(d: Dashboard, c: Creation)
    requires WellKept(d) && Placed(d.matters, c)
    ensures WellKept(CreateInvoice(d, c))
  {
    BillingKeepsUnique(d.matters, c);
    var after := BillMatters(d.matters, c);
    forall m | m in after ensures AmountsNonNegative(m) {
      var i :| 0 <= i < |after| && after[i] == m;
      assert AmountsNonNegative(d.matters[i]);
      RemovedWithinBounds(d.matters[i], c);
    }
    assert forall i :: 0 <= i < |after| ==> after[i].matterId == d.matters[i].matterId;
  }

  lemma InvoiceStepConsistent(d: Dashboard, c: Creation)
    requires WellKept(d) && Consistent(d) && Placed(d.matters, c)
    ensures Consistent(CreateInvoice(d, c))
  {
    UnbilledTotalsStayExact(d, c);
    DraftTotalExactIff(d, c);
    PlacedHoldsNothingElsewhere(d.matters, c);
  }

  /** Updates that leave unbilled items and invoices alone keep everything. */
  lemma {:induction false} SameBilling(before: seq<Matter>, after: seq<Matter>)
    requires |before| == |after|
    requires forall i :: 0 <= i < |before| ==>
               && after[i].matterId == before[i].matterId && after[i].invoices == before[i].invoices
               && after[i].unbilledTime == before[i].unbilledTime && after[i].unbilledExpenses == before[i].unbilledExpenses
    ensures Sum(MatterTime, after) == Sum(MatterTime, before)
    ensures Sum(MatterExpense, after) == Sum(MatterExpense, before)
    ensures Sum(MatterDraft, after) == Sum(MatterDraft, before)
  {
    if before != [] { SameBilling(before[1..], after[1..]); }
  }

  lemma SameBillingKeeps(d: Dashboard, after: Dashboard)
    requires WellKept(d) && Consistent(d) && after.summary == d.summary && |after.matters| == |d.matters|
    requires forall i :: 0 <= i < |d.matters| ==>
               && after.matters[i].matterId == d.matters[i].matterId && after.matters[i].invoices == d.matters[i].invoices
               && after.matters[i].unbilledTime == d.matters[i].unbilledTime && after.matters[i].unbilledExpenses == d.matters[i].unbilledExpenses
    ensures WellKept(after) && Consistent(after)
  {
    SameBilling(d.matters, after.matters);
    forall m | m in after.matters ensures AmountsNonNegative(m) {
      var i :| 0 <= i < |after.matters| && after.matters[i] == m;
      assert AmountsNonNegative(d.matters[i]);
    }
  }

  lemma {:induction false} PrependKeepsUnique(m: Matter, matters: seq<Matter>)
    requires UniqueInvoices(matters) && m.invoices == []
    ensures UniqueInvoices([m] + matters)
  {
    var all := [m] + matters;
    forall i, j, x, y | 0 <= i < j < |all| && x in all[i].invoices && y in all[j].invoices ensures x.id != y.id {
      assert all[i] == matters[i - 1] && all[j] == matters[j - 1];
    }
  }

  lemma {:induction false} AddMatterKeeps(d: Dashboard, matterId: string)
    requires WellKept(d) && Consistent(d)
    ensures WellKept(AddMatter(d, matterId)) && Consistent(AddMatter(d, matterId))
    ensures AddMatter(d, matterId).summary == d.summary
    ensures if exists m :: m in d.matters && m.matterId == matterId then AddMatter(d, matterId).matters == d.matters
            else AddMatter(d, matterId).matters == [Matter(matterId, [], [], [], [], [])] + d.matters
  {
    if !HasMatter(d.matters, matterId) {
      var added := Matter(matterId, [], [], [], [], []);
      assert ([added] + d.matters)[1..] == d.matters;
      assert MatterTime(added) == 0 && MatterExpense(added) == 0 && MatterDraft(added) == 0;
      PrependKeepsUnique(added, d.matters);
      assert forall i :: 0 <= i < |d.matters| ==> d.matters[i].matterId != matterId;
    }
  }

  /** Every invoice step of the run finds its matter, as `Placed` asks. */
  ghost predicate AllPlaced(d: Dashboard, steps: seq<Step>)
    decreases |steps|
  {
    steps != [] ==>
      && (steps[0].InvoiceCreated? ==> Placed(d.matters, steps[0].creation))
      && AllPlaced(Take(d, steps[0]), steps[1..])
  }

  /** Over any such run the cached totals stay equal to the sums over matters. */
  lemma {:induction false} TotalsStayExact(d: Dashboard, steps: seq<Step>)
    requires WellKept(d) && Consistent(d) && AllPlaced(d, steps)
    ensures WellKept(Run(d, steps)) && Consistent(Run(d, steps))
    decreases |steps|
  {
    if steps != [] {
      match steps[0] {
        case InvoiceCreated(c) =>
          InvoiceStepWellKept(d, c);
          InvoiceStepConsistent(d, c);
        case TimerDrafted(entry) => SameBillingKeeps(d, AddTimerDraft(d, entry));
        case ExpenseDrafted(item) => SameBillingKeeps(d, AddExpenseDraft(d, item));
        case MatterAdded(matterId) => AddMatterKeeps(d, matterId);
      }
      TotalsStayExact(Take(d, steps[0]), steps[1..]);
    }
  }

  // ----- Repeating an invoice -----

  lemma BillTwice(m: Matter, c: Creation)
    ensures BillMatter(BillMatter(m, c), c) == BillMatter(m, c)
    ensures RemovedTimeOf(BillMatter(m, c), c) == 0 && RemovedExpenseOf(BillMatter(m, c), c) == 0
    ensures NetDraft(BillMatter(m, c), c) == 0
  {
    var b := BillMatter(m, c);
    FilterAll(Not(BilledTime(c.timeEntryIds)), b.unbilledTime);
    FilterAll(Not(BilledExpense(c.expenseEntryIds)), b.unbilledExpenses);
    FilterNone(BilledTime(c.timeEntryIds), b.unbilledTime);
    FilterNone(BilledExpense(c.expenseEntryIds), b.unbilledExpenses);
    var left := Filter(Not(HasInvoiceId(c.invoice.id)), m.invoices);
    assert b.invoices[1..] == left;
    FilterAll(Not(HasInvoiceId(c.invoice.id)), left);
    FilterNone(HasInvoiceId(c.invoice.id), left);
    assert Filter(HasInvoiceId(c.invoice.id), b.invoices) == [c.invoice];
    assert Sum(DraftAmount, [c.invoice]) == DraftAmount(c.invoice);
  }

  lemma {:induction false} NothingMatchesTwice(removed: (Matter, Creation) -> int, matters: seq<Matter>, c: Creation)
    requires forall m :: removed(BillMatter(m, c), c) == 0
    ensures LastMatching(removed, BillMatters(matters, c), c) == 0
    decreases |matters|
  {
    if matters != [] {
      var n := |matters| - 1;
      NothingMatchesTwice(removed, matters[..n], c);
      assert BillMatters(matters, c)[..n] == BillMatters(matters[..n], c);
    }
  }

  lemma {:induction false} PlacedStays(matters: seq<Matter>, c: Creation)
    requires Placed(matters, c)
    ensures Placed(BillMatters(matters, c), c)
  {
    var after := BillMatters(matters, c);
    var k :| 0 <= k < |matters| && matters[k].matterId == c.invoice.matterId;
    assert after[k].matterId == c.invoice.matterId;
    forall m, i | m in after && i in m.invoices && i.id == c.invoice.id ensures m.matterId == c.invoice.matterId {
      var j :| 0 <= j < |after| && after[j] == m;
      assert matters[j] in matters;
    }
  }

  lemma BillMattersTwice(matters: seq<Matter>, c: Creation)
    ensures BillMatters(BillMatters(matters, c), c) == BillMatters(matters, c)
  {
    var once, twice := BillMatters(matters, c), BillMatters(BillMatters(matters, c), c);
    forall i | 0 <= i < |matters| ensures twice[i] == once[i] { BillTwice(matters[i], c); }
  }

  lemma RemovedTwice(matters: seq<Matter>, c: Creation)
    ensures LastMatching(RemovedTimeOf, BillMatters(matters, c), c) == 0
    ensures LastMatching(RemovedExpenseOf, BillMatters(matters, c), c) == 0
    ensures LastMatching(NetDraft, BillMatters(matters, c), c) == 0
  {
    forall m ensures RemovedTimeOf(BillMatter(m, c), c) == 0 && RemovedExpenseOf(BillMatter(m, c), c) == 0 && NetDraft(BillMatter(m, c), c) == 0 {
      BillTwice(m, c);
    }
    NothingMatchesTwice(RemovedTimeOf, matters, c);
    NothingMatchesTwice(RemovedExpenseOf, matters, c);
    NothingMatchesTwice(NetDraft, matters, c);
  }

  /** After an invoice is placed, the draft found under its id is itself. */
  lemma PlacedDraftIsFound(matters: seq<Matter>, c: Creation)
    requires DistinctMatters(matters) && UniqueInvoices(matters) && Placed(matters, c)
    ensures PreviousDraftCents(BillMatters(matters, c), c.invoice.id) == DraftAmount(c.invoice)
  {
    var after := BillMatters(matters, c);
    BillingKeepsUnique(matters, c);
    PlacedStays(matters, c);
    RemovedTwice(matters, c);
    BillingKeepsMatters(matters, c);
    FoundWhenPlaced(after, c);
  }

  lemma {:induction false} BillingKeepsMatters(matters: seq<Matter>, c: Creation)
    requires DistinctMatters(matters)
    ensures DistinctMatters(BillMatters(matters, c))
  {
    var after := BillMatters(matters, c);
    assert forall i :: 0 <= i < |after| ==> after[i].matterId == matters[i].matterId;
  }

  lemma FoundWhenPlaced(matters: seq<Matter>, c: Creation)
    requires DistinctMatters(matters) && UniqueInvoices(matters) && Placed(matters, c)
    ensures PreviousDraftCents(matters, c.invoice.id) == LastMatching(NetDraft, matters, c) + DraftAmount(c.invoice)
  {
    MatchingIsOwn(matters, c);
    PreviousIsHeld(matters, c);
    PlacedHoldsNothingElsewhere(matters, c);
  }

  /** Applying the same created invoice again changes nothing. */
  lemma InvoiceStepIsIdempotent(d: Dashboard, c: Creation)
    requires DistinctMatters(d.matters) && UniqueInvoices(d.matters) && Placed(d.matters, c)
    ensures CreateInvoice(CreateInvoice(d, c), c) == CreateInvoice(d, c)
  {
    BillMattersTwice(d.matters, c);
    RemovedTwice(d.matters, c);
    PlacedDraftIsFound(d.matters, c);
  }

  // ----- Drafts under review -----

  lemma FiledAgain<T(!new)>(other: T -> bool, a: T, xs: seq<T>)
    requires !other(a)
    ensures Filter(other, [a] + Filter(other, xs)) == Filter(other, xs)
  {
    FilterConcat(other, [a], Filter(other, xs));
    FilterAll(other, Filter(other, xs));
  }

  /** A draft that is filed again under its id takes the place of the earlier
      one, wherever that one stood; filing the same draft twice is filing it once. */
  lemma LaterTimerDraftWins(d: Dashboard, a: TimerEntry, b: TimerEntry)
    requires TimerItem(a).id == TimerItem(b).id && TimerItem(a).matterId == TimerItem(b).matterId
    ensures AddTimerDraft(AddTimerDraft(d, a), b) == AddTimerDraft(d, b)
  {
    var twice, once := AddTimerDraft(AddTimerDraft(d, a), b).matters, AddTimerDraft(d, b).matters;
    forall i | 0 <= i < |d.matters| ensures twice[i] == once[i] {
      FiledAgain(OtherTime(TimerItem(b).id), TimerItem(a), d.matters[i].captureReviewTime);
    }
  }

  lemma LaterExpenseDraftWins(d: Dashboard, a: ExpenseItem, b: ExpenseItem)
    requires a.id == b.id && a.matterId == b.matterId
    ensures AddExpenseDraft(AddExpenseDraft(d, a), b) == AddExpenseDraft(d, b)
  {
    var twice, once := AddExpenseDraft(AddExpenseDraft(d, a), b).matters, AddExpenseDraft(d, b).matters;
    forall i | 0 <= i < |d.matters| ensures twice[i] == once[i] {
      FiledAgain(OtherExpense(b.id), a, d.matters[i].captureReviewExpenses);
    }
  }

  /** The draft stands first in its matter and nowhere else, the drafts with
      other ids keep their order, and no other matter changes. */
  lemma {:induction false} TimerDraftFiled(d: Dashboard, entry: TimerEntry, i: nat)
    requires i < |d.matters|
    ensures var item, m, after := TimerItem(entry), d.matters[i], AddTimerDraft(d, entry).matters[i];
            if m.matterId != item.matterId then after == m
            else
              && after == m.(captureReviewTime := after.captureReviewTime)
              && after.captureReviewTime != [] && after.captureReviewTime[0] == item
              && (forall t :: t in after.captureReviewTime[1..] ==> t.id != item.id)
              && Filter(OtherTime(item.id), after.captureReviewTime) == Filter(OtherTime(item.id), m.captureReviewTime)
  {
    FiledAgain(OtherTime(TimerItem(entry).id), TimerItem(entry), d.matters[i].captureReviewTime);
  }

  lemma {:induction false} ExpenseDraftFiled(d: Dashboard, item: ExpenseItem, i: nat)
    requires i < |d.matters|
    ensures AddExpenseDraft(d, item).summary == d.summary && |AddExpenseDraft(d, item).matters| == |d.matters|
    ensures var m, after := d.matters[i], AddExpenseDraft(d, item).matters[i];
            if m.matterId != item.matterId then after == m
            else
              && after == m.(captureReviewExpenses := after.captureReviewExpenses)
              && after.captureReviewExpenses != [] && after.captureReviewExpenses[0] == item
              && (forall e :: e in after.captureReviewExpenses[1..] ==> e.id != item.id)
              && Filter((e: ExpenseItem) => e.id != item.id, after.captureReviewExpenses)
                 == Filter((e: ExpenseItem) => e.id != item.id, m.captureReviewExpenses)
  {
    var before, after := d.matters[i].captureReviewExpenses, AddExpenseDraft(d, item).matters[i].captureReviewExpenses;
    FiledAgain(OtherExpense(item.id), item, before);
    FilterAgree(OtherExpense(item.id), (e: ExpenseItem) => e.id != item.id, before);
    FilterAgree(OtherExpense(item.id), (e: ExpenseItem) => e.id != item.id, after);
  }

  /** A started timer is filed with its own fields and the nearest cent to its
      minutes at its hourly rate, the higher one of two; an item is filed as it is. */
  lemma {:induction false} TimerFiledAs(entry: TimerEntry)
    ensures match entry
            case Item(item) => TimerItem(entry) == item
            case Started(id, matterId, minutes, rateCents, narrative) =>
              var item := TimerItem(entry);
              && item.id == id && item.matterId == matterId && item.minutes == minutes && item.rateCents == rateCents && item.narrative == narrative
              && 60 * item.amountCents - 30 <= minutes * rateCents < 60 * item.amountCents + 30
  {
    if entry.Started? { NearestCent(entry.minutes * entry.rateCents); }
  }

  lemma {:induction false} NearestCent(n: int)
    ensures 60 * RoundedPerHour(n) - 30 <= n < 60 * RoundedPerHour(n) + 30
  {
  }

  // ----- Rounding -----

  datatype Work = Work(minutes: int, rateCents: int)

  function Worth(w: Work): int {
    w.minutes * w.rateCents
  }

  /** `n / 60` as it is computed: off by less than a sixtieth, exact at the halves. */
  ghost predicate IsQuotient(n: int, q: real) {
    -1.0 < 60.0 * q - n as real < 1.0 && (n % 60 == 30 ==> 60.0 * q == n as real)
  }

  function MathRound(q: real): int {
    (q + 0.5).Floor
  }

  /** The amount on the dashboard for a timer entry of that work, by a division
      `perHour`. */
  function Billed(perHour: int -> real): Work -> int {
    (w: Work) => MathRound(perHour(Worth(w)))
  }

  /** Each entry is off by at most half a cent, so n entries by at most n halves. */
  lemma {:induction false} RoundingErrorBound(perHour: int -> real, entries: seq<Work>)
    requires forall w :: w in entries ==> IsQuotient(Worth(w), perHour(Worth(w)))
    ensures -30 * |entries| <= 60 * Sum(Billed(perHour), entries) - Sum(Worth, entries) <= 30 * |entries|
  {
    if entries != [] {
      assert entries[0] in entries;
      FloatingQuotientRounds(Worth(entries[0]), perHour(Worth(entries[0])));
      RoundingErrorBound(perHour, entries[1..]);
    }
  }

  /** `Math.round` of such a quotient gives the cents of the exact one. */
  lemma {:induction false} FloatingQuotientRounds(n: int, q: real)
    requires IsQuotient(n, q)
    ensures MathRound(q) == RoundedPerHour(n)
  {
    var k := RoundedPerHour(n);
    assert 60 * k - 30 <= n < 60 * k + 30;
    assert (60 * k - 30) as real <= n as real <= (60 * k + 29) as real;
    if n == 60 * k - 30 { assert n % 60 == 30; }
    assert 60.0 * (k as real) - 30.0 <= 60.0 * q < 60.0 * (k as real) + 30.0;
  }

  lemma {:induction false} WorthOfParts(parts: seq<int>, rate: int)
    ensures Sum(Worth, Map((m: int) => Work(m, rate), parts)) == Worth(Work(Sum((m: int) => m, parts), rate))
  {
    if parts != [] {
      WorthOfParts(parts[1..], rate);
      assert Map((m: int) => Work(m, rate), parts)[1..] == Map((m: int) => Work(m, rate), parts[1..]);
      var rest := Sum((m: int) => m, parts[1..]);
      assert (parts[0] + rest) * rate == parts[0] * rate + rest * rate;
    }
  }

  /** Splitting an entry into k at the same rate moves the total by at most
      (k + 1) / 2 cents. */
  lemma {:induction false} SplitEntryBound(perHour: int -> real, parts: seq<int>, rate: int)
    requires forall m :: m in parts ==> IsQuotient(m * rate, perHour(m * rate))
    requires var n := Sum((m: int) => m, parts) * rate; IsQuotient(n, perHour(n))
    ensures var moved := Sum(Billed(perHour), Map((m: int) => Work(m, rate), parts)) - Billed(perHour)(Work(Sum((m: int) => m, parts), rate));
            -(|parts| + 1) <= 2 * moved <= |parts| + 1
  {
    var n := Sum((m: int) => m, parts) * rate;
    WorthOfParts(parts, rate);
    RoundingErrorBound(perHour, Map((m: int) => Work(m, rate), parts));
    FloatingQuotientRounds(n, perHour(n));
  }
}
