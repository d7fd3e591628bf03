/** The dashboard's recent trust postings of a matter: ledger entries gathered by
    transaction, newest transaction first. */
module TrustPostings {
  import opened Sequences
  import opened Sorting
  import opened Grouping
  import opened TrustLedger

  datatype Posting = Posting(transactionId: string, postedAt: int, memo: string, entryCount: int, matterDeltaCents: int)

  function OfMatter(matterId: string): Entry -> bool {
    (e: Entry) => e.line.matterId == matterId
  }

  function TransactionOf(e: Entry): string {
    e.transactionId
  }

  function LiabilityDelta(liability: set<string>): Entry -> int {
    (e: Entry) => if e.line.accountId in liability then e.line.creditCents - e.line.debitCents else 0
  }

  function OpenPosting(e: Entry): Posting {
    Posting(e.transactionId, e.postedAt, e.line.memo, 0, 0)
  }

  /** The field updates of one loop iteration. */
  function AddEntry(liability: set<string>): (Posting, Entry) -> Posting {
    (p: Posting, e: Entry) =>
      Posting(p.transactionId,
              if e.postedAt > p.postedAt then e.postedAt else p.postedAt,
              if p.memo != "" then p.memo else e.line.memo,
              p.entryCount + 1,
              p.matterDeltaCents + LiabilityDelta(liability)(e))
  }

  // ----- What a posting must say about its entries -----

  ghost predicate IsLatest(at: int, entries: seq<Entry>) {
    && (exists e :: e in entries && e.postedAt == at)
    && forall e :: e in entries ==> e.postedAt <= at
  }

  /** The first memo that is not empty, if there is one. */
  ghost predicate IsFirstMemo(memo: string, entries: seq<Entry>) {
    if memo == "" then forall e :: e in entries ==> e.line.memo == ""
    else exists i :: 0 <= i < |entries| && entries[i].line.memo == memo && forall j :: 0 <= j < i ==> entries[j].line.memo == ""
  }

  /** What the entries add to what is owed to clients. */
  function Owed(entries: seq<Entry>, liability: set<string>): int {
    if entries == [] then 0
    else (if entries[0].line.accountId in liability then entries[0].line.creditCents - entries[0].line.debitCents else 0) + Owed(entries[1..], liability)
  }

  lemma {:induction false} OwedIsSum(entries: seq<Entry>, liability: set<string>)
    ensures Sum(LiabilityDelta(liability), entries) == Owed(entries, liability)
  {
    if entries != [] { OwedIsSum(entries[1..], liability); }
  }

  lemma {:induction false} OwedSnoc(before: seq<Entry>, e: Entry, liability: set<string>)
    ensures Owed(before + [e], liability) == Owed(before, liability) + LiabilityDelta(liability)(e)
  {
    OwedIsSum(before, liability);
    OwedIsSum(before + [e], liability);
    SumConcat(LiabilityDelta(liability), before, [e]);
    assert Sum(LiabilityDelta(liability), [e]) == LiabilityDelta(liability)(e);
  }

  ghost predicate Summarizes(p: Posting, entries: seq<Entry>, liability: set<string>) {
    && (forall e :: e in entries ==> e.transactionId == p.transactionId)
    && IsLatest(p.postedAt, entries)
    && IsFirstMemo(p.memo, entries)
    && p.entryCount == |entries|
    && p.matterDeltaCents == Owed(entries, liability)
  }

  predicate NewestFirst(a: Posting, b: Posting) {
    a.postedAt >= b.postedAt
  }

  function EntriesOf(entries: seq<Entry>, matterId: string, transactionId: string): seq<Entry> {
    Members(OfMatter(matterId), TransactionOf, entries, transactionId)
  }

  ghost function OfTransaction(entries: seq<Entry>, matterId: string, transactionId: string): seq<Entry> {
    Filter((e: Entry) => e.line.matterId == matterId && e.transactionId == transactionId, entries)
  }

  lemma {:induction false} EntriesAlike(entries: seq<Entry>, matterId: string, transactionId: string)
    ensures EntriesOf(entries, matterId, transactionId) == OfTransaction(entries, matterId, transactionId)
  {
    FilterAgree(InGroup(OfMatter(matterId), TransactionOf, transactionId),
                (e: Entry) => e.line.matterId == matterId && e.transactionId == transactionId, entries);
  }

  /** Every transaction with entries on the matter has exactly one posting, and
      that posting summarizes exactly those entries. */
  ghost predicate GroupsOf(groups: seq<Posting>, entries: seq<Entry>, matterId: string, liability: set<string>) {
    && (forall i, j :: 0 <= i < j < |groups| ==> groups[i].transactionId != groups[j].transactionId)
    && (forall p :: p in groups ==> OfTransaction(entries, matterId, p.transactionId) != [])
    && (forall p :: p in groups ==> Summarizes(p, OfTransaction(entries, matterId, p.transactionId), liability))
    && (forall e :: e in entries && e.line.matterId == matterId ==> exists p :: p in groups && p.transactionId == e.transactionId)
  }

  // ----- The loop builds such postings -----

  lemma {:induction false} FoldSummarizes(entries: seq<Entry>, liability: set<string>)
    requires entries != [] && forall e :: e in entries ==> e.transactionId == entries[0].transactionId
    ensures Summarizes(GroupValue(OpenPosting, AddEntry(liability), entries), entries, liability)
    decreases |entries|
  {
    var n := |entries| - 1;
    var before, e := entries[..n], entries[n];
    var step := AddEntry(liability);
    assert entries == before + [e];
    if n == 0 {
      assert Fold(step, OpenPosting(e), before) == OpenPosting(e);
      SummarizesOne(e, liability);
    } else {
      assert before[0] == entries[0] && e in entries;
      FoldSummarizes(before, liability);
      SummarizesSnoc(GroupValue(OpenPosting, step, before), before, e, liability);
    }
  }

  lemma {:induction false} SummarizesOne(e: Entry, liability: set<string>)
    ensures Summarizes(AddEntry(liability)(OpenPosting(e), e), [e], liability)
  {
    var memo := e.line.memo;
    assert e in [e] && memo != "" ==> [e][0].line.memo == memo;
    OwedSnoc([], e, liability);
    assert [] + [e] == [e];
  }

  lemma SummarizesSnoc(q: Posting, before: seq<Entry>, e: Entry, liability: set<string>)
    requires Summarizes(q, before, liability) && e.transactionId == q.transactionId
    ensures Summarizes(AddEntry(liability)(q, e), before + [e], liability)
  {
    OwedSnoc(before, e, liability);
    LatestSnoc(q.postedAt, before, e);
    MemoSnoc(q.memo, before, e);
  }

  lemma {:induction false} LatestSnoc(at: int, before: seq<Entry>, e: Entry)
    requires IsLatest(at, before)
    ensures IsLatest(if e.postedAt > at then e.postedAt else at, before + [e])
  {
    var x :| x in before && x.postedAt == at;
    assert x in before + [e] && e in before + [e];
  }

  lemma MemoSnoc(memo: string, before: seq<Entry>, e: Entry)
    requires IsFirstMemo(memo, before)
    ensures IsFirstMemo(if memo != "" then memo else e.line.memo, before + [e])
  {
    var all := before + [e];
    if memo != "" {
      var i :| 0 <= i < |before| && before[i].line.memo == memo && forall j :: 0 <= j < i ==> before[j].line.memo == "";
      assert all[i].line.memo == memo && forall j :: 0 <= j < i ==> all[j].line.memo == "";
    } else if e.line.memo != "" {
      assert all[|before|].line.memo == e.line.memo && forall j :: 0 <= j < |before| ==> all[j].line.memo == "";
    }
  }

  lemma {:induction false} GatheredAreGroups(groups: seq<Posting>, order: seq<string>, entries: seq<Entry>, matterId: string, liability: set<string>)
    requires order == Keys(OfMatter(matterId), TransactionOf, entries) && |groups| == |order|
    requires forall i :: 0 <= i < |order| ==>
               EntriesOf(entries, matterId, order[i]) != []
               && groups[i] == GroupValue(OpenPosting, AddEntry(liability), EntriesOf(entries, matterId, order[i]))
    ensures GroupsOf(groups, entries, matterId, liability)
    ensures forall i :: 0 <= i < |order| ==> groups[i].transactionId == order[i]
  {
    forall i | 0 <= i < |order|
      ensures groups[i].transactionId == order[i] && Summarizes(groups[i], EntriesOf(entries, matterId, order[i]), liability)
    {
      GroupSummarizes(entries, matterId, order[i], liability);
    }
    PostingsByKey(groups, order, entries, matterId, liability);
    forall p | p in groups ensures EntriesOf(entries, matterId, p.transactionId) == OfTransaction(entries, matterId, p.transactionId) {
      EntriesAlike(entries, matterId, p.transactionId);
    }
    PostingsApart(groups, order);
    forall e | e in entries && e.line.matterId == matterId ensures exists p :: p in groups && p.transactionId == e.transactionId {
      EntryHasKey(order, entries, matterId, e);
      PostingAt(groups, order, e.transactionId);
    }
  }

  lemma {:induction false} PostingsApart(groups: seq<Posting>, order: seq<string>)
    requires Distinct(order) && |groups| == |order| && forall i :: 0 <= i < |order| ==> groups[i].transactionId == order[i]
    ensures forall i, j :: 0 <= i < j < |groups| ==> groups[i].transactionId != groups[j].transactionId
  {
  }

  lemma {:induction false} PostingAt(groups: seq<Posting>, order: seq<string>, transactionId: string)
    requires |groups| == |order| && forall i :: 0 <= i < |order| ==> groups[i].transactionId == order[i]
    requires transactionId in order
    ensures exists p :: p in groups && p.transactionId == transactionId
  {
    var i :| 0 <= i < |order| && order[i] == transactionId;
    assert groups[i] in groups;
  }

  lemma {:induction false} GroupSummarizes(entries: seq<Entry>, matterId: string, transactionId: string, liability: set<string>)
    requires EntriesOf(entries, matterId, transactionId) != []
    ensures var mine := EntriesOf(entries, matterId, transactionId);
            var p := GroupValue(OpenPosting, AddEntry(liability), mine);
            p.transactionId == transactionId && Summarizes(p, mine, liability)
  {
    var mine := EntriesOf(entries, matterId, transactionId);
    assert mine[0] in mine;
    FoldSummarizes(mine, liability);
  }

  lemma {:induction false} PostingsByKey(groups: seq<Posting>, order: seq<string>, entries: seq<Entry>, matterId: string, liability: set<string>)
    requires |groups| == |order|
    requires forall i :: 0 <= i < |order| ==>
               && groups[i].transactionId == order[i] && EntriesOf(entries, matterId, order[i]) != []
               && Summarizes(groups[i], EntriesOf(entries, matterId, order[i]), liability)
    ensures forall p :: p in groups ==>
              EntriesOf(entries, matterId, p.transactionId) != [] && Summarizes(p, EntriesOf(entries, matterId, p.transactionId), liability)
  {
    forall p | p in groups
      ensures EntriesOf(entries, matterId, p.transactionId) != [] && Summarizes(p, EntriesOf(entries, matterId, p.transactionId), liability)
    {
      var i :| 0 <= i < |groups| && groups[i] == p;
    }
  }

  lemma {:induction false} EntryHasKey(order: seq<string>, entries: seq<Entry>, matterId: string, e: Entry)
    requires order == Keys(OfMatter(matterId), TransactionOf, entries) && e in entries && e.line.matterId == matterId
    ensures e.transactionId in order
  {
    assert e in EntriesOf(entries, matterId, e.transactionId);
    KeyIffMembers(OfMatter(matterId), TransactionOf, entries, e.transactionId);
  }

  lemma {:induction false} TotalOfGroups(groups: seq<Posting>, order: seq<string>, total: string -> int)
    requires |groups| == |order| && forall i :: 0 <= i < |order| ==> groups[i].matterDeltaCents == total(order[i])
    ensures Sum((p: Posting) => p.matterDeltaCents, groups) == Sum(total, order)
  {
    if groups != [] { TotalOfGroups(groups[1..], order[1..], total); }
  }

  /** What the entries of a transaction on the matter come to. */
  function PostingOf(entries: seq<Entry>, matterId: string, liability: set<string>): string -> Posting {
    (transactionId: string) =>
      var mine := EntriesOf(entries, matterId, transactionId);
      if mine == [] then Posting(transactionId, 0, "", 0, 0) else GroupValue(OpenPosting, AddEntry(liability), mine)
  }

  /** The postings of a matter by first appearance, before sorting and cutting. */
  function Postings(entries: seq<Entry>, matterId: string, liability: set<string>): seq<Posting> {
    Map(PostingOf(entries, matterId, liability), Keys(OfMatter(matterId), TransactionOf, entries))
  }

  /** Every transaction of the matter has one posting, which summarizes exactly
      its entries, and together the postings come to the matter's total. */
  lemma {:induction false} PostingsAreGroups(entries: seq<Entry>, matterId: string, liability: set<string>)
    ensures GroupsOf(Postings(entries, matterId, liability), entries, matterId, liability)
    ensures Sum((p: Posting) => p.matterDeltaCents, Postings(entries, matterId, liability))
         == Owed(Filter((e: Entry) => e.line.matterId == matterId, entries), liability)
  {
    var groups, order := Postings(entries, matterId, liability), Keys(OfMatter(matterId), TransactionOf, entries);
    forall i | 0 <= i < |order| ensures EntriesOf(entries, matterId, order[i]) != [] {
      assert order[i] in order;
      KeyIffMembers(OfMatter(matterId), TransactionOf, entries, order[i]);
    }
    GatheredAreGroups(groups, order, entries, matterId, liability);
    var total := GroupTotal(LiabilityDelta(liability), OfMatter(matterId), TransactionOf, entries);
    forall i | 0 <= i < |order| ensures groups[i].matterDeltaCents == total(order[i]) {
      assert groups[i] in groups;
      EntriesAlike(entries, matterId, order[i]);
      OwedIsSum(EntriesOf(entries, matterId, order[i]), liability);
    }
    TotalOfGroups(groups, order, total);
    GroupsAddUp(LiabilityDelta(liability), OfMatter(matterId), TransactionOf, entries);
    OwedIsSum(Filter(OfMatter(matterId), entries), liability);
    FilterAgree(OfMatter(matterId), (e: Entry) => e.line.matterId == matterId, entries);
  }

  /** `recentTrustPostings`: gather in one pass, sort newest first, cut. */
  method RecentTrustPostings(accounts: seq<Account>, entries: seq<Entry>, matterId: string, limit: int) returns (recent: seq<Posting>)
    ensures recent == TakeFirst(Sort(NewestFirst, Postings(entries, matterId, LiabilityIds(accounts))), limit)
  {
    var liability := LiabilityIds(accounts);
    var order, values := GatherInOrder(OfMatter(matterId), TransactionOf, OpenPosting, AddEntry(liability), entries);
    assert values == Postings(entries, matterId, liability);
    recent := TakeFirst(Sort(NewestFirst, values), limit);
  }

  /** As many postings as asked for are shown, or all; they are in descending order
      and none left out is newer. */
  lemma {:induction false} ShownAreNewest(groups: seq<Posting>, limit: int)
    ensures var recent := TakeFirst(Sort(NewestFirst, groups), limit);
            && (limit >= 0 ==> |recent| == if limit <= |groups| then limit else |groups|)
            && (limit < 0 ==> |recent| == if -limit <= |groups| then |groups| + limit else 0)
            && (forall i, j :: 0 <= i < j < |recent| ==> recent[i].postedAt >= recent[j].postedAt)
            && (forall p :: p in recent ==> p in groups)
            && (forall p :: p in groups ==> p in recent || forall q :: q in recent ==> q.postedAt >= p.postedAt)
  {
    var sorted := Sort(NewestFirst, groups);
    SortSorted(NewestFirst, groups);
    PrefixIsNewest(sorted, TakeFirst(sorted, limit));
  }

  lemma {:induction false} PrefixIsNewest(sorted: seq<Posting>, recent: seq<Posting>)
    requires Sorted(NewestFirst, sorted) && recent <= sorted
    ensures Sorted(NewestFirst, recent)
    ensures forall p :: p in sorted ==> p in recent || forall q :: q in recent ==> q.postedAt >= p.postedAt
  {
    forall p, q | p in sorted && p !in recent && q in recent ensures q.postedAt >= p.postedAt {
      var i :| 0 <= i < |sorted| && sorted[i] == p;
      var j :| 0 <= j < |recent| && recent[j] == q;
      assert i >= |recent| && sorted[j] == q && NewestFirst(sorted[j], sorted[i]);
    }
  }
}
