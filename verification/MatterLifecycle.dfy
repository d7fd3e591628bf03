/** The bounded lifecycle history of a matter: newest first, at most eight
    records kept (`appendMatterLifecycleTransition`). */
module MatterLifecycle {
  import opened Sequences
  import opened Sorting
  import KeyedLists

  datatype Transition = Transition(id: string, reviewedAt: string, reason: string)

  const HISTORY_LIMIT := 8

  /** `left.localeCompare(right) <= 0` on dates. */
  type DateOrder = (string, string) -> bool

  function NewestFirst(order: DateOrder): (Transition, Transition) -> bool {
    (a: Transition, b: Transition) => order(b.reviewedAt, a.reviewedAt)
  }

  lemma NewestPreorder(order: DateOrder)
    requires TotalPreorder(order)
    ensures TotalPreorder(NewestFirst(order))
  {
    var leq := NewestFirst(order);
    forall a, b ensures leq(a, b) || leq(b, a) { assert order(a.reviewedAt, b.reviewedAt) || order(b.reviewedAt, a.reviewedAt); }
    forall a, b, c | leq(a, b) && leq(b, c) ensures leq(a, c) {
      assert order(c.reviewedAt, b.reviewedAt) && order(b.reviewedAt, a.reviewedAt);
    }
  }

  function Without(id: string, history: seq<Transition>): seq<Transition> {
    Filter((item: Transition) => item.id != id, history)
  }

  /** Put the record in front, drop an older copy, sort, keep the first eight. */
  function Append(order: DateOrder, history: seq<Transition>, record: Transition): seq<Transition> {
    TakeFirst(Sort(NewestFirst(order), [record] + Without(record.id, history)), HISTORY_LIMIT)
  }

  function AppendAll(order: DateOrder, history: seq<Transition>, records: seq<Transition>): seq<Transition>
    decreases |records|
  {
    if records == [] then history
    else Append(order, AppendAll(order, history, records[..|records| - 1]), records[|records| - 1])
  }

  /** Everything ever recorded, latest arrival first, never truncated. */
  function WholeHistory(history: seq<Transition>, records: seq<Transition>): seq<Transition>
    decreases |records|
  {
    if records == [] then history
    else [records[|records| - 1]] + WholeHistory(history, records[..|records| - 1])
  }

  function Ids(history: seq<Transition>): seq<string> {
    Map((item: Transition) => item.id, history)
  }

  /** Keeping only the first n before an insertion does not change the first n after it. */
  lemma {:induction false} TruncationIsHarmless(order: DateOrder, record: Transition, sorted: seq<Transition>, n: nat)
    ensures TakeFirst(Insert(NewestFirst(order), record, TakeFirst(sorted, n)), n)
         == TakeFirst(Insert(NewestFirst(order), record, sorted), n)
    decreases n
  {
    if n > 0 && sorted != [] {
      var first, rest := sorted[0], sorted[1..];
      assert sorted == [first] + rest;
      TakeCons(first, rest, n);
      if NewestFirst(order)(record, first) {
        TakeCons(record, sorted, n);
        TakeCons(record, TakeFirst(sorted, n), n);
        TakeFirstTwice(sorted, n - 1, n);
      } else {
        TruncationIsHarmless(order, record, rest, n - 1);
        TakeCons(first, Insert(NewestFirst(order), record, TakeFirst(rest, n - 1)), n);
        TakeCons(first, Insert(NewestFirst(order), record, rest), n);
        assert TakeFirst(sorted, n)[1..] == TakeFirst(rest, n - 1);
      }
    }
  }

  lemma {:induction false} TakeCons(x: Transition, xs: seq<Transition>, n: nat)
    requires n > 0
    ensures TakeFirst([x] + xs, n) == [x] + TakeFirst(xs, n - 1)
  {
  }

  lemma {:induction false} TakeFirstTwice(xs: seq<Transition>, m: nat, n: nat)
    requires m <= n
    ensures TakeFirst(TakeFirst(xs, n), m) == TakeFirst(xs, m)
  {
  }

  lemma {:induction false} WholeHistoryIds(history: seq<Transition>, records: seq<Transition>, id: string)
    requires id !in Ids(history) && id !in Ids(records)
    ensures id !in Ids(WholeHistory(history, records))
    decreases |records|
  {
    if records != [] {
      var n := |records| - 1;
      assert Ids(records)[n] == records[n].id;
      forall x | x in Ids(records[..n]) ensures x in Ids(records) {
        var i :| 0 <= i < n && Ids(records[..n])[i] == x;
        assert Ids(records)[i] == x;
      }
      WholeHistoryIds(history, records[..n], id);
      var whole := WholeHistory(history, records);
      forall i | 0 <= i < |whole| ensures whole[i].id != id {
        if i > 0 { assert Ids(WholeHistory(history, records[..n]))[i - 1] == whole[i].id; }
      }
    }
  }

  /** A sorted prefix of a list is its own sort. */
  lemma TakeSorted(order: DateOrder, history: seq<Transition>, n: nat)
    requires TotalPreorder(order)
    ensures Sort(NewestFirst(order), TakeFirst(Sort(NewestFirst(order), history), n)) == TakeFirst(Sort(NewestFirst(order), history), n)
  {
    NewestPreorder(order);
    SortSorted(NewestFirst(order), history);
    SortOfSorted(NewestFirst(order), TakeFirst(Sort(NewestFirst(order), history), n));
  }

  lemma WithoutAbsent(id: string, history: seq<Transition>)
    requires id !in Ids(history)
    ensures Without(id, history) == history
  {
    forall x | x in history ensures x.id != id {
      var i :| 0 <= i < |history| && history[i] == x;
      assert Ids(history)[i] == x.id;
    }
    FilterAll((item: Transition) => item.id != id, history);
  }

  /** One stable newest-first sort of the whole history gives the stored list:
      truncating to eight after every append loses nothing. */
  lemma {:induction false} StreamingEqualsOffline(order: DateOrder, history: seq<Transition>, records: seq<Transition>)
    requires TotalPreorder(order)
    requires records != [] && Distinct(Ids(records) + Ids(history))
    ensures AppendAll(order, history, records) == TakeFirst(Sort(NewestFirst(order), WholeHistory(history, records)), HISTORY_LIMIT)
    decreases |records|
  {
    var n := |records| - 1;
    var record, earlier := records[n], records[..n];
    var whole := WholeHistory(history, earlier);
    LastIsNew(records, history);
    WholeHistoryIds(history, earlier, record.id);
    if earlier == [] {
      WithoutAbsent(record.id, whole);
      assert AppendAll(order, history, records) == Append(order, history, record);
    } else {
      StreamingEqualsOffline(order, history, earlier);
      AppendToKept(order, whole, record);
    }
  }

  /** The stored list has at most eight records, the newest of all: later dates
      stand first, and no record that was left out is newer than one listed. */
  lemma {:induction false} ListedAreNewest(order: DateOrder, history: seq<Transition>, records: seq<Transition>)
    requires TotalPreorder(order)
    requires records != [] && Distinct(Ids(records) + Ids(history))
    ensures var listed := AppendAll(order, history, records);
            && |listed| == (if |history| + |records| < 8 then |history| + |records| else 8)
            && (forall i, j :: 0 <= i < j < |listed| ==> order(listed[j].reviewedAt, listed[i].reviewedAt))
            && (forall t :: t in listed ==> t in records || t in history)
            && (forall t :: t in records + history ==> t in listed || forall u :: u in listed ==> order(t.reviewedAt, u.reviewedAt))
  {
    StreamingEqualsOffline(order, history, records);
    var whole, leq := WholeHistory(history, records), NewestFirst(order);
    WholeHistoryIs(history, records);
    NewestPreorder(order);
    SortSorted(leq, whole);
    var sorted, listed := Sort(leq, whole), AppendAll(order, history, records);
    assert listed == TakeFirst(sorted, 8);
    forall i, j | 0 <= i < j < |listed| ensures order(listed[j].reviewedAt, listed[i].reviewedAt) { assert leq(sorted[i], sorted[j]); }
    forall t, u | t in records + history && t !in listed && u in listed ensures order(t.reviewedAt, u.reviewedAt) {
      var i :| 0 <= i < |sorted| && sorted[i] == t;
      var j :| 0 <= j < |listed| && listed[j] == u;
      assert sorted[j] == u && j < i && leq(sorted[j], sorted[i]);
    }
  }

  lemma {:induction false} WholeHistoryIs(history: seq<Transition>, records: seq<Transition>)
    ensures |WholeHistory(history, records)| == |history| + |records|
    ensures forall t :: t in WholeHistory(history, records) <==> t in records || t in history
    decreases |records|
  {
    if records != [] {
      WholeHistoryIs(history, records[..|records| - 1]);
      assert records == records[..|records| - 1] + [records[|records| - 1]];
    }
  }

  /** The last record's id is new, and the ids before it are distinct too. */
  lemma LastIsNew(records: seq<Transition>, history: seq<Transition>)
    requires records != [] && Distinct(Ids(records) + Ids(history))
    ensures var n := |records| - 1;
            && records[n].id !in Ids(history) && records[n].id !in Ids(records[..n])
            && Distinct(Ids(records[..n]) + Ids(history))
  {
    var n := |records| - 1;
    var id, all, some := records[n].id, Ids(records) + Ids(history), Ids(records[..n]) + Ids(history);
    assert all[n] == id;
    forall i | 0 <= i < |some| ensures some[i] == all[if i < n then i else i + 1] && some[i] != id {}
    forall i | 0 <= i < |history| ensures Ids(history)[i] != id { assert some[n + i] == Ids(history)[i]; }
    forall i | 0 <= i < n ensures Ids(records[..n])[i] != id { assert some[i] == Ids(records[..n])[i]; }
  }

  lemma KeptIds(order: DateOrder, whole: seq<Transition>, id: string, n: nat)
    requires id !in Ids(whole)
    ensures id !in Ids(TakeFirst(Sort(NewestFirst(order), whole), n))
  {
    var kept := TakeFirst(Sort(NewestFirst(order), whole), n);
    forall i | 0 <= i < |kept| ensures Ids(kept)[i] != id {
      assert kept[i] in Sort(NewestFirst(order), whole);
      var j :| 0 <= j < |whole| && whole[j] == kept[i];
      assert Ids(whole)[j] == kept[i].id;
    }
  }

  /** Appending a new id to the kept records gives what appending it to all gives. */
  lemma AppendToKept(order: DateOrder, whole: seq<Transition>, record: Transition)
    requires TotalPreorder(order)
    requires record.id !in Ids(whole)
    ensures Append(order, TakeFirst(Sort(NewestFirst(order), whole), HISTORY_LIMIT), record)
         == TakeFirst(Sort(NewestFirst(order), [record] + whole), HISTORY_LIMIT)
  {
    NewestPreorder(order);
    var kept := TakeFirst(Sort(NewestFirst(order), whole), HISTORY_LIMIT);
    KeptIds(order, whole, record.id, HISTORY_LIMIT);
    WithoutAbsent(record.id, kept);
    assert ([record] + kept)[1..] == kept && ([record] + whole)[1..] == whole;
    TakeSorted(order, whole, HISTORY_LIMIT);
    TruncationIsHarmless(order, record, Sort(NewestFirst(order), whole), HISTORY_LIMIT);
  }

  /** Where an insertion into `front + back` shows within the first |front| + 1. */
  lemma {:induction false} InsertBeforeIff(order: DateOrder, record: Transition, front: seq<Transition>, back: seq<Transition>)
    requires TotalPreorder(order)
    requires back != [] && Sorted(NewestFirst(order), front + back)
    ensures TakeFirst(Insert(NewestFirst(order), record, front + back), |front| + 1) == Insert(NewestFirst(order), record, front)
        <==> NewestFirst(order)(record, back[0])
  {
    NewestPreorder(order);
    var all := front + back;
    if front == [] {
      assert all == back;
    } else {
      assert all[0] == front[0] && all[|front|] == back[0] && NewestFirst(order)(all[0], all[|front|]);
      assert all[1..] == front[1..] + back;
      if !NewestFirst(order)(record, front[0]) {
        InsertBeforeIff(order, record, front[1..], back);
        var short, long := Insert(NewestFirst(order), record, front[1..]), Insert(NewestFirst(order), record, all[1..]);
        TakeCons(front[0], long, |front| + 1);
        assert ([front[0]] + short)[1..] == short;
        assert ([front[0]] + TakeFirst(long, |front|))[1..] == TakeFirst(long, |front|);
      }
    }
  }

  /** The condition under which re-recording an id loses nothing: its old copy
      was no longer stored, or nothing had been cut off yet, or the new copy is
      at least as recent as the newest record that was cut off. */
  predicate ReappendIsSafe(order: DateOrder, whole: seq<Transition>, record: Transition) {
    var sorted := Sort(NewestFirst(order), whole);
    || record.id !in Ids(TakeFirst(sorted, HISTORY_LIMIT))
    || |whole| <= HISTORY_LIMIT
    || NewestFirst(order)(record, sorted[HISTORY_LIMIT])
  }

  lemma {:induction false} WithoutOne(id: string, history: seq<Transition>, i: nat)
    requires Distinct(Ids(history)) && i < |history| && history[i].id == id
    ensures Without(id, history) == history[..i] + history[i + 1..]
  {
    var p := (item: Transition) => item.id != id;
    forall j | 0 <= j < |history| && j != i ensures history[j].id != id {
      assert Ids(history)[i] != Ids(history)[j] || i == j;
    }
    assert history == history[..i] + ([history[i]] + history[i + 1..]);
    FilterConcat(p, history[..i], [history[i]] + history[i + 1..]);
    FilterConcat(p, [history[i]], history[i + 1..]);
    FilterAll(p, history[..i]);
    FilterAll(p, history[i + 1..]);
    assert Filter(p, [history[i]]) == [];
  }

  lemma SortedIdsDistinct(order: DateOrder, history: seq<Transition>)
    requires Distinct(Ids(history))
    ensures Distinct(Ids(Sort(NewestFirst(order), history)))
  {
    var key := (item: Transition) => item.id;
    forall i, j | 0 <= i < j < |history| ensures key(history[i]) != key(history[j]) {
      assert Ids(history)[i] != Ids(history)[j];
    }
    KeyedLists.SortDistinct(key, NewestFirst(order), history);
    var sorted := Sort(NewestFirst(order), history);
    forall i, j | 0 <= i < j < |sorted| ensures Ids(sorted)[i] != Ids(sorted)[j] {
      assert key(sorted[i]) != key(sorted[j]);
    }
  }

  lemma AppendInserts(order: DateOrder, history: seq<Transition>, record: Transition)
    requires TotalPreorder(order)
    ensures Sort(NewestFirst(order), [record] + Without(record.id, history))
         == Insert(NewestFirst(order), record, Without(record.id, Sort(NewestFirst(order), history)))
  {
    NewestPreorder(order);
    SortOfFilter(NewestFirst(order), (item: Transition) => item.id != record.id, history);
    assert ([record] + Without(record.id, history))[1..] == Without(record.id, history);
  }

  lemma {:induction false} ReappendForgotten(order: DateOrder, sorted: seq<Transition>, record: Transition, n: nat)
    requires record.id !in Ids(TakeFirst(sorted, n))
    ensures TakeFirst(Insert(NewestFirst(order), record, Without(record.id, TakeFirst(sorted, n))), n)
         == TakeFirst(Insert(NewestFirst(order), record, Without(record.id, sorted)), n)
  {
    var stored := TakeFirst(sorted, n);
    WithoutAbsent(record.id, stored);
    assert sorted == stored + sorted[|stored|..];
    FilterConcat((item: Transition) => item.id != record.id, stored, sorted[|stored|..]);
    assert TakeFirst(Without(record.id, sorted), n) == stored;
    TruncationIsHarmless(order, record, Without(record.id, sorted), n);
  }

  lemma WithoutSplits(sorted: seq<Transition>, id: string, n: nat)
    requires Distinct(Ids(sorted)) && n <= |sorted| && id in Ids(sorted[..n])
    ensures |Without(id, sorted[..n])| == n - 1
    ensures Without(id, sorted) == Without(id, sorted[..n]) + sorted[n..]
  {
    var stored, cut := sorted[..n], sorted[n..];
    var i :| 0 <= i < n && Ids(stored)[i] == id;
    assert forall a :: 0 <= a < n ==> Ids(stored)[a] == Ids(sorted)[a];
    WithoutOne(id, stored, i);
    assert sorted == stored + cut;
    FilterConcat((item: Transition) => item.id != id, stored, cut);
    CutHasNot(sorted, i, n);
    WithoutAbsent(id, cut);
  }

  lemma {:induction false} CutHasNot(sorted: seq<Transition>, i: nat, n: nat)
    requires Distinct(Ids(sorted)) && i < n <= |sorted|
    ensures sorted[i].id !in Ids(sorted[n..])
  {
    forall a | 0 <= a < |sorted| - n ensures Ids(sorted[n..])[a] != sorted[i].id {
      assert Ids(sorted)[n + a] == Ids(sorted[n..])[a] && Ids(sorted)[i] == sorted[i].id;
    }
  }

  lemma ReappendStored(order: DateOrder, sorted: seq<Transition>, record: Transition, n: nat)
    requires TotalPreorder(order)
    requires Sorted(NewestFirst(order), sorted) && Distinct(Ids(sorted)) && n < |sorted|
    requires record.id in Ids(sorted[..n])
    ensures TakeFirst(Insert(NewestFirst(order), record, Without(record.id, sorted[..n])), n)
         == TakeFirst(Insert(NewestFirst(order), record, Without(record.id, sorted)), n)
        <==> NewestFirst(order)(record, sorted[n])
  {
    NewestPreorder(order);
    WithoutSplits(sorted, record.id, n);
    FilterSorted(NewestFirst(order), (item: Transition) => item.id != record.id, sorted);
    InsertBeforeIff(order, record, Without(record.id, sorted[..n]), sorted[n..]);
  }

  /** Recording an id a second time can lose a record that the full history
      would still show, and does so exactly when `ReappendIsSafe` fails. */
  lemma ReappendSafeIff(order: DateOrder, whole: seq<Transition>, record: Transition)
    requires TotalPreorder(order)
    requires Distinct(Ids(whole))
    ensures Append(order, TakeFirst(Sort(NewestFirst(order), whole), HISTORY_LIMIT), record)
         == TakeFirst(Sort(NewestFirst(order), [record] + Without(record.id, whole)), HISTORY_LIMIT)
        <==> ReappendIsSafe(order, whole, record)
  {
    NewestPreorder(order);
    var sorted := Sort(NewestFirst(order), whole);
    var stored := TakeFirst(sorted, HISTORY_LIMIT);
    AppendInserts(order, whole, record);
    AppendInserts(order, stored, record);
    TakeSorted(order, whole, HISTORY_LIMIT);
    if record.id !in Ids(stored) {
      ReappendForgotten(order, sorted, record, HISTORY_LIMIT);
    } else if |whole| > HISTORY_LIMIT {
      SortSorted(NewestFirst(order), whole);
      SortedIdsDistinct(order, whole);
      ReappendStored(order, sorted, record, HISTORY_LIMIT);
    }
  }

  /** What can be seen from the stored list alone is enough: fewer than eight
      records, a new id, or a record as recent as the last one stored. */
  lemma {:induction false} ReappendSafeIfVisible(order: DateOrder, whole: seq<Transition>, record: Transition)
    requires TotalPreorder(order)
    requires Distinct(Ids(whole))
    ensures var stored := TakeFirst(Sort(NewestFirst(order), whole), HISTORY_LIMIT);
            |stored| < HISTORY_LIMIT || record.id !in Ids(stored) || NewestFirst(order)(record, stored[HISTORY_LIMIT - 1]) ==>
            Append(order, stored, record) == TakeFirst(Sort(NewestFirst(order), [record] + Without(record.id, whole)), HISTORY_LIMIT)
  {
    NewestPreorder(order);
    var sorted := Sort(NewestFirst(order), whole);
    var stored := TakeFirst(sorted, HISTORY_LIMIT);
    SortSorted(NewestFirst(order), whole);
    ReappendSafeIff(order, whole, record);
    if |whole| > HISTORY_LIMIT {
      assert stored[HISTORY_LIMIT - 1] == sorted[HISTORY_LIMIT - 1];
      assert NewestFirst(order)(sorted[HISTORY_LIMIT - 1], sorted[HISTORY_LIMIT]);
    }
  }

  lemma {:induction false} NineRecords(order: DateOrder, newer: string, older: string) returns (whole: seq<Transition>, record: Transition)
    requires TotalPreorder(order) && !order(newer, older)
    ensures Distinct(Ids(whole)) && !ReappendIsSafe(order, whole, record)
  {
    NewestPreorder(order);
    whole := seq(9, (i: nat) => Transition(seq(i, _ => 'x'), newer, ""));
    record := Transition("", older, "");
    SortOfSorted(NewestFirst(order), whole);
    forall i, j | 0 <= i < j < 9 ensures Ids(whole)[i] != Ids(whole)[j] {
      assert |Ids(whole)[i]| == i && |Ids(whole)[j]| == j;
    }
    assert Ids(TakeFirst(whole, HISTORY_LIMIT))[0] == "";
  }

  /** Nine records of one date, then the first of them recorded again with an
      older date: the ninth, cut off before, is not brought back. */
  lemma {:induction false} ReappendCanLose(order: DateOrder, newer: string, older: string)
    requires TotalPreorder(order) && !order(newer, older)
    ensures exists whole, record :: Distinct(Ids(whole)) &&
              Append(order, TakeFirst(Sort(NewestFirst(order), whole), HISTORY_LIMIT), record)
              != TakeFirst(Sort(NewestFirst(order), [record] + Without(record.id, whole)), HISTORY_LIMIT)
  {
    var whole, record := NineRecords(order, newer, older);
    ReappendSafeIff(order, whole, record);
  }
}
