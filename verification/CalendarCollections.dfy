/** Events, reminders and guest sessions of the calendar dashboard. The ids are
    compared by `localeCompare`, here any total order `idLeq`. */
module CalendarCollections {
  import opened Sequences
  import opened Sorting
  import opened KeyedLists

  datatype Reminder = Reminder(id: string, remindAt: int, deletedAt: Option<string>, note: string)

  datatype Event = Event(id: string, startsAt: int, title: string, reminders: Option<seq<Reminder>>)

  datatype Session = Session(id: string, eventId: string, status: string, updatedAt: int)

  datatype MatterResponse = MatterResponse(matterId: string, guestSessions: Option<seq<Session>>)

  type IdOrder = (string, string) -> bool

  function EventId(e: Event): string {
    e.id
  }

  function ReminderId(r: Reminder): string {
    r.id
  }

  // ----- Events -----

  /** Earlier start first, then by id. */
  function EventLeq(idLeq: IdOrder): (Event, Event) -> bool {
    (a: Event, b: Event) => a.startsAt < b.startsAt || (a.startsAt == b.startsAt && idLeq(a.id, b.id))
  }

  function SortEvents(idLeq: IdOrder, events: seq<Event>): seq<Event> {
    Sort(EventLeq(idLeq), events)
  }

  function UpsertStandaloneEvent(idLeq: IdOrder, events: seq<Event>, event: Event): seq<Event> {
    SortEvents(idLeq, Upsert(EventId, events, event))
  }

  function Slice(byMatter: map<string, seq<Event>>, matterId: string): seq<Event> {
    if matterId in byMatter then byMatter[matterId] else []
  }

  function UpsertEvent(idLeq: IdOrder, byMatter: map<string, seq<Event>>, matterId: string, event: Event): map<string, seq<Event>> {
    byMatter[matterId := SortEvents(idLeq, Upsert(EventId, Slice(byMatter, matterId), event))]
  }

  function UpsertAll(idLeq: IdOrder, events: seq<Event>, run: seq<Event>): seq<Event>
    decreases |run|
  {
    if run == [] then events else UpsertAll(idLeq, UpsertStandaloneEvent(idLeq, events, run[0]), run[1..])
  }

  function UpsertAllFor(idLeq: IdOrder, byMatter: map<string, seq<Event>>, matterId: string, run: seq<Event>): map<string, seq<Event>>
    decreases |run|
  {
    if run == [] then byMatter else UpsertAllFor(idLeq, UpsertEvent(idLeq, byMatter, matterId, run[0]), matterId, run[1..])
  }

  /** The finite map that a run of upserts denotes. */
  function Denoted(m: map<string, Event>, run: seq<Event>): map<string, Event>
    decreases |run|
  {
    if run == [] then m else Denoted(m[run[0].id := run[0]], run[1..])
  }

  lemma {:induction false} EventOrder(idLeq: IdOrder)
    requires TotalOrder(idLeq)
    ensures OrdersByKey(EventId, EventLeq(idLeq))
  {
    var leq := EventLeq(idLeq);
    forall a, b ensures leq(a, b) || leq(b, a) { assert idLeq(a.id, b.id) || idLeq(b.id, a.id); }
    forall a, b | leq(a, b) && leq(b, a) ensures EventId(a) == EventId(b) { assert idLeq(a.id, b.id) && idLeq(b.id, a.id); }
  }

  lemma {:induction false} UpsertOnceLists(idLeq: IdOrder, events: seq<Event>, event: Event)
    requires TotalOrder(idLeq) && DistinctKeys(EventId, events)
    ensures IsListing(EventId, EventLeq(idLeq), UpsertStandaloneEvent(idLeq, events, event),
                      AsMap(EventId, events)[event.id := event])
  {
    EventOrder(idLeq);
    UpsertUpdates(EventId, events, event);
    SortLists(EventId, EventLeq(idLeq), Upsert(EventId, events, event));
  }

  lemma {:induction false} UpsertRunListed(idLeq: IdOrder, events: seq<Event>, run: seq<Event>)
    requires TotalOrder(idLeq) && DistinctKeys(EventId, events) && run != []
    ensures IsListing(EventId, EventLeq(idLeq), UpsertAll(idLeq, events, run), Denoted(AsMap(EventId, events), run))
    decreases |run|
  {
    UpsertOnceLists(idLeq, events, run[0]);
    if |run| > 1 {
      UpsertRunListed(idLeq, UpsertStandaloneEvent(idLeq, events, run[0]), run[1..]);
    }
  }

  /** After any run of upserts the earlier start stands first, and the smaller id
      where starts are equal. */
  lemma {:induction false} EventsAscend(idLeq: IdOrder, events: seq<Event>, run: seq<Event>, i: nat, j: nat)
    requires TotalOrder(idLeq) && DistinctKeys(EventId, events) && run != [] && i < j < |UpsertAll(idLeq, events, run)|
    ensures var a, b := UpsertAll(idLeq, events, run)[i], UpsertAll(idLeq, events, run)[j];
            a.startsAt <= b.startsAt && (a.startsAt == b.startsAt ==> idLeq(a.id, b.id)) && a.id != b.id
  {
    UpsertRunListed(idLeq, events, run);
    var all := UpsertAll(idLeq, events, run);
    assert EventId(all[i]) != EventId(all[j]);
  }

  /** A non-empty run of upserts leaves the one listing of the map it denotes. */
  lemma UpsertRunIsTheListing(idLeq: IdOrder, events: seq<Event>, run: seq<Event>, listing: seq<Event>)
    requires TotalOrder(idLeq) && DistinctKeys(EventId, events) && run != []
    ensures IsListing(EventId, EventLeq(idLeq), listing, Denoted(AsMap(EventId, events), run))
        <==> listing == UpsertAll(idLeq, events, run)
  {
    var m := Denoted(AsMap(EventId, events), run);
    UpsertRunListed(idLeq, events, run);
    if IsListing(EventId, EventLeq(idLeq), listing, m) {
      EventOrder(idLeq);
      ListingUnique(EventId, EventLeq(idLeq), listing, UpsertAll(idLeq, events, run), m);
    }
  }

  /** Runs that denote the same map end in the same list. */
  lemma SameMapSameList(idLeq: IdOrder, events: seq<Event>, run: seq<Event>, other: seq<Event>)
    requires TotalOrder(idLeq) && DistinctKeys(EventId, events) && run != [] && other != []
    ensures UpsertAll(idLeq, events, run) == UpsertAll(idLeq, events, other)
        <==> Denoted(AsMap(EventId, events), run) == Denoted(AsMap(EventId, events), other)
  {
    UpsertRunListed(idLeq, events, run);
    UpsertRunListed(idLeq, events, other);
    UpsertRunIsTheListing(idLeq, events, other, UpsertAll(idLeq, events, run));
  }

  lemma UpsertsCommute(idLeq: IdOrder, events: seq<Event>, a: Event, b: Event)
    requires TotalOrder(idLeq) && DistinctKeys(EventId, events) && a.id != b.id
    ensures UpsertAll(idLeq, events, [a, b]) == UpsertAll(idLeq, events, [b, a])
  {
    var m := AsMap(EventId, events);
    assert [a, b][1..] == [b] && [b, a][1..] == [a];
    assert m[a.id := a][b.id := b] == m[b.id := b][a.id := a];
    assert Denoted(m, [a, b]) == Denoted(m[a.id := a], [b]) == m[a.id := a][b.id := b];
    assert Denoted(m, [b, a]) == Denoted(m[b.id := b], [a]) == m[b.id := b][a.id := a];
    SameMapSameList(idLeq, events, [a, b], [b, a]);
  }

  /** A later upsert of the same id erases an earlier one; repeating one changes nothing. */
  lemma LaterUpsertWins(idLeq: IdOrder, events: seq<Event>, a: Event, b: Event)
    requires TotalOrder(idLeq) && DistinctKeys(EventId, events) && a.id == b.id
    ensures UpsertAll(idLeq, events, [a, b]) == UpsertAll(idLeq, events, [b])
  {
    var m := AsMap(EventId, events);
    assert [a, b][1..] == [b];
    assert m[a.id := a][b.id := b] == m[b.id := b];
    assert Denoted(m, [a, b]) == Denoted(m[a.id := a], [b]) == m[a.id := a][b.id := b];
    SameMapSameList(idLeq, events, [a, b], [b]);
  }

  /** The matter-keyed run works on that matter's slice and leaves the others alone. */
  lemma {:induction false} MatterRunIsSliceRun(idLeq: IdOrder, byMatter: map<string, seq<Event>>, matterId: string, run: seq<Event>)
    ensures var after := UpsertAllFor(idLeq, byMatter, matterId, run);
            && Slice(after, matterId) == UpsertAll(idLeq, Slice(byMatter, matterId), run)
            && forall other :: other != matterId ==> (other in after <==> other in byMatter) && Slice(after, other) == Slice(byMatter, other)
    decreases |run|
  {
    if run != [] {
      MatterRunIsSliceRun(idLeq, UpsertEvent(idLeq, byMatter, matterId, run[0]), matterId, run[1..]);
    }
  }

  // ----- Reminders -----

  predicate Live(r: Reminder) {
    r.deletedAt.None? || r.deletedAt.value == ""
  }

  function ReminderLeq(idLeq: IdOrder): (Reminder, Reminder) -> bool {
    (a: Reminder, b: Reminder) => a.remindAt < b.remindAt || (a.remindAt == b.remindAt && idLeq(a.id, b.id))
  }

  function UpsertReminder(idLeq: IdOrder, reminders: seq<Reminder>, r: Reminder): seq<Reminder> {
    Sort(ReminderLeq(idLeq), Filter(Live, Upsert(ReminderId, reminders, r)))
  }

  function RemoveReminder(reminders: seq<Reminder>, id: string): seq<Reminder> {
    Filter((r: Reminder) => r.id != id, reminders)
  }

  datatype ReminderStep = Put(reminder: Reminder) | Remove(id: string)

  function StepReminders(idLeq: IdOrder, reminders: seq<Reminder>, step: ReminderStep): seq<Reminder> {
    match step
    case Put(r) => UpsertReminder(idLeq, reminders, r)
    case Remove(id) => RemoveReminder(reminders, id)
  }

  function RunReminders(idLeq: IdOrder, reminders: seq<Reminder>, steps: seq<ReminderStep>): seq<Reminder>
    decreases |steps|
  {
    if steps == [] then reminders else RunReminders(idLeq, StepReminders(idLeq, reminders, steps[0]), steps[1..])
  }

  /** The live reminders by id: a tombstone takes its id out. */
  function StepLive(m: map<string, Reminder>, step: ReminderStep): map<string, Reminder> {
    match step
    case Put(r) => if Live(r) then m[r.id := r] else m - {r.id}
    case Remove(id) => m - {id}
  }

  function RunLive(m: map<string, Reminder>, steps: seq<ReminderStep>): map<string, Reminder>
    decreases |steps|
  {
    if steps == [] then m else RunLive(StepLive(m, steps[0]), steps[1..])
  }

  ghost predicate AllLive(reminders: seq<Reminder>) {
    forall r :: r in reminders ==> Live(r)
  }

  lemma {:induction false} ReminderOrder(idLeq: IdOrder)
    requires TotalOrder(idLeq)
    ensures OrdersByKey(ReminderId, ReminderLeq(idLeq))
  {
    var leq := ReminderLeq(idLeq);
    forall a, b, c | leq(a, b) && leq(b, c) ensures leq(a, c) { assert idLeq(a.id, b.id) && idLeq(b.id, c.id) ==> idLeq(a.id, c.id); }
    forall a, b ensures leq(a, b) || leq(b, a) { assert idLeq(a.id, b.id) || idLeq(b.id, a.id); }
  }

  /** Upserting a tombstone for `id` gives what removing `id` gives exactly
      when what remains was live and in order already. */
  lemma RemoveIsTombstone(idLeq: IdOrder, reminders: seq<Reminder>, tombstone: Reminder)
    requires TotalOrder(idLeq) && !Live(tombstone)
    ensures UpsertReminder(idLeq, reminders, tombstone) == RemoveReminder(reminders, tombstone.id)
        <==> AllLive(RemoveReminder(reminders, tombstone.id)) && Sorted(ReminderLeq(idLeq), RemoveReminder(reminders, tombstone.id))
  {
    ReminderOrder(idLeq);
    var rest := RemoveReminder(reminders, tombstone.id);
    TombstoneFilter(reminders, tombstone);
    var kept := Filter(Live, rest);
    SortSorted(ReminderLeq(idLeq), kept);
    if AllLive(rest) {
      FilterAll(Live, rest);
      SortOfSorted(ReminderLeq(idLeq), rest);
    }
  }

  lemma TombstoneFilter(reminders: seq<Reminder>, tombstone: Reminder)
    requires !Live(tombstone)
    ensures Filter(Live, Upsert(ReminderId, reminders, tombstone)) == Filter(Live, RemoveReminder(reminders, tombstone.id))
  {
    if HoldsKey(ReminderId, reminders, tombstone.id) {
      TombstoneReplace(reminders, tombstone);
    } else {
      FilterConcat(Live, reminders, [tombstone]);
      forall r | r in reminders ensures r.id != tombstone.id {
        var i :| 0 <= i < |reminders| && reminders[i] == r;
        assert ReminderId(reminders[i]) == r.id;
      }
      FilterAll((r: Reminder) => r.id != tombstone.id, reminders);
    }
  }

  lemma {:induction false} TombstoneReplace(reminders: seq<Reminder>, tombstone: Reminder)
    requires !Live(tombstone)
    ensures Filter(Live, Replace(ReminderId, reminders, tombstone)) == Filter(Live, RemoveReminder(reminders, tombstone.id))
  {
    if reminders != [] {
      TombstoneReplace(reminders[1..], tombstone);
      assert ReminderId(reminders[0]) == reminders[0].id && ReminderId(tombstone) == tombstone.id;
      assert Replace(ReminderId, reminders, tombstone)[1..] == Replace(ReminderId, reminders[1..], tombstone);
    }
  }

  lemma {:induction false} PutListed(idLeq: IdOrder, reminders: seq<Reminder>, r: Reminder, m: map<string, Reminder>)
    requires TotalOrder(idLeq)
    requires IsListing(ReminderId, ReminderLeq(idLeq), reminders, m) && AllLive(reminders)
    ensures IsListing(ReminderId, ReminderLeq(idLeq), UpsertReminder(idLeq, reminders, r), StepLive(m, Put(r)))
    ensures AllLive(UpsertReminder(idLeq, reminders, r))
  {
    ReminderOrder(idLeq);
    UpsertThenFilter(ReminderId, Live, reminders, r);
    SortLists(ReminderId, ReminderLeq(idLeq), Filter(Live, Upsert(ReminderId, reminders, r)));
  }

  lemma {:induction false} RemoveListed(idLeq: IdOrder, reminders: seq<Reminder>, id: string, m: map<string, Reminder>)
    requires TotalOrder(idLeq)
    requires IsListing(ReminderId, ReminderLeq(idLeq), reminders, m)
    ensures IsListing(ReminderId, ReminderLeq(idLeq), RemoveReminder(reminders, id), m - {id})
  {
    var p := OtherKey(ReminderId, id);
    FilterRemoves(ReminderId, reminders, id);
    FilterSorted(ReminderLeq(idLeq), p, reminders);
    FilterAgree((r: Reminder) => r.id != id, p, reminders);
  }

  lemma {:induction false} StepListed(idLeq: IdOrder, reminders: seq<Reminder>, step: ReminderStep, m: map<string, Reminder>)
    requires TotalOrder(idLeq)
    requires IsListing(ReminderId, ReminderLeq(idLeq), reminders, m) && AllLive(reminders)
    ensures IsListing(ReminderId, ReminderLeq(idLeq), StepReminders(idLeq, reminders, step), StepLive(m, step))
    ensures AllLive(StepReminders(idLeq, reminders, step))
  {
    match step
    case Put(r) => PutListed(idLeq, reminders, r, m);
    case Remove(id) => RemoveListed(idLeq, reminders, id, m);
  }

  /** Any run of upserts and removals keeps the list the sorted enumeration of
      the live reminders. */
  lemma {:induction false} ReminderRunListed(idLeq: IdOrder, reminders: seq<Reminder>, steps: seq<ReminderStep>, m: map<string, Reminder>)
    requires TotalOrder(idLeq)
    requires IsListing(ReminderId, ReminderLeq(idLeq), reminders, m) && AllLive(reminders)
    ensures IsListing(ReminderId, ReminderLeq(idLeq), RunReminders(idLeq, reminders, steps), RunLive(m, steps))
    ensures AllLive(RunReminders(idLeq, reminders, steps))
    decreases |steps|
  {
    if steps != [] {
      StepListed(idLeq, reminders, steps[0], m);
      ReminderRunListed(idLeq, StepReminders(idLeq, reminders, steps[0]), steps[1..], StepLive(m, steps[0]));
    }
  }

  /** After any such run the earlier reminder stands first, and the smaller id
      where times are equal; only live ones are listed. */
  lemma {:induction false} RemindersAscend(
    idLeq: IdOrder, reminders: seq<Reminder>, steps: seq<ReminderStep>, m: map<string, Reminder>, i: nat, j: nat)
    requires TotalOrder(idLeq)
    requires IsListing(ReminderId, ReminderLeq(idLeq), reminders, m) && AllLive(reminders)
    requires i < j < |RunReminders(idLeq, reminders, steps)|
    ensures var a, b := RunReminders(idLeq, reminders, steps)[i], RunReminders(idLeq, reminders, steps)[j];
            && a.remindAt <= b.remindAt && (a.remindAt == b.remindAt ==> idLeq(a.id, b.id)) && a.id != b.id
            && NotDeleted(a) && NotDeleted(b)
  {
    var all := RunReminders(idLeq, reminders, steps);
    ReminderRunListed(idLeq, reminders, steps, m);
    LivePair(all, i, j);
    ListedPair(idLeq, all, RunLive(m, steps), i, j);
  }

  /** A reminder that is put is listed if and only if it is not deleted. */
  lemma {:induction false} PutIsListedIff(idLeq: IdOrder, reminders: seq<Reminder>, r: Reminder)
    ensures r in UpsertReminder(idLeq, reminders, r) <==> r.deletedAt == None || r.deletedAt == Some("")
  {
    assert r in Upsert(ReminderId, reminders, r) by {
      if HoldsKey(ReminderId, reminders, r.id) {
        var i :| 0 <= i < |reminders| && ReminderId(reminders[i]) == r.id;
        assert Replace(ReminderId, reminders, r)[i] == r;
      }
    }
  }

  lemma {:induction false} LivePair(all: seq<Reminder>, i: nat, j: nat)
    requires AllLive(all) && i < j < |all|
    ensures NotDeleted(all[i]) && NotDeleted(all[j])
  {
    assert Live(all[i]) && Live(all[j]);
  }

  ghost predicate NotDeleted(r: Reminder) {
    r.deletedAt == None || r.deletedAt == Some("")
  }

  lemma {:induction false} ListedPair(idLeq: IdOrder, all: seq<Reminder>, m: map<string, Reminder>, i: nat, j: nat)
    requires IsListing(ReminderId, ReminderLeq(idLeq), all, m) && i < j < |all|
    ensures all[i].remindAt <= all[j].remindAt && (all[i].remindAt == all[j].remindAt ==> idLeq(all[i].id, all[j].id)) && all[i].id != all[j].id
  {
    assert ReminderId(all[i]) != ReminderId(all[j]);
    assert ReminderLeq(idLeq)(all[i], all[j]);
  }

  function Reminders(event: Event): seq<Reminder> {
    if event.reminders.Some? then event.reminders.value else []
  }

  /** One reminder step on the event with the given id, in a list of events. */
  function StepStandalone(idLeq: IdOrder, events: seq<Event>, eventId: string, step: ReminderStep): seq<Event> {
    Map((e: Event) => if e.id == eventId then e.(reminders := Some(StepReminders(idLeq, Reminders(e), step))) else e, events)
  }

  /** `upsertCalendarEventReminder`. */
  function UpsertMatterReminder(
    idLeq: IdOrder, byMatter: map<string, seq<Event>>, matterId: string, eventId: string, reminder: Reminder): map<string, seq<Event>>
  {
    byMatter[matterId := Map((event: Event) =>
      if event.id != eventId then event
      else
        var reminders := Reminders(event);
        var next :=
          if HoldsKey(ReminderId, reminders, reminder.id) then Map((r: Reminder) => if r.id == reminder.id then reminder else r, reminders)
          else reminders + [reminder];
        event.(reminders := Some(Sort(ReminderLeq(idLeq), Filter(Live, next)))), Slice(byMatter, matterId))]
  }

  /** `removeCalendarEventReminder`. */
  function RemoveMatterReminder(
    byMatter: map<string, seq<Event>>, matterId: string, eventId: string, reminderId: string): map<string, seq<Event>>
  {
    byMatter[matterId := Map((event: Event) =>
      if event.id == eventId
      then event.(reminders := Some(Filter((r: Reminder) => r.id != reminderId, Reminders(event))))
      else event, Slice(byMatter, matterId))]
  }

  function StepMatter(idLeq: IdOrder, byMatter: map<string, seq<Event>>, matterId: string, eventId: string, step: ReminderStep): map<string, seq<Event>> {
    match step
    case Put(reminder) => UpsertMatterReminder(idLeq, byMatter, matterId, eventId, reminder)
    case Remove(id) => RemoveMatterReminder(byMatter, matterId, eventId, id)
  }

  /** One matter-keyed step is the standalone step on the matter's slice. */
  lemma {:induction false} MatterStepIsStandalone(
    idLeq: IdOrder, byMatter: map<string, seq<Event>>, matterId: string, eventId: string, step: ReminderStep)
    ensures StepMatter(idLeq, byMatter, matterId, eventId, step)
         == byMatter[matterId := StepStandalone(idLeq, Slice(byMatter, matterId), eventId, step)]
  {
    var events := Slice(byMatter, matterId);
    var after, standalone := Slice(StepMatter(idLeq, byMatter, matterId, eventId, step), matterId), StepStandalone(idLeq, events, eventId, step);
    forall i | 0 <= i < |events| ensures after[i] == standalone[i] {
      match step
      case Put(reminder) => PutAlike(Reminders(events[i]), reminder);
      case Remove(id) =>
        FilterAgree((r: Reminder) => r.id != id, OtherKey(ReminderId, id), Reminders(events[i]));
    }
    assert after == standalone;
  }

  lemma {:induction false} PutAlike(reminders: seq<Reminder>, reminder: Reminder)
    ensures Map((r: Reminder) => if r.id == reminder.id then reminder else r, reminders) == Replace(ReminderId, reminders, reminder)
  {
    assert forall r :: ReminderId(r) == r.id;
  }

  function RunStandalone(idLeq: IdOrder, events: seq<Event>, eventId: string, steps: seq<ReminderStep>): seq<Event>
    decreases |steps|
  {
    if steps == [] then events else RunStandalone(idLeq, StepStandalone(idLeq, events, eventId, steps[0]), eventId, steps[1..])
  }

  function RunMatter(idLeq: IdOrder, byMatter: map<string, seq<Event>>, matterId: string, eventId: string, steps: seq<ReminderStep>): map<string, seq<Event>>
    decreases |steps|
  {
    if steps == [] then byMatter
    else RunMatter(idLeq, StepMatter(idLeq, byMatter, matterId, eventId, steps[0]), matterId, eventId, steps[1..])
  }

  /** The standalone and the matter-keyed functions agree on the matter's slice,
      and both act on the addressed event's reminders only. */
  lemma {:induction false} MatterRemindersAreStandalone(
    idLeq: IdOrder, byMatter: map<string, seq<Event>>, matterId: string, eventId: string, steps: seq<ReminderStep>)
    ensures var after := RunMatter(idLeq, byMatter, matterId, eventId, steps);
            && Slice(after, matterId) == RunStandalone(idLeq, Slice(byMatter, matterId), eventId, steps)
            && forall other :: other != matterId ==> Slice(after, other) == Slice(byMatter, other)
    decreases |steps|
  {
    if steps != [] {
      MatterStepIsStandalone(idLeq, byMatter, matterId, eventId, steps[0]);
      MatterRemindersAreStandalone(idLeq, StepMatter(idLeq, byMatter, matterId, eventId, steps[0]), matterId, eventId, steps[1..]);
    }
  }

  lemma {:induction false} RunActsOnOneEvent(idLeq: IdOrder, events: seq<Event>, eventId: string, steps: seq<ReminderStep>)
    ensures var after := RunStandalone(idLeq, events, eventId, steps);
            && |after| == |events|
            && forall i :: 0 <= i < |events| ==>
                 && after[i] == events[i].(reminders := after[i].reminders)
                 && (events[i].id != eventId ==> after[i] == events[i])
                 && (events[i].id == eventId ==> Reminders(after[i]) == RunReminders(idLeq, Reminders(events[i]), steps))
    decreases |steps|
  {
    if steps != [] {
      var next := StepStandalone(idLeq, events, eventId, steps[0]);
      RunActsOnOneEvent(idLeq, next, eventId, steps[1..]);
      forall i | 0 <= i < |events| && events[i].id == eventId
        ensures Reminders(next[i]) == StepReminders(idLeq, Reminders(events[i]), steps[0])
      {
      }
    }
  }

  // ----- Guest sessions -----

  predicate Ended(s: Session) {
    s.status == "ended"
  }

  /** Sessions still running first, then the latest update, then by id. */
  function SessionLeq(idLeq: IdOrder): (Session, Session) -> bool {
    (a: Session, b: Session) =>
      || (!Ended(a) && Ended(b))
      || (Ended(a) == Ended(b) && a.updatedAt > b.updatedAt)
      || (Ended(a) == Ended(b) && a.updatedAt == b.updatedAt && idLeq(a.id, b.id))
  }

  function SessionsOf(response: MatterResponse): seq<Session> {
    if response.guestSessions.Some? then response.guestSessions.value else []
  }

  function AllSessions(responses: seq<MatterResponse>): seq<Session> {
    FlatMap(SessionsOf, responses)
  }

  function ForEvent(eventId: string): Session -> bool {
    (s: Session) => s.eventId == eventId
  }

  function GroupOf(byEvent: map<string, seq<Session>>, eventId: string): seq<Session> {
    if eventId in byEvent then byEvent[eventId] else []
  }

  /** Exactly the events with sessions are keys, each with its sessions sorted once. */
  ghost predicate GroupedBySort(leq: (Session, Session) -> bool, sessions: seq<Session>, byEvent: map<string, seq<Session>>) {
    forall id :: GroupIsSorted(leq, Filter(ForEvent(id), sessions), byEvent, id)
  }

  ghost predicate GroupIsSorted(leq: (Session, Session) -> bool, mine: seq<Session>, byEvent: map<string, seq<Session>>, id: string) {
    && (id in byEvent <==> mine != [])
    && GroupOf(byEvent, id) == Sort(leq, mine)
  }

  /** The sessions of all responses, in order; a response may have none. */
  lemma {:induction false} AllSessionsAre(responses: seq<MatterResponse>)
    ensures AllSessions(responses)
         == FlatMap((r: MatterResponse) => match r.guestSessions case None => [] case Some(sessions) => sessions, responses)
  {
    if responses != [] { AllSessionsAre(responses[1..]); }
  }

  lemma SessionOrder(idLeq: IdOrder)
    requires TotalOrder(idLeq)
    ensures TotalPreorder(SessionLeq(idLeq))
  {
    var leq := SessionLeq(idLeq);
    forall a, b ensures leq(a, b) || leq(b, a) {
      assert idLeq(a.id, b.id) || idLeq(b.id, a.id);
    }
    forall a, b, c | leq(a, b) && leq(b, c) ensures leq(a, c) {
      assert idLeq(a.id, b.id) && idLeq(b.id, c.id) ==> idLeq(a.id, c.id);
    }
  }

  lemma GroupOneMore(leq: (Session, Session) -> bool, sessions: seq<Session>, s: Session, byEvent: map<string, seq<Session>>)
    requires TotalPreorder(leq) && GroupedBySort(leq, sessions, byEvent)
    ensures GroupedBySort(leq, sessions + [s], byEvent[s.eventId := Sort(leq, GroupOf(byEvent, s.eventId) + [s])])
  {
    var next := byEvent[s.eventId := Sort(leq, GroupOf(byEvent, s.eventId) + [s])];
    forall id ensures GroupIsSorted(leq, Filter(ForEvent(id), sessions + [s]), next, id) {
      var mine := Filter(ForEvent(id), sessions);
      assert GroupIsSorted(leq, mine, byEvent, id);
      FilterConcat(ForEvent(id), sessions, [s]);
      if id == s.eventId {
        assert Filter(ForEvent(id), sessions + [s]) == mine + [s];
        SortAbsorbsSort(leq, mine, [s]);
      } else {
        assert Filter(ForEvent(id), sessions + [s]) == mine;
      }
    }
  }

  ghost predicate Later(idLeq: IdOrder, a: Session, b: Session) {
    a.updatedAt >= b.updatedAt && (a.updatedAt == b.updatedAt ==> idLeq(a.id, b.id))
  }

  /** Exactly the events with sessions have a group, which holds their sessions. */
  lemma {:induction false} SessionsGrouped(idLeq: IdOrder, sessions: seq<Session>, byEvent: map<string, seq<Session>>, id: string)
    requires GroupedBySort(SessionLeq(idLeq), sessions, byEvent)
    ensures id in byEvent <==> exists s :: s in sessions && s.eventId == id
    ensures id in byEvent ==> multiset(byEvent[id]) == multiset(Filter((s: Session) => s.eventId == id, sessions))
  {
    var leq, mine := SessionLeq(idLeq), Filter(ForEvent(id), sessions);
    assert GroupIsSorted(leq, mine, byEvent, id);
    SortPermutes(leq, mine);
    FilterAgree(ForEvent(id), (s: Session) => s.eventId == id, sessions);
    if s :| s in sessions && s.eventId == id { assert s in mine; }
    if mine != [] { assert mine[0] in sessions && mine[0].eventId == id; }
  }

  /** In a group, no ended session stands before one that has not ended; among the
      others the later update is first, and then the smaller id. */
  lemma {:induction false} SessionsInOrder(idLeq: IdOrder, sessions: seq<Session>, byEvent: map<string, seq<Session>>, id: string, i: nat, j: nat)
    requires TotalOrder(idLeq) && GroupedBySort(SessionLeq(idLeq), sessions, byEvent)
    requires id in byEvent && i < j < |byEvent[id]|
    ensures var a, b := byEvent[id][i], byEvent[id][j];
            if a.status == "ended" then b.status == "ended" && Later(idLeq, a, b)
            else b.status == "ended" || Later(idLeq, a, b)
  {
    var leq, mine := SessionLeq(idLeq), Filter(ForEvent(id), sessions);
    assert GroupIsSorted(leq, mine, byEvent, id);
    SessionOrder(idLeq);
    SortSorted(leq, mine);
    var a, b := byEvent[id][i], byEvent[id][j];
    assert byEvent[id] == Sort(leq, mine) && SessionLeq(idLeq)(a, b);
    assert idLeq(a.id, b.id) || Ended(a) != Ended(b) || a.updatedAt > b.updatedAt;
  }

  /** The grouping loop of the dashboard loader: append each session to its
      event's list and sort that list again, response by response. */
  method GroupGuestSessions(idLeq: IdOrder, responses: seq<MatterResponse>) returns (byEvent: map<string, seq<Session>>)
    requires TotalOrder(idLeq)
    ensures GroupedBySort(SessionLeq(idLeq), AllSessions(responses), byEvent)
  {
    SessionOrder(idLeq);
    var leq := SessionLeq(idLeq);
    byEvent := map[];
    for i := 0 to |responses|
      invariant GroupedBySort(leq, AllSessions(responses[..i]), byEvent)
    {
      byEvent := GroupSessions(leq, SessionsOf(responses[i]), AllSessions(responses[..i]), byEvent);
      FlatMapSnoc(SessionsOf, responses, i);
    }
    assert responses[..|responses|] == responses;
  }

  /** The inner loop, over the sessions of one response. */
  method GroupSessions(leq: (Session, Session) -> bool, sessions: seq<Session>, ghost before: seq<Session>, grouped: map<string, seq<Session>>)
    returns (byEvent: map<string, seq<Session>>)
    requires TotalPreorder(leq) && GroupedBySort(leq, before, grouped)
    ensures GroupedBySort(leq, before + sessions, byEvent)
  {
    byEvent := grouped;
    assert before + sessions[..0] == before;
    for j := 0 to |sessions|
      invariant GroupedBySort(leq, before + sessions[..j], byEvent)
    {
      var s := sessions[j];
      GroupOneMore(leq, before + sessions[..j], s, byEvent);
      assert before + sessions[..j + 1] == (before + sessions[..j]) + [s];
      byEvent := byEvent[s.eventId := Sort(leq, GroupOf(byEvent, s.eventId) + [s])];
    }
    assert sessions[..|sessions|] == sessions;
  }
}
