/** Locked billing periods: the timer check on a window, the expense check on an
    instant, and the timer draft that must pass the first. */
module BillingLocks {
  import opened Sequences
  import opened Text
  import opened Sorting

  /** A stored lock; a date is None when `Date.parse` cannot read it. */
  datatype Lock = Lock(firmId: string, lockedByUserId: string, periodStart: Option<int>, periodEnd: Option<int>)

  /** `<` on parsed dates, false when one of them is not a date. */
  predicate Before(a: Option<int>, b: Option<int>) {
    a.Some? && b.Some? && a.value < b.value
  }

  /** `startedAt < periodEnd && periodStart < stoppedAt`. */
  predicate WindowMeets(lock: Lock, startedAt: int, stoppedAt: int) {
    Before(Some(startedAt), lock.periodEnd) && Before(lock.periodStart, Some(stoppedAt))
  }

  predicate Contains(lock: Lock, at: int) {
    lock.periodStart.Some? && lock.periodEnd.Some? && lock.periodStart.value <= at < lock.periodEnd.value
  }

  // ----- Creating locks -----

  datatype LockError = NoFirm | BadDates | EmptyPeriod | NoActor | OverlapsExisting

  /** `validateBillingPeriodLock`. */
  function ValidateLock(lock: Lock): Option<LockError> {
    if Trim(lock.firmId) == "" then Some(NoFirm)
    else if lock.periodStart.None? || lock.periodEnd.None? then Some(BadDates)
    else if lock.periodEnd.value <= lock.periodStart.value then Some(EmptyPeriod)
    else if Trim(lock.lockedByUserId) == "" then Some(NoActor)
    else None
  }

  /** A lock has a firm and an actor that are not blank, and starts before it ends. */
  ghost predicate ValidLock(lock: Lock) {
    && !Blank(lock.firmId) && !Blank(lock.lockedByUserId)
    && lock.periodStart.Some? && lock.periodEnd.Some? && lock.periodStart.value < lock.periodEnd.value
  }

  /** The validator refuses exactly the other ones, for their first fault. */
  lemma {:induction false} ValidIff(lock: Lock)
    ensures ValidateLock(lock).None? <==> ValidLock(lock)
    ensures match ValidateLock(lock)
            case None => true
            case Some(NoFirm) => Blank(lock.firmId)
            case Some(BadDates) => !Blank(lock.firmId) && (lock.periodStart.None? || lock.periodEnd.None?)
            case Some(EmptyPeriod) =>
              !Blank(lock.firmId) && lock.periodStart.Some? && lock.periodEnd.Some? && lock.periodStart.value >= lock.periodEnd.value
            case Some(NoActor) =>
              !Blank(lock.firmId) && Before(lock.periodStart, lock.periodEnd) && Blank(lock.lockedByUserId)
            case Some(OverlapsExisting) => false
  {
    TrimEmptyIff(lock.firmId);
    TrimEmptyIff(lock.lockedByUserId);
  }

  /** `billingPeriodLocksOverlap`. */
  predicate LocksOverlap(left: Lock, right: Lock) {
    left.firmId == right.firmId && Before(left.periodStart, right.periodEnd) && Before(right.periodStart, left.periodEnd)
  }

  function Refusal(locks: seq<Lock>, lock: Lock): Option<LockError> {
    if ValidateLock(lock).Some? then ValidateLock(lock)
    else if exists i :: 0 <= i < |locks| && LocksOverlap(locks[i], lock) then Some(OverlapsExisting)
    else None
  }

  function AddLock(locks: seq<Lock>, lock: Lock): seq<Lock> {
    if Refusal(locks, lock).Some? then locks else locks + [lock]
  }

  /** The in-memory repository, whose list of locks a creation reassigns. */
  class LockStore {
    var locks: seq<Lock>

    constructor ()
      ensures locks == []
    {
      locks := [];
    }

    method CreateLock(lock: Lock) returns (error: Option<LockError>)
      modifies this
      ensures error == Refusal(old(locks), lock) && locks == AddLock(old(locks), lock)
    {
      error := ValidateLock(lock);
      if error.Some? { return; }
      if exists i :: 0 <= i < |locks| && LocksOverlap(locks[i], lock) {
        return Some(OverlapsExisting);
      }
      locks := locks + [lock];
    }
  }

  function AddLocks(locks: seq<Lock>, requests: seq<Lock>): seq<Lock>
    decreases |requests|
  {
    if requests == [] then locks else AddLocks(AddLock(locks, requests[0]), requests[1..])
  }

  ghost predicate AllValid(locks: seq<Lock>) {
    forall lock :: lock in locks ==> ValidLock(lock)
  }

  ghost predicate ShareInstant(left: Lock, right: Lock) {
    exists at :: Contains(left, at) && Contains(right, at)
  }

  /** Every lock passes the validator, and no two of a firm share an instant. */
  ghost predicate SoundLocks(locks: seq<Lock>) {
    && AllValid(locks)
    && forall i, j :: 0 <= i < j < |locks| && locks[i].firmId == locks[j].firmId ==> !ShareInstant(locks[i], locks[j])
  }

  lemma OverlapIff(left: Lock, right: Lock)
    requires ValidLock(left) && ValidLock(right)
    ensures LocksOverlap(left, right) <==> left.firmId == right.firmId && ShareInstant(left, right)
  {
    var a, b := left.periodStart.value, right.periodStart.value;
    if LocksOverlap(left, right) {
      var at := if a < b then b else a;
      assert Contains(left, at) && Contains(right, at);
    }
  }

  /** A lock is created exactly when it is valid and shares no instant with a lock
      of its firm; a valid one is refused for such an overlap only. */
  lemma {:induction false} LockCreatedIff(locks: seq<Lock>, lock: Lock)
    requires SoundLocks(locks)
    ensures Refusal(locks, lock).None? <==>
            ValidLock(lock) && forall other :: other in locks && other.firmId == lock.firmId ==> !ShareInstant(other, lock)
    ensures Refusal(locks, lock) == Some(OverlapsExisting) <==>
            ValidLock(lock) && exists other :: other in locks && other.firmId == lock.firmId && ShareInstant(other, lock)
    ensures AddLock(locks, lock) == (if Refusal(locks, lock).None? then locks + [lock] else locks)
    ensures SoundLocks(AddLock(locks, lock))
  {
    ValidIff(lock);
    if ValidLock(lock) {
      forall i | 0 <= i < |locks| ensures LocksOverlap(locks[i], lock) <==> locks[i].firmId == lock.firmId && ShareInstant(locks[i], lock) {
        assert locks[i] in locks;
        OverlapIff(locks[i], lock);
      }
    }
  }

  /** Whatever locks are asked for, the stored ones stay valid and disjoint. */
  lemma {:induction false} LocksStaySound(locks: seq<Lock>, requests: seq<Lock>)
    requires SoundLocks(locks)
    ensures SoundLocks(AddLocks(locks, requests))
    decreases |requests|
  {
    if requests != [] {
      LockCreatedIff(locks, requests[0]);
      LocksStaySound(AddLock(locks, requests[0]), requests[1..]);
    }
  }

  /** Every request is decided in turn, by the locks of its time. */
  lemma {:induction false} AddLocksSnoc(locks: seq<Lock>, requests: seq<Lock>, lock: Lock)
    ensures AddLocks(locks, []) == locks
    ensures AddLocks(locks, requests + [lock]) == AddLock(AddLocks(locks, requests), lock)
    decreases |requests|
  {
    var all := requests + [lock];
    if requests == [] {
      assert all[0] == lock && all[1..] == [];
    } else {
      assert all[0] == requests[0] && all[1..] == requests[1..] + [lock];
      AddLocksSnoc(AddLock(locks, requests[0]), requests[1..], lock);
    }
  }

  /** The locks of a firm, in the order of their starts. */
  function ListLocks(leq: (Lock, Lock) -> bool, locks: seq<Lock>, firmId: string): seq<Lock> {
    Sort(leq, Filter((lock: Lock) => lock.firmId == firmId, locks))
  }

  /** Exactly the firm's locks are listed, each once, in order. */
  lemma {:induction false} ListedLocks(leq: (Lock, Lock) -> bool, locks: seq<Lock>, firmId: string)
    requires TotalPreorder(leq)
    ensures Sorted(leq, ListLocks(leq, locks, firmId))
    ensures forall lock :: multiset(ListLocks(leq, locks, firmId))[lock] == if lock.firmId == firmId then multiset(locks)[lock] else 0
  {
    var own := (lock: Lock) => lock.firmId == firmId;
    SortSorted(leq, Filter(own, locks));
    SortPermutes(leq, Filter(own, locks));
    forall lock ensures multiset(Filter(own, locks))[lock] == if lock.firmId == firmId then multiset(locks)[lock] else 0 {
      FilterMultiset(own, locks, lock);
    }
  }

  // ----- Looking for a lock -----

  function FindLock(p: Lock -> bool, locks: seq<Lock>): (r: Option<Lock>)
    ensures r.Some? ==> r.value in locks && p(r.value)
    ensures r.None? ==> forall lock :: lock in locks ==> !p(lock)
  {
    if locks == [] then None else if p(locks[0]) then Some(locks[0]) else FindLock(p, locks[1..])
  }

  /** `timerWindowOverlapsLock`: an empty window meets no lock. */
  function TimerLock(startedAt: int, stoppedAt: int, locks: seq<Lock>): Option<Lock> {
    if stoppedAt <= startedAt then None
    else FindLock((lock: Lock) => WindowMeets(lock, startedAt, stoppedAt), locks)
  }

  /** An empty window meets no lock; any other meets one if and only if it starts
      before the lock's end and stops after its start. */
  lemma {:induction false} TimerLockIff(startedAt: int, stoppedAt: int, locks: seq<Lock>)
    ensures TimerLock(startedAt, stoppedAt, locks).Some? <==>
            startedAt < stoppedAt && exists lock :: lock in locks && lock.periodStart.Some? && lock.periodEnd.Some?
                                                 && startedAt < lock.periodEnd.value && lock.periodStart.value < stoppedAt
  {
    forall lock | lock in locks && WindowMeets(lock, startedAt, stoppedAt) ensures lock.periodStart.Some? && lock.periodEnd.Some? {}
  }

  /** The lock that `expenseDateLockCue` reports. */
  function ExpenseLock(at: int, locks: seq<Lock>): Option<Lock> {
    FindLock((lock: Lock) => Contains(lock, at), locks)
  }

  ghost predicate SomeInstantInside(lock: Lock, startedAt: int, stoppedAt: int) {
    exists at :: startedAt <= at < stoppedAt && Contains(lock, at)
  }

  /** For a lock that passes the validator the window test fires exactly when
      the instant test does somewhere in the window. */
  lemma WindowTestIsExact(lock: Lock, startedAt: int, stoppedAt: int)
    requires ValidLock(lock) && startedAt < stoppedAt
    ensures WindowMeets(lock, startedAt, stoppedAt) <==> SomeInstantInside(lock, startedAt, stoppedAt)
  {
    if WindowMeets(lock, startedAt, stoppedAt) {
      assert Contains(lock, if startedAt < lock.periodStart.value then lock.periodStart.value else startedAt);
    }
  }

  /** A timer is stopped exactly when an expense dated at some instant of its
      window would be. */
  lemma TimerLockIsExpenseLock(startedAt: int, stoppedAt: int, locks: seq<Lock>)
    requires startedAt < stoppedAt && AllValid(locks)
    ensures TimerLock(startedAt, stoppedAt, locks).Some?
        <==> exists at :: startedAt <= at < stoppedAt && ExpenseLock(at, locks).Some?
  {
    var found := TimerLock(startedAt, stoppedAt, locks);
    if found.Some? {
      WindowTestIsExact(found.value, startedAt, stoppedAt);
      var at :| startedAt <= at < stoppedAt && Contains(found.value, at);
      assert ExpenseLock(at, locks).Some?;
    }
    forall at | startedAt <= at < stoppedAt && ExpenseLock(at, locks).Some? ensures found.Some? {
      var lock := ExpenseLock(at, locks).value;
      assert WindowMeets(lock, startedAt, stoppedAt);
    }
  }

  /** Among the stored locks, whatever was asked for and however a firm's list is
      ordered: the two checks agree on every window, and the lock that an
      expense date meets is the only one. */
  lemma {:induction false} StoredLocksDecide(
    requests: seq<Lock>, leq: (Lock, Lock) -> bool, firmId: string, startedAt: int, stoppedAt: int, at: int)
    requires startedAt < stoppedAt
    ensures var listed := ListLocks(leq, AddLocks([], requests), firmId);
            && (TimerLock(startedAt, stoppedAt, listed).Some?
                <==> exists t :: startedAt <= t < stoppedAt && ExpenseLock(t, listed).Some?)
            && forall lock :: lock in listed && Contains(lock, at) ==> ExpenseLock(at, listed) == Some(lock)
  {
    var locks := AddLocks([], requests);
    var listed := ListLocks(leq, locks, firmId);
    LocksStaySound([], requests);
    assert AllValid(listed);
    TimerLockIsExpenseLock(startedAt, stoppedAt, listed);
    forall lock | lock in listed && Contains(lock, at) ensures ExpenseLock(at, listed) == Some(lock) {
      OnlyLockAt(locks, lock, ExpenseLock(at, listed).value, at);
    }
  }

  lemma {:induction false} OnlyLockAt(locks: seq<Lock>, a: Lock, b: Lock, at: int)
    requires SoundLocks(locks) && a in locks && b in locks && a.firmId == b.firmId && Contains(a, at) && Contains(b, at)
    ensures a == b
  {
    var i :| 0 <= i < |locks| && locks[i] == a;
    var j :| 0 <= j < |locks| && locks[j] == b;
    assert ShareInstant(a, b) && ShareInstant(b, a);
  }

  // ----- The timer draft -----

  datatype Rate = NoRate | InvalidRate | Cents(cents: int)

  datatype TimerForm = TimerForm(
    matterId: Option<string>, startedAt: string, stoppedAt: string, rateHourly: string, narrative: string, billable: bool, locks: seq<Lock>)

  datatype TimerPayload = TimerPayload(matterId: string, startedAt: int, stoppedAt: int, rateCents: Option<int>, narrative: string, billable: bool)

  datatype TimerError = NoMatter | NotStopped | InvalidTime | StopNotAfterStart | Locked(lock: Lock) | NoNarrative | BadRate

  datatype TimerDraft = Payload(payload: TimerPayload) | Error(error: TimerError)

  /** The texts of a form, trimmed. */
  function TrimForm(form: TimerForm): TimerForm {
    form.(startedAt := Trim(form.startedAt), stoppedAt := Trim(form.stoppedAt), narrative := Trim(form.narrative))
  }

  /** The checks on a trimmed form; date and money parsing are parameters. */
  function DraftFrom(instant: string -> Option<int>, cents: string -> Rate, form: TimerForm): TimerDraft {
    if form.matterId.None? then Error(NoMatter)
    else if form.startedAt == "" || form.stoppedAt == "" then Error(NotStopped)
    else
      var start, stop := instant(form.startedAt), instant(form.stoppedAt);
      if start.None? || stop.None? then Error(InvalidTime)
      else if stop.value <= start.value then Error(StopNotAfterStart)
      else
        var lock := TimerLock(start.value, stop.value, form.locks);
        if lock.Some? then Error(Locked(lock.value))
        else if form.narrative == "" then Error(NoNarrative)
        else
          match cents(form.rateHourly)
          case InvalidRate => Error(BadRate)
          case NoRate => Payload(TimerPayload(form.matterId.value, start.value, stop.value, None, form.narrative, form.billable))
          case Cents(n) => Payload(TimerPayload(form.matterId.value, start.value, stop.value, Some(n), form.narrative, form.billable))
  }

  /** `buildTimerDraftTimeEntryPayload`. */
  function BuildTimerDraft(instant: string -> Option<int>, cents: string -> Rate, form: TimerForm): TimerDraft {
    DraftFrom(instant, cents, TrimForm(form))
  }

  /** Everything but the locks is in order, in a trimmed form. */
  ghost predicate Complete(instant: string -> Option<int>, cents: string -> Rate, form: TimerForm) {
    && form.matterId.Some? && form.startedAt != "" && form.stoppedAt != "" && form.narrative != ""
    && instant(form.startedAt).Some? && instant(form.stoppedAt).Some?
    && instant(form.startedAt).value < instant(form.stoppedAt).value
    && cents(form.rateHourly) != InvalidRate
  }

  ghost predicate NoInstantLocked(startedAt: int, stoppedAt: int, locks: seq<Lock>) {
    forall at :: startedAt <= at < stoppedAt ==> ExpenseLock(at, locks).None?
  }

  lemma ClearIffNoInstantLocked(startedAt: int, stoppedAt: int, locks: seq<Lock>)
    requires startedAt < stoppedAt && AllValid(locks)
    ensures TimerLock(startedAt, stoppedAt, locks).None? <==> NoInstantLocked(startedAt, stoppedAt, locks)
  {
    TimerLockIsExpenseLock(startedAt, stoppedAt, locks);
  }

  lemma DraftAcceptedIff(instant: string -> Option<int>, cents: string -> Rate, form: TimerForm)
    requires AllValid(form.locks)
    ensures DraftFrom(instant, cents, form).Payload? <==>
            && Complete(instant, cents, form)
            && NoInstantLocked(instant(form.startedAt).value, instant(form.stoppedAt).value, form.locks)
  {
    if Complete(instant, cents, form) {
      ClearIffNoInstantLocked(instant(form.startedAt).value, instant(form.stoppedAt).value, form.locks);
    }
  }

  /** Whatever the locks, an accepted payload carries the form's own window, text
      and rate, and no instant of that window lies in a locked period; a refusal
      for a lock names one of the locks that the window meets. */
  lemma {:induction false} AcceptedTimerIsClear(instant: string -> Option<int>, cents: string -> Rate, form: TimerForm)
    ensures match BuildTimerDraft(instant, cents, form)
            case Payload(p) =>
              && instant(Trim(form.startedAt)) == Some(p.startedAt) && instant(Trim(form.stoppedAt)) == Some(p.stoppedAt)
              && p.startedAt < p.stoppedAt && NoInstantLocked(p.startedAt, p.stoppedAt, form.locks)
              && form.matterId == Some(p.matterId) && p.narrative == Trim(form.narrative) != "" && p.billable == form.billable
              && cents(form.rateHourly) == (if p.rateCents.None? then NoRate else Cents(p.rateCents.value))
            case Error(Locked(lock)) =>
              var start, stop := instant(Trim(form.startedAt)), instant(Trim(form.stoppedAt));
              start.Some? && stop.Some? && lock in form.locks && WindowMeets(lock, start.value, stop.value)
            case Error(_) => true
  {
    var draft := BuildTimerDraft(instant, cents, form);
    if draft.Payload? {
      var p := draft.payload;
      forall at, lock | p.startedAt <= at < p.stoppedAt && lock in form.locks ensures !Contains(lock, at) {
        assert !WindowMeets(lock, p.startedAt, p.stoppedAt);
      }
    }
  }

  /** Why a timer form is refused: its first fault, in the order matter, times,
      locks, narrative, rate. */
  lemma {:induction false} TimerRefused(instant: string -> Option<int>, cents: string -> Rate, form: TimerForm)
    requires BuildTimerDraft(instant, cents, form).Error?
    ensures var start, stop := instant(Trim(form.startedAt)), instant(Trim(form.stoppedAt));
            var given := form.matterId.Some? && Trim(form.startedAt) != "" && Trim(form.stoppedAt) != "";
            var ordered := given && Before(start, stop);
            var clear := ordered && forall lock :: lock in form.locks ==> !WindowMeets(lock, start.value, stop.value);
            match BuildTimerDraft(instant, cents, form).error
            case NoMatter => form.matterId.None?
            case NotStopped => form.matterId.Some? && !given
            case InvalidTime => given && (start.None? || stop.None?)
            case StopNotAfterStart => given && start.Some? && stop.Some? && start.value >= stop.value
            case Locked(lock) => ordered && lock in form.locks && WindowMeets(lock, start.value, stop.value)
            case NoNarrative => clear && Trim(form.narrative) == ""
            case BadRate => clear && Trim(form.narrative) != "" && cents(form.rateHourly) == InvalidRate
  {
  }

  /** A timer form is accepted exactly when it is complete and no instant of its
      window lies in a locked period. */
  lemma TimerAcceptedIff(instant: string -> Option<int>, cents: string -> Rate, form: TimerForm)
    requires AllValid(form.locks)
    ensures var trimmed := TrimForm(form);
            BuildTimerDraft(instant, cents, form).Payload? <==>
            (Complete(instant, cents, trimmed) && NoInstantLocked(instant(trimmed.startedAt).value, instant(trimmed.stoppedAt).value, form.locks))
  {
    DraftAcceptedIff(instant, cents, TrimForm(form));
  }
}
