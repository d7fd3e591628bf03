/** The trust ledger: double-entry posting that is balanced, idempotent,
    reversible and never overdraws a client's balance on a matter. */
module TrustLedger {
  import opened Sequences

  datatype AccountType = TrustAsset | ClientLiability | OperatingRevenue | Expense

  datatype Account = Account(id: string, firmId: string, name: string, kind: AccountType)

  datatype Line = Line(
    firmId: string, matterId: string, clientId: string, accountId: string,
    debitCents: int, creditCents: int, memo: string, reversingTransactionId: Option<string>)

  datatype Entry = Entry(index: nat, transactionId: string, postedAt: int, line: Line)

  datatype Transaction = Transaction(
    id: string, firmId: string, idempotencyKey: string, requestFingerprint: Option<string>,
    postedByUserId: string, postedAt: int, lines: seq<Line>, reversesTransactionId: Option<string>)

  datatype Posted = Posted(
    id: string, firmId: string, idempotencyKey: string, requestFingerprint: string,
    entries: seq<Entry>, reversesTransactionId: Option<string>)

  datatype State = State(accounts: seq<Account>, posted: seq<Posted>)

  datatype Error =
    | KeyReused | Unbalanced | NegativeAmount | BothSides
    | NothingToReverse | NotAMirror | UnknownAccount(accountId: string) | Overdraw

  datatype Result = Ok(posted: Posted) | Refused(error: Error)

  /** The part of a request that its fingerprint covers. */
  datatype Payload = Payload(firmId: string, lines: seq<Line>, reversesTransactionId: Option<string>)

  /** The canonical text of a payload, taken as a parameter throughout. */
  type Canonical = Payload -> string

  // ----- Posting -----

  function Debit(l: Line): int {
    l.debitCents
  }

  function Credit(l: Line): int {
    l.creditCents
  }

  function LineOf(e: Entry): Line {
    e.line
  }

  function CheckSides(lines: seq<Line>): Option<Error> {
    if lines == [] then None
    else if lines[0].debitCents < 0 || lines[0].creditCents < 0 then Some(NegativeAmount)
    else if lines[0].debitCents > 0 && lines[0].creditCents > 0 then Some(BothSides)
    else CheckSides(lines[1..])
  }

  function ValidateBalanced(lines: seq<Line>): Option<Error> {
    var debit, credit := Sum(Debit, lines), Sum(Credit, lines);
    if debit <= 0 || credit <= 0 || debit != credit then Some(Unbalanced) else CheckSides(lines)
  }

  /** The first posted transaction that meets `p`. */
  function Find(p: Posted -> bool, posted: seq<Posted>): (r: Option<Posted>)
    ensures r.Some? ==> r.value in posted && p(r.value)
    ensures r.None? ==> forall q :: q in posted ==> !p(q)
  {
    if posted == [] then None else if p(posted[0]) then Some(posted[0]) else Find(p, posted[1..])
  }

  function SameKey(firmId: string, key: string): Posted -> bool {
    (p: Posted) => p.firmId == firmId && p.idempotencyKey == key
  }

  function SameId(firmId: string, id: string): Posted -> bool {
    (p: Posted) => p.firmId == firmId && p.id == id
  }

  /** What a reversal must agree on, with the two sides exchanged. */
  predicate Mirrors(original: seq<Line>, reversal: seq<Line>) {
    && |original| == |reversal|
    && forall i :: 0 <= i < |original| ==>
         && original[i].accountId == reversal[i].accountId
         && original[i].clientId == reversal[i].clientId
         && original[i].matterId == reversal[i].matterId
         && original[i].debitCents == reversal[i].creditCents
         && original[i].creditCents == reversal[i].debitCents
  }

  /** An id that is set: JavaScript treats the empty string as unset. */
  predicate Given(id: Option<string>) {
    id.Some? && id.value != ""
  }

  function ValidateReversal(posted: seq<Posted>, tx: Transaction): Option<Error>
    requires tx.reversesTransactionId.Some?
  {
    var original := Find(SameId(tx.firmId, tx.reversesTransactionId.value), posted);
    if original.None? then Some(NothingToReverse)
    else if !Mirrors(Map(LineOf, original.value.entries), tx.lines) then Some(NotAMirror)
    else None
  }

  function AllEntries(posted: seq<Posted>): seq<Entry> {
    FlatMap((p: Posted) => p.entries, posted)
  }

  function LiabilityIds(accounts: seq<Account>): set<string> {
    set a | a in accounts && a.kind == ClientLiability :: a.id
  }

  function Counts(matterId: string, clientId: string, liability: set<string>): Entry -> bool {
    (e: Entry) => e.line.matterId == matterId && e.line.clientId == clientId && e.line.accountId in liability
  }

  function Delta(e: Entry): int {
    e.line.creditCents - e.line.debitCents
  }

  /** What the firm owes a client on a matter. */
  function NetBalance(entries: seq<Entry>, matterId: string, clientId: string, liability: set<string>): int {
    Sum(Delta, Filter(Counts(matterId, clientId, liability), entries))
  }

  function Stamp(tx: Transaction): (entries: seq<Entry>)
    ensures Map(LineOf, entries) == tx.lines
  {
    seq(|tx.lines|, i requires 0 <= i < |tx.lines| => Entry(i + 1, tx.id, tx.postedAt, tx.lines[i]))
  }

  function FindAccount(accounts: seq<Account>, id: string): (r: Option<Account>)
    ensures r.Some? ==> r.value in accounts && r.value.id == id
    ensures r.None? ==> forall a :: a in accounts ==> a.id != id
  {
    if accounts == [] then None else if accounts[0].id == id then Some(accounts[0]) else FindAccount(accounts[1..], id)
  }

  /** The loop over the new entries: `rest` is what is still to be checked. */
  function CheckAccounts(accounts: seq<Account>, existing: seq<Entry>, next: seq<Entry>, rest: seq<Entry>): Option<Error> {
    if rest == [] then None
    else
      var line := rest[0].line;
      var account := FindAccount(accounts, line.accountId);
      if account.None? then Some(UnknownAccount(line.accountId))
      else if && account.value.kind == ClientLiability
              && NetBalance(existing, line.matterId, line.clientId, LiabilityIds(accounts))
               + NetBalance(next, line.matterId, line.clientId, LiabilityIds(accounts)) < 0
      then Some(Overdraw)
      else CheckAccounts(accounts, existing, next, rest[1..])
  }

  function Fingerprint(canonical: Canonical, tx: Transaction): string {
    if tx.requestFingerprint.Some? then tx.requestFingerprint.value
    else canonical(Payload(tx.firmId, tx.lines, tx.reversesTransactionId))
  }

  /** `postLedgerTransaction`. */
  function Post(canonical: Canonical, state: State, tx: Transaction): Result {
    var duplicate := Find(SameKey(tx.firmId, tx.idempotencyKey), state.posted);
    if duplicate.Some? then
      if duplicate.value.requestFingerprint != Fingerprint(canonical, tx) then Refused(KeyReused) else Ok(duplicate.value)
    else
      var balance := ValidateBalanced(tx.lines);
      if balance.Some? then Refused(balance.value)
      else
        var reversal := if Given(tx.reversesTransactionId) then ValidateReversal(state.posted, tx) else None;
        if reversal.Some? then Refused(reversal.value)
        else
          var accounts := CheckAccounts(state.accounts, AllEntries(state.posted), Stamp(tx), Stamp(tx));
          if accounts.Some? then Refused(accounts.value)
          else Ok(Posted(tx.id, tx.firmId, tx.idempotencyKey, Fingerprint(canonical, tx), Stamp(tx), tx.reversesTransactionId))
  }

  // ----- The store -----

  predicate HasId(posted: seq<Posted>, id: string) {
    exists i :: 0 <= i < |posted| && posted[i].id == id
  }

  /** Post and keep the result unless its id is stored already. */
  function Store(canonical: Canonical, state: State, tx: Transaction): State {
    var r := Post(canonical, state, tx);
    if r.Refused? || HasId(state.posted, r.posted.id) then state
    else state.(posted := state.posted + [r.posted])
  }

  /** The in-memory repository, whose transaction list each post reassigns. */
  class MemoryLedger {
    const canonical: Canonical
    var accounts: seq<Account>
    var posted: seq<Posted>

    constructor (canonical: Canonical, accounts: seq<Account>)
      ensures this.canonical == canonical && this.accounts == accounts && posted == []
    {
      this.canonical, this.accounts, this.posted := canonical, accounts, [];
    }

    function Abstract(): State
      reads this
    {
      State(accounts, posted)
    }

    method PostTransaction(tx: Transaction) returns (r: Result)
      modifies this`posted
      ensures r == Post(canonical, old(Abstract()), tx)
      ensures Abstract() == Store(canonical, old(Abstract()), tx)
    {
      r := Post(canonical, Abstract(), tx);
      if r.Ok? && !HasId(posted, r.posted.id) {
        posted := posted + [r.posted];
      }
    }
  }

  datatype Step = PostStep(tx: Transaction) | OpenAccount(account: Account)

  /** An account is opened under an id that no account has yet. */
  function Take(canonical: Canonical, state: State, step: Step): State {
    match step
    case PostStep(tx) => Store(canonical, state, tx)
    case OpenAccount(account) =>
      if FindAccount(state.accounts, account.id).Some? then state
      else state.(accounts := state.accounts + [account])
  }

  function Run(canonical: Canonical, state: State, steps: seq<Step>): State
    decreases |steps|
  {
    if steps == [] then state else Run(canonical, Take(canonical, state, steps[0]), steps[1..])
  }

  /** A run does every step in turn: it posts the request, or opens the account
      unless its id is taken. */
  lemma {:induction false} RunSnoc(canonical: Canonical, state: State, steps: seq<Step>, step: Step)
    ensures Run(canonical, state, []) == state
    ensures var before, after := Run(canonical, state, steps), Run(canonical, state, steps + [step]);
            match step
            case PostStep(tx) => after == Store(canonical, before, tx)
            case OpenAccount(account) =>
              after == if exists a :: a in before.accounts && a.id == account.id then before else State(before.accounts + [account], before.posted)
    decreases |steps|
  {
    var all := steps + [step];
    if steps == [] {
      assert all[0] == step && all[1..] == [];
    } else {
      assert all[0] == steps[0] && all[1..] == steps[1..] + [step];
      RunSnoc(canonical, Take(canonical, state, steps[0]), steps[1..], step);
    }
  }

  // ----- What every reachable state satisfies -----

  ghost predicate DistinctAccounts(accounts: seq<Account>) {
    forall a, b :: a in accounts && b in accounts && a.id == b.id ==> a == b
  }

  ghost predicate OneSided(l: Line) {
    l.debitCents >= 0 && l.creditCents >= 0 && (l.debitCents == 0 || l.creditCents == 0)
  }

  /** Debits equal credits, both positive, and each line has at most one side. */
  ghost predicate Balanced(lines: seq<Line>) {
    Sum(Debit, lines) == Sum(Credit, lines) > 0 && forall l :: l in lines ==> OneSided(l)
  }

  ghost predicate AccountsKnown(accounts: seq<Account>, lines: seq<Line>) {
    forall l :: l in lines ==> exists a :: a in accounts && a.id == l.accountId
  }

  ghost predicate NeverOverdrawn(accounts: seq<Account>, entries: seq<Entry>) {
    forall m, c :: NetBalance(entries, m, c, LiabilityIds(accounts)) >= 0
  }

  ghost predicate KeysDistinct(posted: seq<Posted>) {
    forall i, j :: 0 <= i < j < |posted| ==> posted[i].firmId != posted[j].firmId || posted[i].idempotencyKey != posted[j].idempotencyKey
  }

  ghost predicate IdsDistinct(posted: seq<Posted>) {
    forall i, j :: 0 <= i < j < |posted| ==> posted[i].id != posted[j].id
  }

  ghost predicate Named(id: Option<string>) {
    id != None && id != Some("")
  }

  /** A reversal mirrors a transaction posted before it. */
  ghost predicate ReversesEarlier(posted: seq<Posted>, i: int)
    requires 0 <= i < |posted|
  {
    Named(posted[i].reversesTransactionId) ==>
      exists j :: 0 <= j < i && posted[j].id == posted[i].reversesTransactionId.value && posted[j].firmId == posted[i].firmId
               && Mirrors(Map(LineOf, posted[j].entries), Map(LineOf, posted[i].entries))
  }

  ghost predicate WellPosted(accounts: seq<Account>, p: Posted) {
    Balanced(Map(LineOf, p.entries)) && AccountsKnown(accounts, Map(LineOf, p.entries))
  }

  ghost predicate Sound(state: State) {
    && DistinctAccounts(state.accounts)
    && (forall p :: p in state.posted ==> WellPosted(state.accounts, p))
    && NeverOverdrawn(state.accounts, AllEntries(state.posted))
    && KeysDistinct(state.posted)
    && IdsDistinct(state.posted)
    && forall i :: 0 <= i < |state.posted| ==> ReversesEarlier(state.posted, i)
  }

  // ----- Balances -----

  lemma NetBalanceConcat(xs: seq<Entry>, ys: seq<Entry>, m: string, c: string, liability: set<string>)
    ensures NetBalance(xs + ys, m, c, liability) == NetBalance(xs, m, c, liability) + NetBalance(ys, m, c, liability)
  {
    FilterConcat(Counts(m, c, liability), xs, ys);
    SumConcat(Delta, Filter(Counts(m, c, liability), xs), Filter(Counts(m, c, liability), ys));
  }

  lemma AllEntriesSnoc(posted: seq<Posted>, p: Posted)
    ensures AllEntries(posted + [p]) == AllEntries(posted) + p.entries
  {
    FlatMapConcat((q: Posted) => q.entries, posted, [p]);
    assert AllEntries([p]) == p.entries;
  }

  /** A client untouched by the entries keeps its balance. */
  lemma UntouchedBalance(entries: seq<Entry>, m: string, c: string, liability: set<string>)
    requires forall e :: e in entries ==> !Counts(m, c, liability)(e)
    ensures NetBalance(entries, m, c, liability) == 0
  {
    FilterNone(Counts(m, c, liability), entries);
  }

  lemma {:induction false} NetBalanceAgrees(entries: seq<Entry>, m: string, c: string, before: set<string>, after: set<string>)
    requires forall e :: e in entries ==> (e.line.accountId in before <==> e.line.accountId in after)
    ensures NetBalance(entries, m, c, before) == NetBalance(entries, m, c, after)
  {
    FilterAgree(Counts(m, c, before), Counts(m, c, after), entries);
  }

  // ----- Deciding a request -----

  lemma {:induction false} SidesChecked(lines: seq<Line>)
    ensures CheckSides(lines).None? <==> forall l :: l in lines ==> OneSided(l)
  {
    if lines != [] {
      SidesChecked(lines[1..]);
      assert lines == [lines[0]] + lines[1..];
      assert OneSided(lines[0]) <==> lines[0].debitCents >= 0 && lines[0].creditCents >= 0 && !(lines[0].debitCents > 0 && lines[0].creditCents > 0);
    }
  }

  lemma BalanceChecked(lines: seq<Line>)
    ensures ValidateBalanced(lines).None? <==> Balanced(lines)
  {
    SidesChecked(lines);
  }

  /** `rest` passes the loop: known accounts, and no touched client below zero. */
  ghost predicate Passes(accounts: seq<Account>, existing: seq<Entry>, next: seq<Entry>, e: Entry) {
    && (exists a :: a in accounts && a.id == e.line.accountId)
    && (e.line.accountId in LiabilityIds(accounts) ==>
          0 <= NetBalance(existing, e.line.matterId, e.line.clientId, LiabilityIds(accounts))
               + NetBalance(next, e.line.matterId, e.line.clientId, LiabilityIds(accounts)))
  }

  lemma {:induction false} AccountsChecked(accounts: seq<Account>, existing: seq<Entry>, next: seq<Entry>, rest: seq<Entry>)
    requires DistinctAccounts(accounts)
    ensures CheckAccounts(accounts, existing, next, rest).None? <==> forall e :: e in rest ==> Passes(accounts, existing, next, e)
  {
    if rest != [] {
      AccountsChecked(accounts, existing, next, rest[1..]);
      var account := FindAccount(accounts, rest[0].line.accountId);
      assert CheckAccounts(accounts, existing, next, rest).None? <==>
             Passes(accounts, existing, next, rest[0]) && CheckAccounts(accounts, existing, next, rest[1..]).None?;
      assert rest == [rest[0]] + rest[1..];
    }
  }

  /** Checking only the clients that the request touches is checking them all. */
  lemma TouchedSuffice(accounts: seq<Account>, existing: seq<Entry>, next: seq<Entry>)
    requires DistinctAccounts(accounts) && NeverOverdrawn(accounts, existing)
    ensures (forall e :: e in next ==> Passes(accounts, existing, next, e))
        <==> AccountsKnown(accounts, Map(LineOf, next)) && NeverOverdrawn(accounts, existing + next)
  {
    var liability := LiabilityIds(accounts);
    var lines := Map(LineOf, next);
    assert forall e :: e in next ==> e.line in lines by {
      forall e | e in next ensures e.line in lines {
        var i :| 0 <= i < |next| && next[i] == e;
        assert lines[i] == e.line;
      }
    }
    forall m, c ensures NetBalance(existing + next, m, c, liability)
                     == NetBalance(existing, m, c, liability) + NetBalance(next, m, c, liability) {
      NetBalanceConcat(existing, next, m, c, liability);
    }
    if forall e :: e in next ==> Passes(accounts, existing, next, e) {
      forall l | l in lines ensures exists a :: a in accounts && a.id == l.accountId {
        var i :| 0 <= i < |lines| && lines[i] == l;
        assert Passes(accounts, existing, next, next[i]);
      }
      forall m, c ensures NetBalance(existing + next, m, c, liability) >= 0 {
        assert NetBalance(existing, m, c, liability) >= 0;
        if e :| e in next && Counts(m, c, liability)(e) {
          assert Passes(accounts, existing, next, e);
        } else {
          UntouchedBalance(next, m, c, liability);
        }
      }
    }
    if AccountsKnown(accounts, lines) && NeverOverdrawn(accounts, existing + next) {
      forall e | e in next ensures Passes(accounts, existing, next, e) {
        assert e.line in lines;
        assert NetBalance(existing + next, e.line.matterId, e.line.clientId, liability) >= 0;
      }
    }
  }

  ghost predicate ReversalStands(posted: seq<Posted>, tx: Transaction) {
    Named(tx.reversesTransactionId) ==>
      exists p :: p in posted && p.firmId == tx.firmId && p.id == tx.reversesTransactionId.value
               && Mirrors(Map(LineOf, p.entries), tx.lines)
  }

  lemma {:induction false} FindUnique(posted: seq<Posted>, firmId: string, id: string, p: Posted)
    requires IdsDistinct(posted) && p in posted && p.firmId == firmId && p.id == id
    ensures Find(SameId(firmId, id), posted) == Some(p)
  {
    if posted[0] != p {
      assert p in posted[1..];
      var j :| 1 <= j < |posted| && posted[j] == p;
      assert posted[0].id != posted[j].id;
      FindUnique(posted[1..], firmId, id, p);
    }
  }

  lemma {:induction false} ReversalChecked(posted: seq<Posted>, tx: Transaction)
    requires IdsDistinct(posted) && Given(tx.reversesTransactionId)
    ensures ValidateReversal(posted, tx).None? <==> ReversalStands(posted, tx)
  {
    if ReversalStands(posted, tx) {
      var p :| p in posted && p.firmId == tx.firmId && p.id == tx.reversesTransactionId.value && Mirrors(Map(LineOf, p.entries), tx.lines);
      FindUnique(posted, tx.firmId, tx.reversesTransactionId.value, p);
    }
  }

  /** A request under a new key is accepted exactly when it is balanced, its
      reversal (if any) mirrors a posted transaction, its accounts exist, and
      afterwards no client of any matter is below zero. */
  lemma AcceptedIff(canonical: Canonical, state: State, tx: Transaction)
    requires Sound(state) && Find(SameKey(tx.firmId, tx.idempotencyKey), state.posted).None?
    ensures Post(canonical, state, tx).Ok? <==>
            && Balanced(tx.lines)
            && ReversalStands(state.posted, tx)
            && AccountsKnown(state.accounts, tx.lines)
            && NeverOverdrawn(state.accounts, AllEntries(state.posted) + Stamp(tx))
  {
    BalanceChecked(tx.lines);
    if Given(tx.reversesTransactionId) { ReversalChecked(state.posted, tx); }
    AccountsChecked(state.accounts, AllEntries(state.posted), Stamp(tx), Stamp(tx));
    TouchedSuffice(state.accounts, AllEntries(state.posted), Stamp(tx));
  }

  // ----- Why a request is refused -----

  /** Line `i` is the first that is not one-sided. */
  ghost predicate FirstBadLine(lines: seq<Line>, i: int) {
    0 <= i < |lines| && !OneSided(lines[i]) && forall j :: 0 <= j < i ==> OneSided(lines[j])
  }

  lemma {:induction false} SidesRefused(lines: seq<Line>) returns (i: int)
    requires CheckSides(lines).Some?
    ensures FirstBadLine(lines, i)
    ensures CheckSides(lines) == Some(if lines[i].debitCents < 0 || lines[i].creditCents < 0 then NegativeAmount else BothSides)
  {
    i := 0;
    if OneSided(lines[0]) {
      var k := SidesRefused(lines[1..]);
      assert forall j :: 1 <= j < k + 1 ==> lines[1..][j - 1] == lines[j];
      i := k + 1;
    }
  }

  /** Entry `i` is the first that the loop over accounts stops at. */
  ghost predicate FirstStopped(accounts: seq<Account>, existing: seq<Entry>, next: seq<Entry>, rest: seq<Entry>, i: int) {
    0 <= i < |rest| && !Passes(accounts, existing, next, rest[i]) && forall j :: 0 <= j < i ==> Passes(accounts, existing, next, rest[j])
  }

  lemma {:induction false} AccountsRefused(accounts: seq<Account>, existing: seq<Entry>, next: seq<Entry>, rest: seq<Entry>) returns (i: int)
    requires DistinctAccounts(accounts) && CheckAccounts(accounts, existing, next, rest).Some?
    ensures FirstStopped(accounts, existing, next, rest, i)
    ensures var id := rest[i].line.accountId;
            CheckAccounts(accounts, existing, next, rest) == Some(if exists a :: a in accounts && a.id == id then Overdraw else UnknownAccount(id))
  {
    i := 0;
    if Passes(accounts, existing, next, rest[0]) {
      var k := AccountsRefused(accounts, existing, next, rest[1..]);
      assert forall j :: 1 <= j < k + 1 ==> rest[1..][j - 1] == rest[j];
      i := k + 1;
    }
  }

  /** Why a request under a new key is refused. The reasons exclude each other. */
  ghost predicate Because(state: State, tx: Transaction, error: Error) {
    var sums := Sum(Debit, tx.lines) == Sum(Credit, tx.lines) > 0;
    var next := Stamp(tx);
    match error
    case KeyReused => false
    case Unbalanced => !sums
    case NegativeAmount => sums && exists i :: FirstBadLine(tx.lines, i) && (tx.lines[i].debitCents < 0 || tx.lines[i].creditCents < 0)
    case BothSides => sums && exists i :: FirstBadLine(tx.lines, i) && tx.lines[i].debitCents > 0 && tx.lines[i].creditCents > 0
    case NothingToReverse =>
      Balanced(tx.lines) && Named(tx.reversesTransactionId)
      && forall p :: p in state.posted ==> p.firmId != tx.firmId || p.id != tx.reversesTransactionId.value
    case NotAMirror =>
      Balanced(tx.lines) && Named(tx.reversesTransactionId)
      && exists p :: p in state.posted && p.firmId == tx.firmId && p.id == tx.reversesTransactionId.value
                  && !Mirrors(Map(LineOf, p.entries), tx.lines)
    case UnknownAccount(id) =>
      Balanced(tx.lines) && ReversalStands(state.posted, tx)
      && (forall a :: a in state.accounts ==> a.id != id)
      && exists i :: FirstStopped(state.accounts, AllEntries(state.posted), next, next, i) && next[i].line.accountId == id
    case Overdraw =>
      Balanced(tx.lines) && ReversalStands(state.posted, tx)
      && exists i :: FirstStopped(state.accounts, AllEntries(state.posted), next, next, i)
                  && exists a :: a in state.accounts && a.id == next[i].line.accountId
  }

  /** A request under a new key is refused for its first fault, in the order sums,
      lines, reversal, accounts line by line. */
  lemma {:induction false} RefusedBecause(canonical: Canonical, state: State, tx: Transaction)
    requires Sound(state) && Post(canonical, state, tx).Refused?
    requires forall p :: p in state.posted ==> p.firmId != tx.firmId || p.idempotencyKey != tx.idempotencyKey
    ensures Because(state, tx, Post(canonical, state, tx).error)
  {
    assert Find(SameKey(tx.firmId, tx.idempotencyKey), state.posted).None?;
    BalanceChecked(tx.lines);
    if ValidateBalanced(tx.lines).Some? {
      if Sum(Debit, tx.lines) == Sum(Credit, tx.lines) > 0 { var i := SidesRefused(tx.lines); }
    } else {
      if Given(tx.reversesTransactionId) { ReversalChecked(state.posted, tx); }
      if !Given(tx.reversesTransactionId) || ValidateReversal(state.posted, tx).None? {
        var i := AccountsRefused(state.accounts, AllEntries(state.posted), Stamp(tx), Stamp(tx));
      }
    }
  }

  // ----- Runs -----

  /** What is stored under a new id came under a new key. */
  lemma NewIdIsNewKey(canonical: Canonical, state: State, tx: Transaction)
    requires Post(canonical, state, tx).Ok? && !HasId(state.posted, Post(canonical, state, tx).posted.id)
    ensures Find(SameKey(tx.firmId, tx.idempotencyKey), state.posted).None?
    ensures forall i :: 0 <= i < |state.posted| ==> state.posted[i].firmId != tx.firmId || state.posted[i].idempotencyKey != tx.idempotencyKey
  {
    var p := Post(canonical, state, tx).posted;
    forall q | q in state.posted ensures q != p { var i :| 0 <= i < |state.posted| && state.posted[i] == q; }
    forall i | 0 <= i < |state.posted| ensures !SameKey(tx.firmId, tx.idempotencyKey)(state.posted[i]) {}
  }

  lemma StoreSound(canonical: Canonical, state: State, tx: Transaction)
    requires Sound(state)
    ensures Sound(Store(canonical, state, tx))
  {
    var r := Post(canonical, state, tx);
    if r.Ok? && !HasId(state.posted, r.posted.id) {
      NewIdIsNewKey(canonical, state, tx);
      AcceptedIff(canonical, state, tx);
      AllEntriesSnoc(state.posted, r.posted);
      AppendedReversals(state.posted, r.posted, tx);
    }
  }

  /** What is known after a request under a new key and a new id is accepted. */
  lemma NewPosting(canonical: Canonical, state: State, tx: Transaction)
    requires Sound(state) && Post(canonical, state, tx).Ok?
    requires Find(SameKey(tx.firmId, tx.idempotencyKey), state.posted).None? && !HasId(state.posted, tx.id)
    ensures var p := Post(canonical, state, tx).posted;
            && p.entries == Stamp(tx)
            && Store(canonical, state, tx) == state.(posted := state.posted + [p])
            && Sound(state.(posted := state.posted + [p]))
    ensures NeverOverdrawn(state.accounts, AllEntries(state.posted) + Stamp(tx))
  {
    AcceptedIff(canonical, state, tx);
    StoreSound(canonical, state, tx);
  }

  /** The store changes only for an accepted request with a new key and a new id. */
  lemma {:induction false} StoreCases(canonical: Canonical, state: State, tx: Transaction)
    ensures Store(canonical, state, tx) != state <==>
            && Post(canonical, state, tx).Ok?
            && Find(SameKey(tx.firmId, tx.idempotencyKey), state.posted).None?
            && !HasId(state.posted, tx.id)
  {
    var duplicate := Find(SameKey(tx.firmId, tx.idempotencyKey), state.posted);
    if duplicate.Some? {
      var i :| 0 <= i < |state.posted| && state.posted[i] == duplicate.value;
      assert HasId(state.posted, duplicate.value.id);
    } else if Post(canonical, state, tx).Ok? && !HasId(state.posted, tx.id) {
      assert |Store(canonical, state, tx).posted| == |state.posted| + 1;
    }
  }

  lemma AppendedReversals(posted: seq<Posted>, p: Posted, tx: Transaction)
    requires forall i :: 0 <= i < |posted| ==> ReversesEarlier(posted, i)
    requires ReversalStands(posted, tx)
    requires p.reversesTransactionId == tx.reversesTransactionId && p.firmId == tx.firmId && Map(LineOf, p.entries) == tx.lines
    ensures forall i :: 0 <= i <= |posted| ==> ReversesEarlier(posted + [p], i)
  {
    var all := posted + [p];
    forall i | 0 <= i <= |posted| ensures ReversesEarlier(all, i) {
      if Given(all[i].reversesTransactionId) {
        if i < |posted| {
          assert ReversesEarlier(posted, i);
          var j :| 0 <= j < i && posted[j].id == posted[i].reversesTransactionId.value && posted[j].firmId == posted[i].firmId
                && Mirrors(Map(LineOf, posted[j].entries), Map(LineOf, posted[i].entries));
          assert all[j] == posted[j];
        } else {
          var q :| q in posted && q.firmId == tx.firmId && q.id == tx.reversesTransactionId.value && Mirrors(Map(LineOf, q.entries), tx.lines);
          var j :| 0 <= j < |posted| && posted[j] == q;
          assert all[j] == q;
        }
      }
    }
  }

  lemma EntriesKnown(accounts: seq<Account>, posted: seq<Posted>, e: Entry)
    requires forall p :: p in posted ==> WellPosted(accounts, p)
    requires e in AllEntries(posted)
    ensures exists a :: a in accounts && a.id == e.line.accountId
  {
    FlatMapMembers((p: Posted) => p.entries, posted);
    var p :| p in posted && e in p.entries;
    var i :| 0 <= i < |p.entries| && p.entries[i] == e;
    assert Map(LineOf, p.entries)[i] == e.line;
    assert WellPosted(accounts, p);
  }

  lemma OpenSound(state: State, account: Account)
    requires Sound(state) && FindAccount(state.accounts, account.id).None?
    ensures Sound(state.(accounts := state.accounts + [account]))
  {
    var accounts := state.accounts + [account];
    var entries := AllEntries(state.posted);
    forall m, c ensures NetBalance(entries, m, c, LiabilityIds(accounts)) >= 0 {
      forall e | e in entries ensures e.line.accountId in LiabilityIds(state.accounts) <==> e.line.accountId in LiabilityIds(accounts) {
        EntriesKnown(state.accounts, state.posted, e);
      }
      NetBalanceAgrees(entries, m, c, LiabilityIds(state.accounts), LiabilityIds(accounts));
      assert NetBalance(entries, m, c, LiabilityIds(state.accounts)) >= 0;
    }
    forall p | p in state.posted ensures WellPosted(accounts, p) {
      assert WellPosted(state.accounts, p);
      forall l | l in Map(LineOf, p.entries) ensures exists a :: a in accounts && a.id == l.accountId {
        var a :| a in state.accounts && a.id == l.accountId;
        assert a in accounts;
      }
    }
  }

  /** Whatever is requested in whatever order, every reachable ledger is sound:
      balanced, never overdrawn, one transaction per key and per id, and every
      reversal the mirror of an earlier transaction. */
  lemma {:induction false} RunSound(canonical: Canonical, state: State, steps: seq<Step>)
    requires Sound(state)
    ensures Sound(Run(canonical, state, steps))
    decreases |steps|
  {
    if steps != [] {
      match steps[0] {
        case PostStep(tx) => StoreSound(canonical, state, tx);
        case OpenAccount(account) =>
          if FindAccount(state.accounts, account.id).None? { OpenSound(state, account); }
      }
      RunSound(canonical, Take(canonical, state, steps[0]), steps[1..]);
    }
  }

  lemma {:induction false} EmptyIsSound(accounts: seq<Account>)
    requires DistinctAccounts(accounts)
    ensures Sound(State(accounts, []))
  {
  }

  function DebitOf(e: Entry): int {
    e.line.debitCents
  }

  function CreditOf(e: Entry): int {
    e.line.creditCents
  }

  /** Double entry: over the whole ledger, debits equal credits. */
  lemma {:induction false} BooksBalance(state: State)
    requires Sound(state)
    ensures Sum(DebitOf, AllEntries(state.posted)) == Sum(CreditOf, AllEntries(state.posted))
  {
    BooksBalanceFor(state.accounts, state.posted);
  }

  lemma {:induction false} BooksBalanceFor(accounts: seq<Account>, posted: seq<Posted>)
    requires forall p :: p in posted ==> WellPosted(accounts, p)
    ensures Sum(DebitOf, AllEntries(posted)) == Sum(CreditOf, AllEntries(posted))
  {
    if posted != [] {
      BooksBalanceFor(accounts, posted[1..]);
      var entries := posted[0].entries;
      assert WellPosted(accounts, posted[0]);
      SumOfLines(entries);
      SumConcat(DebitOf, entries, AllEntries(posted[1..]));
      SumConcat(CreditOf, entries, AllEntries(posted[1..]));
    }
  }

  lemma {:induction false} SumOfLines(entries: seq<Entry>)
    ensures Sum(Debit, Map(LineOf, entries)) == Sum(DebitOf, entries)
    ensures Sum(Credit, Map(LineOf, entries)) == Sum(CreditOf, entries)
  {
    if entries != [] {
      SumOfLines(entries[1..]);
      assert Map(LineOf, entries)[1..] == Map(LineOf, entries[1..]);
    }
  }

  // ----- Idempotency -----

  lemma {:induction false} RunKeeps(canonical: Canonical, state: State, steps: seq<Step>)
    ensures state.posted <= Run(canonical, state, steps).posted
    decreases |steps|
  {
    if steps != [] { RunKeeps(canonical, Take(canonical, state, steps[0]), steps[1..]); }
  }

  lemma {:induction false} FindByKey(posted: seq<Posted>, p: Posted)
    requires KeysDistinct(posted) && p in posted
    ensures Find(SameKey(p.firmId, p.idempotencyKey), posted) == Some(p)
  {
    if posted[0] != p {
      var j :| 1 <= j < |posted| && posted[j] == p;
      assert posted[1..][j - 1] == p;
      FindByKey(posted[1..], p);
    }
  }

  /** Once stored, a transaction answers every later request under its key,
      after any run: the same fingerprint gets the same receipt, any other is
      refused, and the ledger does not change. */
  lemma ReplayIsHarmless(canonical: Canonical, state: State, steps: seq<Step>, p: Posted, tx: Transaction)
    requires Sound(state) && p in state.posted
    requires tx.firmId == p.firmId && tx.idempotencyKey == p.idempotencyKey
    ensures var later := Run(canonical, state, steps);
            && Post(canonical, later, tx) == (if Fingerprint(canonical, tx) == p.requestFingerprint then Ok(p) else Refused(KeyReused))
            && Store(canonical, later, tx) == later
  {
    var later := Run(canonical, state, steps);
    RunSound(canonical, state, steps);
    RunKeeps(canonical, state, steps);
    assert p in later.posted by {
      var i :| 0 <= i < |state.posted| && state.posted[i] == p;
      assert later.posted[i] == p;
    }
    FindByKey(later.posted, p);
    assert HasId(later.posted, p.id);
  }

  /** The request comes under a key and an id that the ledger does not have. */
  ghost predicate IsNew(posted: seq<Posted>, tx: Transaction) {
    forall p :: p in posted ==> p.id != tx.id && (p.firmId != tx.firmId || p.idempotencyKey != tx.idempotencyKey)
  }

  /** The receipt is the request's own: its id, firm, key and what it reverses,
      and its lines in order, numbered from one, with its id and date. */
  ghost predicate ReceiptOf(p: Posted, tx: Transaction) {
    && p.id == tx.id && p.firmId == tx.firmId && p.idempotencyKey == tx.idempotencyKey
    && p.reversesTransactionId == tx.reversesTransactionId
    && |p.entries| == |tx.lines|
    && forall i :: 0 <= i < |tx.lines| ==> p.entries[i] == Entry(i + 1, tx.id, tx.postedAt, tx.lines[i])
  }

  /** Both requests carry the same text, or stand for it by their payloads. */
  ghost predicate SameText(canonical: Canonical, tx: Transaction, other: Transaction) {
    var given := canonical(Payload(tx.firmId, tx.lines, tx.reversesTransactionId));
    var again := canonical(Payload(other.firmId, other.lines, other.reversesTransactionId));
    match (tx.requestFingerprint, other.requestFingerprint)
    case (Some(s), Some(t)) => t == s
    case (Some(s), None) => again == s
    case (None, Some(t)) => t == given
    case (None, None) => again == given
  }

  /** Once a new request is accepted, after any run a request under its key gets
      the receipt if and only if its text is the same, and is refused otherwise;
      sent again as it was, it always gets the receipt. Nothing is posted twice. */
  lemma {:induction false} RetryGetsReceipt(canonical: Canonical, state: State, tx: Transaction, steps: seq<Step>, retry: Transaction)
    requires Sound(state) && IsNew(state.posted, tx) && Post(canonical, state, tx).Ok?
    requires retry.firmId == tx.firmId && retry.idempotencyKey == tx.idempotencyKey
    ensures var p := Post(canonical, state, tx).posted;
            var later := Run(canonical, Store(canonical, state, tx), steps);
            && ReceiptOf(p, tx) && Store(canonical, state, tx) == state.(posted := state.posted + [p])
            && Post(canonical, later, tx) == Ok(p)
            && Post(canonical, later, retry) == (if SameText(canonical, tx, retry) then Ok(p) else Refused(KeyReused))
            && Store(canonical, later, tx) == Store(canonical, later, retry) == later
  {
    var p := Post(canonical, state, tx).posted;
    assert !HasId(state.posted, tx.id) && Find(SameKey(tx.firmId, tx.idempotencyKey), state.posted).None?;
    NewPosting(canonical, state, tx);
    ReplayIsHarmless(canonical, Store(canonical, state, tx), steps, p, tx);
    ReplayIsHarmless(canonical, Store(canonical, state, tx), steps, p, retry);
  }

  /** A receipt is stored exactly when its key was stored before or its id was
      not: under a new key, an id in use gets a receipt that is never kept. */
  lemma {:induction false} ReceiptStoredIff(canonical: Canonical, state: State, tx: Transaction)
    requires Post(canonical, state, tx).Ok?
    ensures Post(canonical, state, tx).posted in Store(canonical, state, tx).posted
        <==> Find(SameKey(tx.firmId, tx.idempotencyKey), state.posted).Some? || !HasId(state.posted, tx.id)
  {
    var p := Post(canonical, state, tx).posted;
    if !HasId(state.posted, p.id) { assert p == Store(canonical, state, tx).posted[|state.posted|]; }
  }

  // ----- Reversal -----

  datatype ReversalInput = ReversalInput(id: string, idempotencyKey: string, postedByUserId: string, postedAt: int, memoPrefix: Option<string>)

  /** `createReversalTransaction`. */
  function CreateReversal(original: Posted, input: ReversalInput): Transaction {
    var prefix := if input.memoPrefix.Some? then input.memoPrefix.value else "Reverse";
    Transaction(input.id, original.firmId, input.idempotencyKey, None, input.postedByUserId, input.postedAt,
                Map((e: Entry) => e.line.(debitCents := e.line.creditCents, creditCents := e.line.debitCents,
                                          memo := prefix + ": " + e.line.memo,
                                          reversingTransactionId := Some(original.id)), original.entries),
                Some(original.id))
  }

  /** The reversal made for a transaction exchanges the sides of every line, puts
      the prefix, or "Reverse", before its memo, marks it with the transaction's
      id, and keeps the rest. */
  lemma {:induction false} MadeReversalIs(original: Posted, input: ReversalInput)
    ensures var tx := CreateReversal(original, input);
            && tx.id == input.id && tx.idempotencyKey == input.idempotencyKey && tx.firmId == original.firmId && tx.requestFingerprint == None
            && tx.postedByUserId == input.postedByUserId && tx.postedAt == input.postedAt && tx.reversesTransactionId == Some(original.id)
            && |tx.lines| == |original.entries|
            && forall i :: 0 <= i < |tx.lines| ==> Reverses(tx.lines[i], original.entries[i].line, original.id, input.memoPrefix)
  {
  }

  ghost predicate Reverses(reversal: Line, line: Line, id: string, memoPrefix: Option<string>) {
    && reversal.firmId == line.firmId && reversal.matterId == line.matterId && reversal.clientId == line.clientId
    && reversal.accountId == line.accountId && reversal.debitCents == line.creditCents && reversal.creditCents == line.debitCents
    && reversal.memo == (match memoPrefix case None => "Reverse: " case Some(prefix) => prefix + ": ") + line.memo
    && reversal.reversingTransactionId == Some(id)
  }

  lemma {:induction false} MirrorSums(original: seq<Line>, reversal: seq<Line>)
    requires Mirrors(original, reversal)
    ensures Sum(Debit, reversal) == Sum(Credit, original) && Sum(Credit, reversal) == Sum(Debit, original)
  {
    if original != [] { MirrorSums(original[1..], reversal[1..]); }
  }

  lemma {:induction false} MirrorBalance(original: seq<Entry>, reversal: seq<Entry>, m: string, c: string, liability: set<string>)
    requires Mirrors(Map(LineOf, original), Map(LineOf, reversal))
    ensures NetBalance(reversal, m, c, liability) == -NetBalance(original, m, c, liability)
  {
    if original != [] {
      var xs, ys := Map(LineOf, original), Map(LineOf, reversal);
      assert xs[0] == original[0].line && ys[0] == reversal[0].line;
      assert Map(LineOf, original[1..]) == xs[1..] && Map(LineOf, reversal[1..]) == ys[1..];
      MirrorBalance(original[1..], reversal[1..], m, c, liability);
    }
  }

  lemma MirrorBalanced(original: seq<Line>, reversal: seq<Line>)
    requires Mirrors(original, reversal) && Balanced(original)
    ensures Balanced(reversal)
  {
    MirrorSums(original, reversal);
    forall l | l in reversal ensures OneSided(l) {
      var i :| 0 <= i < |reversal| && reversal[i] == l;
      assert original[i] in original;
    }
  }

  /** The reversal made for a posted transaction passes under a new key exactly
      when every client still has what the transaction gave it. */
  lemma {:induction false} ReversalAcceptedIff(canonical: Canonical, state: State, original: Posted, input: ReversalInput)
    requires Sound(state) && original in state.posted && original.id != ""
    requires Find(SameKey(original.firmId, input.idempotencyKey), state.posted).None?
    ensures Post(canonical, state, CreateReversal(original, input)).Ok? <==>
            Covers(state, original, 1)
  {
    var tx := CreateReversal(original, input);
    AcceptedIff(canonical, state, tx);
    assert WellPosted(state.accounts, original);
    var lines := Map(LineOf, original.entries);
    assert Mirrors(lines, tx.lines);
    MirrorBalanced(lines, tx.lines);
    assert AccountsKnown(state.accounts, tx.lines) by {
      forall l | l in tx.lines ensures exists a :: a in state.accounts && a.id == l.accountId {
        var i :| 0 <= i < |tx.lines| && tx.lines[i] == l;
        assert lines[i] in lines;
      }
    }
    forall m, c ensures NetBalance(AllEntries(state.posted) + Stamp(tx), m, c, LiabilityIds(state.accounts))
                     == NetBalance(AllEntries(state.posted), m, c, LiabilityIds(state.accounts))
                      - NetBalance(original.entries, m, c, LiabilityIds(state.accounts)) {
      ReversedBalance(AllEntries(state.posted), original, input, m, c, LiabilityIds(state.accounts));
    }
  }

  /** Every client still has `times` times what the transaction gave it. */
  ghost predicate Covers(state: State, original: Posted, times: nat) {
    forall m, c :: NetBalance(AllEntries(state.posted), m, c, LiabilityIds(state.accounts))
                >= times * NetBalance(original.entries, m, c, LiabilityIds(state.accounts))
  }

  lemma {:induction false} ReversedBalance(entries: seq<Entry>, original: Posted, input: ReversalInput, m: string, c: string, liability: set<string>)
    ensures NetBalance(entries + Stamp(CreateReversal(original, input)), m, c, liability)
         == NetBalance(entries, m, c, liability) - NetBalance(original.entries, m, c, liability)
  {
    var stamped := Stamp(CreateReversal(original, input));
    NetBalanceConcat(entries, stamped, m, c, liability);
    MirrorBalance(original.entries, stamped, m, c, liability);
  }

  /** Nothing marks a transaction as reversed: once a first reversal is stored, a
      second one under another key passes exactly when every client had twice
      what the transaction gave it. */
  lemma {:induction false} SecondReversalAcceptedIff(canonical: Canonical, state: State, original: Posted, first: ReversalInput, second: ReversalInput)
    requires Sound(state) && original in state.posted && original.id != ""
    requires Find(SameKey(original.firmId, first.idempotencyKey), state.posted).None? && !HasId(state.posted, first.id)
    requires Post(canonical, state, CreateReversal(original, first)).Ok?
    requires Find(SameKey(original.firmId, second.idempotencyKey), state.posted).None? && second.idempotencyKey != first.idempotencyKey
    ensures Post(canonical, Store(canonical, state, CreateReversal(original, first)), CreateReversal(original, second)).Ok?
        <==> Covers(state, original, 2)
  {
    var tx := CreateReversal(original, first);
    var p := Post(canonical, state, tx).posted;
    var after := state.(posted := state.posted + [p]);
    NewPosting(canonical, state, tx);
    AllEntriesSnoc(state.posted, p);
    StillFree(state.posted, p, original.firmId, second.idempotencyKey);
    ReversalAcceptedIff(canonical, after, original, second);
    forall m, c ensures NetBalance(AllEntries(after.posted), m, c, LiabilityIds(after.accounts))
                     == NetBalance(AllEntries(state.posted), m, c, LiabilityIds(state.accounts))
                      - NetBalance(original.entries, m, c, LiabilityIds(state.accounts)) {
      ReversedBalance(AllEntries(state.posted), original, first, m, c, LiabilityIds(state.accounts));
    }
    CoversOneLess(state, after, original);
  }

  lemma {:induction false} CoversOneLess(state: State, after: State, original: Posted)
    requires after.accounts == state.accounts
    requires forall m, c :: NetBalance(AllEntries(after.posted), m, c, LiabilityIds(after.accounts))
                         == NetBalance(AllEntries(state.posted), m, c, LiabilityIds(state.accounts))
                          - NetBalance(original.entries, m, c, LiabilityIds(state.accounts))
    ensures Covers(after, original, 1) <==> Covers(state, original, 2)
  {
  }

  lemma {:induction false} StillFree(posted: seq<Posted>, p: Posted, firmId: string, key: string)
    requires Find(SameKey(firmId, key), posted).None? && !SameKey(firmId, key)(p)
    ensures Find(SameKey(firmId, key), posted + [p]).None?
  {
    assert forall q :: q in posted + [p] ==> !SameKey(firmId, key)(q);
  }

  /** A stored reversal, however it was made, takes back exactly the balances
      that the transaction it names gave, client by client. */
  lemma ReversalUndoes(state: State, i: nat, m: string, c: string)
    requires Sound(state) && i < |state.posted| && Named(state.posted[i].reversesTransactionId)
    ensures exists j :: 0 <= j < i && state.posted[j].id == state.posted[i].reversesTransactionId.value
                     && NetBalance(state.posted[j].entries + state.posted[i].entries, m, c, LiabilityIds(state.accounts)) == 0
  {
    assert ReversesEarlier(state.posted, i);
    var j :| 0 <= j < i && state.posted[j].id == state.posted[i].reversesTransactionId.value && state.posted[j].firmId == state.posted[i].firmId
          && Mirrors(Map(LineOf, state.posted[j].entries), Map(LineOf, state.posted[i].entries));
    MirrorBalance(state.posted[j].entries, state.posted[i].entries, m, c, LiabilityIds(state.accounts));
    NetBalanceConcat(state.posted[j].entries, state.posted[i].entries, m, c, LiabilityIds(state.accounts));
  }

  // ----- Deposits, and runs of them that show what can happen -----

  ghost predicate TakesNothing(accounts: seq<Account>, lines: seq<Line>) {
    forall l :: l in lines && l.accountId in LiabilityIds(accounts) ==> l.debitCents <= l.creditCents
  }

  /** A balanced request on known accounts that takes from no client is accepted. */
  lemma {:induction false} DepositAccepted(canonical: Canonical, state: State, tx: Transaction)
    requires Sound(state) && Find(SameKey(tx.firmId, tx.idempotencyKey), state.posted).None?
    requires Balanced(tx.lines) && AccountsKnown(state.accounts, tx.lines) && TakesNothing(state.accounts, tx.lines)
    requires !Named(tx.reversesTransactionId)
    ensures Post(canonical, state, tx).Ok?
  {
    AcceptedIff(canonical, state, tx);
    var liability := LiabilityIds(state.accounts);
    forall m, c ensures NetBalance(AllEntries(state.posted) + Stamp(tx), m, c, liability) >= 0 {
      NetBalanceConcat(AllEntries(state.posted), Stamp(tx), m, c, liability);
      CreditsOnly(state.accounts, tx, m, c);
      assert NetBalance(AllEntries(state.posted), m, c, liability) >= 0;
    }
  }

  lemma {:induction false} CreditsOnly(accounts: seq<Account>, tx: Transaction, m: string, c: string)
    requires TakesNothing(accounts, tx.lines)
    ensures NetBalance(Stamp(tx), m, c, LiabilityIds(accounts)) >= 0
  {
    var counted := Filter(Counts(m, c, LiabilityIds(accounts)), Stamp(tx));
    forall e | e in counted ensures Delta(e) >= 0 {
      var i :| 0 <= i < |tx.lines| && Stamp(tx)[i] == e;
      assert e.line == tx.lines[i];
    }
    SumNonNegative(Delta, counted);
  }

  const BANK: seq<Account> := [Account("cash", "f", "Trust bank", TrustAsset), Account("owed", "f", "Client funds", ClientLiability)]

  /** A client pays in one dollar on a matter. */
  function Deposit(id: string, key: string): Transaction {
    Transaction(id, "f", key, None, "u", 0,
                [Line("f", "m", "c", "cash", 100, 0, "", None), Line("f", "m", "c", "owed", 0, 100, "", None)], None)
  }

  lemma {:induction false} DepositPosts(canonical: Canonical, state: State, id: string, key: string)
    requires Sound(state) && state.accounts == BANK && Find(SameKey("f", key), state.posted).None?
    ensures Post(canonical, state, Deposit(id, key)).Ok?
  {
    var lines := Deposit(id, key).lines;
    SumOfTwo(Debit, lines);
    SumOfTwo(Credit, lines);
    assert Balanced(lines);
    assert BANK[0] in BANK && BANK[1] in BANK && BANK[0].id == lines[0].accountId && BANK[1].id == lines[1].accountId;
    assert "cash"[0] != "owed"[0];
    DepositAccepted(canonical, state, Deposit(id, key));
  }

  lemma {:induction false} DepositAdds(canonical: Canonical, posted: seq<Posted>, id: string, key: string) returns (p: Posted)
    requires Sound(State(BANK, posted)) && forall q :: q in posted ==> q.id != id && q.idempotencyKey != key
    ensures Store(canonical, State(BANK, posted), Deposit(id, key)) == State(BANK, posted + [p]) && Sound(State(BANK, posted + [p]))
    ensures p.entries == Stamp(Deposit(id, key)) && p.id == id && p.firmId == "f" && p.idempotencyKey == key
  {
    var state := State(BANK, posted);
    assert !HasId(posted, id);
    DepositPosts(canonical, state, id, key);
    NewPosting(canonical, state, Deposit(id, key));
    p := Post(canonical, state, Deposit(id, key)).posted;
  }

  /** A second deposit under a new key, with the id of the first by mistake, is
      answered with a receipt and not stored. */
  lemma {:induction false} ReceiptCanBeLost(canonical: Canonical)
    ensures var state := Store(canonical, State(BANK, []), Deposit("t", "k1"));
            var tx := Deposit("t", "k2");
            Sound(state) && Post(canonical, state, tx).Ok? && Post(canonical, state, tx).posted !in Store(canonical, state, tx).posted
  {
    EmptyIsSound(BANK);
    var p := DepositAdds(canonical, [], "t", "k1");
    var state := Store(canonical, State(BANK, []), Deposit("t", "k1"));
    assert state == State(BANK, [p]) by { assert [] + [p] == [p]; }
    assert "k1"[1] != "k2"[1];
    assert Find(SameKey("f", "k2"), state.posted).None?;
    DepositPosts(canonical, state, "t", "k2");
    assert HasId(state.posted, "t") by { assert state.posted[0].id == "t"; }
    ReceiptStoredIff(canonical, state, Deposit("t", "k2"));
  }

  lemma {:induction false} NetBalanceByLines(xs: seq<Entry>, ys: seq<Entry>, m: string, c: string, liability: set<string>)
    requires Map(LineOf, xs) == Map(LineOf, ys)
    ensures NetBalance(xs, m, c, liability) == NetBalance(ys, m, c, liability)
  {
    var a, b := Map(LineOf, xs), Map(LineOf, ys);
    assert |xs| == |a| == |b| == |ys|;
    if xs != [] {
      assert a[0] == b[0] && Map(LineOf, xs[1..]) == a[1..] && Map(LineOf, ys[1..]) == b[1..];
      NetBalanceByLines(xs[1..], ys[1..], m, c, liability);
    }
  }

  /** The ledger after two deposits of a client. */
  function TwoDeposits(canonical: Canonical, a: string, k: string, b: string, l: string): State {
    Store(canonical, Store(canonical, State(BANK, []), Deposit(a, k)), Deposit(b, l))
  }

  lemma {:induction false} TwoDepositsStored(canonical: Canonical, a: string, k: string, b: string, l: string) returns (p: Posted, q: Posted)
    requires a != b && k != l
    ensures TwoDeposits(canonical, a, k, b, l) == State(BANK, [p, q]) && Sound(State(BANK, [p, q]))
    ensures p.id == a && q.id == b && p.firmId == q.firmId == "f" && p.idempotencyKey == k && q.idempotencyKey == l
    ensures Map(LineOf, p.entries) == Map(LineOf, q.entries)
  {
    EmptyIsSound(BANK);
    p := DepositAdds(canonical, [], a, k);
    assert [] + [p] == [p];
    q := DepositAdds(canonical, [p], b, l);
    assert [p] + [q] == [p, q];
    assert Map(LineOf, Stamp(Deposit(a, k))) == Map(LineOf, Stamp(Deposit(b, l)));
  }

  lemma {:induction false} AlikeCover(state: State, p: Posted, q: Posted)
    requires state.posted == [p, q] && Map(LineOf, p.entries) == Map(LineOf, q.entries)
    ensures Covers(state, p, 2)
  {
    var liability := LiabilityIds(state.accounts);
    assert [p, q] == [p] + [q];
    AllEntriesSnoc([p], q);
    AllEntriesSnoc([], p);
    assert [] + [p] == [p] && AllEntries([]) == [] && [] + p.entries == p.entries;
    forall m, c ensures NetBalance(AllEntries(state.posted), m, c, liability) == 2 * NetBalance(p.entries, m, c, liability) {
      NetBalanceConcat(p.entries, q.entries, m, c, liability);
      NetBalanceByLines(p.entries, q.entries, m, c, liability);
    }
  }

  /** After two deposits of a client the first can be reversed twice, whatever
      distinct ids and keys are used, which takes back the second as well. */
  lemma {:induction false} CanReverseTwice(
    canonical: Canonical, a: string, k: string, b: string, l: string, first: ReversalInput, second: ReversalInput)
    requires a != "" && Distinct([a, b, first.id, second.id]) && Distinct([k, l, first.idempotencyKey, second.idempotencyKey])
    ensures var state := TwoDeposits(canonical, a, k, b, l);
            |state.posted| == 2 && state.posted[0].id == a &&
            var once := Store(canonical, state, CreateReversal(state.posted[0], first));
            var twice := Store(canonical, once, CreateReversal(state.posted[0], second));
            && |twice.posted| == 4
            && twice.posted[2].reversesTransactionId == twice.posted[3].reversesTransactionId == Some(a)
  {
    var ids, keys := [a, b, first.id, second.id], [k, l, first.idempotencyKey, second.idempotencyKey];
    assert ids[0] != ids[1] && ids[0] != ids[2] && ids[1] != ids[2] && ids[0] != ids[3] && ids[1] != ids[3] && ids[2] != ids[3];
    assert keys[0] != keys[1] && keys[0] != keys[2] && keys[1] != keys[2] && keys[0] != keys[3] && keys[1] != keys[3] && keys[2] != keys[3];
    var p, q := TwoDepositsStored(canonical, a, k, b, l);
    ReversedTwice(canonical, State(BANK, [p, q]), p, q, first, second);
  }

  lemma {:induction false} ReversedTwice(canonical: Canonical, state: State, p: Posted, q: Posted, first: ReversalInput, second: ReversalInput)
    requires Sound(state) && state.posted == [p, q] && Map(LineOf, p.entries) == Map(LineOf, q.entries)
    requires p.id != "" && first.id !in [p.id, q.id] && second.id !in [p.id, q.id, first.id]
    requires first.idempotencyKey !in [p.idempotencyKey, q.idempotencyKey]
    requires second.idempotencyKey !in [p.idempotencyKey, q.idempotencyKey, first.idempotencyKey]
    ensures var once := Store(canonical, state, CreateReversal(p, first));
            var twice := Store(canonical, once, CreateReversal(p, second));
            && |twice.posted| == 4
            && twice.posted[2].reversesTransactionId == twice.posted[3].reversesTransactionId == Some(p.id)
  {
    assert p in state.posted;
    AlikeCover(state, p, q);
    CoversDown(state, p);
    ReversalAcceptedIff(canonical, state, p, first);
    SecondReversalAcceptedIff(canonical, state, p, first, second);
    ReversalStored(canonical, state, p, first);
    var once := Store(canonical, state, CreateReversal(p, first));
    StillFree(state.posted, once.posted[2], p.firmId, second.idempotencyKey);
    assert once.posted == state.posted + [once.posted[2]];
    ReversalStored(canonical, once, p, second);
  }

  lemma {:induction false} ReversalStored(canonical: Canonical, state: State, original: Posted, input: ReversalInput)
    requires Sound(state) && Post(canonical, state, CreateReversal(original, input)).Ok?
    requires Find(SameKey(original.firmId, input.idempotencyKey), state.posted).None? && !HasId(state.posted, input.id)
    ensures var after := Store(canonical, state, CreateReversal(original, input));
            && Sound(after) && |after.posted| == |state.posted| + 1 && state.posted <= after.posted
            && var p := after.posted[|state.posted|];
            p.reversesTransactionId == Some(original.id) && p.id == input.id && p.idempotencyKey == input.idempotencyKey && p.firmId == original.firmId
  {
    NewPosting(canonical, state, CreateReversal(original, input));
  }

  lemma {:induction false} CoversDown(state: State, original: Posted)
    requires Sound(state) && Covers(state, original, 2)
    ensures Covers(state, original, 1)
  {
    forall m, c ensures NetBalance(AllEntries(state.posted), m, c, LiabilityIds(state.accounts))
                     >= NetBalance(original.entries, m, c, LiabilityIds(state.accounts)) {
      assert NetBalance(AllEntries(state.posted), m, c, LiabilityIds(state.accounts)) >= 0;
    }
  }
}
