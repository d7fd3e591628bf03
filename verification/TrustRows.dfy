/** What the database keeps of a posted transaction: everything but the mark on
    a line that names the transaction it reverses, for which its table of
    entries has no column. Nothing that posting decides depends on the mark. */
module TrustRows {
  import opened Sequences
  import opened TrustLedger

  function RowOf(e: Entry): Entry {
    e.(line := e.line.(reversingTransactionId := None))
  }

  function StoredOf(p: Posted): Posted {
    p.(entries := Map(RowOf, p.entries))
  }

  /** A ledger as the database reads it back. */
  function Rows(state: State): State {
    state.(posted := Map(StoredOf, state.posted))
  }

  /** A receipt that is read back is the receipt that was given if and only if no
      line carries a mark. */
  lemma {:induction false} ReceiptReturnsIff(p: Posted)
    ensures StoredOf(p) == p <==> forall e :: e in p.entries ==> e.line.reversingTransactionId.None?
  {
    var rows := Map(RowOf, p.entries);
    if rows == p.entries {
      forall e | e in p.entries ensures e.line.reversingTransactionId.None? {
        var i :| 0 <= i < |p.entries| && p.entries[i] == e;
        assert rows[i] == RowOf(e);
      }
    }
    if forall e :: e in p.entries ==> e.line.reversingTransactionId.None? {
      forall i | 0 <= i < |rows| ensures rows[i] == p.entries[i] { assert p.entries[i] in p.entries; }
    }
  }

  /** The receipt of a reversal never is. */
  lemma {:induction false} ReversalReceiptChanges(original: Posted, input: ReversalInput, p: Posted)
    requires original.entries != [] && p.entries == Stamp(CreateReversal(original, input))
    ensures StoredOf(p) != p
  {
    assert p.entries[0] in p.entries && p.entries[0].line == CreateReversal(original, input).lines[0];
    ReceiptReturnsIff(p);
  }

  lemma {:induction false} RowsTwice(posted: seq<Posted>)
    ensures Map(StoredOf, Map(StoredOf, posted)) == Map(StoredOf, posted)
  {
    forall i | 0 <= i < |posted| ensures StoredOf(StoredOf(posted[i])) == StoredOf(posted[i]) {
      assert Map(RowOf, Map(RowOf, posted[i].entries)) == Map(RowOf, posted[i].entries);
    }
  }

  lemma {:induction false} NetBalanceOfRows(entries: seq<Entry>, m: string, c: string, liability: set<string>)
    ensures NetBalance(Map(RowOf, entries), m, c, liability) == NetBalance(entries, m, c, liability)
  {
    if entries != [] {
      assert Map(RowOf, entries)[1..] == Map(RowOf, entries[1..]);
      NetBalanceOfRows(entries[1..], m, c, liability);
    }
  }

  lemma {:induction false} AllEntriesOfRows(posted: seq<Posted>)
    ensures AllEntries(Map(StoredOf, posted)) == Map(RowOf, AllEntries(posted))
  {
    if posted != [] {
      assert Map(StoredOf, posted)[1..] == Map(StoredOf, posted[1..]);
      AllEntriesOfRows(posted[1..]);
      MapConcat(RowOf, posted[0].entries, AllEntries(posted[1..]));
    }
  }

  lemma {:induction false} FindOfRows(p: Posted -> bool, posted: seq<Posted>)
    requires forall q :: p(StoredOf(q)) == p(q)
    ensures Find(p, Map(StoredOf, posted)) == if Find(p, posted).None? then None else Some(StoredOf(Find(p, posted).value))
  {
    if posted != [] {
      assert Map(StoredOf, posted)[1..] == Map(StoredOf, posted[1..]);
      FindOfRows(p, posted[1..]);
    }
  }

  lemma {:induction false} MirrorsOfRows(entries: seq<Entry>, lines: seq<Line>)
    ensures Mirrors(Map(LineOf, Map(RowOf, entries)), lines) <==> Mirrors(Map(LineOf, entries), lines)
  {
    var a, b := Map(LineOf, Map(RowOf, entries)), Map(LineOf, entries);
    assert forall i :: 0 <= i < |entries| ==> a[i] == b[i].(reversingTransactionId := None);
  }

  lemma {:induction false} CheckAccountsByBalance(accounts: seq<Account>, xs: seq<Entry>, ys: seq<Entry>, next: seq<Entry>, rest: seq<Entry>)
    requires forall m, c :: NetBalance(xs, m, c, LiabilityIds(accounts)) == NetBalance(ys, m, c, LiabilityIds(accounts))
    ensures CheckAccounts(accounts, xs, next, rest) == CheckAccounts(accounts, ys, next, rest)
  {
    if rest != [] { CheckAccountsByBalance(accounts, xs, ys, next, rest[1..]); }
  }

  lemma {:induction false} ReversalOfRows(posted: seq<Posted>, tx: Transaction)
    requires tx.reversesTransactionId.Some?
    ensures ValidateReversal(Map(StoredOf, posted), tx) == ValidateReversal(posted, tx)
  {
    var same := SameId(tx.firmId, tx.reversesTransactionId.value);
    FindOfRows(same, posted);
    if Find(same, posted).Some? { MirrorsOfRows(Find(same, posted).value.entries, tx.lines); }
  }

  /** Posting against the rows decides as posting against the ledger does; the
      receipt of a repeated request comes back without marks. */
  lemma {:induction false} PostIgnoresMarks(canonical: Canonical, state: State, tx: Transaction)
    ensures var a, b := Post(canonical, state, tx), Post(canonical, Rows(state), tx);
            if a.Refused? then b == a
            else b == Ok(if Find(SameKey(tx.firmId, tx.idempotencyKey), state.posted).Some? then StoredOf(a.posted) else a.posted)
  {
    FindOfRows(SameKey(tx.firmId, tx.idempotencyKey), state.posted);
    if Given(tx.reversesTransactionId) { ReversalOfRows(state.posted, tx); }
    AllEntriesOfRows(state.posted);
    forall m, c ensures NetBalance(AllEntries(Rows(state).posted), m, c, LiabilityIds(state.accounts))
                     == NetBalance(AllEntries(state.posted), m, c, LiabilityIds(state.accounts)) {
      NetBalanceOfRows(AllEntries(state.posted), m, c, LiabilityIds(state.accounts));
    }
    CheckAccountsByBalance(state.accounts, AllEntries(Rows(state).posted), AllEntries(state.posted), Stamp(tx), Stamp(tx));
  }

  lemma {:induction false} SumOfRows(f: Line -> int, entries: seq<Entry>)
    requires forall l: Line :: f(l.(reversingTransactionId := None)) == f(l)
    ensures Sum(f, Map(LineOf, Map(RowOf, entries))) == Sum(f, Map(LineOf, entries))
  {
    if entries != [] {
      assert Map(RowOf, entries)[1..] == Map(RowOf, entries[1..]);
      assert Map(LineOf, Map(RowOf, entries))[1..] == Map(LineOf, Map(RowOf, entries[1..]));
      assert Map(LineOf, entries)[1..] == Map(LineOf, entries[1..]);
      SumOfRows(f, entries[1..]);
    }
  }

  lemma {:induction false} WellPostedOfRows(accounts: seq<Account>, p: Posted)
    requires WellPosted(accounts, p)
    ensures WellPosted(accounts, StoredOf(p))
  {
    SumOfRows(Debit, p.entries);
    SumOfRows(Credit, p.entries);
    var lines := Map(LineOf, StoredOf(p).entries);
    forall l | l in lines
      ensures l.debitCents >= 0 && l.creditCents >= 0 && (l.debitCents == 0 || l.creditCents == 0)
      ensures exists a :: a in accounts && a.id == l.accountId
    {
      var i :| 0 <= i < |lines| && lines[i] == l;
      assert Map(LineOf, p.entries)[i] in Map(LineOf, p.entries);
    }
  }

  lemma {:induction false} ReversesEarlierOfRows(posted: seq<Posted>, i: nat)
    requires i < |posted| && ReversesEarlier(posted, i)
    ensures ReversesEarlier(Map(StoredOf, posted), i)
  {
    if Given(posted[i].reversesTransactionId) {
      var j :| 0 <= j < i && posted[j].id == posted[i].reversesTransactionId.value && posted[j].firmId == posted[i].firmId
            && Mirrors(Map(LineOf, posted[j].entries), Map(LineOf, posted[i].entries));
      MirrorsOfRows(posted[j].entries, Map(LineOf, posted[i].entries));
      MirrorsOfUnmarked(Map(LineOf, Map(RowOf, posted[j].entries)), posted[i].entries);
    }
  }

  lemma {:induction false} MirrorsOfUnmarked(lines: seq<Line>, entries: seq<Entry>)
    requires Mirrors(lines, Map(LineOf, entries))
    ensures Mirrors(lines, Map(LineOf, Map(RowOf, entries)))
  {
    var a, b := Map(LineOf, Map(RowOf, entries)), Map(LineOf, entries);
    assert forall i :: 0 <= i < |entries| ==> a[i] == b[i].(reversingTransactionId := None);
  }

  /** The rows of a sound ledger are a sound ledger. */
  lemma {:induction false} SoundOfRows(state: State)
    requires Sound(state)
    ensures Sound(Rows(state))
  {
    var rows := Rows(state).posted;
    forall p | p in rows ensures WellPosted(state.accounts, p) {
      var i :| 0 <= i < |rows| && rows[i] == p;
      assert state.posted[i] in state.posted;
      WellPostedOfRows(state.accounts, state.posted[i]);
    }
    AllEntriesOfRows(state.posted);
    forall m, c ensures NetBalance(AllEntries(rows), m, c, LiabilityIds(state.accounts)) >= 0 {
      NetBalanceOfRows(AllEntries(state.posted), m, c, LiabilityIds(state.accounts));
      assert NetBalance(AllEntries(state.posted), m, c, LiabilityIds(state.accounts)) >= 0;
    }
    forall i | 0 <= i < |rows| ensures ReversesEarlier(rows, i) { ReversesEarlierOfRows(state.posted, i); }
  }
}
