/** The balance table kept beside the trust ledger. Each post adds the deltas of
    its entries to the table, under a guard against going below zero, instead
    of summing the whole ledger again. */
module TrustBalances {
  import opened Sequences
  import opened Grouping
  import opened TrustLedger
  import opened TrustRows

  datatype Owner = Owner(firmId: string, matterId: string, clientId: string)

  datatype BalanceDelta = BalanceDelta(owner: Owner, deltaCents: int)

  type Table = map<Owner, int>

  // ----- Deltas of a list of entries -----

  function OwnerOf(e: Entry): Owner {
    Owner(e.line.firmId, e.line.matterId, e.line.clientId)
  }

  /** The text under which the entries of one owner are gathered. */
  function KeyText(o: Owner): string {
    o.firmId + ":" + o.matterId + ":" + o.clientId
  }

  function KeyOf(e: Entry): string {
    KeyText(OwnerOf(e))
  }

  function IsLiability(liability: set<string>): Entry -> bool {
    (e: Entry) => e.line.accountId in liability
  }

  function Group(entries: seq<Entry>, liability: set<string>, key: string): seq<Entry> {
    Members(IsLiability(liability), KeyOf, entries, key)
  }

  /** The owner is that of the first entry under the key. */
  function GroupDelta(entries: seq<Entry>, liability: set<string>): string -> BalanceDelta {
    (key: string) =>
      var mine := Group(entries, liability, key);
      BalanceDelta(if mine == [] then Owner("", "", "") else OwnerOf(mine[0]), Sum(Delta, mine))
  }

  predicate Changes(d: BalanceDelta) {
    d.deltaCents != 0
  }

  function Deltas(entries: seq<Entry>, liability: set<string>): seq<BalanceDelta> {
    Filter(Changes, Map(GroupDelta(entries, liability), Keys(IsLiability(liability), KeyOf, entries)))
  }

  function OpenDelta(e: Entry): BalanceDelta {
    BalanceDelta(OwnerOf(e), 0)
  }

  function AddDelta(d: BalanceDelta, e: Entry): BalanceDelta {
    d.(deltaCents := d.deltaCents + Delta(e))
  }

  lemma {:induction false} FoldIsSum(start: BalanceDelta, entries: seq<Entry>)
    ensures Fold(AddDelta, start, entries) == start.(deltaCents := start.deltaCents + Sum(Delta, entries))
    decreases |entries|
  {
    if entries != [] {
      var n := |entries| - 1;
      FoldIsSum(start, entries[..n]);
      assert entries == entries[..n] + [entries[n]];
      SumConcat(Delta, entries[..n], [entries[n]]);
      assert Sum(Delta, [entries[n]]) == Delta(entries[n]);
    }
  }

  lemma {:induction false} FoldIsGroupDelta(entries: seq<Entry>, liability: set<string>, key: string)
    requires Group(entries, liability, key) != []
    ensures GroupValue(OpenDelta, AddDelta, Group(entries, liability, key)) == GroupDelta(entries, liability)(key)
  {
    var mine := Group(entries, liability, key);
    FoldIsSum(OpenDelta(mine[0]), mine);
  }

  /** `clientTrustBalanceDeltas`: one pass that gathers by key, then drops zeros. */
  method ClientTrustBalanceDeltas(entries: seq<Entry>, accounts: seq<Account>) returns (deltas: seq<BalanceDelta>)
    ensures deltas == Deltas(entries, LiabilityIds(accounts))
  {
    var liability := LiabilityIds(accounts);
    var order, values := GatherInOrder(IsLiability(liability), KeyOf, OpenDelta, AddDelta, entries);
    forall i | 0 <= i < |order| ensures values[i] == GroupDelta(entries, liability)(order[i]) {
      FoldIsGroupDelta(entries, liability, order[i]);
    }
    assert values == Map(GroupDelta(entries, liability), order);
    deltas := Filter(Changes, values);
  }

  // ----- What the deltas mean -----

  function OwnedBy(o: Owner, liability: set<string>): Entry -> bool {
    (e: Entry) => e.line.accountId in liability && OwnerOf(e) == o
  }

  function OwnerNet(entries: seq<Entry>, o: Owner, liability: set<string>): int {
    Sum(Delta, Filter(OwnedBy(o, liability), entries))
  }

  /** The owner has the key of a group that opens with another owner's entry. */
  ghost predicate ComesSecond(entries: seq<Entry>, liability: set<string>, o: Owner) {
    var mine := Group(entries, liability, KeyText(o));
    mine != [] && OwnerOf(mine[0]) != o
  }

  /** Whoever shares a key text with an owner before it nets to nothing. */
  ghost predicate LaterOwnersCancel(entries: seq<Entry>, liability: set<string>) {
    forall o :: ComesSecond(entries, liability, o) ==> OwnerNet(entries, o, liability) == 0
  }

  /** The deltas hold exactly the owners whose entries do not cancel out, with
      what those entries come to. */
  ghost predicate DeltasExact(entries: seq<Entry>, liability: set<string>) {
    forall d :: d in Deltas(entries, liability) <==> d.deltaCents == OwnerNet(entries, d.owner, liability) != 0
  }

  ghost predicate OwnersDistinct(deltas: seq<BalanceDelta>) {
    forall i, j :: 0 <= i < j < |deltas| ==> deltas[i].owner != deltas[j].owner
  }

  lemma {:induction false} OwnerNetWithin(p: Entry -> bool, entries: seq<Entry>, o: Owner, liability: set<string>)
    requires forall e :: e in entries && OwnedBy(o, liability)(e) ==> p(e)
    ensures OwnerNet(Filter(p, entries), o, liability) == OwnerNet(entries, o, liability)
  {
    var q := OwnedBy(o, liability);
    FilterFilter(q, p, entries);
    FilterAgree(Both(q, p), q, entries);
  }

  lemma OwnerNetNone(entries: seq<Entry>, o: Owner, liability: set<string>)
    requires forall e :: e in entries ==> !OwnedBy(o, liability)(e)
    ensures OwnerNet(entries, o, liability) == 0
  {
    FilterNone(OwnedBy(o, liability), entries);
  }

  /** If every owner nets to nothing, so do all of them together. */
  lemma {:induction false} OwnersCancel(entries: seq<Entry>, liability: set<string>)
    requires forall e :: e in entries ==> e.line.accountId in liability
    requires forall o :: OwnerNet(entries, o, liability) == 0
    ensures Sum(Delta, entries) == 0
    decreases |entries|
  {
    if entries != [] {
      var o := OwnerOf(entries[0]);
      var others := Not(OwnedBy(o, liability));
      var rest := Filter(others, entries);
      SumSplit(Delta, OwnedBy(o, liability), entries);
      assert OwnerNet(entries, o, liability) == 0;
      assert rest == Filter(others, entries[1..]);
      forall q ensures OwnerNet(rest, q, liability) == 0 {
        if q == o { OwnerNetNone(rest, q, liability); } else { OwnerNetWithin(others, entries, q, liability); }
      }
      OwnersCancel(rest, liability);
    }
  }

  /** What a group holds beyond its first owner's entries comes to nothing. */
  lemma OthersCancel(entries: seq<Entry>, liability: set<string>, key: string, first: Owner)
    requires LaterOwnersCancel(entries, liability) && Group(entries, liability, key) != []
    requires first == OwnerOf(Group(entries, liability, key)[0])
    ensures Sum(Delta, Filter(Not(OwnedBy(first, liability)), Group(entries, liability, key))) == 0
  {
    var mine := Group(entries, liability, key);
    var rest := Filter(Not(OwnedBy(first, liability)), mine);
    forall o ensures OwnerNet(rest, o, liability) == 0 {
      if o == first || KeyText(o) != key {
        OwnerNetNone(rest, o, liability);
      } else {
        OwnerNetWithin(Not(OwnedBy(first, liability)), mine, o, liability);
        GroupHoldsOwner(entries, liability, o);
        assert ComesSecond(entries, liability, o);
      }
    }
    OwnersCancel(rest, liability);
  }

  lemma {:induction false} GroupOwner(entries: seq<Entry>, liability: set<string>, key: string)
    requires Group(entries, liability, key) != []
    ensures KeyText(GroupDelta(entries, liability)(key).owner) == key
  {
    var mine := Group(entries, liability, key);
    assert mine[0] in mine;
  }

  lemma {:induction false} GroupDeltaIsNet(entries: seq<Entry>, liability: set<string>, key: string)
    requires LaterOwnersCancel(entries, liability) && Group(entries, liability, key) != []
    ensures var d := GroupDelta(entries, liability)(key);
            d.deltaCents == OwnerNet(entries, d.owner, liability)
  {
    var mine := Group(entries, liability, key);
    var first := OwnerOf(mine[0]);
    GroupOwner(entries, liability, key);
    SumSplit(Delta, OwnedBy(first, liability), mine);
    OthersCancel(entries, liability, key, first);
    GroupHoldsOwner(entries, liability, first);
  }

  /** An owner's entries are all in the group of its key. */
  lemma GroupHoldsOwner(entries: seq<Entry>, liability: set<string>, o: Owner)
    ensures OwnerNet(Group(entries, liability, KeyText(o)), o, liability) == OwnerNet(entries, o, liability)
  {
    OwnerNetWithin(InGroup(IsLiability(liability), KeyOf, KeyText(o)), entries, o, liability);
  }

  /** An owner whose entries do not cancel out has entries, and a group. */
  lemma OwnerHasGroup(entries: seq<Entry>, liability: set<string>, o: Owner)
    requires OwnerNet(entries, o, liability) != 0
    ensures Group(entries, liability, KeyText(o)) != []
  {
    var owned := Filter(OwnedBy(o, liability), entries);
    assert owned != [];
    assert owned[0] in owned;
    assert owned[0] in Group(entries, liability, KeyText(o));
  }

  /** What the deltas are, key by key. */
  lemma {:induction false} DeltaIff(entries: seq<Entry>, liability: set<string>, d: BalanceDelta)
    ensures d in Deltas(entries, liability) <==>
            && d.deltaCents != 0 && Group(entries, liability, KeyText(d.owner)) != []
            && d == GroupDelta(entries, liability)(KeyText(d.owner))
  {
    var keys := Keys(IsLiability(liability), KeyOf, entries);
    var all := Map(GroupDelta(entries, liability), keys);
    KeyIffMembers(IsLiability(liability), KeyOf, entries, KeyText(d.owner));
    if d in all {
      var i :| 0 <= i < |keys| && all[i] == d;
      assert keys[i] in keys;
      KeyIffMembers(IsLiability(liability), KeyOf, entries, keys[i]);
      GroupOwner(entries, liability, keys[i]);
    }
    if KeyText(d.owner) in keys && d == GroupDelta(entries, liability)(KeyText(d.owner)) {
      var i :| 0 <= i < |keys| && keys[i] == KeyText(d.owner);
      assert all[i] == d;
    }
  }

  lemma {:induction false} DeltaOwnersDistinct(entries: seq<Entry>, liability: set<string>)
    ensures OwnersDistinct(Deltas(entries, liability))
  {
    var keys := Keys(IsLiability(liability), KeyOf, entries);
    var all := Map(GroupDelta(entries, liability), keys);
    forall i | 0 <= i < |keys| ensures KeyText(all[i].owner) == keys[i] {
      assert keys[i] in keys;
      KeyIffMembers(IsLiability(liability), KeyOf, entries, keys[i]);
      GroupOwner(entries, liability, keys[i]);
    }
    forall i, j | 0 <= i < j < |all| ensures all[i].owner != all[j].owner { assert keys[i] != keys[j]; }
    FilteredOwnersDistinct(all);
  }

  /** Each owner appears once at most; the deltas are exact if and only if no
      owner that shares a key text with an earlier one nets to something. */
  lemma {:induction false} DeltasExactIff(entries: seq<Entry>, liability: set<string>)
    ensures OwnersDistinct(Deltas(entries, liability))
    ensures DeltasExact(entries, liability) <==> LaterOwnersCancel(entries, liability)
  {
    DeltaOwnersDistinct(entries, liability);
    if LaterOwnersCancel(entries, liability) {
      forall d ensures d in Deltas(entries, liability) <==> d.deltaCents == OwnerNet(entries, d.owner, liability) != 0 {
        DeltaIff(entries, liability, d);
        if OwnerNet(entries, d.owner, liability) != 0 { OwnerHasGroup(entries, liability, d.owner); }
        if Group(entries, liability, KeyText(d.owner)) != [] {
          GroupDeltaIsNet(entries, liability, KeyText(d.owner));
          assert ComesSecond(entries, liability, d.owner) ==> OwnerNet(entries, d.owner, liability) == 0;
        }
      }
    }
    if DeltasExact(entries, liability) {
      forall o | ComesSecond(entries, liability, o) ensures OwnerNet(entries, o, liability) == 0 {
        DeltaIff(entries, liability, BalanceDelta(o, OwnerNet(entries, o, liability)));
      }
    }
  }

  /** No two owners among the entries share a key text. */
  ghost predicate KeysFaithful(entries: seq<Entry>, liability: set<string>) {
    forall e, f :: e in entries && f in entries && e.line.accountId in liability && f.line.accountId in liability ==>
      (KeyOf(e) == KeyOf(f) ==> OwnerOf(e) == OwnerOf(f))
  }

  lemma FaithfulCancels(entries: seq<Entry>, liability: set<string>)
    requires KeysFaithful(entries, liability)
    ensures LaterOwnersCancel(entries, liability)
  {
    forall o | ComesSecond(entries, liability, o) ensures OwnerNet(entries, o, liability) == 0 {
      var mine := Group(entries, liability, KeyText(o));
      assert mine[0] in mine;
      OwnerNetNone(entries, o, liability);
    }
  }

  lemma {:induction false} FilteredOwnersDistinct(all: seq<BalanceDelta>)
    requires OwnersDistinct(all)
    ensures OwnersDistinct(Filter(Changes, all))
  {
    if all != [] {
      FilteredOwnersDistinct(all[1..]);
      assert forall d :: d in Filter(Changes, all[1..]) ==> d.owner != all[0].owner;
    }
  }

  /** Matter ids free of ':' make the keys of one firm's entries faithful. */
  lemma ColonFreeIsFaithful(entries: seq<Entry>, liability: set<string>, firmId: string)
    requires forall e :: e in entries ==> e.line.firmId == firmId && ':' !in e.line.matterId
    ensures KeysFaithful(entries, liability)
  {
    forall e, f | e in entries && f in entries && KeyOf(e) == KeyOf(f) ensures OwnerOf(e) == OwnerOf(f) {
      var a, b := OwnerOf(e), OwnerOf(f);
      var n := |firmId| + 1;
      var x, y := a.matterId + ":" + a.clientId, b.matterId + ":" + b.clientId;
      assert KeyText(a) == (firmId + ":") + x && KeyText(b) == (firmId + ":") + y;
      assert x == KeyText(a)[n..] == KeyText(b)[n..] == y;
      SplitAtColon(a.matterId, a.clientId, b.matterId, b.clientId);
    }
  }

  lemma SplitAtColon(m: string, c: string, m': string, c': string)
    requires ':' !in m && ':' !in m' && m + ":" + c == m' + ":" + c'
    ensures m == m' && c == c'
  {
    var x, y := m + ":" + c, m' + ":" + c';
    assert x[|m|] == ':' && y[|m'|] == ':';
    assert forall i :: 0 <= i < |m| ==> x[i] == m[i] && m[i] in m;
    assert forall i :: 0 <= i < |m'| ==> y[i] == m'[i] && m'[i] in m';
    assert m == x[..|m|] && m' == y[..|m|];
    assert c == x[|m| + 1..] && c' == y[|m| + 1..];
  }

  /** Without that, clients of two matters can share a key text ... */
  lemma {:induction false} KeysCanClash(firmId: string, m: string, x: string, c: string)
    ensures KeyText(Owner(firmId, m + ":" + x, c)) == KeyText(Owner(firmId, m, x + ":" + c))
  {
    var a, b := Owner(firmId, m + ":" + x, c), Owner(firmId, m, x + ":" + c);
    assert KeyText(a) == (firmId + ":" + m) + (":" + x + ":" + c);
    assert KeyText(b) == (firmId + ":" + m) + (":" + x + ":" + c);
  }

  /** ... and then the money of both is credited to the first of them. */
  lemma {:induction false} ClashMergesOwners(e: Entry, f: Entry, liability: set<string>)
    requires e.line.accountId in liability && f.line.accountId in liability
    requires KeyOf(e) == KeyOf(f) && OwnerOf(e) != OwnerOf(f)
    ensures GroupDelta([e, f], liability)(KeyOf(e)) == BalanceDelta(OwnerOf(e), Delta(e) + Delta(f))
    ensures OwnerNet([e, f], OwnerOf(e), liability) == Delta(e)
  {
    assert [e, f][1..] == [f];
    FilterAll(InGroup(IsLiability(liability), KeyOf, KeyOf(e)), [e, f]);
    assert Sum(Delta, [e, f]) == Delta(e) + Sum(Delta, [f]) == Delta(e) + Delta(f);
    assert Filter(OwnedBy(OwnerOf(e), liability), [f]) == [];
    assert Filter(OwnedBy(OwnerOf(e), liability), [e, f]) == [e];
  }

  // ----- The table -----

  function Balance(table: Table, o: Owner): int {
    if o in table then table[o] else 0
  }

  /** The largest value of an `integer` column. */
  const MAX_INTEGER := 2147483647

  datatype TableUpdate = Updated(table: Table) | Overdrawn | OutOfRange

  /** Rows are created or raised up to the column's range; lowering one needs a
      row that stays at zero or above. Otherwise the whole post fails. */
  function ApplyDeltas(table: Table, deltas: seq<BalanceDelta>): TableUpdate
    decreases |deltas|
  {
    if deltas == [] then Updated(table)
    else
      var d := deltas[0];
      var cents := Balance(table, d.owner) + d.deltaCents;
      if d.deltaCents > 0 && cents > MAX_INTEGER then OutOfRange
      else if d.deltaCents > 0 || (d.owner in table && cents >= 0) then ApplyDeltas(table[d.owner := cents], deltas[1..])
      else Overdrawn
  }

  /** The update loop of the database repository. */
  method UpdateBalances(table: Table, deltas: seq<BalanceDelta>) returns (updated: TableUpdate)
    ensures updated == ApplyDeltas(table, deltas)
  {
    var t := table;
    for i := 0 to |deltas|
      invariant ApplyDeltas(table, deltas) == ApplyDeltas(t, deltas[i..])
    {
      var d := deltas[i];
      assert deltas[i..][0] == d && deltas[i..][1..] == deltas[i + 1..];
      if d.deltaCents > 0 {
        if Balance(t, d.owner) + d.deltaCents > MAX_INTEGER { return OutOfRange; }
        t := t[d.owner := Balance(t, d.owner) + d.deltaCents];
      } else if d.owner in t && t[d.owner] + d.deltaCents >= 0 {
        t := t[d.owner := t[d.owner] + d.deltaCents];
      } else {
        return Overdrawn;
      }
    }
    updated := Updated(t);
  }

  function DeltaFor(deltas: seq<BalanceDelta>, o: Owner): int {
    Sum((d: BalanceDelta) => if d.owner == o then d.deltaCents else 0, deltas)
  }

  /** Whenever the update goes through, it adds every delta. */
  lemma {:induction false} ApplyAdds(table: Table, deltas: seq<BalanceDelta>)
    requires ApplyDeltas(table, deltas).Updated?
    ensures forall o :: Balance(ApplyDeltas(table, deltas).table, o) == Balance(table, o) + DeltaFor(deltas, o)
    decreases |deltas|
  {
    if deltas != [] {
      var d := deltas[0];
      ApplyAdds(table[d.owner := Balance(table, d.owner) + d.deltaCents], deltas[1..]);
    }
  }

  ghost predicate TableFits(table: Table) {
    forall o :: Balance(table, o) <= MAX_INTEGER
  }

  lemma {:induction false} ApplyFits(table: Table, deltas: seq<BalanceDelta>)
    requires TableFits(table) && ApplyDeltas(table, deltas).Updated?
    ensures TableFits(ApplyDeltas(table, deltas).table)
    decreases |deltas|
  {
    if deltas != [] {
      var d := deltas[0];
      var next := table[d.owner := Balance(table, d.owner) + d.deltaCents];
      forall o ensures Balance(next, o) <= MAX_INTEGER {
        assert Balance(table, o) <= MAX_INTEGER;
      }
      ApplyFits(next, deltas[1..]);
    }
  }

  /** Deltas that take no owner below zero never trip the guard; if they take
      none out of range either, the update goes through. */
  lemma {:induction false} ApplySucceeds(table: Table, deltas: seq<BalanceDelta>)
    requires OwnersDistinct(deltas)
    requires forall d :: d in deltas ==> d.deltaCents != 0 && Balance(table, d.owner) + d.deltaCents >= 0
    ensures ApplyDeltas(table, deltas) != Overdrawn
    ensures (forall d :: d in deltas ==> Balance(table, d.owner) + d.deltaCents <= MAX_INTEGER) ==> ApplyDeltas(table, deltas).Updated?
    decreases |deltas|
  {
    if deltas != [] {
      var d := deltas[0];
      var next := table[d.owner := Balance(table, d.owner) + d.deltaCents];
      assert forall e :: e in deltas[1..] ==> e.owner != d.owner;
      assert d in deltas;
      ApplySucceeds(next, deltas[1..]);
    }
  }

  lemma {:induction false} DeltaForOwner(deltas: seq<BalanceDelta>, o: Owner)
    requires OwnersDistinct(deltas)
    ensures forall d :: d in deltas && d.owner == o ==> DeltaFor(deltas, o) == d.deltaCents
    ensures (forall d :: d in deltas ==> d.owner != o) ==> DeltaFor(deltas, o) == 0
  {
    if deltas != [] {
      DeltaForOwner(deltas[1..], o);
      assert forall e :: e in deltas[1..] ==> e.owner != deltas[0].owner;
    }
  }

  // ----- Posting with the table -----

  /** One firm's rows of the database. */
  datatype Database = Database(firmId: string, accounts: seq<Account>, posted: seq<Posted>, balances: Table)

  datatype Outcome = Accepted(posted: Posted) | Rejected(error: Error) | IdTaken | RowRefused | GuardFired | RangeExceeded

  /** What the table of entries takes: exactly one side is positive, and it is
      within the range of the column. */
  predicate RowFits(l: Line) {
    || (0 < l.debitCents <= MAX_INTEGER && l.creditCents == 0)
    || (0 < l.creditCents <= MAX_INTEGER && l.debitCents == 0)
  }

  predicate RowsFit(lines: seq<Line>) {
    forall i :: 0 <= i < |lines| ==> RowFits(lines[i])
  }

  /** Exactly one side is a positive `integer`. */
  ghost predicate LineStorable(l: Line) {
    || (l.creditCents == 0 && 1 <= l.debitCents <= 2147483647)
    || (l.debitCents == 0 && 1 <= l.creditCents <= 2147483647)
  }

  ghost predicate LinesStorable(lines: seq<Line>) {
    forall l :: l in lines ==> LineStorable(l)
  }

  lemma {:induction false} RowsFitIff(lines: seq<Line>)
    ensures RowsFit(lines) <==> LinesStorable(lines)
  {
    forall i | 0 <= i < |lines| ensures RowFits(lines[i]) <==> LineStorable(lines[i]) {}
  }

  function Ledger(db: Database): State {
    State(db.accounts, db.posted)
  }

  /** The request and its lines belong to the firm, as the scope check makes sure. */
  predicate InScope(db: Database, tx: Transaction) {
    tx.firmId == db.firmId && forall i :: 0 <= i < |tx.lines| ==> tx.lines[i].firmId == db.firmId
  }

  /** The database with the rows of a transaction and the updated table. */
  function Grown(db: Database, p: Posted, table: Table): Database {
    db.(posted := db.posted + [StoredOf(p)], balances := table)
  }

  /** `postDrizzleLedgerTransaction`: all of it happens or none of it does. The
      receipt of a new transaction is as posted, what is kept are its rows. */
  function PostToDatabase(canonical: Canonical, db: Database, tx: Transaction): (Database, Outcome) {
    var r := Post(canonical, Ledger(db), tx);
    if r.Refused? then (db, Rejected(r.error))
    else if Find(SameKey(tx.firmId, tx.idempotencyKey), db.posted).Some? then (db, Accepted(r.posted))
    else if HasId(db.posted, tx.id) then (db, IdTaken)
    else Insert(db, tx.lines, r.posted)
  }

  /** The rows of a new transaction are inserted and the table is updated. */
  function Insert(db: Database, lines: seq<Line>, p: Posted): (Database, Outcome) {
    if !RowsFit(lines) then (db, RowRefused)
    else
      match ApplyDeltas(db.balances, Deltas(p.entries, LiabilityIds(db.accounts)))
      case Overdrawn => (db, GuardFired)
      case OutOfRange => (db, RangeExceeded)
      case Updated(table) => (Grown(db, p, table), Accepted(p))
  }

  /** The table has, for every owner, what its entries come to. */
  ghost predicate Shows(table: Table, entries: seq<Entry>, liability: set<string>) {
    forall o :: Balance(table, o) == OwnerNet(entries, o, liability)
  }

  ghost predicate TableExact(db: Database) {
    Shows(db.balances, AllEntries(db.posted), LiabilityIds(db.accounts))
  }

  ghost predicate OneFirm(db: Database) {
    forall e :: e in AllEntries(db.posted) ==> e.line.firmId == db.firmId
  }

  /** What is read from the database is what it keeps. */
  ghost predicate KeepsRows(db: Database) {
    Rows(Ledger(db)) == Ledger(db)
  }

  ghost predicate SoundDatabase(db: Database) {
    Sound(Ledger(db)) && KeepsRows(db) && OneFirm(db) && TableExact(db) && TableFits(db.balances)
  }

  lemma OwnerNetConcat(xs: seq<Entry>, ys: seq<Entry>, o: Owner, liability: set<string>)
    ensures OwnerNet(xs + ys, o, liability) == OwnerNet(xs, o, liability) + OwnerNet(ys, o, liability)
  {
    FilterConcat(OwnedBy(o, liability), xs, ys);
    SumConcat(Delta, Filter(OwnedBy(o, liability), xs), Filter(OwnedBy(o, liability), ys));
  }

  lemma OwnerNetIsNetBalance(entries: seq<Entry>, o: Owner, liability: set<string>)
    requires forall e :: e in entries ==> e.line.firmId == o.firmId
    ensures OwnerNet(entries, o, liability) == NetBalance(entries, o.matterId, o.clientId, liability)
  {
    FilterAgree(OwnedBy(o, liability), Counts(o.matterId, o.clientId, liability), entries);
  }

  /** The deltas add up to the net of every owner exactly when they are exact. */
  lemma {:induction false} DeltaForIsNetIff(next: seq<Entry>, liability: set<string>)
    ensures (forall o :: DeltaFor(Deltas(next, liability), o) == OwnerNet(next, o, liability)) <==> LaterOwnersCancel(next, liability)
  {
    var deltas := Deltas(next, liability);
    DeltasExactIff(next, liability);
    forall o ensures forall d :: d in deltas && d.owner == o ==> DeltaFor(deltas, o) == d.deltaCents
             ensures (forall d :: d in deltas ==> d.owner != o) ==> DeltaFor(deltas, o) == 0 {
      DeltaForOwner(deltas, o);
    }
    if DeltasExact(next, liability) {
      forall o ensures DeltaFor(deltas, o) == OwnerNet(next, o, liability) {
        if OwnerNet(next, o, liability) != 0 { assert BalanceDelta(o, OwnerNet(next, o, liability)) in deltas; }
      }
    }
    if forall o :: DeltaFor(deltas, o) == OwnerNet(next, o, liability) {
      forall d ensures d in deltas <==> d.deltaCents == OwnerNet(next, d.owner, liability) != 0 {
        assert DeltaFor(deltas, d.owner) == OwnerNet(next, d.owner, liability);
        if OwnerNet(next, d.owner, liability) != 0 {
          var f :| f in deltas && f.owner == d.owner;
          assert f.deltaCents == d.deltaCents ==> f == d;
        }
      }
    }
  }

  /** No client's balance is out of the column's range. */
  ghost predicate WithinRange(accounts: seq<Account>, entries: seq<Entry>) {
    forall m, c :: NetBalance(entries, m, c, LiabilityIds(accounts)) <= 2147483647
  }

  /** When the deltas of more entries have been added to a table that shows the
      entries before, it shows them all if and only if later owners cancel. */
  lemma {:induction false} AddedExactIff(table: Table, existing: seq<Entry>, next: seq<Entry>, liability: set<string>)
    requires Shows(table, existing, liability) && ApplyDeltas(table, Deltas(next, liability)).Updated?
    ensures Shows(ApplyDeltas(table, Deltas(next, liability)).table, existing + next, liability) <==> LaterOwnersCancel(next, liability)
  {
    DeltaForIsNetIff(next, liability);
    AddedShowsIff(table, existing, next, liability, Deltas(next, liability));
  }

  lemma {:induction false} AddedShowsIff(table: Table, existing: seq<Entry>, next: seq<Entry>, liability: set<string>, deltas: seq<BalanceDelta>)
    requires Shows(table, existing, liability) && ApplyDeltas(table, deltas).Updated?
    ensures Shows(ApplyDeltas(table, deltas).table, existing + next, liability)
        <==> forall o :: DeltaFor(deltas, o) == OwnerNet(next, o, liability)
  {
    var updated := ApplyDeltas(table, deltas).table;
    forall o ensures Balance(updated, o) == OwnerNet(existing + next, o, liability) <==> DeltaFor(deltas, o) == OwnerNet(next, o, liability) {
      AddedAt(table, existing, next, liability, deltas, o);
    }
  }

  lemma {:induction false} AddedAt(table: Table, existing: seq<Entry>, next: seq<Entry>, liability: set<string>, deltas: seq<BalanceDelta>, o: Owner)
    requires Shows(table, existing, liability) && ApplyDeltas(table, deltas).Updated?
    ensures Balance(ApplyDeltas(table, deltas).table, o) == OwnerNet(existing, o, liability) + DeltaFor(deltas, o)
    ensures OwnerNet(existing + next, o, liability) == OwnerNet(existing, o, liability) + OwnerNet(next, o, liability)
  {
    ApplyAdds(table, deltas);
    OwnerNetConcat(existing, next, o, liability);
  }

  lemma {:induction false} ClientNet(firmId: string, entries: seq<Entry>, m: string, c: string, liability: set<string>)
    requires forall e :: e in entries ==> e.line.firmId == firmId
    ensures OwnerNet(entries, Owner(firmId, m, c), liability) == NetBalance(entries, m, c, liability)
  {
    OwnerNetIsNetBalance(entries, Owner(firmId, m, c), liability);
  }

  /** Adding the deltas of entries that overdraw nobody to a table that shows the
      entries before goes through and shows them all if and only if later owners
      cancel and every balance stays in range. */
  lemma {:induction false} TableExactIff(table: Table, firmId: string, existing: seq<Entry>, next: seq<Entry>, accounts: seq<Account>)
    requires Shows(table, existing, LiabilityIds(accounts)) && TableFits(table)
    requires forall e :: e in existing + next ==> e.line.firmId == firmId
    requires NeverOverdrawn(accounts, existing + next)
    ensures var updated := ApplyDeltas(table, Deltas(next, LiabilityIds(accounts)));
            updated.Updated? && Shows(updated.table, existing + next, LiabilityIds(accounts))
            <==> LaterOwnersCancel(next, LiabilityIds(accounts)) && WithinRange(accounts, existing + next)
  {
    var liability := LiabilityIds(accounts);
    var updated := ApplyDeltas(table, Deltas(next, liability));
    if LaterOwnersCancel(next, liability) { GuardPasses(table, firmId, existing, next, accounts); }
    if updated.Updated? {
      AddedExactIff(table, existing, next, liability);
      ApplyFits(table, Deltas(next, liability));
      if Shows(updated.table, existing + next, liability) {
        forall m, c ensures NetBalance(existing + next, m, c, liability) <= MAX_INTEGER {
          ClientNet(firmId, existing + next, m, c, liability);
          assert Balance(updated.table, Owner(firmId, m, c)) <= MAX_INTEGER;
        }
      }
    }
  }

  lemma {:induction false} GuardPasses(table: Table, firmId: string, existing: seq<Entry>, next: seq<Entry>, accounts: seq<Account>)
    requires Shows(table, existing, LiabilityIds(accounts))
    requires forall e :: e in existing + next ==> e.line.firmId == firmId
    requires LaterOwnersCancel(next, LiabilityIds(accounts)) && NeverOverdrawn(accounts, existing + next)
    ensures ApplyDeltas(table, Deltas(next, LiabilityIds(accounts))) != Overdrawn
    ensures WithinRange(accounts, existing + next) ==> ApplyDeltas(table, Deltas(next, LiabilityIds(accounts))).Updated?
  {
    var liability := LiabilityIds(accounts);
    var deltas := Deltas(next, liability);
    DeltasExactIff(next, liability);
    forall d | d in deltas
      ensures Balance(table, d.owner) + d.deltaCents == NetBalance(existing + next, d.owner.matterId, d.owner.clientId, liability) >= 0
    {
      DeltaOwnerFirm(next, liability, d.owner, firmId);
      OwnerNetConcat(existing, next, d.owner, liability);
      OwnerNetIsNetBalance(existing + next, d.owner, liability);
    }
    ApplySucceeds(table, deltas);
  }

  lemma {:induction false} DeltaOwnerFirm(entries: seq<Entry>, liability: set<string>, o: Owner, firmId: string)
    requires OwnerNet(entries, o, liability) != 0 && forall e :: e in entries ==> e.line.firmId == firmId
    ensures o.firmId == firmId
  {
    var owned := Filter(OwnedBy(o, liability), entries);
    assert owned != [];
    assert owned[0] in owned;
  }

  /** The ledger accepts the request, under a new key and a new id. */
  ghost predicate NewToLedger(canonical: Canonical, state: State, tx: Transaction) {
    && Post(canonical, state, tx).Ok?
    && Find(SameKey(tx.firmId, tx.idempotencyKey), state.posted).None?
    && !HasId(state.posted, tx.id)
  }

  /** Every line fits a row, and no balance leaves the column's range. */
  ghost predicate Storable(db: Database, tx: Transaction) {
    LinesStorable(tx.lines) && WithinRange(db.accounts, AllEntries(db.posted) + Stamp(tx))
  }

  /** The result is a stored request and an exact table if and only if the request
      is storable and later owners cancel; if it is stored, the latter decides. */
  ghost predicate ExactIff(db: Database, tx: Transaction, result: (Database, Outcome)) {
    && (result.1.Accepted? && SoundDatabase(result.0) <==> Storable(db, tx) && LaterOwnersCancel(Stamp(tx), LiabilityIds(db.accounts)))
    && (result.1.Accepted? ==> (TableExact(result.0) <==> LaterOwnersCancel(Stamp(tx), LiabilityIds(db.accounts))))
    && (!result.1.Accepted? ==> result.0 == db)
  }

  /** A request that the ledger accepts is stored with an exact table if and only
      if it is storable and no owner sharing a key text with an earlier one nets
      to something. If it is stored at all, the second decides. Any other
      request leaves the database as it was. */
  lemma {:induction false} CacheExactIff(canonical: Canonical, db: Database, tx: Transaction)
    requires SoundDatabase(db) && InScope(db, tx)
    ensures NewToLedger(canonical, Ledger(db), tx) ==> ExactIff(db, tx, PostToDatabase(canonical, db, tx))
    ensures !NewToLedger(canonical, Ledger(db), tx) ==> PostToDatabase(canonical, db, tx).0 == db && !PostToDatabase(canonical, db, tx).1.GuardFired?
  {
    if NewToLedger(canonical, Ledger(db), tx) {
      NewPosting(canonical, Ledger(db), tx);
      InsertExactIff(db, tx, Post(canonical, Ledger(db), tx).posted);
    }
  }

  lemma {:induction false} InsertExactIff(db: Database, tx: Transaction, p: Posted)
    requires SoundDatabase(db) && InScope(db, tx) && p.entries == Stamp(tx) && Sound(State(db.accounts, db.posted + [p]))
    requires NeverOverdrawn(db.accounts, AllEntries(db.posted) + Stamp(tx))
    ensures ExactIff(db, tx, Insert(db, tx.lines, p))
  {
    GrowTable(db, tx, p);
    GrowLedger(db, p);
    var table := ApplyDeltas(db.balances, Deltas(Stamp(tx), LiabilityIds(db.accounts)));
    if table.Updated? { GrowSound(db, p, table.table); }
    InsertCases(db, tx, p, table);
  }

  lemma {:induction false} GrowSound(db: Database, p: Posted, table: Table)
    requires Sound(State(db.accounts, db.posted + [StoredOf(p)])) && Map(StoredOf, db.posted + [StoredOf(p)]) == db.posted + [StoredOf(p)]
    ensures SoundDatabase(Grown(db, p, table)) <==> OneFirm(Grown(db, p, table)) && TableExact(Grown(db, p, table)) && TableFits(table)
  {
  }

  lemma {:induction false} InsertCases(db: Database, tx: Transaction, p: Posted, table: TableUpdate)
    requires p.entries == Stamp(tx) && table == ApplyDeltas(db.balances, Deltas(Stamp(tx), LiabilityIds(db.accounts)))
    requires table.Updated? ==>
               && (TableExact(Grown(db, p, table.table)) <==> LaterOwnersCancel(Stamp(tx), LiabilityIds(db.accounts)))
               && (SoundDatabase(Grown(db, p, table.table)) <==> TableExact(Grown(db, p, table.table)))
    requires LaterOwnersCancel(Stamp(tx), LiabilityIds(db.accounts)) ==>
               (table.Updated? <==> WithinRange(db.accounts, AllEntries(db.posted) + Stamp(tx)))
    ensures ExactIff(db, tx, Insert(db, tx.lines, p))
  {
    var result := Insert(db, tx.lines, p);
    RowsFitIff(tx.lines);
    if RowsFit(tx.lines) && table.Updated? {
      assert result == (Grown(db, p, table.table), Accepted(p));
    } else {
      assert result.0 == db && !result.1.Accepted?;
    }
  }

  /** Keeping the rows of one more transaction keeps a sound ledger of rows. */
  lemma {:induction false} GrowLedger(db: Database, p: Posted)
    requires KeepsRows(db) && Sound(State(db.accounts, db.posted + [p]))
    ensures Sound(State(db.accounts, db.posted + [StoredOf(p)]))
    ensures Map(StoredOf, db.posted + [StoredOf(p)]) == db.posted + [StoredOf(p)]
  {
    var longer := db.posted + [p];
    assert Map(StoredOf, db.posted) == db.posted;
    assert Map(StoredOf, longer) == db.posted + [StoredOf(p)] by { MapConcat(StoredOf, db.posted, [p]); }
    SoundOfRows(State(db.accounts, longer));
    RowsTwice(longer);
  }

  lemma {:induction false} OwnerNetOfRows(entries: seq<Entry>, o: Owner, liability: set<string>)
    ensures OwnerNet(Map(RowOf, entries), o, liability) == OwnerNet(entries, o, liability)
  {
    if entries != [] {
      assert Map(RowOf, entries)[1..] == Map(RowOf, entries[1..]);
      OwnerNetOfRows(entries[1..], o, liability);
    }
  }

  lemma {:induction false} StampFirm(db: Database, tx: Transaction)
    requires InScope(db, tx)
    ensures forall e :: e in Stamp(tx) ==> e.line.firmId == db.firmId
    ensures forall e :: e in Map(RowOf, Stamp(tx)) ==> e.line.firmId == db.firmId
  {
    var next := Stamp(tx);
    forall e | e in next ensures e.line.firmId == db.firmId {
      var i :| 0 <= i < |tx.lines| && next[i] == e;
      assert e.line == tx.lines[i];
    }
    forall e | e in Map(RowOf, next) ensures e.line.firmId == db.firmId {
      var i :| 0 <= i < |next| && Map(RowOf, next)[i] == e;
      assert next[i] in next;
    }
  }

  lemma {:induction false} RowsShowAlike(table: Table, existing: seq<Entry>, next: seq<Entry>, liability: set<string>)
    ensures Shows(table, existing + Map(RowOf, next), liability) <==> Shows(table, existing + next, liability)
  {
    forall o ensures OwnerNet(existing + Map(RowOf, next), o, liability) == OwnerNet(existing + next, o, liability) {
      OwnerNetConcat(existing, next, o, liability);
      OwnerNetConcat(existing, Map(RowOf, next), o, liability);
      OwnerNetOfRows(next, o, liability);
    }
  }

  lemma {:induction false} GrowTable(db: Database, tx: Transaction, p: Posted)
    requires OneFirm(db) && TableExact(db) && TableFits(db.balances) && InScope(db, tx)
    requires p.entries == Stamp(tx) && NeverOverdrawn(db.accounts, AllEntries(db.posted) + Stamp(tx))
    ensures var table := ApplyDeltas(db.balances, Deltas(Stamp(tx), LiabilityIds(db.accounts)));
            table.Updated? ==>
            var after := Grown(db, p, table.table);
            && OneFirm(after) && TableFits(after.balances)
            && (TableExact(after) <==> LaterOwnersCancel(Stamp(tx), LiabilityIds(db.accounts)))
    ensures LaterOwnersCancel(Stamp(tx), LiabilityIds(db.accounts)) ==>
            var table := ApplyDeltas(db.balances, Deltas(Stamp(tx), LiabilityIds(db.accounts)));
            table != Overdrawn && (table.Updated? <==> WithinRange(db.accounts, AllEntries(db.posted) + Stamp(tx)))
  {
    var existing, next, liability := AllEntries(db.posted), Stamp(tx), LiabilityIds(db.accounts);
    var table := ApplyDeltas(db.balances, Deltas(next, liability));
    StampFirm(db, tx);
    AllEntriesSnoc(db.posted, StoredOf(p));
    if table.Updated? {
      ApplyFits(db.balances, Deltas(next, liability));
      RowsShowAlike(table.table, existing, next, liability);
      AddedExactIff(db.balances, existing, next, liability);
    }
    if LaterOwnersCancel(next, liability) {
      GuardPasses(db.balances, db.firmId, existing, next, db.accounts);
      TableExactIff(db.balances, db.firmId, existing, next, db.accounts);
    }
  }

  // ----- The failing side -----

  /** Deltas that only raise rows go through exactly when all stay in range. */
  lemma {:induction false} RaisesIff(table: Table, deltas: seq<BalanceDelta>)
    requires OwnersDistinct(deltas) && forall d :: d in deltas ==> d.deltaCents > 0
    ensures ApplyDeltas(table, deltas) != Overdrawn
    ensures ApplyDeltas(table, deltas).Updated? <==> forall d :: d in deltas ==> Balance(table, d.owner) + d.deltaCents <= MAX_INTEGER
    decreases |deltas|
  {
    if deltas != [] {
      var d := deltas[0];
      assert d in deltas && forall e :: e in deltas[1..] ==> e in deltas && e.owner != d.owner;
      RaisesIff(table[d.owner := Balance(table, d.owner) + d.deltaCents], deltas[1..]);
    }
  }

  /** The deltas as the key groups give them stay in range. */
  ghost predicate GroupsFit(db: Database, tx: Transaction) {
    forall d :: d in Deltas(Stamp(tx), LiabilityIds(db.accounts)) ==> Balance(db.balances, d.owner) + d.deltaCents <= 2147483647
  }

  /** A request that takes nothing from a client but credits later owners of a
      shared key is stored exactly when its lines and key groups fit, and then
      the table is wrong. */
  lemma {:induction false} UncancelledGoesWrong(canonical: Canonical, db: Database, tx: Transaction)
    requires SoundDatabase(db) && InScope(db, tx) && NewToLedger(canonical, Ledger(db), tx)
    requires !LaterOwnersCancel(Stamp(tx), LiabilityIds(db.accounts))
    requires forall e :: e in Stamp(tx) && e.line.accountId in LiabilityIds(db.accounts) ==> Delta(e) >= 0
    ensures PostToDatabase(canonical, db, tx).1.Accepted? <==> LinesStorable(tx.lines) && GroupsFit(db, tx)
    ensures PostToDatabase(canonical, db, tx).1.Accepted? ==> !TableExact(PostToDatabase(canonical, db, tx).0)
  {
    CacheExactIff(canonical, db, tx);
    NewPosting(canonical, Ledger(db), tx);
    RowsFitIff(tx.lines);
    CreditsRaise(Stamp(tx), LiabilityIds(db.accounts));
    DeltaOwnersDistinct(Stamp(tx), LiabilityIds(db.accounts));
    RaisesIff(db.balances, Deltas(Stamp(tx), LiabilityIds(db.accounts)));
  }

  /** Entries that take nothing from a client only raise rows. */
  lemma {:induction false} CreditsRaise(entries: seq<Entry>, liability: set<string>)
    requires forall e :: e in entries && e.line.accountId in liability ==> Delta(e) >= 0
    ensures forall d :: d in Deltas(entries, liability) ==> d.deltaCents > 0
  {
    forall d | d in Deltas(entries, liability) ensures d.deltaCents > 0 {
      DeltaIff(entries, liability, d);
      SumNonNegative(Delta, Group(entries, liability, KeyText(d.owner)));
    }
  }

  /** Two owners with one key text, both credited: the second does not cancel. */
  lemma {:induction false} SecondOwnerCounts(x: Entry, e: Entry, f: Entry, liability: set<string>)
    requires x.line.accountId !in liability && e.line.accountId in liability && f.line.accountId in liability
    requires KeyOf(e) == KeyOf(f) && OwnerOf(e) != OwnerOf(f) && Delta(f) != 0
    ensures !LaterOwnersCancel([x, e, f], liability)
  {
    var p, q := InGroup(IsLiability(liability), KeyOf, KeyOf(f)), OwnedBy(OwnerOf(f), liability);
    assert [x, e, f] == [x] + [e, f] && [e, f] == [e] + [f];
    FilterConcat(p, [x], [e, f]);
    FilterNone(p, [x]);
    FilterAll(p, [e, f]);
    assert Group([x, e, f], liability, KeyText(OwnerOf(f))) == [e, f];
    FilterConcat(q, [x], [e, f]);
    FilterConcat(q, [e], [f]);
    FilterNone(q, [x]);
    FilterNone(q, [e]);
    FilterAll(q, [f]);
    assert Filter(q, [x, e, f]) == [f];
    assert Sum(Delta, [f]) == Delta(f);
    assert OwnerNet([x, e, f], OwnerOf(f), liability) == Delta(f);
    assert ComesSecond([x, e, f], liability, OwnerOf(f));
  }

  /** One payment of three dollars for client "c" of matter "a:b" and client "b:c"
      of matter "a". */
  const CLASHING: Transaction := Transaction("t", "f", "k", None, "u", 0,
    [Line("f", "a", "b:c", "cash", 300, 0, "", None),
     Line("f", "a:b", "c", "owed", 0, 100, "", None),
     Line("f", "a", "b:c", "owed", 0, 200, "", None)], None)

  lemma {:induction false} ClashingAccepted(canonical: Canonical)
    ensures Post(canonical, State(BANK, []), CLASHING).Ok?
  {
    ClashingBalanced();
    ClashingKnown();
    EmptyIsSound(BANK);
    DepositAccepted(canonical, State(BANK, []), CLASHING);
  }

  lemma {:induction false} ClashingKnown()
    ensures AccountsKnown(BANK, CLASHING.lines) && TakesNothing(BANK, CLASHING.lines)
  {
    assert BANK[0] in BANK && BANK[1] in BANK && BANK[0].id == "cash" && BANK[1].id == "owed";
    assert "cash"[0] != "owed"[0];
  }

  lemma {:induction false} ClashingBalanced()
    ensures Balanced(CLASHING.lines)
  {
    SumOfThree(Debit, CLASHING.lines);
    SumOfThree(Credit, CLASHING.lines);
  }

  const EMPTY := Database("f", BANK, [], map[])

  lemma {:induction false} EmptyDatabase()
    ensures SoundDatabase(EMPTY)
  {
    EmptyIsSound(BANK);
  }

  lemma {:induction false} ClashingInScope()
    ensures InScope(EMPTY, CLASHING) && LinesStorable(CLASHING.lines)
  {
  }

  lemma {:induction false} SumAtMost(f: Entry -> int, xs: seq<Entry>, bound: nat)
    requires forall x :: x in xs ==> f(x) <= bound
    ensures Sum(f, xs) <= bound * |xs|
  {
    if xs != [] { SumAtMost(f, xs[1..], bound); }
  }

  /** Small credits from an empty table are in range. */
  lemma {:induction false} SmallGroupsFit(entries: seq<Entry>, liability: set<string>)
    requires |entries| <= 3 && forall e :: e in entries ==> Delta(e) <= 200
    ensures forall d :: d in Deltas(entries, liability) ==> d.deltaCents <= 600
  {
    forall d | d in Deltas(entries, liability) ensures d.deltaCents <= 600 {
      DeltaIff(entries, liability, d);
      SumAtMost(Delta, Group(entries, liability, KeyText(d.owner)), 200);
    }
  }

  /** From an empty database that payment is stored, and the table does not show
      what the ledger holds. */
  lemma {:induction false} TableCanGoWrong(canonical: Canonical)
    ensures SoundDatabase(EMPTY) && InScope(EMPTY, CLASHING)
    ensures PostToDatabase(canonical, EMPTY, CLASHING).1.Accepted? && !TableExact(PostToDatabase(canonical, EMPTY, CLASHING).0)
  {
    EmptyDatabase();
    ClashingInScope();
    ClashingAccepted(canonical);
    ClashingBreaks(LiabilityIds(BANK));
    SmallGroupsFit(Stamp(CLASHING), LiabilityIds(BANK));
    UncancelledGoesWrong(canonical, EMPTY, CLASHING);
  }

  lemma {:induction false} ClashingBreaks(liability: set<string>)
    requires liability == LiabilityIds(BANK)
    ensures !LaterOwnersCancel(Stamp(CLASHING), liability)
    ensures forall e :: e in Stamp(CLASHING) && e.line.accountId in liability ==> Delta(e) >= 0
    ensures |Stamp(CLASHING)| == 3 && forall e :: e in Stamp(CLASHING) ==> Delta(e) <= 200
  {
    var stamped := Stamp(CLASHING);
    var x, e, f := stamped[0], stamped[1], stamped[2];
    assert stamped == [x, e, f];
    assert BANK[1] in BANK && BANK[1].id == "owed" && "cash"[0] != "owed"[0];
    assert "cash" !in liability && "owed" in liability;
    KeysCanClash("f", "a", "b", "c");
    assert "a" + ":" + "b" == "a:b" && "b" + ":" + "c" == "b:c";
    assert |"a"| != |"a:b"|;
    SecondOwnerCounts(x, e, f, liability);
  }

  /** What the ledger in memory adds and the rows cannot take, the database refuses. */
  lemma {:induction false} UnfitDiffers(canonical: Canonical, db: Database, tx: Transaction)
    requires NewToLedger(canonical, Ledger(db), tx) && !LinesStorable(tx.lines)
    ensures PostToDatabase(canonical, db, tx) == (db, RowRefused)
    ensures |Store(canonical, Ledger(db), tx).posted| == |db.posted| + 1
  {
  }

  /** A deposit of one dollar with a third line that has neither side, and one of
      thirty million dollars. */
  const ZERO_LINE: Transaction := Transaction("t", "f", "k", None, "u", 0,
    [Line("f", "m", "c", "cash", 100, 0, "", None), Line("f", "m", "c", "owed", 0, 100, "", None), Line("f", "m", "c", "cash", 0, 0, "", None)], None)

  const LARGE: Transaction := Transaction("t", "f", "k", None, "u", 0,
    [Line("f", "m", "c", "cash", 3000000000, 0, "", None), Line("f", "m", "c", "owed", 0, 3000000000, "", None)], None)

  lemma {:induction false} UnfitBalanced()
    ensures Balanced(ZERO_LINE.lines) && Balanced(LARGE.lines)
    ensures !LinesStorable(ZERO_LINE.lines) && !LinesStorable(LARGE.lines)
  {
    var a, b := ZERO_LINE.lines, LARGE.lines;
    SumOfThree(Debit, a);
    SumOfThree(Credit, a);
    SumOfTwo(Debit, b);
    SumOfTwo(Credit, b);
    assert !LineStorable(a[2]) && !LineStorable(b[0]);
  }

  /** Lines of one client on the two accounts, with nothing taken from the client. */
  ghost predicate DepositLines(lines: seq<Line>) {
    forall l :: l in lines ==>
      && l.firmId == "f" && l.matterId == "m" && l.clientId == "c"
      && (l.accountId == "cash" || (l.accountId == "owed" && l.debitCents <= l.creditCents))
  }

  lemma {:induction false} DepositIsNew(canonical: Canonical, tx: Transaction)
    requires tx.firmId == "f" && tx.reversesTransactionId == None && Balanced(tx.lines) && DepositLines(tx.lines)
    ensures SoundDatabase(EMPTY) && NewToLedger(canonical, Ledger(EMPTY), tx)
  {
    EmptyDatabase();
    assert BANK[0] in BANK && BANK[1] in BANK && BANK[0].id == "cash" && BANK[1].id == "owed";
    assert "cash"[0] != "owed"[0];
    DepositAccepted(canonical, State(BANK, []), tx);
  }

  lemma {:induction false} DepositInScope(tx: Transaction)
    requires tx.firmId == "f" && DepositLines(tx.lines)
    ensures InScope(EMPTY, tx) && LaterOwnersCancel(Stamp(tx), LiabilityIds(BANK))
  {
    forall i | 0 <= i < |tx.lines| ensures tx.lines[i].firmId == "f" { assert tx.lines[i] in tx.lines; }
    forall e | e in Stamp(tx) ensures e.line.firmId == "f" && ':' !in e.line.matterId {
      var i :| 0 <= i < |tx.lines| && Stamp(tx)[i] == e;
      assert e.line == tx.lines[i] && tx.lines[i] in tx.lines;
    }
    ColonFreeIsFaithful(Stamp(tx), LiabilityIds(BANK), "f");
    FaithfulCancels(Stamp(tx), LiabilityIds(BANK));
  }

  /** Both are kept in memory and refused by the database. */
  lemma {:induction false} StoresCanDiffer(canonical: Canonical, tx: Transaction)
    requires tx == ZERO_LINE || tx == LARGE
    ensures SoundDatabase(EMPTY) && InScope(EMPTY, tx) && LaterOwnersCancel(Stamp(tx), LiabilityIds(BANK))
    ensures PostToDatabase(canonical, EMPTY, tx) == (EMPTY, RowRefused)
    ensures |Store(canonical, Ledger(EMPTY), tx).posted| == 1
  {
    UnfitBalanced();
    DepositIsNew(canonical, tx);
    DepositInScope(tx);
    UnfitDiffers(canonical, EMPTY, tx);
  }

  // ----- Runs -----

  /** A request is posted, or an account is opened under a new id. */
  function TakeDatabase(canonical: Canonical, db: Database, step: Step): Database {
    match step
    case PostStep(tx) => PostToDatabase(canonical, db, tx).0
    case OpenAccount(account) =>
      if FindAccount(db.accounts, account.id).Some? then db else db.(accounts := db.accounts + [account])
  }

  function RunDatabase(canonical: Canonical, db: Database, steps: seq<Step>): Database
    decreases |steps|
  {
    if steps == [] then db else RunDatabase(canonical, TakeDatabase(canonical, db, steps[0]), steps[1..])
  }

  /** The request is in scope, later owners of a shared key cancel in it, and if
      the ledger accepts it as new, it is storable. */
  ghost predicate Keepable(canonical: Canonical, db: Database, tx: Transaction) {
    && InScope(db, tx) && LaterOwnersCancel(Stamp(tx), LiabilityIds(db.accounts))
    && (NewToLedger(canonical, Ledger(db), tx) ==> Storable(db, tx))
  }

  /** Every request of the run can be kept, by the rows and accounts of its time. */
  ghost predicate RunInScope(canonical: Canonical, db: Database, steps: seq<Step>)
    decreases |steps|
  {
    steps != [] ==>
      && (steps[0].PostStep? ==> Keepable(canonical, db, steps[0].tx))
      && RunInScope(canonical, TakeDatabase(canonical, db, steps[0]), steps[1..])
  }

  /** The table shows, for every client of every matter, the sum over the
      whole ledger, which is never negative. */
  ghost predicate ShowsBalances(db: Database) {
    forall m, c :: 0 <= NetBalance(AllEntries(db.posted), m, c, LiabilityIds(db.accounts))
                     == Balance(db.balances, Owner(db.firmId, m, c))
  }

  lemma SoundShowsBalances(db: Database)
    requires SoundDatabase(db)
    ensures ShowsBalances(db)
  {
    var entries, liability := AllEntries(db.posted), LiabilityIds(db.accounts);
    forall m, c ensures 0 <= NetBalance(entries, m, c, liability) == Balance(db.balances, Owner(db.firmId, m, c)) {
      OwnerNetIsNetBalance(entries, Owner(db.firmId, m, c), liability);
      assert NeverOverdrawn(db.accounts, entries);
    }
  }

  /** No entry is on an account that is only now opened. */
  lemma {:induction false} OpenKeepsNet(db: Database, account: Account, o: Owner)
    requires SoundDatabase(db) && FindAccount(db.accounts, account.id).None?
    ensures OwnerNet(AllEntries(db.posted), o, LiabilityIds(db.accounts + [account])) == OwnerNet(AllEntries(db.posted), o, LiabilityIds(db.accounts))
  {
    var before, after := LiabilityIds(db.accounts), LiabilityIds(db.accounts + [account]);
    var entries := AllEntries(db.posted);
    forall e | e in entries ensures e.line.accountId in before <==> e.line.accountId in after {
      EntriesKnown(db.accounts, db.posted, e);
    }
    FilterAgree(OwnedBy(o, before), OwnedBy(o, after), entries);
  }

  lemma {:induction false} OpenKeepsSound(db: Database, account: Account)
    requires SoundDatabase(db) && FindAccount(db.accounts, account.id).None?
    ensures SoundDatabase(db.(accounts := db.accounts + [account]))
  {
    OpenSound(Ledger(db), account);
    forall o ensures Balance(db.balances, o) == OwnerNet(AllEntries(db.posted), o, LiabilityIds(db.accounts + [account])) {
      OpenKeepsNet(db, account, o);
    }
  }

  /** Over any such run the table shows, for every client of every matter, the
      sum over the whole ledger, and it is never negative. */
  lemma {:induction false} CacheRefinesLedger(canonical: Canonical, db: Database, steps: seq<Step>)
    requires SoundDatabase(db) && RunInScope(canonical, db, steps)
    ensures SoundDatabase(RunDatabase(canonical, db, steps)) && ShowsBalances(RunDatabase(canonical, db, steps))
    decreases |steps|
  {
    if steps == [] {
      SoundShowsBalances(db);
    } else {
      StepKeepsSound(canonical, db, steps[0]);
      CacheRefinesLedger(canonical, TakeDatabase(canonical, db, steps[0]), steps[1..]);
    }
  }

  lemma {:induction false} StepKeepsSound(canonical: Canonical, db: Database, step: Step)
    requires SoundDatabase(db)
    requires step.PostStep? ==> Keepable(canonical, db, step.tx)
    ensures SoundDatabase(TakeDatabase(canonical, db, step))
  {
    match step
    case PostStep(tx) => CacheExactIff(canonical, db, tx);
    case OpenAccount(account) => if FindAccount(db.accounts, account.id).None? { OpenKeepsSound(db, account); }
  }

  // ----- Against the ledger in memory -----

  /** One request: the database keeps the rows of what the ledger in memory keeps
      if and only if the request is storable, or is not one that the ledger
      would add. It answers alike, except that a repeated request gets its
      receipt without marks, and that it refuses a taken id, a line that fits no
      row and a balance out of range. */
  lemma {:induction false} DatabaseAgreesWithMemory(canonical: Canonical, state: State, db: Database, tx: Transaction)
    requires Ledger(db) == Rows(state) && SoundDatabase(db)
    requires InScope(db, tx) && LaterOwnersCancel(Stamp(tx), LiabilityIds(db.accounts))
    ensures Ledger(PostToDatabase(canonical, db, tx).0) == Rows(Store(canonical, state, tx))
        <==> (NewToLedger(canonical, state, tx) ==> Storable(db, tx))
    ensures var repeated := Find(SameKey(tx.firmId, tx.idempotencyKey), state.posted).Some?;
            match PostToDatabase(canonical, db, tx).1
            case Accepted(p) =>
              var r := Post(canonical, state, tx);
              r.Ok? && p == if repeated then StoredOf(r.posted) else r.posted
            case Rejected(e) => Post(canonical, state, tx) == Refused(e)
            case IdTaken => Post(canonical, state, tx).Ok? && !repeated && HasId(state.posted, tx.id)
            case RowRefused => NewToLedger(canonical, state, tx) && !LinesStorable(tx.lines)
            case RangeExceeded => NewToLedger(canonical, state, tx) && !WithinRange(db.accounts, AllEntries(db.posted) + Stamp(tx))
            case GuardFired => false
  {
    var key := SameKey(tx.firmId, tx.idempotencyKey);
    RowsFitIff(tx.lines);
    PostIgnoresMarks(canonical, state, tx);
    FindOfRows(key, state.posted);
    IdsOfRows(state.posted, tx.id);
    StoreOfRows(canonical, state, tx);
    if NewToLedger(canonical, state, tx) {
      var p := Post(canonical, state, tx).posted;
      NewPosting(canonical, Ledger(db), tx);
      GrowTable(db, tx, p);
      assert Rows(state).posted + [StoredOf(p)] != Rows(state).posted;
    }
  }

  lemma {:induction false} StoreOfRows(canonical: Canonical, state: State, tx: Transaction)
    ensures Rows(Store(canonical, state, tx)) ==
            if NewToLedger(canonical, state, tx)
            then Rows(state).(posted := Rows(state).posted + [StoredOf(Post(canonical, state, tx).posted)])
            else Rows(state)
  {
    StoreCases(canonical, state, tx);
    if NewToLedger(canonical, state, tx) { MapConcat(StoredOf, state.posted, [Post(canonical, state, tx).posted]); }
  }

  lemma {:induction false} IdsOfRows(posted: seq<Posted>, id: string)
    ensures HasId(Map(StoredOf, posted), id) <==> HasId(posted, id)
  {
    var rows := Map(StoredOf, posted);
    assert forall i :: 0 <= i < |posted| ==> rows[i].id == posted[i].id;
  }

  /** Whole runs: the database keeps the rows of what the ledger in memory keeps. */
  lemma {:induction false} DatabaseRunAgrees(canonical: Canonical, state: State, db: Database, steps: seq<Step>)
    requires Ledger(db) == Rows(state) && SoundDatabase(db) && RunInScope(canonical, db, steps)
    ensures Ledger(RunDatabase(canonical, db, steps)) == Rows(Run(canonical, state, steps))
    decreases |steps|
  {
    if steps != [] {
      StepKeepsSound(canonical, db, steps[0]);
      if steps[0].PostStep? { DatabaseAgreesWithMemory(canonical, state, db, steps[0].tx); }
      DatabaseRunAgrees(canonical, Take(canonical, state, steps[0]), TakeDatabase(canonical, db, steps[0]), steps[1..]);
    }
  }
}
