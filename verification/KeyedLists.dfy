/** Lists of records that carry an id, read as finite maps from id to record.
    A sorted list with distinct ids is the listing of exactly one such map. */
module KeyedLists {
  import opened Sequences
  import opened Sorting

  ghost predicate DistinctKeys<T(!new)>(key: T -> string, xs: seq<T>) {
    forall i, j :: 0 <= i < j < |xs| ==> key(xs[i]) != key(xs[j])
  }

  function AsMap<T(!new)>(key: T -> string, xs: seq<T>): (m: map<string, T>)
    ensures forall k :: k in m ==> m[k] in xs && key(m[k]) == k
    ensures forall x :: x in xs ==> key(x) in m
  {
    if xs == [] then map[] else AsMap(key, xs[1..])[key(xs[0]) := xs[0]]
  }

  /** `xs.some(c => c.id === k)`. */
  predicate HoldsKey<T(!new)>(key: T -> string, xs: seq<T>, k: string) {
    exists i :: 0 <= i < |xs| && key(xs[i]) == k
  }

  /** `xs.map(c => c.id === e.id ? e : c)`. */
  function Replace<T(!new)>(key: T -> string, xs: seq<T>, e: T): seq<T> {
    Map(c => if key(c) == key(e) then e else c, xs)
  }

  /** Replace in place when the id is held, append otherwise. */
  function Upsert<T(!new)>(key: T -> string, xs: seq<T>, e: T): seq<T> {
    if HoldsKey(key, xs, key(e)) then Replace(key, xs, e) else xs + [e]
  }

  /** `leq` compares some fields and falls back on the id. */
  ghost predicate OrdersByKey<T(!new)>(key: T -> string, leq: (T, T) -> bool) {
    && TotalPreorder(leq)
    && (forall a, b :: leq(a, b) && leq(b, a) ==> key(a) == key(b))
  }

  /** `xs` lists the records of `m` in order, each once. */
  ghost predicate IsListing<T(!new)>(key: T -> string, leq: (T, T) -> bool, xs: seq<T>, m: map<string, T>) {
    Sorted(leq, xs) && DistinctKeys(key, xs) && AsMap(key, xs) == m
  }

  lemma {:induction false} AsMapAt<T(!new)>(key: T -> string, xs: seq<T>)
    requires DistinctKeys(key, xs)
    ensures forall x :: x in xs ==> AsMap(key, xs)[key(x)] == x
  {
    if xs != [] { AsMapAt(key, xs[1..]); }
  }

  lemma {:induction false} AsMapIs<T(!new)>(key: T -> string, xs: seq<T>, m: map<string, T>)
    requires DistinctKeys(key, xs)
    requires forall x :: x in xs ==> key(x) in m && m[key(x)] == x
    requires forall k :: k in m ==> m[k] in xs && key(m[k]) == k
    ensures AsMap(key, xs) == m
  {
    AsMapAt(key, xs);
  }

  /** The first record of a listing is the least one; the others list the rest. */
  lemma {:induction false} ListingTail<T(!new)>(key: T -> string, leq: (T, T) -> bool, xs: seq<T>, m: map<string, T>)
    requires TotalPreorder(leq) && IsListing(key, leq, xs, m) && xs != []
    ensures key(xs[0]) in m && m[key(xs[0])] == xs[0]
    ensures forall k :: k in m ==> leq(xs[0], m[k])
    ensures IsListing(key, leq, xs[1..], m - {key(xs[0])})
  {
    AsMapAt(key, xs);
    var k0 := key(xs[0]);
    forall k | k in m && k != k0 ensures m[k] in xs[1..] {
      assert m[k] in xs && m[k] != xs[0];
    }
    AsMapIs(key, xs[1..], m - {k0});
  }

  lemma {:induction false} ListingUnique<T(!new)>(key: T -> string, leq: (T, T) -> bool, xs: seq<T>, ys: seq<T>, m: map<string, T>)
    requires OrdersByKey(key, leq)
    requires IsListing(key, leq, xs, m) && IsListing(key, leq, ys, m)
    ensures xs == ys
    decreases |xs|
  {
    if xs == [] || ys == [] {
      assert m == map[];
    } else {
      ListingTail(key, leq, xs, m);
      ListingTail(key, leq, ys, m);
      assert leq(xs[0], m[key(ys[0])]) && leq(ys[0], m[key(xs[0])]);
      ListingUnique(key, leq, xs[1..], ys[1..], m - {key(xs[0])});
    }
  }

  lemma {:induction false} InsertDistinct<T(!new)>(key: T -> string, leq: (T, T) -> bool, x: T, ys: seq<T>)
    requires DistinctKeys(key, ys) && forall y :: y in ys ==> key(y) != key(x)
    ensures DistinctKeys(key, Insert(leq, x, ys))
  {
    if ys != [] && !leq(x, ys[0]) {
      InsertDistinct(key, leq, x, ys[1..]);
      assert forall z :: z in Insert(leq, x, ys[1..]) ==> key(z) != key(ys[0]);
    }
  }

  lemma {:induction false} SortDistinct<T(!new)>(key: T -> string, leq: (T, T) -> bool, xs: seq<T>)
    requires DistinctKeys(key, xs)
    ensures DistinctKeys(key, Sort(leq, xs))
  {
    if xs != [] {
      SortDistinct(key, leq, xs[1..]);
      InsertDistinct(key, leq, xs[0], Sort(leq, xs[1..]));
    }
  }

  lemma {:induction false} FilterDistinct<T(!new)>(key: T -> string, p: T -> bool, xs: seq<T>)
    requires DistinctKeys(key, xs)
    ensures DistinctKeys(key, Filter(p, xs))
  {
    if xs != [] {
      FilterDistinct(key, p, xs[1..]);
      assert forall z :: z in Filter(p, xs[1..]) ==> key(z) != key(xs[0]);
    }
  }

  /** Sorting turns any list with distinct ids into the listing of its map. */
  lemma {:induction false} SortLists<T(!new)>(key: T -> string, leq: (T, T) -> bool, xs: seq<T>)
    requires TotalPreorder(leq) && DistinctKeys(key, xs)
    ensures IsListing(key, leq, Sort(leq, xs), AsMap(key, xs))
  {
    SortSorted(leq, xs);
    SortDistinct(key, leq, xs);
    AsMapAt(key, xs);
    AsMapIs(key, Sort(leq, xs), AsMap(key, xs));
  }

  lemma {:induction false} ReplaceDistinct<T(!new)>(key: T -> string, xs: seq<T>, e: T)
    requires DistinctKeys(key, xs)
    ensures DistinctKeys(key, Replace(key, xs, e))
  {
    var ys := Replace(key, xs, e);
    assert forall i :: 0 <= i < |xs| ==> key(ys[i]) == key(xs[i]);
  }

  lemma {:induction false} ReplaceUpdates<T(!new)>(key: T -> string, xs: seq<T>, e: T)
    requires DistinctKeys(key, xs) && HoldsKey(key, xs, key(e))
    ensures AsMap(key, Replace(key, xs, e)) == AsMap(key, xs)[key(e) := e]
  {
    var ys, m := Replace(key, xs, e), AsMap(key, xs)[key(e) := e];
    AsMapAt(key, xs);
    ReplaceDistinct(key, xs, e);
    forall k | k in m ensures m[k] in ys && key(m[k]) == k {
      var i :| 0 <= i < |xs| && key(xs[i]) == k;
      assert xs[i] in xs && ys[i] == m[k];
    }
    forall y | y in ys ensures key(y) in m && m[key(y)] == y {
      var i :| 0 <= i < |ys| && ys[i] == y;
      assert key(y) == key(xs[i]);
    }
    AsMapIs(key, ys, m);
  }

  /** Upserting into the list is updating the map at the record's id. */
  lemma {:induction false} UpsertUpdates<T(!new)>(key: T -> string, xs: seq<T>, e: T)
    requires DistinctKeys(key, xs)
    ensures DistinctKeys(key, Upsert(key, xs, e))
    ensures AsMap(key, Upsert(key, xs, e)) == AsMap(key, xs)[key(e) := e]
  {
    if HoldsKey(key, xs, key(e)) {
      ReplaceDistinct(key, xs, e);
      ReplaceUpdates(key, xs, e);
    } else {
      AsMapAt(key, xs);
      AsMapIs(key, xs + [e], AsMap(key, xs)[key(e) := e]);
    }
  }

  function Restrict<T(!new)>(p: T -> bool, m: map<string, T>): map<string, T> {
    map k | k in m && p(m[k]) :: m[k]
  }

  /** Filtering the list is restricting the map. */
  lemma {:induction false} FilterRestricts<T(!new)>(key: T -> string, p: T -> bool, xs: seq<T>)
    requires DistinctKeys(key, xs)
    ensures DistinctKeys(key, Filter(p, xs))
    ensures AsMap(key, Filter(p, xs)) == Restrict(p, AsMap(key, xs))
  {
    FilterDistinct(key, p, xs);
    AsMapAt(key, xs);
    AsMapIs(key, Filter(p, xs), Restrict(p, AsMap(key, xs)));
  }

  function OtherKey<T(!new)>(key: T -> string, k: string): T -> bool {
    (x: T) => key(x) != k
  }

  /** Filtering by the id is taking it out of the map. */
  lemma {:induction false} FilterRemoves<T(!new)>(key: T -> string, xs: seq<T>, k: string)
    requires DistinctKeys(key, xs)
    ensures DistinctKeys(key, Filter(OtherKey(key, k), xs))
    ensures AsMap(key, Filter(OtherKey(key, k), xs)) == AsMap(key, xs) - {k}
  {
    FilterDistinct(key, OtherKey(key, k), xs);
    AsMapAt(key, xs);
    AsMapIs(key, Filter(OtherKey(key, k), xs), AsMap(key, xs) - {k});
  }

  lemma {:induction false} RestrictUpdated<T(!new)>(p: T -> bool, m: map<string, T>, k: string, e: T)
    requires forall j :: j in m ==> p(m[j])
    ensures Restrict(p, m[k := e]) == if p(e) then m[k := e] else m - {k}
  {
  }

  /** Upserting among records that all meet `p` and dropping those that do not
      updates the map, or takes the id out when the new record fails `p`. */
  lemma {:induction false} UpsertThenFilter<T(!new)>(key: T -> string, p: T -> bool, xs: seq<T>, e: T)
    requires DistinctKeys(key, xs) && forall x :: x in xs ==> p(x)
    ensures DistinctKeys(key, Filter(p, Upsert(key, xs, e)))
    ensures AsMap(key, Filter(p, Upsert(key, xs, e)))
         == if p(e) then AsMap(key, xs)[key(e) := e] else AsMap(key, xs) - {key(e)}
  {
    var ys := Upsert(key, xs, e);
    UpsertUpdates(key, xs, e);
    FilterRestricts(key, p, ys);
    RestrictUpdated(p, AsMap(key, xs), key(e), e);
  }
}
