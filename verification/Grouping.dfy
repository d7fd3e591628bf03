/** Gathering items under text keys in one pass, with a Map that remembers the
    order in which its keys came: the loop shared by the trust ledger's balance
    deltas and the dashboard's recent postings. */
module Grouping {
  import opened Sequences

  function InGroup<T(!new)>(keep: T -> bool, key: T -> string, k: string): T -> bool {
    (x: T) => keep(x) && key(x) == k
  }

  /** The kept items under key `k`, in their order. */
  function Members<T(!new)>(keep: T -> bool, key: T -> string, items: seq<T>, k: string): seq<T> {
    Filter(InGroup(keep, key, k), items)
  }

  /** The keys of the kept items, each once, by first appearance. */
  function Keys<T(!new)>(keep: T -> bool, key: T -> string, items: seq<T>): (ks: seq<string>)
    ensures Distinct(ks)
  {
    AddAll([], Map(key, Filter(keep, items)))
  }

  function Fold<T(!new), V(!new)>(step: (V, T) -> V, start: V, xs: seq<T>): V
    decreases |xs|
  {
    if xs == [] then start else step(Fold(step, start, xs[..|xs| - 1]), xs[|xs| - 1])
  }

  /** What a group comes to: start anew at its first item, then take each item. */
  function GroupValue<T(!new), V(!new)>(open: T -> V, step: (V, T) -> V, members: seq<T>): V
    requires members != []
  {
    Fold(step, open(members[0]), members)
  }

  lemma MembersSnoc<T(!new)>(keep: T -> bool, key: T -> string, items: seq<T>, x: T, k: string)
    ensures Members(keep, key, items + [x], k)
         == Members(keep, key, items, k) + (if keep(x) && key(x) == k then [x] else [])
  {
    FilterConcat(InGroup(keep, key, k), items, [x]);
  }

  lemma KeysSnoc<T(!new)>(keep: T -> bool, key: T -> string, items: seq<T>, x: T)
    ensures Keys(keep, key, items + [x]) == if keep(x) then Add(Keys(keep, key, items), key(x)) else Keys(keep, key, items)
  {
    var kept := Filter(keep, items);
    FilterConcat(keep, items, [x]);
    if keep(x) {
      assert Filter(keep, items + [x]) == kept + [x];
      assert Map(key, kept + [x]) == Map(key, kept) + [key(x)];
      AddAllConcat([], Map(key, kept), [key(x)]);
    } else {
      assert Filter(keep, items + [x]) == kept;
    }
  }

  lemma KeyIffMembers<T(!new)>(keep: T -> bool, key: T -> string, items: seq<T>, k: string)
    ensures k in Keys(keep, key, items) <==> Members(keep, key, items, k) != []
  {
    var kept := Filter(keep, items);
    if k in Keys(keep, key, items) {
      var i :| 0 <= i < |kept| && Map(key, kept)[i] == k;
      assert kept[i] in Members(keep, key, items, k);
    }
    if Members(keep, key, items, k) != [] {
      var x := Members(keep, key, items, k)[0];
      assert x in Members(keep, key, items, k);
      var i :| 0 <= i < |kept| && kept[i] == x;
      assert Map(key, kept)[i] == k;
    }
  }

  /** The accumulator after some items: every key with its group's value. */
  ghost predicate Gathered<T(!new), V(!new)>(
    keep: T -> bool, key: T -> string, open: T -> V, step: (V, T) -> V, items: seq<T>, order: seq<string>, current: map<string, V>)
  {
    && order == Keys(keep, key, items)
    && forall k :: GatheredAt(open, step, Members(keep, key, items, k), current, k)
  }

  ghost predicate GatheredAt<T(!new), V(!new)>(open: T -> V, step: (V, T) -> V, members: seq<T>, current: map<string, V>, k: string) {
    && (k in current <==> members != [])
    && (k in current ==> current[k] == GroupValue(open, step, members))
  }

  lemma {:induction false} GatherOneMore<T(!new), V(!new)>(
    keep: T -> bool, key: T -> string, open: T -> V, step: (V, T) -> V, items: seq<T>, x: T, order: seq<string>, current: map<string, V>)
    requires Gathered(keep, key, open, step, items, order, current)
    ensures !keep(x) ==> Gathered(keep, key, open, step, items + [x], order, current)
    ensures keep(x) ==>
              var found := if key(x) in current then current[key(x)] else open(x);
              Gathered(keep, key, open, step, items + [x], Add(order, key(x)), current[key(x) := step(found, x)])
  {
    KeysSnoc(keep, key, items, x);
    var found := if key(x) in current then current[key(x)] else open(x);
    var next := if keep(x) then current[key(x) := step(found, x)] else current;
    forall k ensures GatheredAt(open, step, Members(keep, key, items + [x], k), next, k) {
      var before := Members(keep, key, items, k);
      assert GatheredAt(open, step, before, current, k);
      MembersSnoc(keep, key, items, x, k);
      if keep(x) && key(x) == k {
        var after := before + [x];
        assert Members(keep, key, items + [x], k) == after;
        assert after[..|after| - 1] == before;
        assert before == [] ==> Fold(step, open(x), before) == open(x);
      } else {
        assert Members(keep, key, items + [x], k) == before;
      }
    }
  }

  lemma GatheredValues<T(!new), V(!new)>(
    keep: T -> bool, key: T -> string, open: T -> V, step: (V, T) -> V, items: seq<T>, order: seq<string>, current: map<string, V>)
    requires Gathered(keep, key, open, step, items, order, current)
    ensures forall i :: 0 <= i < |order| ==>
              && order[i] in current && Members(keep, key, items, order[i]) != []
              && current[order[i]] == GroupValue(open, step, Members(keep, key, items, order[i]))
  {
    forall i | 0 <= i < |order| ensures GatheredAt(open, step, Members(keep, key, items, order[i]), current, order[i]) && order[i] in current {
      assert order[i] in order;
      KeyIffMembers(keep, key, items, order[i]);
    }
  }

  /** One pass over the items; the values in the order their keys came. */
  method GatherInOrder<T(!new), V(!new)>(keep: T -> bool, key: T -> string, open: T -> V, step: (V, T) -> V, items: seq<T>)
    returns (order: seq<string>, values: seq<V>)
    ensures order == Keys(keep, key, items) && |values| == |order|
    ensures forall i :: 0 <= i < |order| ==>
              Members(keep, key, items, order[i]) != [] && values[i] == GroupValue(open, step, Members(keep, key, items, order[i]))
  {
    var current: map<string, V> := map[];
    order := [];
    for i := 0 to |items|
      invariant Gathered(keep, key, open, step, items[..i], order, current)
    {
      var x := items[i];
      GatherNext(keep, key, open, step, items, i, order, current);
      if keep(x) {
        var found := if key(x) in current then current[key(x)] else open(x);
        order := Add(order, key(x));
        current := current[key(x) := step(found, x)];
      }
    }
    assert items[..|items|] == items;
    GatheredValues(keep, key, open, step, items, order, current);
    values := Values(order, current);
  }

  /** `[...map.values()]`: the values in the order of their keys. */
  function Values<V(!new)>(order: seq<string>, current: map<string, V>): (values: seq<V>)
    requires forall i :: 0 <= i < |order| ==> order[i] in current
    ensures |values| == |order| && forall i :: 0 <= i < |order| ==> values[i] == current[order[i]]
  {
    seq(|order|, i requires 0 <= i < |order| => current[order[i]])
  }

  lemma {:induction false} GatherNext<T(!new), V(!new)>(
    keep: T -> bool, key: T -> string, open: T -> V, step: (V, T) -> V, items: seq<T>, i: nat, order: seq<string>, current: map<string, V>)
    requires i < |items| && Gathered(keep, key, open, step, items[..i], order, current)
    ensures var x := items[i];
            var found := if key(x) in current then current[key(x)] else open(x);
            if keep(x) then Gathered(keep, key, open, step, items[..i + 1], Add(order, key(x)), current[key(x) := step(found, x)])
            else Gathered(keep, key, open, step, items[..i + 1], order, current)
  {
    assert items[..i + 1] == items[..i] + [items[i]];
    GatherOneMore(keep, key, open, step, items[..i], items[i], order, current);
  }

  lemma {:induction false} SumChangesAtOne(g: string -> int, h: string -> int, keys: seq<string>, k: string)
    requires Distinct(keys) && forall x :: x in keys && x != k ==> g(x) == h(x)
    ensures Sum(h, keys) == Sum(g, keys) + if k in keys then h(k) - g(k) else 0
  {
    if keys != [] { SumChangesAtOne(g, h, keys[1..], k); }
  }

  function GroupTotal<T(!new)>(f: T -> int, keep: T -> bool, key: T -> string, items: seq<T>): string -> int {
    (k: string) => Sum(f, Members(keep, key, items, k))
  }

  /** Nothing is lost or counted twice: the groups add up to the kept items. */
  lemma {:induction false} GroupsAddUp<T(!new)>(f: T -> int, keep: T -> bool, key: T -> string, items: seq<T>)
    ensures Sum(GroupTotal(f, keep, key, items), Keys(keep, key, items)) == Sum(f, Filter(keep, items))
    decreases |items|
  {
    if items != [] {
      var n := |items| - 1;
      var before, x := items[..n], items[n];
      assert items == before + [x];
      GroupsAddUp(f, keep, key, before);
      GroupsGrow(f, keep, key, before, x);
      FilterConcat(keep, before, [x]);
      SumConcat(f, Filter(keep, before), Filter(keep, [x]));
    }
  }

  lemma GroupGrows<T(!new)>(f: T -> int, keep: T -> bool, key: T -> string, before: seq<T>, x: T, k: string)
    ensures GroupTotal(f, keep, key, before + [x])(k)
         == GroupTotal(f, keep, key, before)(k) + if keep(x) && key(x) == k then f(x) else 0
  {
    var more := if keep(x) && key(x) == k then [x] else [];
    MembersSnoc(keep, key, before, x, k);
    SumConcat(f, Members(keep, key, before, k), more);
    assert Sum(f, more) == if keep(x) && key(x) == k then f(x) else 0;
  }

  /** One more item raises the groups' sum by its own value, if it is kept. */
  lemma {:induction false} GroupsGrow<T(!new)>(f: T -> int, keep: T -> bool, key: T -> string, before: seq<T>, x: T)
    ensures Sum(GroupTotal(f, keep, key, before + [x]), Keys(keep, key, before + [x]))
         == Sum(GroupTotal(f, keep, key, before), Keys(keep, key, before)) + if keep(x) then f(x) else 0
  {
    var g, h := GroupTotal(f, keep, key, before), GroupTotal(f, keep, key, before + [x]);
    var keys := Keys(keep, key, before);
    forall k ensures h(k) == g(k) + if keep(x) && key(x) == k then f(x) else 0 { GroupGrows(f, keep, key, before, x, k); }
    KeysSnoc(keep, key, before, x);
    SumChangesAtOne(g, h, keys, key(x));
    if keep(x) && key(x) !in keys {
      SumConcat(h, keys, [key(x)]);
      KeyIffMembers(keep, key, before, key(x));
      assert g(key(x)) == 0;
      assert Sum(h, [key(x)]) == h(key(x));
    }
  }
}
