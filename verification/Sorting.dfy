/** JavaScript's `Array.prototype.sort`: stable, driven by a comparator. A
    comparator `cmp` is given here as `leq(a, b) == (cmp(a, b) <= 0)`. */
module Sorting {
  import opened Sequences

  ghost predicate TotalPreorder<T(!new)>(leq: (T, T) -> bool) {
    && (forall a, b :: leq(a, b) || leq(b, a))
    && (forall a, b, c :: leq(a, b) && leq(b, c) ==> leq(a, c))
  }

  ghost predicate TotalOrder<T(!new)>(leq: (T, T) -> bool) {
    && TotalPreorder(leq)
    && (forall a, b :: leq(a, b) && leq(b, a) ==> a == b)
  }

  ghost predicate Sorted<T(!new)>(leq: (T, T) -> bool, xs: seq<T>) {
    forall i, j :: 0 <= i < j < |xs| ==> leq(xs[i], xs[j])
  }

  function Insert<T(!new)>(leq: (T, T) -> bool, x: T, ys: seq<T>): (zs: seq<T>)
    ensures |zs| == |ys| + 1
    ensures forall z :: z in zs <==> z == x || z in ys
  {
    if ys == [] then [x]
    else if leq(x, ys[0]) then [x] + ys
    else [ys[0]] + Insert(leq, x, ys[1..])
  }

  function Sort<T(!new)>(leq: (T, T) -> bool, xs: seq<T>): (ys: seq<T>)
    ensures |ys| == |xs|
    ensures forall y :: y in ys <==> y in xs
  {
    if xs == [] then [] else Insert(leq, xs[0], Sort(leq, xs[1..]))
  }

  /** The elements that the comparator cannot tell from `k`. */
  function Tied<T(!new)>(leq: (T, T) -> bool, k: T): T -> bool {
    x => leq(x, k) && leq(k, x)
  }

  /** `ys` holds the elements of `xs`, ties in the order of `xs`. */
  ghost predicate StableRearrangement<T(!new)>(leq: (T, T) -> bool, xs: seq<T>, ys: seq<T>) {
    forall k :: Filter(Tied(leq, k), ys) == Filter(Tied(leq, k), xs)
  }

  lemma {:induction false} InsertSorted<T(!new)>(leq: (T, T) -> bool, x: T, ys: seq<T>)
    requires TotalPreorder(leq) && Sorted(leq, ys)
    ensures Sorted(leq, Insert(leq, x, ys))
  {
    if ys != [] && !leq(x, ys[0]) {
      InsertSorted(leq, x, ys[1..]);
      var rest := Insert(leq, x, ys[1..]);
      assert forall z :: z in rest ==> leq(ys[0], z);
    }
  }

  lemma {:induction false} SortSorted<T(!new)>(leq: (T, T) -> bool, xs: seq<T>)
    requires TotalPreorder(leq)
    ensures Sorted(leq, Sort(leq, xs))
  {
    if xs != [] {
      SortSorted(leq, xs[1..]);
      InsertSorted(leq, xs[0], Sort(leq, xs[1..]));
    }
  }

  lemma {:induction false} InsertMultiset<T(!new)>(leq: (T, T) -> bool, x: T, ys: seq<T>)
    ensures multiset(Insert(leq, x, ys)) == multiset{x} + multiset(ys)
  {
    if ys != [] && !leq(x, ys[0]) {
      InsertMultiset(leq, x, ys[1..]);
      assert ys == [ys[0]] + ys[1..];
    }
  }

  lemma {:induction false} SortPermutes<T(!new)>(leq: (T, T) -> bool, xs: seq<T>)
    ensures multiset(Sort(leq, xs)) == multiset(xs)
  {
    if xs != [] {
      SortPermutes(leq, xs[1..]);
      InsertMultiset(leq, xs[0], Sort(leq, xs[1..]));
      assert xs == [xs[0]] + xs[1..];
    }
  }

  /** Inserting `x` puts it in front of its ties and moves nothing else. */
  lemma {:induction false} InsertTied<T(!new)>(leq: (T, T) -> bool, x: T, ys: seq<T>, k: T)
    requires TotalPreorder(leq)
    ensures Filter(Tied(leq, k), Insert(leq, x, ys)) == Filter(Tied(leq, k), [x] + ys)
  {
    var p := Tied(leq, k);
    assert ([x] + ys)[1..] == ys;
    if ys != [] && !leq(x, ys[0]) {
      InsertTied(leq, x, ys[1..], k);
      assert ([x] + ys[1..])[1..] == ys[1..];
      assert !(p(x) && p(ys[0]));
    }
  }

  lemma {:induction false} SortTied<T(!new)>(leq: (T, T) -> bool, xs: seq<T>, k: T)
    requires TotalPreorder(leq)
    ensures Filter(Tied(leq, k), Sort(leq, xs)) == Filter(Tied(leq, k), xs)
  {
    if xs != [] {
      SortTied(leq, xs[1..], k);
      InsertTied(leq, xs[0], Sort(leq, xs[1..]), k);
      var ys := [xs[0]] + Sort(leq, xs[1..]);
      assert ys[1..] == Sort(leq, xs[1..]);
    }
  }

  lemma SortIsStable<T(!new)>(leq: (T, T) -> bool, xs: seq<T>)
    requires TotalPreorder(leq)
    ensures StableRearrangement(leq, xs, Sort(leq, xs))
  {
    forall k ensures Filter(Tied(leq, k), Sort(leq, xs)) == Filter(Tied(leq, k), xs) {
      SortTied(leq, xs, k);
    }
  }

  /** Sorted lists with the same ties in the same order are the same list. */
  lemma {:induction false} SortedStableUnique<T(!new)>(leq: (T, T) -> bool, xs: seq<T>, ys: seq<T>)
    requires TotalPreorder(leq)
    requires Sorted(leq, xs) && Sorted(leq, ys) && StableRearrangement(leq, xs, ys)
    ensures xs == ys
  {
    if xs == [] {
      if ys != [] { assert false; }
    } else {
      var k := xs[0];
      assert k in Filter(Tied(leq, k), xs);
      assert k in ys;
      assert ys[0] in Filter(Tied(leq, ys[0]), ys);
      assert ys[0] in xs;
      assert Filter(Tied(leq, k), xs)[0] == xs[0];
      assert Filter(Tied(leq, k), ys)[0] == ys[0];
      forall c ensures Filter(Tied(leq, c), ys[1..]) == Filter(Tied(leq, c), xs[1..]) {
        var xs', ys' := Filter(Tied(leq, c), xs[1..]), Filter(Tied(leq, c), ys[1..]);
        assert Filter(Tied(leq, c), ys) == Filter(Tied(leq, c), xs);
        assert ([k] + xs')[1..] == xs' && ([k] + ys')[1..] == ys';
      }
      SortedStableUnique(leq, xs[1..], ys[1..]);
    }
  }

  /** There is exactly one stable sort: any sorted stable rearrangement is it. */
  lemma StableSortUnique<T(!new)>(leq: (T, T) -> bool, xs: seq<T>, ys: seq<T>)
    requires TotalPreorder(leq)
    ensures Sorted(leq, ys) && StableRearrangement(leq, xs, ys) <==> ys == Sort(leq, xs)
  {
    SortSorted(leq, xs);
    SortIsStable(leq, xs);
    if Sorted(leq, ys) && StableRearrangement(leq, xs, ys) {
      SortedStableUnique(leq, Sort(leq, xs), ys);
    }
  }

  lemma {:induction false} SortOfSorted<T(!new)>(leq: (T, T) -> bool, xs: seq<T>)
    requires TotalPreorder(leq)
    ensures Sorted(leq, xs) <==> Sort(leq, xs) == xs
  {
    StableSortUnique(leq, xs, xs);
  }

  /** Sorting a part first makes no difference to sorting the whole. */
  lemma SortAbsorbsSort<T(!new)>(leq: (T, T) -> bool, xs: seq<T>, ys: seq<T>)
    requires TotalPreorder(leq)
    ensures Sort(leq, Sort(leq, xs) + ys) == Sort(leq, xs + ys)
  {
    var zs := Sort(leq, Sort(leq, xs) + ys);
    SortSorted(leq, Sort(leq, xs) + ys);
    forall k ensures Filter(Tied(leq, k), zs) == Filter(Tied(leq, k), xs + ys) {
      SortTied(leq, Sort(leq, xs) + ys, k);
      SortTied(leq, xs, k);
      FilterConcat(Tied(leq, k), Sort(leq, xs), ys);
      FilterConcat(Tied(leq, k), xs, ys);
    }
    StableSortUnique(leq, xs + ys, zs);
  }

  /** A filtered sorted list is still sorted. */
  lemma {:induction false} FilterSorted<T(!new)>(leq: (T, T) -> bool, p: T -> bool, xs: seq<T>)
    requires Sorted(leq, xs)
    ensures Sorted(leq, Filter(p, xs))
  {
    if xs != [] {
      FilterSorted(leq, p, xs[1..]);
      assert forall z :: z in Filter(p, xs[1..]) ==> leq(xs[0], z);
    }
  }

  lemma {:induction false} FilterCommutes<T(!new)>(p: T -> bool, q: T -> bool, xs: seq<T>)
    ensures Filter(p, Filter(q, xs)) == Filter(q, Filter(p, xs))
  {
    if xs != [] { FilterCommutes(p, q, xs[1..]); }
  }

  lemma {:induction false} FilterMultiset<T(!new)>(p: T -> bool, xs: seq<T>, x: T)
    ensures multiset(Filter(p, xs))[x] == if p(x) then multiset(xs)[x] else 0
  {
    if xs != [] {
      FilterMultiset(p, xs[1..], x);
      assert xs == [xs[0]] + xs[1..];
    }
  }

  /** Filtering before or after a sort is the same. */
  lemma SortOfFilter<T(!new)>(leq: (T, T) -> bool, p: T -> bool, xs: seq<T>)
    requires TotalPreorder(leq)
    ensures Sort(leq, Filter(p, xs)) == Filter(p, Sort(leq, xs))
  {
    var ys := Filter(p, Sort(leq, xs));
    SortSorted(leq, xs);
    FilterSorted(leq, p, Sort(leq, xs));
    forall k ensures Filter(Tied(leq, k), ys) == Filter(Tied(leq, k), Filter(p, xs)) {
      FilterCommutes(Tied(leq, k), p, Sort(leq, xs));
      SortTied(leq, xs, k);
      FilterCommutes(Tied(leq, k), p, xs);
    }
    StableSortUnique(leq, Filter(p, xs), ys);
  }
}
