/** List helpers shared by every module: filtering, mapping, summing and
    insertion-ordered sets, as the JavaScript array and Set methods do them. */
module Sequences {

  datatype Option<+T> = None | Some(value: T)

  /** `xs.filter(p)`. */
  function Filter<T(!new)>(p: T -> bool, xs: seq<T>): (ys: seq<T>)
    ensures |ys| <= |xs|
    ensures forall x :: x in ys <==> x in xs && p(x)
  {
    if xs == [] then []
    else
      var rest := Filter(p, xs[1..]);
      if p(xs[0]) then [xs[0]] + rest else rest
  }

  function Not<T(!new)>(p: T -> bool): T -> bool {
    (x: T) => !p(x)
  }

  function Both<T(!new)>(p: T -> bool, q: T -> bool): T -> bool {
    (x: T) => p(x) && q(x)
  }

  /** `xs.map(f)`. */
  function Map<A(!new), B(!new)>(f: A -> B, xs: seq<A>): (ys: seq<B>)
    ensures |ys| == |xs|
    ensures forall i :: 0 <= i < |xs| ==> ys[i] == f(xs[i])
  {
    seq(|xs|, i requires 0 <= i < |xs| => f(xs[i]))
  }

  /** `xs.flatMap(f)`. */
  function FlatMap<A(!new), B(!new)>(f: A -> seq<B>, xs: seq<A>): seq<B> {
    if xs == [] then [] else f(xs[0]) + FlatMap(f, xs[1..])
  }

  /** `xs.reduce((total, x) => total + f(x), 0)`. */
  function Sum<T(!new)>(f: T -> int, xs: seq<T>): int {
    if xs == [] then 0 else f(xs[0]) + Sum(f, xs[1..])
  }

  lemma {:induction false} MapCons<A(!new), B(!new)>(f: A -> B, x: A, xs: seq<A>)
    ensures Map(f, [x] + xs) == [f(x)] + Map(f, xs)
  {
  }

  lemma {:induction false} SumOfTwo<T(!new)>(f: T -> int, xs: seq<T>)
    requires |xs| == 2
    ensures Sum(f, xs) == f(xs[0]) + f(xs[1])
  {
    var rest := xs[1..];
    assert rest[1..] == [] && Sum(f, rest[1..]) == 0;
    assert Sum(f, rest) == f(rest[0]) + Sum(f, rest[1..]);
  }

  lemma {:induction false} SumOfThree<T(!new)>(f: T -> int, xs: seq<T>)
    requires |xs| == 3
    ensures Sum(f, xs) == f(xs[0]) + f(xs[1]) + f(xs[2])
  {
    SumOfTwo(f, xs[1..]);
  }

  /** `xs.slice(0, limit)`, where a negative limit drops from the end. */
  function TakeFirst<T(!new)>(xs: seq<T>, limit: int): (ys: seq<T>)
    ensures ys <= xs
    ensures limit >= 0 ==> |ys| == if limit < |xs| then limit else |xs|
  {
    if limit >= |xs| then xs
    else if limit >= 0 then xs[..limit]
    else if |xs| + limit > 0 then xs[..|xs| + limit]
    else []
  }

  ghost predicate Distinct<T(!new)>(xs: seq<T>) {
    forall i, j :: 0 <= i < j < |xs| ==> xs[i] != xs[j]
  }

  /** Adding to a JavaScript Set, which remembers insertion order. */
  function Add<T(==,!new)>(xs: seq<T>, x: T): (ys: seq<T>)
    ensures Distinct(xs) ==> Distinct(ys)
    ensures forall y :: y in ys <==> y in xs || y == x
  {
    if x in xs then xs else xs + [x]
  }

  function AddAll<T(==,!new)>(xs: seq<T>, ys: seq<T>): (zs: seq<T>)
    ensures Distinct(xs) ==> Distinct(zs)
    ensures forall z :: z in zs <==> z in xs || z in ys
    decreases |ys|
  {
    if ys == [] then xs else AddAll(Add(xs, ys[0]), ys[1..])
  }

  lemma {:induction false} AddAllConcat<T(!new)>(xs: seq<T>, ys: seq<T>, zs: seq<T>)
    ensures AddAll(xs, ys + zs) == AddAll(AddAll(xs, ys), zs)
    decreases |ys|
  {
    if ys == [] {
      assert ys + zs == zs;
    } else {
      assert (ys + zs)[1..] == ys[1..] + zs;
      AddAllConcat(Add(xs, ys[0]), ys[1..], zs);
    }
  }

  lemma {:induction false} MapConcat<A(!new), B(!new)>(f: A -> B, xs: seq<A>, ys: seq<A>)
    ensures Map(f, xs + ys) == Map(f, xs) + Map(f, ys)
  {
  }

  lemma {:induction false} FilterConcat<T(!new)>(p: T -> bool, xs: seq<T>, ys: seq<T>)
    ensures Filter(p, xs + ys) == Filter(p, xs) + Filter(p, ys)
  {
    if xs == [] {
      assert xs + ys == ys;
    } else {
      assert (xs + ys)[0] == xs[0] && (xs + ys)[1..] == xs[1..] + ys;
      FilterConcat(p, xs[1..], ys);
    }
  }

  lemma FilterSnoc<T(!new)>(p: T -> bool, xs: seq<T>, i: nat)
    requires i < |xs|
    ensures Filter(p, xs[..i + 1]) == Filter(p, xs[..i]) + if p(xs[i]) then [xs[i]] else []
  {
    assert xs[..i + 1] == xs[..i] + [xs[i]];
    FilterConcat(p, xs[..i], [xs[i]]);
  }

  /** Filtering by a condition that every element meets changes nothing. */
  lemma {:induction false} FilterAll<T(!new)>(p: T -> bool, xs: seq<T>)
    requires forall x :: x in xs ==> p(x)
    ensures Filter(p, xs) == xs
  {
    if xs != [] { FilterAll(p, xs[1..]); }
  }

  lemma {:induction false} FilterNone<T(!new)>(p: T -> bool, xs: seq<T>)
    requires forall x :: x in xs ==> !p(x)
    ensures Filter(p, xs) == []
  {
    if xs != [] { FilterNone(p, xs[1..]); }
  }

  lemma {:induction false} FilterFilter<T(!new)>(p: T -> bool, q: T -> bool, xs: seq<T>)
    ensures Filter(p, Filter(q, xs)) == Filter(Both(p, q), xs)
  {
    if xs != [] { FilterFilter(p, q, xs[1..]); }
  }

  /** Two conditions that agree on the elements select the same ones. */
  lemma {:induction false} FilterAgree<T(!new)>(p: T -> bool, q: T -> bool, xs: seq<T>)
    requires forall x :: x in xs ==> p(x) == q(x)
    ensures Filter(p, xs) == Filter(q, xs)
  {
    if xs != [] { FilterAgree(p, q, xs[1..]); }
  }

  lemma {:induction false} FlatMapConcat<A(!new), B(!new)>(f: A -> seq<B>, xs: seq<A>, ys: seq<A>)
    ensures FlatMap(f, xs + ys) == FlatMap(f, xs) + FlatMap(f, ys)
  {
    if xs == [] {
      assert xs + ys == ys;
    } else {
      assert (xs + ys)[1..] == xs[1..] + ys;
      FlatMapConcat(f, xs[1..], ys);
    }
  }

  lemma {:induction false} FlatMapSnoc<A(!new), B(!new)>(f: A -> seq<B>, xs: seq<A>, i: nat)
    requires i < |xs|
    ensures FlatMap(f, xs[..i + 1]) == FlatMap(f, xs[..i]) + f(xs[i])
  {
    assert xs[..i + 1] == xs[..i] + [xs[i]];
    FlatMapConcat(f, xs[..i], [xs[i]]);
    assert FlatMap(f, [xs[i]]) == f(xs[i]);
  }

  lemma {:induction false} FlatMapMembers<A(!new), B(!new)>(f: A -> seq<B>, xs: seq<A>)
    ensures forall y :: y in FlatMap(f, xs) <==> exists x :: x in xs && y in f(x)
  {
    if xs != [] { FlatMapMembers(f, xs[1..]); }
  }

  lemma {:induction false} SumConcat<T(!new)>(f: T -> int, xs: seq<T>, ys: seq<T>)
    ensures Sum(f, xs + ys) == Sum(f, xs) + Sum(f, ys)
  {
    if xs == [] {
      assert xs + ys == ys;
    } else {
      assert (xs + ys)[1..] == xs[1..] + ys;
      SumConcat(f, xs[1..], ys);
    }
  }

  lemma {:induction false} SumNonNegative<T(!new)>(f: T -> int, xs: seq<T>)
    requires forall x :: x in xs ==> f(x) >= 0
    ensures Sum(f, xs) >= 0
  {
    if xs != [] { SumNonNegative(f, xs[1..]); }
  }

  lemma {:induction false} SumAgree<T(!new)>(f: T -> int, g: T -> int, xs: seq<T>)
    requires forall x :: x in xs ==> f(x) == g(x)
    ensures Sum(f, xs) == Sum(g, xs)
  {
    if xs != [] { SumAgree(f, g, xs[1..]); }
  }

  lemma {:induction false} SumZero<T(!new)>(f: T -> int, xs: seq<T>)
    requires forall x :: x in xs ==> f(x) == 0
    ensures Sum(f, xs) == 0
  {
    if xs != [] { SumZero(f, xs[1..]); }
  }

  /** What a filter keeps and what it drops add up to the whole. */
  lemma {:induction false} SumSplit<T(!new)>(f: T -> int, p: T -> bool, xs: seq<T>)
    ensures Sum(f, xs) == Sum(f, Filter(p, xs)) + Sum(f, Filter(Not(p), xs))
  {
    if xs != [] { SumSplit(f, p, xs[1..]); }
  }

  lemma {:induction false} SetIsNoLarger<T(!new)>(xs: seq<T>)
    ensures |set x | x in xs| <= |xs|
  {
    if xs != [] {
      SetIsNoLarger(xs[1..]);
      assert (set x | x in xs) == {xs[0]} + (set x | x in xs[1..]);
    }
  }
}
