/** A saved operational view applied to the queues: keep the named sections and
    spend one row budget across them in order. */
module QueueViews {
  import opened Sequences

  datatype Section = Section(key: string, title: string, items: seq<string>)

  /** A filter value of the saved view, which may be anything. */
  datatype Value = Text(s: string) | Other

  /** `filters.queueSections` when it is an array, None when it is not. */
  datatype View = View(queueSections: Option<seq<Value>>, rowLimit: int)

  function NonNegative(n: int): nat {
    if n < 0 then 0 else n
  }

  function Min(a: nat, b: nat): nat {
    if a < b then a else b
  }

  /** The items of all sections in order. */
  function AllItems(sections: seq<Section>): seq<string> {
    FlatMap((s: Section) => s.items, sections)
  }

  function Limit(sections: seq<Section>, budget: nat): seq<Section>
    decreases |sections|
  {
    if sections == [] then []
    else
      var items := TakeFirst(sections[0].items, budget);
      [sections[0].(items := items)] + Limit(sections[1..], budget - |items|)
  }

  /** `applyRowLimit`: the remaining budget goes down inside the map over the
      sections, and is never negative. */
  method ApplyRowLimit(sections: seq<Section>, rowLimit: int) returns (limited: seq<Section>)
    ensures limited == Limit(sections, NonNegative(rowLimit))
  {
    var remaining := NonNegative(rowLimit);
    limited := [];
    for i := 0 to |sections|
      invariant remaining >= 0
      invariant Limit(sections, NonNegative(rowLimit)) == limited + Limit(sections[i..], remaining)
    {
      var items := TakeFirst(sections[i].items, remaining);
      assert sections[i..][1..] == sections[i + 1..];
      limited := limited + [sections[i].(items := items)];
      remaining := remaining - |items|;
    }
    assert sections[|sections|..] == [];
  }

  function KeyTexts(v: Value): seq<string> {
    if v.Text? && v.s != "" then [v.s] else []
  }

  /** The section keys of the view: the non-empty texts of the array. */
  function SectionKeys(view: View): seq<string> {
    if view.queueSections.None? then []
    else AddAll([], FlatMap(KeyTexts, view.queueSections.value))
  }

  function Kept(sections: seq<Section>, keys: seq<string>): seq<Section> {
    if keys == [] then sections else Filter((s: Section) => s.key in keys, sections)
  }

  /** `applySavedQueueFocus`. */
  function ApplyView(sections: seq<Section>, view: Option<View>): seq<Section> {
    if view.None? then sections
    else Limit(Kept(sections, SectionKeys(view.value)), NonNegative(view.value.rowLimit))
  }

  // ----- What is shown -----

  ghost predicate SameShape(a: seq<Section>, b: seq<Section>) {
    |a| == |b| && forall i :: 0 <= i < |a| ==> a[i] == b[i].(items := a[i].items) && a[i].items <= b[i].items
  }

  /** The budget shows exactly the first items of the sections taken together. */
  lemma {:induction false} LimitShowsFirst(sections: seq<Section>, budget: nat)
    ensures AllItems(Limit(sections, budget)) == AllItems(sections)[..Min(budget, |AllItems(sections)|)]
    ensures SameShape(Limit(sections, budget), sections)
    decreases |sections|
  {
    if sections != [] {
      var items := TakeFirst(sections[0].items, budget);
      LimitShowsFirst(sections[1..], budget - |items|);
      var rest := Limit(sections[1..], budget - |items|);
      assert Limit(sections, budget)[1..] == rest;
      assert AllItems(Limit(sections, budget)) == items + AllItems(rest);
      assert AllItems(sections) == sections[0].items + AllItems(sections[1..]);
      TakeAcross(sections[0].items, AllItems(sections[1..]), budget);
    }
  }

  /** The budget left by one list goes to the next. */
  lemma {:induction false} TakeAcross(xs: seq<string>, ys: seq<string>, budget: nat)
    ensures var first := TakeFirst(xs, budget);
            first + TakeFirst(ys, budget - |first|) == (xs + ys)[..Min(budget, |xs + ys|)]
  {
    if budget < |xs| { assert TakeFirst(ys, 0) == []; }
  }

  /** A second pass with the same budget takes nothing more away. */
  lemma {:induction false} LimitTwice(sections: seq<Section>, budget: nat)
    ensures Limit(Limit(sections, budget), budget) == Limit(sections, budget)
    decreases |sections|
  {
    if sections != [] {
      var items := TakeFirst(sections[0].items, budget);
      LimitTwice(sections[1..], budget - |items|);
      assert Limit(sections, budget)[1..] == Limit(sections[1..], budget - |items|);
      assert TakeFirst(items, budget) == items;
    }
  }

  /** The view names a section: its key, not empty, is a text of the array. */
  ghost predicate Names(view: View, key: string) {
    key != "" && view.queueSections.Some? && Text(key) in view.queueSections.value
  }

  /** A section is kept exactly when the view names it or names none at all. */
  lemma {:induction false} KeptIff(sections: seq<Section>, view: View, s: Section)
    ensures s in Kept(sections, SectionKeys(view)) <==> s in sections && (Names(view, s.key) || forall key :: !Names(view, key))
  {
    forall key ensures key in SectionKeys(view) <==> Names(view, key) { NamedIff(view, key); }
    if SectionKeys(view) != [] { assert SectionKeys(view)[0] in SectionKeys(view); }
  }

  /** The kept sections stand in their order, each as often as before. */
  lemma {:induction false} KeptInOrder(sections: seq<Section>, view: View)
    ensures Kept(sections, SectionKeys(view))
         == if forall key :: !Names(view, key) then sections else Filter((s: Section) => Names(view, s.key), sections)
  {
    forall key ensures key in SectionKeys(view) <==> Names(view, key) { NamedIff(view, key); }
    if SectionKeys(view) != [] { assert SectionKeys(view)[0] in SectionKeys(view); }
    FilterAgree((s: Section) => s.key in SectionKeys(view), (s: Section) => Names(view, s.key), sections);
  }

  lemma {:induction false} NamedIff(view: View, key: string)
    ensures key in SectionKeys(view) <==> Names(view, key)
  {
    if view.queueSections.Some? {
      FlatMapMembers(KeyTexts, view.queueSections.value);
      assert Names(view, key) ==> key in KeyTexts(Text(key));
    }
  }

  /** Limiting changes no key, so it can be done before or after keeping. */
  lemma {:induction false} KeptOfLimited(sections: seq<Section>, keys: seq<string>, budget: nat)
    requires forall s :: s in sections ==> keys == [] || s.key in keys
    ensures Kept(Limit(sections, budget), keys) == Limit(sections, budget)
  {
    LimitShowsFirst(sections, budget);
    var limited := Limit(sections, budget);
    if keys != [] {
      forall s | s in limited ensures s.key in keys {
        var i :| 0 <= i < |limited| && limited[i] == s;
        assert sections[i] in sections;
      }
      FilterAll((s: Section) => s.key in keys, limited);
    }
  }

  /** The view shows the sections it names, or all when it names none, in order and
      with exactly the first min(limit, total) of their items, none for a negative
      limit; applying it again changes nothing. Without a view all is shown. */
  lemma ViewShowsFirst(sections: seq<Section>, view: View)
    ensures ApplyView(sections, None) == sections
    ensures var kept := if forall key :: !Names(view, key) then sections else Filter((s: Section) => Names(view, s.key), sections);
            var shown, total := ApplyView(sections, Some(view)), AllItems(kept);
            && SameShape(shown, kept)
            && AllItems(shown) == (if view.rowLimit < 0 then [] else if view.rowLimit < |total| then total[..view.rowLimit] else total)
            && ApplyView(shown, Some(view)) == shown
  {
    KeptInOrder(sections, view);
    var kept, budget := Kept(sections, SectionKeys(view)), NonNegative(view.rowLimit);
    LimitShowsFirst(kept, budget);
    KeptOfLimited(kept, SectionKeys(view), budget);
    LimitTwice(kept, budget);
  }
}
