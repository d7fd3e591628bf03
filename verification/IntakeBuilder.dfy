/** The builder's generated ids and the definitions that result from adding
    branch rules and QA scenarios any number of times. */
module IntakeBuilder {
  import opened Sequences
  import opened Text
  import opened IntakeForms
  import opened IntakeChecker

  // ----- Unused ids -----

  function Candidate(prefix: string, index: nat): string {
    prefix + "-" + Decimal(index)
  }

  lemma CandidatesDiffer(prefix: string, i: nat, j: nat)
    requires Candidate(prefix, i) == Candidate(prefix, j)
    ensures i == j
  {
    var n := |prefix| + 1;
    assert Candidate(prefix, i) == (prefix + "-") + Decimal(i) && Candidate(prefix, j) == (prefix + "-") + Decimal(j);
    assert Decimal(i) == Candidate(prefix, i)[n..] && Decimal(j) == Candidate(prefix, j)[n..];
    DecimalInjective(i, j);
  }

  /** The existing ids that are candidates from `index` on. */
  ghost function Taken(prefix: string, existing: seq<string>, index: nat): set<string> {
    set x | x in existing && exists j: nat :: j >= index && x == Candidate(prefix, j)
  }

  /** A candidate that is taken is not among those taken later. */
  lemma TakenShrinks(prefix: string, existing: seq<string>, index: nat)
    requires Candidate(prefix, index) in existing
    ensures Taken(prefix, existing, index + 1) < Taken(prefix, existing, index)
    ensures |Taken(prefix, existing, index + 1)| < |Taken(prefix, existing, index)|
  {
    var here, next := Taken(prefix, existing, index), Taken(prefix, existing, index + 1);
    var id := Candidate(prefix, index);
    assert id in here;
    assert id !in next by {
      forall j: nat | j >= index + 1 ensures id != Candidate(prefix, j) {
        if id == Candidate(prefix, j) { CandidatesDiffer(prefix, index, j); }
      }
    }
    assert next <= here - {id};
    SubsetSmaller(next, here - {id});
  }

  lemma {:induction false} SubsetSmaller(a: set<string>, b: set<string>)
    requires a <= b
    ensures |a| <= |b|
  {
    if a != {} {
      var x :| x in a;
      SubsetSmaller(a - {x}, b - {x});
    }
  }

  /** The first index from `index` on whose candidate is not taken. */
  function FreeIndex(prefix: string, existing: seq<string>, index: nat): (r: nat)
    ensures index <= r && Candidate(prefix, r) !in existing
    ensures forall j :: index <= j < r ==> Candidate(prefix, j) in existing
    decreases |Taken(prefix, existing, index)|
  {
    if Candidate(prefix, index) in existing then
      TakenShrinks(prefix, existing, index);
      FreeIndex(prefix, existing, index + 1)
    else index
  }

  function UniqueId(prefix: string, existing: seq<string>): string {
    Candidate(prefix, FreeIndex(prefix, existing, |existing| + 1))
  }

  /** `uniqueDefinitionId`: count up from one past the length until the id is free. */
  method UniqueDefinitionId(prefix: string, existing: seq<string>) returns (id: string)
    ensures id == UniqueId(prefix, existing) && id !in existing
  {
    var index := |existing| + 1;
    id := Candidate(prefix, index);
    while id in existing
      invariant |existing| < index && id == Candidate(prefix, index)
      invariant UniqueId(prefix, existing) == Candidate(prefix, FreeIndex(prefix, existing, index))
      decreases |Taken(prefix, existing, index)|
    {
      TakenShrinks(prefix, existing, index);
      index := index + 1;
      id := Candidate(prefix, index);
    }
  }

  lemma {:induction false} RetriesBounded(prefix: string, existing: seq<string>, index: nat)
    ensures FreeIndex(prefix, existing, index) - index <= |Taken(prefix, existing, index)|
    decreases |Taken(prefix, existing, index)|
  {
    if Candidate(prefix, index) in existing {
      TakenShrinks(prefix, existing, index);
      RetriesBounded(prefix, existing, index + 1);
    }
  }

  /** `id` is the prefix and the first number past the count of ids that is free. */
  ghost predicate FirstFree(prefix: string, existing: seq<string>, id: string, k: int) {
    && |existing| < k && id == prefix + "-" + Decimal(k) && id !in existing
    && forall j :: |existing| < j < k ==> prefix + "-" + Decimal(j) in existing
  }

  ghost predicate IsFirstFree(prefix: string, existing: seq<string>, id: string) {
    exists k :: FirstFree(prefix, existing, id, k)
  }

  /** The id is unused, and found after at most as many retries as there are ids. */
  lemma UniqueIdIsUnused(prefix: string, existing: seq<string>)
    ensures UniqueId(prefix, existing) !in existing
    ensures IsFirstFree(prefix, existing, UniqueId(prefix, existing))
    ensures FreeIndex(prefix, existing, |existing| + 1) - (|existing| + 1) <= |existing|
  {
    var n := |existing| + 1;
    RetriesBounded(prefix, existing, n);
    SubsetSmaller(Taken(prefix, existing, n), set x | x in existing);
    SetIsNoLarger(existing);
    var k := FreeIndex(prefix, existing, n);
    forall j | |existing| < j < k ensures prefix + "-" + Decimal(j) in existing { assert Candidate(prefix, j) in existing; }
    assert FirstFree(prefix, existing, UniqueId(prefix, existing), k);
  }

  // ----- Adding rules -----

  /** `makeIntakeBranchRule`. */
  function MakeBranchRule(definition: Definition): Rule {
    Rule(UniqueId("branch", Map(RuleId, definition.branchRules)),
         if definition.questions == [] then "" else definition.questions[0].id,
         IsPresent, Undefined, Some([]), Some([]))
  }

  function AddBranchRule(definition: Definition): Definition {
    definition.(branchRules := definition.branchRules + [MakeBranchRule(definition)])
  }

  function AddBranchRules(definition: Definition, n: nat): Definition
    decreases n
  {
    if n == 0 then definition else AddBranchRules(AddBranchRule(definition), n - 1)
  }

  lemma DistinctSnoc(xs: seq<string>, x: string)
    ensures Distinct(xs + [x]) <==> Distinct(xs) && x !in xs
  {
    var all := xs + [x];
    if Distinct(all) {
      forall i, j | 0 <= i < j < |xs| ensures xs[i] != xs[j] { assert all[i] != all[j]; }
      forall i | 0 <= i < |xs| ensures xs[i] != x { assert all[i] != all[|xs|]; }
    }
  }

  /** One more rule keeps a definition well formed exactly when there is a
      question for the rule to depend on. */
  lemma AddRuleWellFormedIff(definition: Definition)
    ensures WellFormed(AddBranchRule(definition)) <==> WellFormed(definition) && HasQuestion(definition, MakeBranchRule(definition).questionId)
  {
    var rule, after := MakeBranchRule(definition), AddBranchRule(definition);
    var ids := Map(RuleId, definition.branchRules);
    UniqueIdIsUnused("branch", ids);
    assert Map(RuleId, after.branchRules) == ids + [rule.id];
    DistinctSnoc(ids, rule.id);
    assert IdsUnique(after) <==> IdsUnique(definition);
    assert forall s :: SectionSound(after, s) <==> SectionSound(definition, s);
    assert forall r :: RuleSound(after, r) <==> RuleSound(definition, r);
    assert RuleSound(definition, rule) <==> HasQuestion(definition, rule.questionId);
    assert forall r :: r in after.branchRules <==> r in definition.branchRules || r == rule;
  }

  lemma {:induction false} AddRulesWellFormedIff(definition: Definition, n: nat)
    requires n > 0
    ensures WellFormed(AddBranchRules(definition, n)) <==> WellFormed(definition) && HasQuestion(definition, MakeBranchRule(definition).questionId)
    decreases n
  {
    AddRuleWellFormedIff(definition);
    if n > 1 {
      AddRulesWellFormedIff(AddBranchRule(definition), n - 1);
      assert MakeBranchRule(AddBranchRule(definition)).questionId == MakeBranchRule(definition).questionId;
      assert HasQuestion(AddBranchRule(definition), MakeBranchRule(definition).questionId) <==> HasQuestion(definition, MakeBranchRule(definition).questionId);
    }
  }

  /** However many rules are added, the checker stays free of blocking findings
      exactly when it was free of them and there is at least one question. */
  lemma {:induction false} AddedRulesStayClean(definition: Definition, n: nat)
    requires n > 0
    ensures NoneBlocking(Diagnostics(AddBranchRules(definition, n))) <==> NoneBlocking(Diagnostics(definition)) && definition.questions != []
  {
    NothingBlockingIffWellFormed(definition);
    NothingBlockingIffWellFormed(AddBranchRules(definition, n));
    AddRulesWellFormedIff(definition, n);
    if definition.questions != [] { assert definition.questions[0] in definition.questions; }
  }

  /** The same path, but for rules added to the end of the matched list. */
  ghost predicate SamePath(before: PathSummary, after: PathSummary) {
    && before.matchedBranchRuleIds <= after.matchedBranchRuleIds
    && after == before.(matchedBranchRuleIds := after.matchedBranchRuleIds)
  }

  lemma {:induction false} AddedRuleKeepsPath(definition: Definition, answers: Answers, requested: Option<seq<string>>)
    ensures SamePath(Resolve(definition, answers, requested), Resolve(AddBranchRule(definition), answers, requested))
  {
    IdleRuleChangesNothing(definition, MakeBranchRule(definition), answers, requested);
  }

  /** The added rule has an unused id, stands last, and is matched on a path if and
      only if the first question has an answer. */
  lemma {:induction false} AddedRuleMatchesIff(definition: Definition, answers: Answers, requested: Option<seq<string>>)
    ensures var rules := AddBranchRule(definition).branchRules;
            var first := if definition.questions == [] then "" else definition.questions[0].id;
            && |rules| == |definition.branchRules| + 1 && rules[..|definition.branchRules|] == definition.branchRules
            && IsFirstFree("branch", Map((r: Rule) => r.id, definition.branchRules), rules[|definition.branchRules|].id)
            && Resolve(AddBranchRule(definition), answers, requested).matchedBranchRuleIds
               == Resolve(definition, answers, requested).matchedBranchRuleIds
                + if first in answers && answers[first] !in [Plain(Undefined), Plain(Null), Plain(Str(""))]
                  then [rules[|definition.branchRules|].id] else []
  {
    var rule := MakeBranchRule(definition);
    IdleRuleChangesNothing(definition, rule, answers, requested);
    NewRuleIsFree(definition, rule);
    PresentIff(rule, answers);
  }

  lemma {:induction false} NewRuleIsFree(definition: Definition, rule: Rule)
    requires rule.id == MakeBranchRule(definition).id
    ensures IsFirstFree("branch", Map((r: Rule) => r.id, definition.branchRules), rule.id)
  {
    UniqueIdIsUnused("branch", Map(RuleId, definition.branchRules));
    assert Map(RuleId, definition.branchRules) == Map((r: Rule) => r.id, definition.branchRules);
  }

  lemma {:induction false} PresentIff(rule: Rule, answers: Answers)
    requires rule.operator == IsPresent
    ensures Matches(rule, answers) <==>
            rule.questionId in answers && answers[rule.questionId] !in [Plain(Undefined), Plain(Null), Plain(Str(""))]
  {
  }

  /** What one added rule keeps the same, any number of them do. */
  lemma {:induction false} AddedRulesKeep(path: Definition -> PathSummary, definition: Definition, n: nat)
    requires forall d :: SamePath(path(d), path(AddBranchRule(d)))
    ensures SamePath(path(definition), path(AddBranchRules(definition, n)))
    decreases n
  {
    if n > 0 { AddedRulesKeep(path, AddBranchRule(definition), n - 1); }
  }

  /** Added rules leave every path as it was, but for the list of matched rules. */
  lemma AddedRulesKeepPaths(definition: Definition, n: nat, answers: Answers, requested: Option<seq<string>>)
    ensures SamePath(Resolve(definition, answers, requested), Resolve(AddBranchRules(definition, n), answers, requested))
  {
    var path := (d: Definition) => Resolve(d, answers, requested);
    forall d ensures SamePath(path(d), path(AddBranchRule(d))) { AddedRuleKeepsPath(d, answers, requested); }
    AddedRulesKeep(path, definition, n);
  }

  // ----- Adding scenarios -----

  function ScenarioId(s: Scenario): string {
    s.id
  }

  function Scenarios(definition: Definition): seq<Scenario> {
    if definition.qaScenarios.Some? then definition.qaScenarios.value else []
  }

  /** `makeIntakeQaScenario`. */
  function MakeScenario(definition: Definition): Scenario {
    Scenario(UniqueId("scenario", Map(ScenarioId, Scenarios(definition))), "New QA scenario", map[], Some([]))
  }

  function AddScenario(definition: Definition): Definition {
    definition.(qaScenarios := Some(Scenarios(definition) + [MakeScenario(definition)]))
  }

  function AddScenarios(definition: Definition, n: nat): Definition
    decreases n
  {
    if n == 0 then definition else AddScenarios(AddScenario(definition), n - 1)
  }

  lemma {:induction false} AddedScenarioIsDistinct(definition: Definition)
    requires Distinct(Map(ScenarioId, Scenarios(definition)))
    ensures Distinct(Map(ScenarioId, Scenarios(AddScenario(definition))))
    ensures |Scenarios(AddScenario(definition))| == |Scenarios(definition)| + 1
  {
    var ids := Map(ScenarioId, Scenarios(definition));
    UniqueIdIsUnused("scenario", ids);
    assert Map(ScenarioId, Scenarios(AddScenario(definition))) == ids + [MakeScenario(definition).id];
    DistinctSnoc(ids, MakeScenario(definition).id);
  }

  lemma {:induction false} FindingsIgnoreScenarios(definition: Definition, scenarios: Option<seq<Scenario>>)
    ensures Diagnostics(definition.(qaScenarios := scenarios)) == Diagnostics(definition)
  {
  }

  /** Added scenarios never share an id. */
  lemma {:induction false} AddedScenariosStayDistinct(definition: Definition, n: nat)
    requires Distinct(Map(ScenarioId, Scenarios(definition)))
    ensures Distinct(Map(ScenarioId, Scenarios(AddScenarios(definition, n))))
    ensures |Scenarios(AddScenarios(definition, n))| == |Scenarios(definition)| + n
    decreases n
  {
    if n > 0 {
      AddedScenarioIsDistinct(definition);
      AddedScenariosStayDistinct(AddScenario(definition), n - 1);
    }
  }

  /** An added scenario stands last under an unused id, answers nothing and asks for
      no package, so its path selects none. */
  lemma {:induction false} AddedScenarioIsBlank(definition: Definition)
    ensures var before, after := Scenarios(definition), AddScenario(definition).qaScenarios;
            && after.Some? && |after.value| == |before| + 1 && after.value[..|before|] == before
            && var s := after.value[|before|];
               && IsFirstFree("scenario", Map((t: Scenario) => t.id, before), s.id)
               && s.name == "New QA scenario" && s.answers == map[]
               && Resolve(definition, s.answers, s.selectedPackageIds).selectedPackageIds == []
               && Resolve(definition, s.answers, s.selectedPackageIds).packageDocumentCount == 0
  {
    var ids := Map(ScenarioId, Scenarios(definition));
    UniqueIdIsUnused("scenario", ids);
    assert ids == Map((t: Scenario) => t.id, Scenarios(definition));
    FilterNone(PackageIn([]), definition.packages);
    assert Filter(In(EligiblePackageIds(definition, map[])), []) == [];
  }

  lemma {:induction false} OnlyScenariosChange(definition: Definition, n: nat)
    ensures AddScenarios(definition, n).(qaScenarios := definition.qaScenarios) == definition
    decreases n
  {
    if n > 0 { OnlyScenariosChange(AddScenario(definition), n - 1); }
  }

  /** Nor do they change any finding of the checker. */
  lemma {:induction false} AddedScenariosKeepFindings(definition: Definition, n: nat)
    ensures Diagnostics(AddScenarios(definition, n)) == Diagnostics(definition)
  {
    OnlyScenariosChange(definition, n);
    FindingsIgnoreScenarios(AddScenarios(definition, n), definition.qaScenarios);
  }
}
