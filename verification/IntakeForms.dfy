/** Intake form definitions and the path that a set of answers takes through
    them: visible questions and items, eligible packages, what is missing. */
module IntakeForms {
  import opened Sequences
  import opened Text

  datatype Scalar = Undefined | Null | Str(s: string) | Num(n: int) | Bool(b: bool)

  datatype Answer = Plain(value: Scalar) | Array(items: seq<Answer>) | Object

  type Answers = map<string, Answer>

  datatype QuestionType = ShortText | LongText | Select | YesNo | Date

  datatype Mapping = Mapping(targetScope: string, targetField: string)

  datatype Question = Question(id: string, kind: QuestionType, required: bool, options: Option<seq<string>>, variableMapping: Option<Mapping>)

  datatype Operator = Equals | NotEquals | Includes | IsPresent

  datatype Rule = Rule(
    id: string, questionId: string, operator: Operator, value: Scalar,
    showQuestionIds: Option<seq<string>>, eligiblePackageIds: Option<seq<string>>)

  datatype Document = Document(id: string, title: string)

  datatype Package = Package(id: string, isDefault: bool, documents: seq<Document>)

  datatype Item =
    | Display(id: string, body: string)
    | QuestionItem(id: string, questionId: string)
    | Upload(id: string, required: bool)
    | Signature(id: string, required: bool, documentId: Option<string>)

  datatype Section = Section(id: string, items: seq<Item>)

  datatype Scenario = Scenario(id: string, name: string, answers: Answers, selectedPackageIds: Option<seq<string>>)

  datatype Definition = Definition(
    questions: seq<Question>, branchRules: seq<Rule>, packages: seq<Package>, sections: seq<Section>, qaScenarios: Option<seq<Scenario>>)

  datatype PathSummary = PathSummary(
    visibleQuestionIds: seq<string>, visibleFormItemIds: seq<string>, requiredIncompleteItemIds: seq<string>,
    matchedBranchRuleIds: seq<string>, eligiblePackageIds: seq<string>, selectedPackageIds: seq<string>, packageDocumentCount: int)

  // ----- Branch rules -----

  /** `answers[questionId]`. */
  function AnswerTo(answers: Answers, questionId: string): Answer {
    if questionId in answers then answers[questionId] else Plain(Undefined)
  }

  predicate AnswerIsPresent(answer: Answer) {
    answer != Plain(Undefined) && answer != Plain(Null) && answer != Plain(Str(""))
  }

  predicate BranchRuleMatches(rule: Rule, answer: Answer) {
    match rule.operator
    case IsPresent => AnswerIsPresent(answer)
    case Includes => answer.Array? && Plain(rule.value) in answer.items
    case Equals => answer == Plain(rule.value)
    case NotEquals => answer != Plain(rule.value)
  }

  predicate Matches(rule: Rule, answers: Answers) {
    BranchRuleMatches(rule, AnswerTo(answers, rule.questionId))
  }

  function Shows(rule: Rule): seq<string> {
    if rule.showQuestionIds.Some? then rule.showQuestionIds.value else []
  }

  function Grants(rule: Rule): seq<string> {
    if rule.eligiblePackageIds.Some? then rule.eligiblePackageIds.value else []
  }

  /** `String(value)`. */
  function ScalarText(value: Scalar): string {
    match value
    case Undefined => "undefined"
    case Null => "null"
    case Str(s) => s
    case Num(n) => DecimalInt(n)
    case Bool(b) => if b then "true" else "false"
  }

  const SAMPLE := "synthetic-preview-value"

  predicate IsSet(value: Scalar) {
    value != Undefined && value != Null
  }

  /** `sampleBranchRuleAnswer`. */
  function SampleAnswer(rule: Rule): Answer {
    match rule.operator
    case IsPresent => Plain(Str(SAMPLE))
    case NotEquals => Plain(Str("not-" + if IsSet(rule.value) then ScalarText(rule.value) else "empty"))
    case Includes => Array([Plain(if IsSet(rule.value) then rule.value else Str(SAMPLE))])
    case Equals => Plain(if IsSet(rule.value) then rule.value else Str(SAMPLE))
  }

  // ----- The path -----

  function QuestionId(q: Question): string {
    q.id
  }

  function RuleId(r: Rule): string {
    r.id
  }

  function PackageId(p: Package): string {
    p.id
  }

  function ItemId(i: Item): string {
    i.id
  }

  function SectionId(s: Section): string {
    s.id
  }

  function AllItems(definition: Definition): seq<Item> {
    FlatMap((s: Section) => s.items, definition.sections)
  }

  function ConditionalIds(rules: seq<Rule>): seq<string> {
    AddAll([], FlatMap(Shows, rules))
  }

  function UnconditionalIds(definition: Definition): seq<string> {
    var conditional := ConditionalIds(definition.branchRules);
    AddAll([], Map(QuestionId, Filter((q: Question) => q.id !in conditional, definition.questions)))
  }

  function DefaultPackageIds(definition: Definition): seq<string> {
    AddAll([], Map(PackageId, Filter((p: Package) => p.isDefault, definition.packages)))
  }

  function ShownBy(answers: Answers): Rule -> seq<string> {
    (r: Rule) => if Matches(r, answers) then Shows(r) else []
  }

  function GrantedBy(answers: Answers): Rule -> seq<string> {
    (r: Rule) => if Matches(r, answers) then Grants(r) else []
  }

  function MatchedBy(answers: Answers): Rule -> seq<string> {
    (r: Rule) => if Matches(r, answers) then [r.id] else []
  }

  function VisibleQuestionIds(definition: Definition, answers: Answers): seq<string> {
    AddAll(UnconditionalIds(definition), FlatMap(ShownBy(answers), definition.branchRules))
  }

  function EligiblePackageIds(definition: Definition, answers: Answers): seq<string> {
    AddAll(DefaultPackageIds(definition), FlatMap(GrantedBy(answers), definition.branchRules))
  }

  function In(ids: seq<string>): string -> bool {
    (id: string) => id in ids
  }

  function PackageIn(ids: seq<string>): Package -> bool {
    (p: Package) => p.id in ids
  }

  /** Everything but a question item is always visible. */
  function ItemVisible(visible: seq<string>): Item -> bool {
    (i: Item) => !i.QuestionItem? || i.questionId in visible
  }

  function SelectedPackageIds(eligible: seq<string>, requested: Option<seq<string>>): seq<string> {
    Filter(In(eligible), if requested.Some? then requested.value else eligible)
  }

  function DocumentCount(packages: seq<Package>, selected: seq<string>): int {
    Sum((p: Package) => |p.documents|, Filter(PackageIn(selected), packages))
  }

  function VisibleItems(items: seq<Item>, visible: seq<string>): seq<Item> {
    Filter(ItemVisible(visible), items)
  }

  /** `questions.find(q => q.id === id)`. */
  function FindQuestion(questions: seq<Question>, id: string): (r: Option<Question>)
    ensures r.Some? <==> exists q :: q in questions && q.id == id
    ensures r.Some? ==> r.value in questions && r.value.id == id
  {
    if questions == [] then None else if questions[0].id == id then Some(questions[0]) else FindQuestion(questions[1..], id)
  }

  predicate RequiredIncomplete(questions: seq<Question>, answers: Answers, item: Item) {
    match item
    case QuestionItem(_, questionId) =>
      var question := FindQuestion(questions, questionId);
      question.Some? && question.value.required && !AnswerIsPresent(AnswerTo(answers, questionId))
    case Display(_, _) => false
    case Upload(_, required) => required
    case Signature(_, required, _) => required
  }

  function Missing(questions: seq<Question>, answers: Answers): Item -> bool {
    (i: Item) => RequiredIncomplete(questions, answers, i)
  }

  function PathFrom(
    definition: Definition, answers: Answers, requested: Option<seq<string>>,
    visible: seq<string>, eligible: seq<string>, matched: seq<string>): PathSummary
  {
    var selected := SelectedPackageIds(eligible, requested);
    var items := VisibleItems(AllItems(definition), visible);
    PathSummary(visible, Map(ItemId, items), Map(ItemId, Filter(Missing(definition.questions, answers), items)),
                matched, eligible, selected, DocumentCount(definition.packages, selected))
  }

  function Resolve(definition: Definition, answers: Answers, requested: Option<seq<string>>): PathSummary {
    PathFrom(definition, answers, requested,
             VisibleQuestionIds(definition, answers), EligiblePackageIds(definition, answers),
             FlatMap(MatchedBy(answers), definition.branchRules))
  }

  /** The loop that adds every id of a list to a Set. */
  method AddEach(ids: seq<string>, more: seq<string>) returns (all: seq<string>)
    ensures all == AddAll(ids, more)
  {
    all := ids;
    for i := 0 to |more|
      invariant AddAll(ids, more) == AddAll(all, more[i..])
    {
      assert more[i..][1..] == more[i + 1..];
      all := Add(all, more[i]);
    }
  }

  lemma AddedByRule(base: seq<string>, f: Rule -> seq<string>, rules: seq<Rule>, i: nat)
    requires i < |rules|
    ensures AddAll(base, FlatMap(f, rules[..i + 1])) == AddAll(AddAll(base, FlatMap(f, rules[..i])), f(rules[i]))
  {
    FlatMapSnoc(f, rules, i);
    AddAllConcat(base, FlatMap(f, rules[..i]), f(rules[i]));
  }

  /** The loop over the rules, which fills two Sets and an array. */
  method FollowRules(rules: seq<Rule>, answers: Answers, unconditional: seq<string>, defaults: seq<string>)
    returns (visible: seq<string>, eligible: seq<string>, matched: seq<string>)
    ensures visible == AddAll(unconditional, FlatMap(ShownBy(answers), rules))
    ensures eligible == AddAll(defaults, FlatMap(GrantedBy(answers), rules))
    ensures matched == FlatMap(MatchedBy(answers), rules)
  {
    visible, eligible, matched := unconditional, defaults, [];
    for i := 0 to |rules|
      invariant visible == AddAll(unconditional, FlatMap(ShownBy(answers), rules[..i]))
      invariant eligible == AddAll(defaults, FlatMap(GrantedBy(answers), rules[..i]))
      invariant matched == FlatMap(MatchedBy(answers), rules[..i])
    {
      var candidate := rules[i];
      AddedByRule(unconditional, ShownBy(answers), rules, i);
      AddedByRule(defaults, GrantedBy(answers), rules, i);
      FlatMapSnoc(MatchedBy(answers), rules, i);
      if Matches(candidate, answers) {
        matched := matched + [candidate.id];
        visible := AddEach(visible, Shows(candidate));
        eligible := AddEach(eligible, Grants(candidate));
      }
    }
    assert rules[..|rules|] == rules;
  }

  /** `summarizeIntakePath`. */
  method SummarizeIntakePath(definition: Definition, answers: Answers, requested: Option<seq<string>>) returns (summary: PathSummary)
    ensures summary == Resolve(definition, answers, requested)
  {
    var visible, eligible, matched := FollowRules(definition.branchRules, answers, UnconditionalIds(definition), DefaultPackageIds(definition));
    summary := PathFrom(definition, answers, requested, visible, eligible, matched);
  }

  // ----- What the path means -----

  /** A question is visible if no rule shows it, or if a matching rule does. */
  ghost predicate IsVisible(definition: Definition, answers: Answers, id: string) {
    || ((exists q :: q in definition.questions && q.id == id) && !(exists r :: r in definition.branchRules && id in Shows(r)))
    || (exists r :: r in definition.branchRules && Matches(r, answers) && id in Shows(r))
  }

  /** A package is eligible by default or by a matching rule. */
  ghost predicate IsEligible(definition: Definition, answers: Answers, id: string) {
    || (exists p :: p in definition.packages && p.isDefault && p.id == id)
    || (exists r :: r in definition.branchRules && Matches(r, answers) && id in Grants(r))
  }

  lemma {:induction false} MapMembers<T(!new)>(f: T -> string, xs: seq<T>, y: string)
    ensures y in Map(f, xs) <==> exists x :: x in xs && f(x) == y
  {
    if y in Map(f, xs) {
      var i :| 0 <= i < |xs| && Map(f, xs)[i] == y;
      assert xs[i] in xs;
    }
    if x :| x in xs && f(x) == y {
      var i :| 0 <= i < |xs| && xs[i] == x;
      assert Map(f, xs)[i] == y;
    }
  }

  lemma {:induction false} VisibleIff(definition: Definition, answers: Answers, id: string)
    ensures id in VisibleQuestionIds(definition, answers) <==> IsVisible(definition, answers, id)
    ensures Distinct(VisibleQuestionIds(definition, answers))
  {
    var rules := definition.branchRules;
    var conditional := ConditionalIds(rules);
    FlatMapMembers(Shows, rules);
    FlatMapMembers(ShownBy(answers), rules);
    MapMembers(QuestionId, Filter((q: Question) => q.id !in conditional, definition.questions), id);
    assert id in FlatMap(ShownBy(answers), rules) <==> exists r :: r in rules && Matches(r, answers) && id in Shows(r);
  }

  lemma EligibleIff(definition: Definition, answers: Answers, id: string)
    ensures id in EligiblePackageIds(definition, answers) <==> IsEligible(definition, answers, id)
    ensures Distinct(EligiblePackageIds(definition, answers))
  {
    var rules := definition.branchRules;
    FlatMapMembers(GrantedBy(answers), rules);
    MapMembers(PackageId, Filter((p: Package) => p.isDefault, definition.packages), id);
    assert id in FlatMap(GrantedBy(answers), rules) <==> exists r :: r in rules && Matches(r, answers) && id in Grants(r);
  }

  ghost predicate SameMembers<T(!new)>(xs: seq<T>, ys: seq<T>) {
    forall x :: x in xs <==> x in ys
  }

  /** Which packages are asked for matters, how often does not. */
  lemma {:induction false} RequestDuplicatesIrrelevant(definition: Definition, answers: Answers, once: seq<string>, often: seq<string>)
    requires SameMembers(once, often)
    ensures Resolve(definition, answers, Some(once)).packageDocumentCount == Resolve(definition, answers, Some(often)).packageDocumentCount
  {
    var eligible := EligiblePackageIds(definition, answers);
    CountBySet(definition.packages, SelectedPackageIds(eligible, Some(once)), SelectedPackageIds(eligible, Some(often)));
  }

  lemma CountBySet(packages: seq<Package>, xs: seq<string>, ys: seq<string>)
    requires SameMembers(xs, ys)
    ensures DocumentCount(packages, xs) == DocumentCount(packages, ys)
  {
    FilterAgree(PackageIn(xs), PackageIn(ys), packages);
  }

  /** Only eligible packages are ever selected. */
  lemma {:induction false} SelectedAreEligible(definition: Definition, answers: Answers, requested: Option<seq<string>>)
    ensures var path := Resolve(definition, answers, requested);
            forall id :: id in path.selectedPackageIds ==> id in path.eligiblePackageIds && IsEligible(definition, answers, id)
  {
    var path := Resolve(definition, answers, requested);
    forall id | id in path.selectedPackageIds ensures IsEligible(definition, answers, id) {
      EligibleIff(definition, answers, id);
    }
  }

  /** Without a request every eligible package is selected; with one, a requested
      package is selected if and only if it is eligible, in the order of the
      request and as often as it is requested. */
  lemma {:induction false} SelectedIff(definition: Definition, answers: Answers, requested: Option<seq<string>>)
    ensures var path := Resolve(definition, answers, requested);
            match requested
            case None => path.selectedPackageIds == path.eligiblePackageIds
            case Some(ids) =>
              && (forall id :: id in path.selectedPackageIds <==> id in ids && IsEligible(definition, answers, id))
              && path.selectedPackageIds == Filter((id: string) => IsEligible(definition, answers, id), ids)
  {
    var eligible := EligiblePackageIds(definition, answers);
    forall id ensures id in eligible <==> IsEligible(definition, answers, id) { EligibleIff(definition, answers, id); }
    match requested
    case None => FilterAll(In(eligible), eligible);
    case Some(ids) => FilterAgree(In(eligible), (id: string) => IsEligible(definition, answers, id), ids);
  }

  /** The documents of the packages with one of the ids, each with its package. */
  ghost function Documents(packages: seq<Package>, ids: seq<string>): set<(string, int)> {
    set p, i | p in packages && p.id in ids && 0 <= i < |p.documents| :: (p.id, i)
  }

  /** With distinct package ids, every document of a selected package is counted
      once, however often the package is requested. */
  lemma {:induction false} DocumentsCounted(definition: Definition, answers: Answers, requested: Option<seq<string>>)
    requires Distinct(Map(PackageId, definition.packages))
    ensures var path := Resolve(definition, answers, requested);
            path.packageDocumentCount == |Documents(definition.packages, path.selectedPackageIds)|
  {
    CountIsSize(definition.packages, Resolve(definition, answers, requested).selectedPackageIds);
  }

  lemma {:induction false} CountIsSize(packages: seq<Package>, ids: seq<string>)
    requires Distinct(Map(PackageId, packages))
    ensures DocumentCount(packages, ids) == |Documents(packages, ids)|
  {
    if packages == [] {
      assert Documents(packages, ids) == {};
    } else {
      OtherIds(packages);
      CountIsSize(packages[1..], ids);
      OwnDocuments(packages[0]);
      FirstDocuments(packages, ids);
      CountPeel(packages, ids);
    }
  }

  lemma {:induction false} OtherIds(packages: seq<Package>)
    requires packages != [] && Distinct(Map(PackageId, packages))
    ensures Distinct(Map(PackageId, packages[1..])) && forall q :: q in packages[1..] ==> q.id != packages[0].id
  {
    var ids, rest := Map(PackageId, packages), packages[1..];
    assert ids[1..] == Map(PackageId, rest);
    forall q | q in rest ensures q.id != packages[0].id {
      var i :| 0 <= i < |rest| && rest[i] == q;
      assert ids[i + 1] == q.id;
    }
  }

  lemma {:induction false} CountPeel(packages: seq<Package>, ids: seq<string>)
    requires packages != []
    ensures DocumentCount(packages, ids)
         == (if packages[0].id in ids then |packages[0].documents| else 0) + DocumentCount(packages[1..], ids)
  {
  }

  ghost function Own(p: Package, ids: seq<string>): set<(string, int)> {
    if p.id in ids then set i | 0 <= i < |p.documents| :: (p.id, i) else {}
  }

  lemma {:induction false} FirstDocuments(packages: seq<Package>, ids: seq<string>)
    requires packages != [] && forall q :: q in packages[1..] ==> q.id != packages[0].id
    ensures Documents(packages, ids) == Own(packages[0], ids) + Documents(packages[1..], ids)
    ensures Own(packages[0], ids) !! Documents(packages[1..], ids)
  {
    var p, rest := packages[0], packages[1..];
    assert forall q :: q in packages <==> q == p || q in rest;
  }

  lemma {:induction false} OwnDocuments(p: Package)
    ensures |set i | 0 <= i < |p.documents| :: (p.id, i)| == |p.documents|
  {
    PairsUpTo(p.id, |p.documents|);
  }

  lemma {:induction false} PairsUpTo(id: string, n: nat)
    ensures |set i | 0 <= i < n :: (id, i)| == n
  {
    if n > 0 {
      PairsUpTo(id, n - 1);
      assert (set i | 0 <= i < n :: (id, i)) == (set i | 0 <= i < n - 1 :: (id, i)) + {(id, n - 1)};
    }
  }

  /** The rest of a summary depends only on the sets of visible and eligible ids. */
  lemma PathBySets(
    definition: Definition, other: Definition, answers: Answers, requested: Option<seq<string>>,
    v: seq<string>, w: seq<string>, e: seq<string>, f: seq<string>, m: seq<string>, n: seq<string>)
    requires other.questions == definition.questions && other.packages == definition.packages && other.sections == definition.sections
    requires SameMembers(v, w) && SameMembers(e, f)
    ensures var a, b := PathFrom(definition, answers, requested, v, e, m), PathFrom(other, answers, requested, w, f, n);
            && a.visibleFormItemIds == b.visibleFormItemIds
            && a.requiredIncompleteItemIds == b.requiredIncompleteItemIds
            && a.packageDocumentCount == b.packageDocumentCount
  {
    FilterAgree(ItemVisible(v), ItemVisible(w), AllItems(definition));
    CountBySet(definition.packages, SelectedPackageIds(e, requested), SelectedPackageIds(f, requested));
  }

  lemma SameRulesSameSets(definition: Definition, other: Definition, answers: Answers)
    requires other.questions == definition.questions && other.packages == definition.packages
    requires SameMembers(definition.branchRules, other.branchRules)
    ensures SameMembers(VisibleQuestionIds(definition, answers), VisibleQuestionIds(other, answers))
    ensures SameMembers(EligiblePackageIds(definition, answers), EligiblePackageIds(other, answers))
  {
    forall id ensures id in VisibleQuestionIds(definition, answers) <==> id in VisibleQuestionIds(other, answers) {
      SameVisible(definition, other, answers, id);
    }
    forall id ensures id in EligiblePackageIds(definition, answers) <==> id in EligiblePackageIds(other, answers) {
      SameEligible(definition, other, answers, id);
    }
  }

  lemma {:induction false} SameVisible(definition: Definition, other: Definition, answers: Answers, id: string)
    requires other.questions == definition.questions && SameMembers(definition.branchRules, other.branchRules)
    ensures id in VisibleQuestionIds(definition, answers) <==> id in VisibleQuestionIds(other, answers)
  {
    VisibleIff(definition, answers, id);
    VisibleIff(other, answers, id);
    assert IsVisible(definition, answers, id) <==> IsVisible(other, answers, id);
  }

  lemma {:induction false} SameEligible(definition: Definition, other: Definition, answers: Answers, id: string)
    requires other.packages == definition.packages && SameMembers(definition.branchRules, other.branchRules)
    ensures id in EligiblePackageIds(definition, answers) <==> id in EligiblePackageIds(other, answers)
  {
    EligibleIff(definition, answers, id);
    EligibleIff(other, answers, id);
    assert IsEligible(definition, answers, id) <==> IsEligible(other, answers, id);
  }

  /** The order of the rules, and repeating one, changes no visible question,
      visible item, missing item, eligible package or document count. */
  lemma {:induction false} RuleOrderIrrelevant(definition: Definition, rules: seq<Rule>, answers: Answers, requested: Option<seq<string>>)
    requires SameMembers(definition.branchRules, rules)
    ensures var a, b := Resolve(definition, answers, requested), Resolve(definition.(branchRules := rules), answers, requested);
            && SameMembers(a.visibleQuestionIds, b.visibleQuestionIds)
            && SameMembers(a.eligiblePackageIds, b.eligiblePackageIds)
            && a.visibleFormItemIds == b.visibleFormItemIds
            && a.requiredIncompleteItemIds == b.requiredIncompleteItemIds
            && a.packageDocumentCount == b.packageDocumentCount
  {
    var other := definition.(branchRules := rules);
    SameRulesSameSets(definition, other, answers);
    PathBySets(definition, other, answers, requested,
               VisibleQuestionIds(definition, answers), VisibleQuestionIds(other, answers),
               EligiblePackageIds(definition, answers), EligiblePackageIds(other, answers),
               FlatMap(MatchedBy(answers), definition.branchRules), FlatMap(MatchedBy(answers), rules));
  }

  /** A rule that shows and grants nothing changes nothing but the matched list. */
  lemma {:induction false} IdleRuleChangesNothing(definition: Definition, rule: Rule, answers: Answers, requested: Option<seq<string>>)
    requires Shows(rule) == [] && Grants(rule) == []
    ensures var before, after := Resolve(definition, answers, requested),
                                 Resolve(definition.(branchRules := definition.branchRules + [rule]), answers, requested);
            after == before.(matchedBranchRuleIds := before.matchedBranchRuleIds + if Matches(rule, answers) then [rule.id] else [])
  {
    IdleRuleSets(definition, rule, answers);
    FlatMapConcat(MatchedBy(answers), definition.branchRules, [rule]);
    assert FlatMap(MatchedBy(answers), [rule]) == MatchedBy(answers)(rule);
  }

  lemma {:induction false} IdleRuleSets(definition: Definition, rule: Rule, answers: Answers)
    requires Shows(rule) == [] && Grants(rule) == []
    ensures var longer := definition.(branchRules := definition.branchRules + [rule]);
            && VisibleQuestionIds(longer, answers) == VisibleQuestionIds(definition, answers)
            && EligiblePackageIds(longer, answers) == EligiblePackageIds(definition, answers)
  {
    var rules := definition.branchRules;
    AppendsNothing(Shows, rules, rule);
    AppendsNothing(ShownBy(answers), rules, rule);
    AppendsNothing(GrantedBy(answers), rules, rule);
  }

  lemma AppendsNothing(f: Rule -> seq<string>, rules: seq<Rule>, rule: Rule)
    requires f(rule) == []
    ensures FlatMap(f, rules + [rule]) == FlatMap(f, rules)
  {
    FlatMapConcat(f, rules, [rule]);
    assert FlatMap(f, [rule]) == f(rule) + [];
  }

  /** A path lists exactly the visible questions, the eligible packages, each once,
      and the ids of the matching rules in the order of the rules. */
  lemma {:induction false} PathListsIff(definition: Definition, answers: Answers, requested: Option<seq<string>>, id: string)
    ensures var path := Resolve(definition, answers, requested);
            && (id in path.visibleQuestionIds <==> IsVisible(definition, answers, id)) && Distinct(path.visibleQuestionIds)
            && (id in path.eligiblePackageIds <==> IsEligible(definition, answers, id)) && Distinct(path.eligiblePackageIds)
            && path.matchedBranchRuleIds == Map((r: Rule) => r.id, Filter((r: Rule) => Matches(r, answers), definition.branchRules))
  {
    VisibleIff(definition, answers, id);
    EligibleIff(definition, answers, id);
    MatchedInOrder(definition.branchRules, answers);
  }

  lemma {:induction false} MatchedInOrder(rules: seq<Rule>, answers: Answers)
    ensures FlatMap(MatchedBy(answers), rules) == Map((r: Rule) => r.id, Filter((r: Rule) => Matches(r, answers), rules))
  {
    if rules != [] {
      MatchedInOrder(rules[1..], answers);
      var rest := Filter((r: Rule) => Matches(r, answers), rules[1..]);
      assert Map((r: Rule) => r.id, [rules[0]] + rest) == [rules[0].id] + Map((r: Rule) => r.id, rest);
    }
  }

  /** When a rule matches: an absent answer counts as undefined. */
  lemma {:induction false} MatchesIff(rule: Rule, answers: Answers)
    ensures var id, wanted := rule.questionId, Plain(rule.value);
            var equal := if id in answers then answers[id] == wanted else rule.value == Undefined;
            match rule.operator
            case Equals => Matches(rule, answers) <==> equal
            case NotEquals => Matches(rule, answers) <==> !equal
            case Includes => Matches(rule, answers) <==> id in answers && answers[id].Array? && exists a :: a in answers[id].items && a == wanted
            case IsPresent => Matches(rule, answers) <==> id in answers && answers[id] !in [Plain(Undefined), Plain(Null), Plain(Str(""))]
  {
  }

  // ----- The sample answer -----

  /** The sample answer makes its own rule match exactly for `present` and
      `not_equals`, and otherwise when the rule has a value. */
  lemma {:induction false} SampleMatchesIff(rule: Rule)
    ensures BranchRuleMatches(rule, SampleAnswer(rule)) <==> rule.operator.IsPresent? || rule.operator.NotEquals? || IsSet(rule.value)
  {
    if rule.operator.NotEquals? && rule.value.Str? {
      assert |"not-" + rule.value.s| == 4 + |rule.value.s|;
    }
  }

  /** What the sample answer is where a rule has no value, and how it differs from
      a text. */
  lemma {:induction false} SampleAnswerIs(rule: Rule)
    ensures rule.operator.IsPresent? ==> SampleAnswer(rule) == Plain(Str("synthetic-preview-value"))
    ensures rule.operator.NotEquals? && rule.value.Str? ==> SampleAnswer(rule) == Plain(Str("not-" + rule.value.s))
    ensures rule.value in [Undefined, Null] ==>
              match rule.operator
              case NotEquals => SampleAnswer(rule) == Plain(Str("not-empty"))
              case Includes => SampleAnswer(rule) == Array([Plain(Str("synthetic-preview-value"))])
              case _ => SampleAnswer(rule) == Plain(Str("synthetic-preview-value"))
  {
    assert "not-" + "empty" == "not-empty";
  }

  /** In the path summary made for a rule of the definition, the rule is listed
      as matched under the same condition; only another rule with its id can
      put the id on the list otherwise. */
  lemma RulePathMatchesIff(definition: Definition, rule: Rule)
    requires rule in definition.branchRules
    ensures var matched := Resolve(definition, map[rule.questionId := SampleAnswer(rule)], None).matchedBranchRuleIds;
            var meant := rule.operator.IsPresent? || rule.operator.NotEquals? || IsSet(rule.value);
            && (meant ==> rule.id in matched)
            && ((forall r :: r in definition.branchRules && r.id == rule.id ==> r == rule) ==> (rule.id in matched <==> meant))
  {
    var answers := map[rule.questionId := SampleAnswer(rule)];
    SampleMatchesIff(rule);
    MatchedIff(definition.branchRules, answers, rule.id);
    assert AnswerTo(answers, rule.questionId) == SampleAnswer(rule);
  }

  lemma {:induction false} MatchedIff(rules: seq<Rule>, answers: Answers, id: string)
    ensures id in FlatMap(MatchedBy(answers), rules) <==> exists r :: r in rules && r.id == id && Matches(r, answers)
  {
    FlatMapMembers(MatchedBy(answers), rules);
  }
}
