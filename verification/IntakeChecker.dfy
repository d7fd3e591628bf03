/** The static checker of the intake form builder, and what it guarantees about
    every path through a definition that it finds nothing blocking in. */
module IntakeChecker {
  import opened Sequences
  import opened Grouping
  import opened IntakeForms
  import opened Text

  datatype Scope = Questions | Sections | Items | BranchRules | Packages | DocumentsOf(packageId: string)

  datatype Diagnostic =
    | DuplicateId(scope: Scope, id: string)
    | UnsupportedMapping(questionId: string)
    | EmptySection(sectionId: string)
    | MissingQuestion(sectionId: string, itemId: string, questionId: string)
    | BrokenSignatureDocument(sectionId: string, itemId: string, documentId: string)
    | SignatureUnverified(sectionId: string, itemId: string, documentId: string)
    | BrokenBranchQuestion(ruleId: string, questionId: string)
    | BranchValueMismatch(ruleId: string, questionId: string)
    | BrokenBranchShow(ruleId: string, questionId: string)
    | BrokenBranchPackage(ruleId: string, packageId: string)
    | EmptyPackage(packageId: string)

  predicate IsBlocking(d: Diagnostic) {
    !d.SignatureUnverified? && !d.BranchValueMismatch?
  }

  // ----- Duplicates -----

  predicate Any(v: string) {
    true
  }

  function Self(v: string): string {
    v
  }

  function Occurrences(values: seq<string>, v: string): seq<string> {
    Members(Any, Self, values, v)
  }

  function Repeated(values: seq<string>): string -> bool {
    (v: string) => |Occurrences(values, v)| > 1
  }

  /** The values that occur more than once, each once, by first appearance. */
  function DuplicateValues(values: seq<string>): seq<string> {
    Filter(Repeated(values), Keys(Any, Self, values))
  }

  function CountFrom(v: string): int {
    0
  }

  function CountOne(n: int, v: string): int {
    n + 1
  }

  lemma {:induction false} CountIsLength(xs: seq<string>)
    ensures Fold(CountOne, 0, xs) == |xs|
    decreases |xs|
  {
    if xs != [] { CountIsLength(xs[..|xs| - 1]); }
  }

  /** `duplicateValues`: count in a Map, then keep the entries above one. */
  method FindDuplicateValues(values: seq<string>) returns (duplicates: seq<string>)
    ensures duplicates == DuplicateValues(values)
  {
    var order, counts := GatherInOrder(Any, Self, CountFrom, CountOne, values);
    forall i | 0 <= i < |order| ensures counts[i] > 1 <==> Repeated(values)(order[i]) {
      CountIsLength(Occurrences(values, order[i]));
    }
    duplicates := AboveOne(order, counts, Repeated(values));
  }

  method AboveOne(order: seq<string>, counts: seq<int>, ghost p: string -> bool) returns (kept: seq<string>)
    requires |counts| == |order| && forall i :: 0 <= i < |order| ==> (counts[i] > 1 <==> p(order[i]))
    ensures kept == Filter(p, order)
  {
    kept := [];
    for i := 0 to |order|
      invariant kept == Filter(p, order[..i])
    {
      FilterSnoc(p, order, i);
      if counts[i] > 1 { kept := kept + [order[i]]; }
    }
    assert order[..|order|] == order;
  }

  lemma {:induction false} AtMostOnce(values: seq<string>, v: string)
    requires Distinct(values)
    ensures |Occurrences(values, v)| <= 1
  {
    if values != [] {
      AtMostOnce(values[1..], v);
      assert forall x :: Self(x) == x;
      if values[0] == v {
        FilterNone(InGroup(Any, Self, v), values[1..]);
      }
    }
  }

  lemma AtLeastTwice(values: seq<string>, i: nat, j: nat)
    requires i < j < |values| && values[i] == values[j]
    ensures |Occurrences(values, values[i])| >= 2
  {
    var p := InGroup(Any, Self, values[i]);
    assert values == values[..j] + values[j..];
    FilterConcat(p, values[..j], values[j..]);
    assert values[..j][i] in Filter(p, values[..j]);
    assert values[j..][0] in Filter(p, values[j..]);
  }

  lemma NoDuplicatesIff(values: seq<string>)
    ensures DuplicateValues(values) == [] <==> Distinct(values)
  {
    if Distinct(values) {
      forall v ensures !Repeated(values)(v) { AtMostOnce(values, v); }
      FilterNone(Repeated(values), Keys(Any, Self, values));
    } else {
      var i, j :| 0 <= i < j < |values| && values[i] == values[j];
      AtLeastTwice(values, i, j);
      KeyIffMembers(Any, Self, values, values[i]);
      assert values[i] in DuplicateValues(values);
    }
  }

  function Duplicates(scope: Scope, values: seq<string>): seq<Diagnostic> {
    Map((id: string) => DuplicateId(scope, id), DuplicateValues(values))
  }

  // ----- The checks -----

  const CLIENT_FIELDS: seq<string> := ["displayName", "email", "phone", "address", "preferredLanguage", "timezone", "communicationNotes", "notes"]
  const MATTER_FIELDS: seq<string> := ["title", "practiceArea", "jurisdiction"]

  predicate Supported(mapping: Mapping) {
    || (mapping.targetScope == "client" && mapping.targetField in CLIENT_FIELDS)
    || (mapping.targetScope == "matter" && mapping.targetField in MATTER_FIELDS)
  }

  function MappingChecks(q: Question): seq<Diagnostic> {
    if q.variableMapping.Some? && !Supported(q.variableMapping.value) then [UnsupportedMapping(q.id)] else []
  }

  /** What a reference can refer to. */
  datatype Known = Known(questionIds: set<string>, packageIds: set<string>, documentIds: set<string>)

  function DocumentId(d: Document): string {
    d.id
  }

  function DocumentIds(p: Package): seq<string> {
    Map(DocumentId, p.documents)
  }

  function KnownIn(definition: Definition): Known {
    Known(set q | q in definition.questions :: q.id,
          set p | p in definition.packages :: p.id,
          set id | id in FlatMap(DocumentIds, definition.packages))
  }

  function ItemChecks(known: Known, sectionId: string): Item -> seq<Diagnostic> {
    (item: Item) =>
      match item
      case QuestionItem(id, questionId) => if questionId in known.questionIds then [] else [MissingQuestion(sectionId, id, questionId)]
      case Signature(id, _, documentId) =>
        if documentId.None? || documentId.value == "" then []
        else if documentId.value in known.documentIds then [SignatureUnverified(sectionId, id, documentId.value)]
        else [BrokenSignatureDocument(sectionId, id, documentId.value)]
      case _ => []
  }

  function SectionChecks(known: Known): Section -> seq<Diagnostic> {
    (s: Section) => (if s.items == [] then [EmptySection(s.id)] else []) + FlatMap(ItemChecks(known, s.id), s.items)
  }

  predicate ValueMismatch(question: Question, value: Scalar) {
    match question.kind
    case YesNo => !value.Bool?
    case Select => question.options.None? || ScalarText(value) !in question.options.value
    case _ => false
  }

  function SourceChecks(questions: seq<Question>, r: Rule): seq<Diagnostic> {
    var source := FindQuestion(questions, r.questionId);
    if source.None? then [BrokenBranchQuestion(r.id, r.questionId)]
    else if r.value != Undefined && !r.operator.IsPresent? && ValueMismatch(source.value, r.value) then [BranchValueMismatch(r.id, r.questionId)]
    else []
  }

  function ShowChecks(known: Known, ruleId: string): string -> seq<Diagnostic> {
    (id: string) => if id in known.questionIds then [] else [BrokenBranchShow(ruleId, id)]
  }

  function GrantChecks(known: Known, ruleId: string): string -> seq<Diagnostic> {
    (id: string) => if id in known.packageIds then [] else [BrokenBranchPackage(ruleId, id)]
  }

  function RuleChecks(known: Known, questions: seq<Question>): Rule -> seq<Diagnostic> {
    (r: Rule) => SourceChecks(questions, r) + FlatMap(ShowChecks(known, r.id), Shows(r)) + FlatMap(GrantChecks(known, r.id), Grants(r))
  }

  function PackageChecks(p: Package): seq<Diagnostic> {
    (if p.documents == [] then [EmptyPackage(p.id)] else []) + Duplicates(DocumentsOf(p.id), DocumentIds(p))
  }

  function ItemIds(definition: Definition): seq<string> {
    Map(ItemId, AllItems(definition))
  }

  function IdChecks(definition: Definition): seq<Diagnostic> {
    Duplicates(Questions, Map(QuestionId, definition.questions)) + Duplicates(Sections, Map(SectionId, definition.sections))
    + Duplicates(Items, ItemIds(definition)) + Duplicates(BranchRules, Map(RuleId, definition.branchRules))
    + Duplicates(Packages, Map(PackageId, definition.packages))
  }

  function Diagnostics(definition: Definition): seq<Diagnostic> {
    var known := KnownIn(definition);
    IdChecks(definition) + FlatMap(MappingChecks, definition.questions) + FlatMap(SectionChecks(known), definition.sections)
    + FlatMap(RuleChecks(known, definition.questions), definition.branchRules) + FlatMap(PackageChecks, definition.packages)
  }

  // ----- The checker's loops -----

  /** `pushDuplicateDiagnostics`. */
  method PushDuplicates(diagnostics: seq<Diagnostic>, scope: Scope, values: seq<string>) returns (longer: seq<Diagnostic>)
    ensures longer == diagnostics + Duplicates(scope, values)
  {
    var duplicates := FindDuplicateValues(values);
    longer := diagnostics;
    for i := 0 to |duplicates|
      invariant longer == diagnostics + Map((id: string) => DuplicateId(scope, id), duplicates[..i])
    {
      longer := longer + [DuplicateId(scope, duplicates[i])];
    }
    assert duplicates[..|duplicates|] == duplicates;
  }

  lemma {:induction false} FlatMapPush<T(!new)>(diagnostics: seq<Diagnostic>, check: T -> seq<Diagnostic>, xs: seq<T>, i: nat)
    requires i < |xs|
    ensures diagnostics + FlatMap(check, xs[..i + 1]) == diagnostics + FlatMap(check, xs[..i]) + check(xs[i])
  {
    FlatMapSnoc(check, xs, i);
  }

  /** One of the loops that pushes what it finds about each element. */
  method PushEach<T(!new)>(diagnostics: seq<Diagnostic>, check: T -> seq<Diagnostic>, xs: seq<T>) returns (longer: seq<Diagnostic>)
    ensures longer == diagnostics + FlatMap(check, xs)
  {
    longer := diagnostics;
    assert FlatMap(check, xs[..0]) == [];
    for i := 0 to |xs|
      invariant longer == diagnostics + FlatMap(check, xs[..i])
    {
      FlatMapPush(diagnostics, check, xs, i);
      longer := longer + check(xs[i]);
    }
    assert xs[..|xs|] == xs;
  }

  /** The five pushes about ids. */
  method BuildIdDiagnostics(definition: Definition) returns (diagnostics: seq<Diagnostic>)
    ensures diagnostics == IdChecks(definition)
  {
    var questions, sections, rules, packages :=
      Map(QuestionId, definition.questions), Map(SectionId, definition.sections),
      Map(RuleId, definition.branchRules), Map(PackageId, definition.packages);
    diagnostics := PushDuplicates([], Questions, questions);
    assert diagnostics == Duplicates(Questions, questions);
    diagnostics := PushDuplicates(diagnostics, Sections, sections);
    diagnostics := PushDuplicates(diagnostics, Items, ItemIds(definition));
    diagnostics := PushDuplicates(diagnostics, BranchRules, rules);
    diagnostics := PushDuplicates(diagnostics, Packages, packages);
  }

  /** `buildIntakeBuilderDiagnostics`: one list, pushed to by every check in turn. */
  method BuildDiagnostics(definition: Definition) returns (diagnostics: seq<Diagnostic>)
    ensures diagnostics == Diagnostics(definition)
  {
    var known := KnownIn(definition);
    diagnostics := BuildIdDiagnostics(definition);
    diagnostics := PushEach(diagnostics, MappingChecks, definition.questions);
    diagnostics := PushSections(diagnostics, known, definition.sections);
    diagnostics := PushRules(diagnostics, known, definition.questions, definition.branchRules);
    diagnostics := PushPackages(diagnostics, definition.packages);
  }

  /** The body of the loop over sections, with the loop over items inside. */
  method PushSection(diagnostics: seq<Diagnostic>, known: Known, section: Section) returns (longer: seq<Diagnostic>)
    ensures longer == diagnostics + SectionChecks(known)(section)
  {
    longer := diagnostics;
    if section.items == [] { longer := longer + [EmptySection(section.id)]; }
    longer := PushEach(longer, ItemChecks(known, section.id), section.items);
  }

  /** The loop over sections. */
  method PushSections(diagnostics: seq<Diagnostic>, known: Known, xs: seq<Section>) returns (longer: seq<Diagnostic>)
    ensures longer == diagnostics + FlatMap(SectionChecks(known), xs)
  {
    longer := diagnostics;
    assert FlatMap(SectionChecks(known), xs[..0]) == [];
    for i := 0 to |xs|
      invariant longer == diagnostics + FlatMap(SectionChecks(known), xs[..i])
    {
      FlatMapPush(diagnostics, SectionChecks(known), xs, i);
      longer := PushSection(longer, known, xs[i]);
    }
    assert xs[..|xs|] == xs;
  }

  /** The body of the loop over rules, with loops over shown questions and
      granted packages inside. */
  method PushRule(diagnostics: seq<Diagnostic>, known: Known, questions: seq<Question>, rule: Rule) returns (longer: seq<Diagnostic>)
    ensures longer == diagnostics + RuleChecks(known, questions)(rule)
  {
    longer := diagnostics + SourceChecks(questions, rule);
    longer := PushEach(longer, ShowChecks(known, rule.id), Shows(rule));
    longer := PushEach(longer, GrantChecks(known, rule.id), Grants(rule));
  }

  /** The loop over rules. */
  method PushRules(diagnostics: seq<Diagnostic>, known: Known, questions: seq<Question>, xs: seq<Rule>) returns (longer: seq<Diagnostic>)
    ensures longer == diagnostics + FlatMap(RuleChecks(known, questions), xs)
  {
    longer := diagnostics;
    assert FlatMap(RuleChecks(known, questions), xs[..0]) == [];
    for i := 0 to |xs|
      invariant longer == diagnostics + FlatMap(RuleChecks(known, questions), xs[..i])
    {
      FlatMapPush(diagnostics, RuleChecks(known, questions), xs, i);
      longer := PushRule(longer, known, questions, xs[i]);
    }
    assert xs[..|xs|] == xs;
  }

  /** The body of the loop over packages. */
  method PushPackage(diagnostics: seq<Diagnostic>, p: Package) returns (longer: seq<Diagnostic>)
    ensures longer == diagnostics + PackageChecks(p)
  {
    longer := diagnostics;
    if p.documents == [] { longer := longer + [EmptyPackage(p.id)]; }
    longer := PushDuplicates(longer, DocumentsOf(p.id), DocumentIds(p));
  }

  /** The loop over packages. */
  method PushPackages(diagnostics: seq<Diagnostic>, xs: seq<Package>) returns (longer: seq<Diagnostic>)
    ensures longer == diagnostics + FlatMap(PackageChecks, xs)
  {
    longer := diagnostics;
    assert FlatMap(PackageChecks, xs[..0]) == [];
    for i := 0 to |xs|
      invariant longer == diagnostics + FlatMap(PackageChecks, xs[..i])
    {
      FlatMapPush(diagnostics, PackageChecks, xs, i);
      longer := PushPackage(longer, xs[i]);
    }
    assert xs[..|xs|] == xs;
  }

  // ----- Nothing blocking means well formed -----

  ghost predicate NoneBlocking(ds: seq<Diagnostic>) {
    forall d :: d in ds ==> !IsBlocking(d)
  }

  ghost predicate HasQuestion(definition: Definition, id: string) {
    exists q :: q in definition.questions && q.id == id
  }

  ghost predicate HasPackage(definition: Definition, id: string) {
    exists p :: p in definition.packages && p.id == id
  }

  ghost predicate HasDocument(definition: Definition, id: string) {
    exists p, d :: p in definition.packages && d in p.documents && d.id == id
  }

  /** Every id is unique in its kind. */
  ghost predicate IdsUnique(definition: Definition) {
    && Distinct(Map(QuestionId, definition.questions)) && Distinct(Map(SectionId, definition.sections)) && Distinct(ItemIds(definition))
    && Distinct(Map(RuleId, definition.branchRules)) && Distinct(Map(PackageId, definition.packages))
    && forall p :: p in definition.packages ==> Distinct(DocumentIds(p))
  }

  ghost predicate ItemSound(definition: Definition, item: Item) {
    && (item.QuestionItem? ==> HasQuestion(definition, item.questionId))
    && (item.Signature? && item.documentId.Some? && item.documentId.value != "" ==> HasDocument(definition, item.documentId.value))
  }

  ghost predicate SectionSound(definition: Definition, s: Section) {
    s.items != [] && forall i :: i in s.items ==> ItemSound(definition, i)
  }

  ghost predicate RuleSound(definition: Definition, r: Rule) {
    && HasQuestion(definition, r.questionId)
    && (forall id :: id in Shows(r) ==> HasQuestion(definition, id))
    && (forall id :: id in Grants(r) ==> HasPackage(definition, id))
  }

  /** Unique ids, supported mappings, nothing empty, every reference resolves. */
  ghost predicate WellFormed(definition: Definition) {
    && IdsUnique(definition)
    && (forall q :: q in definition.questions && q.variableMapping.Some? ==> Supported(q.variableMapping.value))
    && (forall s :: s in definition.sections ==> SectionSound(definition, s))
    && (forall r :: r in definition.branchRules ==> RuleSound(definition, r))
    && (forall p :: p in definition.packages ==> p.documents != [])
  }

  lemma {:induction false} NoneBlockingConcat(xs: seq<Diagnostic>, ys: seq<Diagnostic>)
    ensures NoneBlocking(xs + ys) <==> NoneBlocking(xs) && NoneBlocking(ys)
  {
    assert forall d :: d in xs ==> d in xs + ys;
    assert forall d :: d in ys ==> d in xs + ys;
  }

  lemma {:induction false} NoneBlockingEach<T(!new)>(check: T -> seq<Diagnostic>, xs: seq<T>)
    ensures NoneBlocking(FlatMap(check, xs)) <==> forall x :: x in xs ==> NoneBlocking(check(x))
  {
    if xs != [] {
      NoneBlockingEach(check, xs[1..]);
      NoneBlockingConcat(check(xs[0]), FlatMap(check, xs[1..]));
    }
  }

  lemma DuplicatesBlock(scope: Scope, values: seq<string>)
    ensures NoneBlocking(Duplicates(scope, values)) <==> Distinct(values)
  {
    NoDuplicatesIff(values);
    var ds := Duplicates(scope, values);
    if DuplicateValues(values) != [] { assert IsBlocking(ds[0]) && ds[0] in ds; }
  }

  lemma {:induction false} IdsBlock(definition: Definition)
    ensures NoneBlocking(IdChecks(definition)) <==>
            && Distinct(Map(QuestionId, definition.questions)) && Distinct(Map(SectionId, definition.sections)) && Distinct(ItemIds(definition))
            && Distinct(Map(RuleId, definition.branchRules)) && Distinct(Map(PackageId, definition.packages))
  {
    var a, b := Duplicates(Questions, Map(QuestionId, definition.questions)), Duplicates(Sections, Map(SectionId, definition.sections));
    var c, d := Duplicates(Items, ItemIds(definition)), Duplicates(BranchRules, Map(RuleId, definition.branchRules));
    var e := Duplicates(Packages, Map(PackageId, definition.packages));
    DuplicatesBlock(Questions, Map(QuestionId, definition.questions));
    DuplicatesBlock(Sections, Map(SectionId, definition.sections));
    DuplicatesBlock(Items, ItemIds(definition));
    DuplicatesBlock(BranchRules, Map(RuleId, definition.branchRules));
    DuplicatesBlock(Packages, Map(PackageId, definition.packages));
    NoneBlockingConcat(a, b);
    NoneBlockingConcat(a + b, c);
    NoneBlockingConcat(a + b + c, d);
    NoneBlockingConcat(a + b + c + d, e);
  }

  lemma KnownMeans(definition: Definition)
    ensures forall id :: id in KnownIn(definition).questionIds <==> HasQuestion(definition, id)
    ensures forall id :: id in KnownIn(definition).packageIds <==> HasPackage(definition, id)
    ensures forall id :: id in KnownIn(definition).documentIds <==> HasDocument(definition, id)
  {
    FlatMapMembers(DocumentIds, definition.packages);
    forall id ensures id in KnownIn(definition).documentIds <==> HasDocument(definition, id) {
      if id in KnownIn(definition).documentIds {
        var p :| p in definition.packages && id in DocumentIds(p);
        MapMembersOf(p, id);
      }
      if HasDocument(definition, id) {
        var p, d :| p in definition.packages && d in p.documents && d.id == id;
        MapMembersOf(p, id);
      }
    }
  }

  lemma {:induction false} MapMembersOf(p: Package, id: string)
    ensures id in DocumentIds(p) <==> exists d :: d in p.documents && d.id == id
  {
    MapMembers(DocumentId, p.documents, id);
  }

  lemma SectionBlocks(definition: Definition, s: Section)
    ensures NoneBlocking(SectionChecks(KnownIn(definition))(s)) <==> SectionSound(definition, s)
  {
    var known := KnownIn(definition);
    KnownMeans(definition);
    var empty := if s.items == [] then [EmptySection(s.id)] else [];
    NoneBlockingConcat(empty, FlatMap(ItemChecks(known, s.id), s.items));
    NoneBlockingEach(ItemChecks(known, s.id), s.items);
    assert NoneBlocking(empty) <==> s.items != [] by { if s.items == [] { assert empty[0] in empty; } }
    forall i ensures NoneBlocking(ItemChecks(known, s.id)(i)) <==> ItemSound(definition, i) { ItemBlocks(definition, s.id, i); }
  }

  lemma ItemBlocks(definition: Definition, sectionId: string, i: Item)
    ensures NoneBlocking(ItemChecks(KnownIn(definition), sectionId)(i)) <==> ItemSound(definition, i)
  {
    KnownMeans(definition);
    var ds := ItemChecks(KnownIn(definition), sectionId)(i);
    assert NoneBlocking(ds) <==> (ds == [] || !IsBlocking(ds[0])) by { assert ds != [] ==> ds == [ds[0]]; }
  }

  lemma SourceBlocks(definition: Definition, r: Rule)
    ensures NoneBlocking(SourceChecks(definition.questions, r)) <==> HasQuestion(definition, r.questionId)
  {
    var ds := SourceChecks(definition.questions, r);
    if FindQuestion(definition.questions, r.questionId).None? { assert ds[0] in ds; }
  }

  lemma RuleBlocks(definition: Definition, r: Rule)
    ensures NoneBlocking(RuleChecks(KnownIn(definition), definition.questions)(r)) <==> RuleSound(definition, r)
  {
    var known := KnownIn(definition);
    KnownMeans(definition);
    var source, shows, grants := SourceChecks(definition.questions, r), FlatMap(ShowChecks(known, r.id), Shows(r)), FlatMap(GrantChecks(known, r.id), Grants(r));
    NoneBlockingConcat(source + shows, grants);
    NoneBlockingConcat(source, shows);
    NoneBlockingEach(ShowChecks(known, r.id), Shows(r));
    NoneBlockingEach(GrantChecks(known, r.id), Grants(r));
    SourceBlocks(definition, r);
    forall id ensures NoneBlocking(ShowChecks(known, r.id)(id)) <==> HasQuestion(definition, id) {
      var ds := ShowChecks(known, r.id)(id);
      assert ds != [] ==> ds[0] in ds;
    }
    forall id ensures NoneBlocking(GrantChecks(known, r.id)(id)) <==> HasPackage(definition, id) {
      var ds := GrantChecks(known, r.id)(id);
      assert ds != [] ==> ds[0] in ds;
    }
  }

  lemma PackageBlocks(p: Package)
    ensures NoneBlocking(PackageChecks(p)) <==> p.documents != [] && Distinct(DocumentIds(p))
  {
    var empty := if p.documents == [] then [EmptyPackage(p.id)] else [];
    NoneBlockingConcat(empty, Duplicates(DocumentsOf(p.id), DocumentIds(p)));
    DuplicatesBlock(DocumentsOf(p.id), DocumentIds(p));
    assert NoneBlocking(empty) <==> p.documents != [] by { if p.documents == [] { assert empty[0] in empty; } }
  }

  lemma MappingBlocks(q: Question)
    ensures NoneBlocking(MappingChecks(q)) <==> (q.variableMapping.Some? ==> Supported(q.variableMapping.value))
  {
    assert MappingChecks(q) != [] ==> MappingChecks(q)[0] in MappingChecks(q);
  }

  /** The checker reports nothing blocking exactly for well-formed definitions. */
  lemma {:induction false} NothingBlockingIffWellFormed(definition: Definition)
    ensures NoneBlocking(Diagnostics(definition)) <==> WellFormed(definition)
  {
    var known := KnownIn(definition);
    NoneBlockingConcat5(
      IdChecks(definition), FlatMap(MappingChecks, definition.questions), FlatMap(SectionChecks(known), definition.sections),
      FlatMap(RuleChecks(known, definition.questions), definition.branchRules), FlatMap(PackageChecks, definition.packages));
    IdsBlock(definition);
    MappingsBlock(definition.questions);
    SectionsBlock(definition);
    RulesBlock(definition);
    PackagesBlock(definition.packages);
  }

  lemma {:induction false} NoneBlockingConcat5(
    a: seq<Diagnostic>, b: seq<Diagnostic>, c: seq<Diagnostic>, d: seq<Diagnostic>, e: seq<Diagnostic>)
    ensures NoneBlocking(a + b + c + d + e) <==> NoneBlocking(a) && NoneBlocking(b) && NoneBlocking(c) && NoneBlocking(d) && NoneBlocking(e)
  {
    NoneBlockingConcat(a, b);
    NoneBlockingConcat(a + b, c);
    NoneBlockingConcat(a + b + c, d);
    NoneBlockingConcat(a + b + c + d, e);
  }

  lemma {:induction false} MappingsBlock(questions: seq<Question>)
    ensures NoneBlocking(FlatMap(MappingChecks, questions)) <==>
            forall q :: q in questions && q.variableMapping.Some? ==> Supported(q.variableMapping.value)
  {
    NoneBlockingEach(MappingChecks, questions);
    forall q ensures NoneBlocking(MappingChecks(q)) <==> (q.variableMapping.Some? ==> Supported(q.variableMapping.value)) { MappingBlocks(q); }
  }

  lemma {:induction false} SectionsBlock(definition: Definition)
    ensures NoneBlocking(FlatMap(SectionChecks(KnownIn(definition)), definition.sections)) <==>
            forall s :: s in definition.sections ==> SectionSound(definition, s)
  {
    NoneBlockingEach(SectionChecks(KnownIn(definition)), definition.sections);
    forall s ensures NoneBlocking(SectionChecks(KnownIn(definition))(s)) <==> SectionSound(definition, s) { SectionBlocks(definition, s); }
  }

  lemma {:induction false} RulesBlock(definition: Definition)
    ensures NoneBlocking(FlatMap(RuleChecks(KnownIn(definition), definition.questions), definition.branchRules)) <==>
            forall r :: r in definition.branchRules ==> RuleSound(definition, r)
  {
    var checks := RuleChecks(KnownIn(definition), definition.questions);
    NoneBlockingEach(checks, definition.branchRules);
    forall r ensures NoneBlocking(checks(r)) <==> RuleSound(definition, r) { RuleBlocks(definition, r); }
  }

  lemma {:induction false} PackagesBlock(packages: seq<Package>)
    ensures NoneBlocking(FlatMap(PackageChecks, packages)) <==> forall p :: p in packages ==> p.documents != [] && Distinct(DocumentIds(p))
  {
    NoneBlockingEach(PackageChecks, packages);
    forall p ensures NoneBlocking(PackageChecks(p)) <==> p.documents != [] && Distinct(DocumentIds(p)) { PackageBlocks(p); }
  }

  // ----- Then every path is closed -----

  lemma {:induction false} FilteredMapDistinct<T(!new)>(f: T -> string, p: T -> bool, xs: seq<T>)
    requires Distinct(Map(f, xs))
    ensures Distinct(Map(f, Filter(p, xs)))
  {
    if xs != [] {
      var all, rest := Map(f, xs), Map(f, xs[1..]);
      assert all[1..] == rest;
      FilteredMapDistinct(f, p, xs[1..]);
      var kept := Filter(p, xs[1..]);
      forall i | 0 <= i < |kept| ensures f(kept[i]) != f(xs[0]) {
        assert kept[i] in xs[1..];
        var j :| 1 <= j < |xs| && xs[j] == kept[i];
        assert all[0] != all[j];
      }
      if p(xs[0]) { assert Map(f, [xs[0]] + kept) == [f(xs[0])] + Map(f, kept); }
    }
  }

  /** With nothing blocking, every id on every path exists in the definition,
      none appears twice, and every visible question item has its question. */
  lemma {:induction false} WellFormedPathsAreClosed(definition: Definition, answers: Answers, requested: Option<seq<string>>)
    ensures NoneBlocking(Diagnostics(definition)) ==>
            && PathClosed(definition, Resolve(definition, answers, requested))
            && forall i :: i in AllItems(definition) && i.QuestionItem? ==> HasQuestion(definition, i.questionId)
  {
    NothingBlockingIffWellFormed(definition);
    if WellFormed(definition) {
      VisibleClosed(definition, answers);
      EligibleClosed(definition, answers);
      MatchedClosed(definition.branchRules, answers);
      ItemsClosed(definition, VisibleQuestionIds(definition, answers), answers);
      ItemsResolve(definition);
    }
  }

  ghost predicate PathClosed(definition: Definition, path: PathSummary) {
    && (forall id :: id in path.visibleQuestionIds ==> HasQuestion(definition, id)) && Distinct(path.visibleQuestionIds)
    && (forall id :: id in path.eligiblePackageIds ==> HasPackage(definition, id)) && Distinct(path.eligiblePackageIds)
    && (forall id :: id in path.selectedPackageIds ==> HasPackage(definition, id))
    && (forall id :: id in path.matchedBranchRuleIds ==> id in Map(RuleId, definition.branchRules))
    && (forall id :: id in path.visibleFormItemIds ==> id in ItemIds(definition)) && Distinct(path.visibleFormItemIds)
    && (forall id :: id in path.requiredIncompleteItemIds ==> id in path.visibleFormItemIds) && Distinct(path.requiredIncompleteItemIds)
  }

  lemma {:induction false} MatchedClosed(rules: seq<Rule>, answers: Answers)
    ensures forall id :: id in FlatMap(MatchedBy(answers), rules) ==> id in Map(RuleId, rules)
  {
    forall id | id in FlatMap(MatchedBy(answers), rules) ensures id in Map(RuleId, rules) {
      MatchedIff(rules, answers, id);
      MapMembers(RuleId, rules, id);
    }
  }

  lemma VisibleClosed(definition: Definition, answers: Answers)
    requires WellFormed(definition)
    ensures forall id :: id in VisibleQuestionIds(definition, answers) ==> HasQuestion(definition, id)
    ensures Distinct(VisibleQuestionIds(definition, answers))
  {
    forall id | id in VisibleQuestionIds(definition, answers) ensures HasQuestion(definition, id) { VisibleIff(definition, answers, id); }
  }

  lemma EligibleClosed(definition: Definition, answers: Answers)
    requires WellFormed(definition)
    ensures forall id :: id in EligiblePackageIds(definition, answers) ==> HasPackage(definition, id)
    ensures Distinct(EligiblePackageIds(definition, answers))
  {
    forall id | id in EligiblePackageIds(definition, answers) ensures HasPackage(definition, id) { EligibleIff(definition, answers, id); }
  }

  lemma ItemsClosed(definition: Definition, visible: seq<string>, answers: Answers)
    requires WellFormed(definition)
    ensures var items := VisibleItems(AllItems(definition), visible);
            var missing := Filter(Missing(definition.questions, answers), items);
            && (forall id :: id in Map(ItemId, items) ==> id in ItemIds(definition)) && Distinct(Map(ItemId, items))
            && (forall id :: id in Map(ItemId, missing) ==> id in Map(ItemId, items)) && Distinct(Map(ItemId, missing))
  {
    var items := VisibleItems(AllItems(definition), visible);
    FilteredMapDistinct(ItemId, ItemVisible(visible), AllItems(definition));
    FilteredMapDistinct(ItemId, Missing(definition.questions, answers), items);
    ItemsKept(ItemVisible(visible), AllItems(definition));
    ItemsKept(Missing(definition.questions, answers), items);
  }

  /** With nothing blocking, an item shows exactly when its question is visible,
      and is missing exactly when it shows, is required and is not answered. */
  lemma {:induction false} ItemMissingIff(definition: Definition, answers: Answers, requested: Option<seq<string>>, item: Item)
    ensures NoneBlocking(Diagnostics(definition)) && item in AllItems(definition) ==>
            var path := Resolve(definition, answers, requested);
            && (item.id in path.visibleFormItemIds <==> Showing(definition, answers, item))
            && (item.id in path.requiredIncompleteItemIds <==> Showing(definition, answers, item) && Unmet(definition, answers, item))
  {
    NothingBlockingIffWellFormed(definition);
    if WellFormed(definition) && item in AllItems(definition) {
      var visible := VisibleQuestionIds(definition, answers);
      ItemKeptTwiceIff(Missing(definition.questions, answers), ItemVisible(visible), AllItems(definition), item);
      ShowingIff(definition, answers, item);
      UnmetIff(definition, answers, item);
    }
  }

  lemma {:induction false} ShowingIff(definition: Definition, answers: Answers, item: Item)
    ensures ItemVisible(VisibleQuestionIds(definition, answers))(item) <==> Showing(definition, answers, item)
  {
    if item.QuestionItem? { VisibleIff(definition, answers, item.questionId); }
  }

  lemma {:induction false} ItemKeptTwiceIff(p: Item -> bool, q: Item -> bool, items: seq<Item>, item: Item)
    requires Distinct(Map(ItemId, items)) && item in items
    ensures item.id in Map(ItemId, Filter(q, items)) <==> q(item)
    ensures item.id in Map(ItemId, Filter(p, Filter(q, items))) <==> q(item) && p(item)
  {
    ItemKeptIff(q, items, item);
    if q(item) {
      FilteredMapDistinct(ItemId, q, items);
      ItemKeptIff(p, Filter(q, items), item);
    } else {
      ItemsKept(p, Filter(q, items));
    }
  }

  ghost predicate Showing(definition: Definition, answers: Answers, item: Item) {
    item.QuestionItem? ==> IsVisible(definition, answers, item.questionId)
  }

  /** A required question without an answer, a required upload or signature. */
  ghost predicate Unmet(definition: Definition, answers: Answers, item: Item) {
    match item
    case QuestionItem(_, id) => (exists q :: q in definition.questions && q.id == id && q.required) && !AnswerIsPresent(AnswerTo(answers, id))
    case Upload(_, required) => required
    case Signature(_, required, _) => required
    case Display(_, _) => false
  }

  lemma {:induction false} UnmetIff(definition: Definition, answers: Answers, item: Item)
    requires Distinct(Map(QuestionId, definition.questions))
    ensures RequiredIncomplete(definition.questions, answers, item) <==> Unmet(definition, answers, item)
  {
    if item.QuestionItem? {
      var ids := Map(QuestionId, definition.questions);
      forall p, q | p in definition.questions && q in definition.questions && p.id == q.id ensures p == q {
        var i :| 0 <= i < |ids| && definition.questions[i] == p;
        var j :| 0 <= j < |ids| && definition.questions[j] == q;
        assert ids[i] == ids[j];
      }
    }
  }

  /** With distinct ids, the ids of the items kept tell which items were kept. */
  lemma ItemKeptIff(p: Item -> bool, items: seq<Item>, item: Item)
    requires Distinct(Map(ItemId, items)) && item in items
    ensures item.id in Map(ItemId, Filter(p, items)) <==> p(item)
  {
    MapMembers(ItemId, Filter(p, items), item.id);
    var ids := Map(ItemId, items);
    forall other | other in items && other.id == item.id ensures other == item {
      var i :| 0 <= i < |ids| && items[i] == other;
      var j :| 0 <= j < |ids| && items[j] == item;
      assert ids[i] == ids[j];
    }
  }

  // ----- What the value warning means -----

  /** The answers that a yes/no question or a selection can be given. */
  ghost predicate Allowed(q: Question, answer: Scalar) {
    match q.kind
    case YesNo => answer.Bool?
    case Select => answer.Str? && q.options.Some? && answer.s in q.options.value
    case _ => true
  }

  /** An `equals` rule with a value can be met by an allowed answer exactly when
      the checker does not warn about the value and, for a selection, the value
      is text: a number or truth value that merely prints like an option is not
      warned about and never matches. A `not_equals` rule that cannot be met as
      `equals` matches every allowed answer. An `includes` rule, which asks for a
      list, matches no allowed answer at all. */
  lemma {:induction false} MatchableIff(q: Question, rule: Rule)
    requires rule.value != Undefined && (q.kind.YesNo? || q.kind.Select?)
    ensures var sound := !ValueMismatch(q, rule.value) && (q.kind.Select? ==> rule.value.Str?);
            && ((exists a :: Allowed(q, a) && BranchRuleMatches(rule.(operator := Equals), Plain(a))) <==> sound)
            && ((forall a :: Allowed(q, a) ==> BranchRuleMatches(rule.(operator := NotEquals), Plain(a))) <==> !sound)
            && !exists a :: Allowed(q, a) && BranchRuleMatches(rule.(operator := Includes), Plain(a))
  {
    var v := rule.value;
    if Allowed(q, v) {
      assert BranchRuleMatches(rule.(operator := Equals), Plain(v));
      assert !BranchRuleMatches(rule.(operator := NotEquals), Plain(v));
    }
  }

  /** The number 5 on a selection with the option "5": the checker finds nothing
      at all to say about the rule, and no allowed answer meets it. */
  lemma {:induction false} DeadRuleUnreported(q: Question, rule: Rule, definition: Definition)
    requires q == Question("q", Select, false, Some(["5"]), None)
    requires rule == Rule("r", "q", Equals, Num(5), None, None)
    requires definition == Definition([q], [rule], [], [], None)
    ensures Diagnostics(definition) == []
    ensures forall a :: Allowed(q, a) ==> !Matches(rule, map[rule.questionId := Plain(a)])
  {
    NoRuleChecks(KnownIn(definition), q, rule);
    NothingReported(q, rule, definition);
    NeverMet(q, rule);
  }

  lemma {:induction false} NeverMet(q: Question, rule: Rule)
    requires q.kind == Select && rule.operator == Equals && rule.value.Num?
    ensures forall a :: Allowed(q, a) ==> !Matches(rule, map[rule.questionId := Plain(a)])
  {
    forall a | Allowed(q, a) ensures !Matches(rule, map[rule.questionId := Plain(a)]) { NumberNeverMet(rule, a); }
  }

  lemma {:induction false} NumberNeverMet(rule: Rule, a: Scalar)
    requires rule.operator == Equals && rule.value.Num? && a.Str?
    ensures !Matches(rule, map[rule.questionId := Plain(a)])
  {
    assert AnswerTo(map[rule.questionId := Plain(a)], rule.questionId) == Plain(a);
  }

  lemma {:induction false} NothingReported(q: Question, rule: Rule, definition: Definition)
    requires definition == Definition([q], [rule], [], [], None)
    requires RuleChecks(KnownIn(definition), [q])(rule) == [] && MappingChecks(q) == []
    ensures Diagnostics(definition) == []
  {
    OneSaysNothing(RuleChecks(KnownIn(definition), [q]), rule);
    OneSaysNothing(MappingChecks, q);
    NoIdChecks(definition);
  }

  lemma {:induction false} NoRuleChecks(known: Known, q: Question, rule: Rule)
    requires q == Question("q", Select, false, Some(["5"]), None)
    requires rule == Rule("r", "q", Equals, Num(5), None, None)
    ensures RuleChecks(known, [q])(rule) == []
  {
    assert ScalarText(Num(5)) == ['5'] == "5";
    assert SourceChecks([q], rule) == [] by { assert ScalarText(rule.value) in q.options.value; }
  }

  lemma {:induction false} OneSaysNothing<T(!new)>(check: T -> seq<Diagnostic>, x: T)
    requires check(x) == []
    ensures FlatMap(check, [x]) == []
  {
    assert [x][1..] == [];
  }

  lemma {:induction false} NoIdChecks(definition: Definition)
    requires |definition.questions| <= 1 && |definition.branchRules| <= 1 && definition.sections == [] && definition.packages == []
    ensures IdChecks(definition) == []
  {
    NoDuplicatesIff(Map(QuestionId, definition.questions));
    NoDuplicatesIff(Map(SectionId, definition.sections));
    NoDuplicatesIff(ItemIds(definition));
    NoDuplicatesIff(Map(RuleId, definition.branchRules));
    NoDuplicatesIff(Map(PackageId, definition.packages));
  }

  // ----- What each finding means -----

  ghost predicate Repeats(values: seq<string>, v: string) {
    exists i, j :: 0 <= i < j < |values| && values[i] == v && values[j] == v
  }

  lemma {:induction false} OccursOnce(values: seq<string>, v: string)
    requires !Repeats(values, v)
    ensures |Occurrences(values, v)| <= 1
  {
    if values != [] {
      var rest := values[1..];
      assert forall i :: 0 <= i < |rest| ==> rest[i] == values[i + 1];
      forall i, j | 0 <= i < j < |rest| ensures rest[i] != v || rest[j] != v { assert values[i + 1] != v || values[j + 1] != v; }
      OccursOnce(rest, v);
      assert forall x :: Self(x) == x;
      if values[0] == v {
        forall x | x in rest ensures x != v {
          var j :| 0 <= j < |rest| && rest[j] == x;
          assert values[0] != v || values[j + 1] != v;
        }
        FilterNone(InGroup(Any, Self, v), rest);
      }
    }
  }

  lemma {:induction false} RepeatsIff(values: seq<string>, v: string)
    ensures v in DuplicateValues(values) <==> Repeats(values, v)
  {
    KeyIffMembers(Any, Self, values, v);
    if Repeats(values, v) {
      var i, j :| 0 <= i < j < |values| && values[i] == v && values[j] == v;
      AtLeastTwice(values, i, j);
    } else {
      OccursOnce(values, v);
    }
  }

  lemma {:induction false} DuplicatesIff(scope: Scope, values: seq<string>, d: Diagnostic)
    ensures d in Duplicates(scope, values) <==> d.DuplicateId? && d.scope == scope && Repeats(values, d.id)
  {
    var ids, ds := DuplicateValues(values), Duplicates(scope, values);
    if d.DuplicateId? { RepeatsIff(values, d.id); }
    if d in ds {
      var i :| 0 <= i < |ds| && ds[i] == d;
      assert ids[i] in ids && d == DuplicateId(scope, ids[i]);
    }
    if d.DuplicateId? && d.scope == scope && d.id in ids {
      var i :| 0 <= i < |ids| && ids[i] == d.id;
      assert ds[i] == d;
    }
  }

  /** Which ids must differ from each other. */
  ghost predicate TwiceIn(definition: Definition, scope: Scope, id: string) {
    match scope
    case Questions => Repeats(Map((q: Question) => q.id, definition.questions), id)
    case Sections => Repeats(Map((s: Section) => s.id, definition.sections), id)
    case Items => Repeats(Map((i: Item) => i.id, FlatMap((s: Section) => s.items, definition.sections)), id)
    case BranchRules => Repeats(Map((r: Rule) => r.id, definition.branchRules), id)
    case Packages => Repeats(Map((p: Package) => p.id, definition.packages), id)
    case DocumentsOf(packageId) =>
      exists p :: p in definition.packages && p.id == packageId && Repeats(Map((d: Document) => d.id, p.documents), id)
  }

  ghost predicate IsTarget(mapping: Mapping) {
    || (mapping.targetScope == "client"
        && mapping.targetField in ["displayName", "email", "phone", "address", "preferredLanguage", "timezone", "communicationNotes", "notes"])
    || (mapping.targetScope == "matter" && mapping.targetField in ["title", "practiceArea", "jurisdiction"])
  }

  /** `String(value)` is the text. */
  ghost predicate PrintsAs(value: Scalar, text: string) {
    match value
    case Undefined => text == "undefined"
    case Null => text == "null"
    case Str(s) => text == s
    case Num(n) => if n >= 0 then text == Decimal(n) else text == "-" + Decimal(-n)
    case Bool(true) => text == "true"
    case Bool(false) => text == "false"
  }

  lemma {:induction false} PrintsAsIff(value: Scalar, text: string)
    ensures text == ScalarText(value) <==> PrintsAs(value, text)
  {
  }

  /** The rule compares its first question with a value that no answer has. */
  ghost predicate Mismatches(questions: seq<Question>, r: Rule) {
    && r.value != Undefined && r.operator in [Equals, NotEquals, Includes]
    && exists i :: 0 <= i < |questions| && questions[i].id == r.questionId && (forall j :: 0 <= j < i ==> questions[j].id != r.questionId)
         && match questions[i].kind
            case YesNo => !r.value.Bool?
            case Select => questions[i].options == None || !exists option :: option in questions[i].options.value && PrintsAs(r.value, option)
            case _ => false
  }

  ghost predicate InSection(definition: Definition, sectionId: string, item: Item) {
    exists s :: s in definition.sections && s.id == sectionId && item in s.items
  }

  /** What is the case when a finding is reported. */
  ghost predicate Found(definition: Definition, d: Diagnostic) {
    match d
    case DuplicateId(scope, id) => TwiceIn(definition, scope, id)
    case UnsupportedMapping(questionId) =>
      exists q :: q in definition.questions && q.id == questionId && q.variableMapping.Some? && !IsTarget(q.variableMapping.value)
    case EmptySection(sectionId) => exists s :: s in definition.sections && s.id == sectionId && s.items == []
    case MissingQuestion(sectionId, itemId, questionId) =>
      InSection(definition, sectionId, QuestionItem(itemId, questionId)) && !HasQuestion(definition, questionId)
    case BrokenSignatureDocument(sectionId, itemId, documentId) =>
      documentId != "" && !HasDocument(definition, documentId)
      && exists required :: InSection(definition, sectionId, Signature(itemId, required, Some(documentId)))
    case SignatureUnverified(sectionId, itemId, documentId) =>
      documentId != "" && HasDocument(definition, documentId)
      && exists required :: InSection(definition, sectionId, Signature(itemId, required, Some(documentId)))
    case BrokenBranchQuestion(ruleId, questionId) =>
      !HasQuestion(definition, questionId) && exists r :: r in definition.branchRules && r.id == ruleId && r.questionId == questionId
    case BranchValueMismatch(ruleId, questionId) =>
      exists r :: r in definition.branchRules && r.id == ruleId && r.questionId == questionId && Mismatches(definition.questions, r)
    case BrokenBranchShow(ruleId, questionId) =>
      !HasQuestion(definition, questionId)
      && exists r :: r in definition.branchRules && r.id == ruleId && r.showQuestionIds.Some? && questionId in r.showQuestionIds.value
    case BrokenBranchPackage(ruleId, packageId) =>
      !HasPackage(definition, packageId)
      && exists r :: r in definition.branchRules && r.id == ruleId && r.eligiblePackageIds.Some? && packageId in r.eligiblePackageIds.value
    case EmptyPackage(packageId) => exists p :: p in definition.packages && p.id == packageId && p.documents == []
  }

  lemma {:induction false} IdFindingsIff(definition: Definition, d: Diagnostic)
    ensures d in IdChecks(definition) <==> d.DuplicateId? && !d.scope.DocumentsOf? && Found(definition, d)
  {
    DuplicatesIff(Questions, Map(QuestionId, definition.questions), d);
    DuplicatesIff(Sections, Map(SectionId, definition.sections), d);
    DuplicatesIff(Items, ItemIds(definition), d);
    DuplicatesIff(BranchRules, Map(RuleId, definition.branchRules), d);
    DuplicatesIff(Packages, Map(PackageId, definition.packages), d);
    IdsAlike(definition);
    if d.DuplicateId? && !d.scope.DocumentsOf? { TwiceIff(definition, d.scope, d.id); }
  }

  /** The ids of one kind. */
  function IdsOf(definition: Definition, scope: Scope): seq<string>
    requires !scope.DocumentsOf?
  {
    match scope
    case Questions => Map(QuestionId, definition.questions)
    case Sections => Map(SectionId, definition.sections)
    case Items => ItemIds(definition)
    case BranchRules => Map(RuleId, definition.branchRules)
    case Packages => Map(PackageId, definition.packages)
  }

  lemma {:induction false} TwiceIff(definition: Definition, scope: Scope, id: string)
    requires !scope.DocumentsOf?
    ensures TwiceIn(definition, scope, id) <==> Repeats(IdsOf(definition, scope), id)
  {
    IdsAlike(definition);
  }

  lemma {:induction false} IdsAlike(definition: Definition)
    ensures Map(QuestionId, definition.questions) == Map((q: Question) => q.id, definition.questions)
    ensures Map(SectionId, definition.sections) == Map((s: Section) => s.id, definition.sections)
    ensures ItemIds(definition) == Map((i: Item) => i.id, FlatMap((s: Section) => s.items, definition.sections))
    ensures Map(RuleId, definition.branchRules) == Map((r: Rule) => r.id, definition.branchRules)
    ensures Map(PackageId, definition.packages) == Map((p: Package) => p.id, definition.packages)
  {
  }

  lemma {:induction false} MappingFindingsIff(definition: Definition, d: Diagnostic)
    ensures d in FlatMap(MappingChecks, definition.questions) <==> d.UnsupportedMapping? && Found(definition, d)
  {
    FlatMapMembers(MappingChecks, definition.questions);
    forall q ensures d in MappingChecks(q) <==>
                     d == UnsupportedMapping(q.id) && q.variableMapping.Some? && !IsTarget(q.variableMapping.value) {}
  }

  predicate OfSections(d: Diagnostic) {
    d.EmptySection? || d.MissingQuestion? || d.BrokenSignatureDocument? || d.SignatureUnverified?
  }

  /** What the check of one item says. */
  ghost predicate ItemFault(definition: Definition, sectionId: string, item: Item, d: Diagnostic) {
    match d
    case MissingQuestion(s, i, q) => s == sectionId && item == QuestionItem(i, q) && !HasQuestion(definition, q)
    case BrokenSignatureDocument(s, i, c) =>
      s == sectionId && item.Signature? && item.id == i && item.documentId == Some(c) && c != "" && !HasDocument(definition, c)
    case SignatureUnverified(s, i, c) =>
      s == sectionId && item.Signature? && item.id == i && item.documentId == Some(c) && c != "" && HasDocument(definition, c)
    case _ => false
  }

  lemma {:induction false} ItemFaultIff(definition: Definition, sectionId: string, item: Item, d: Diagnostic)
    ensures d in ItemChecks(KnownIn(definition), sectionId)(item) <==> ItemFault(definition, sectionId, item, d)
  {
    KnownMeans(definition);
  }

  lemma {:induction false} SectionFaultIff(definition: Definition, s: Section, d: Diagnostic)
    ensures d in SectionChecks(KnownIn(definition))(s) <==>
            (d == EmptySection(s.id) && s.items == []) || exists i :: i in s.items && ItemFault(definition, s.id, i, d)
  {
    var check := ItemChecks(KnownIn(definition), s.id);
    FlatMapMembers(check, s.items);
    forall i ensures d in check(i) <==> ItemFault(definition, s.id, i, d) { ItemFaultIff(definition, s.id, i, d); }
  }

  lemma {:induction false} SectionFindingsIff(definition: Definition, d: Diagnostic)
    ensures d in FlatMap(SectionChecks(KnownIn(definition)), definition.sections) <==> OfSections(d) && Found(definition, d)
  {
    var check := SectionChecks(KnownIn(definition));
    FlatMapMembers(check, definition.sections);
    forall s ensures d in check(s) <==>
                     (d == EmptySection(s.id) && s.items == []) || exists i :: i in s.items && ItemFault(definition, s.id, i, d)
    {
      SectionFaultIff(definition, s, d);
    }
    SectionFoundIff(definition, d);
  }

  lemma {:induction false} SectionFoundIff(definition: Definition, d: Diagnostic)
    ensures OfSections(d) && Found(definition, d) <==>
            exists s :: s in definition.sections
                     && ((d == EmptySection(s.id) && s.items == []) || exists i :: i in s.items && ItemFault(definition, s.id, i, d))
  {
    forall s, i | s in definition.sections && i in s.items && ItemFault(definition, s.id, i, d) ensures OfSections(d) && Found(definition, d) {
      if i.Signature? { assert i == Signature(i.id, i.required, i.documentId) && InSection(definition, s.id, i); }
    }
    if OfSections(d) && Found(definition, d) && !d.EmptySection? {
      if d.MissingQuestion? {
        var s :| s in definition.sections && s.id == d.sectionId && QuestionItem(d.itemId, d.questionId) in s.items;
      } else {
        var required :| InSection(definition, d.sectionId, Signature(d.itemId, required, Some(d.documentId)));
        var s :| s in definition.sections && s.id == d.sectionId && Signature(d.itemId, required, Some(d.documentId)) in s.items;
        assert ItemFault(definition, s.id, Signature(d.itemId, required, Some(d.documentId)), d);
      }
    }
  }

  predicate OfRules(d: Diagnostic) {
    d.BrokenBranchQuestion? || d.BranchValueMismatch? || d.BrokenBranchShow? || d.BrokenBranchPackage?
  }

  /** What the check of one rule says. */
  ghost predicate RuleFault(definition: Definition, r: Rule, d: Diagnostic) {
    match d
    case BrokenBranchQuestion(id, q) => id == r.id && q == r.questionId && !HasQuestion(definition, q)
    case BranchValueMismatch(id, q) => id == r.id && q == r.questionId && Mismatches(definition.questions, r)
    case BrokenBranchShow(id, q) => id == r.id && r.showQuestionIds.Some? && q in r.showQuestionIds.value && !HasQuestion(definition, q)
    case BrokenBranchPackage(id, p) => id == r.id && r.eligiblePackageIds.Some? && p in r.eligiblePackageIds.value && !HasPackage(definition, p)
    case _ => false
  }

  /** The first question with an id is the one found. */
  lemma {:induction false} FoundIsFirst(questions: seq<Question>, id: string, i: nat)
    requires i < |questions| && questions[i].id == id && forall j :: 0 <= j < i ==> questions[j].id != id
    ensures FindQuestion(questions, id) == Some(questions[i])
  {
    if i > 0 { FoundIsFirst(questions[1..], id, i - 1); }
  }

  lemma {:induction false} FirstExists(questions: seq<Question>, id: string) returns (i: nat)
    requires FindQuestion(questions, id).Some?
    ensures i < |questions| && questions[i].id == id && forall j :: 0 <= j < i ==> questions[j].id != id
  {
    i := 0;
    if questions[0].id != id {
      var k := FirstExists(questions[1..], id);
      assert forall j :: 1 <= j < k + 1 ==> questions[1..][j - 1] == questions[j];
      i := k + 1;
    }
  }

  lemma {:induction false} MismatchIff(questions: seq<Question>, r: Rule)
    ensures Mismatches(questions, r) <==>
            && FindQuestion(questions, r.questionId).Some? && r.value != Undefined && !r.operator.IsPresent?
            && ValueMismatch(FindQuestion(questions, r.questionId).value, r.value)
  {
    if FindQuestion(questions, r.questionId).Some? {
      var i := FirstExists(questions, r.questionId);
      FoundIsFirst(questions, r.questionId, i);
      forall option ensures option == ScalarText(r.value) <==> PrintsAs(r.value, option) { PrintsAsIff(r.value, option); }
      forall j | 0 <= j < |questions| && questions[j].id == r.questionId && (forall k :: 0 <= k < j ==> questions[k].id != r.questionId) ensures j == i {}
    }
  }

  lemma {:induction false} RuleFaultIff(definition: Definition, r: Rule, d: Diagnostic)
    ensures d in RuleChecks(KnownIn(definition), definition.questions)(r) <==> RuleFault(definition, r, d)
  {
    var known := KnownIn(definition);
    KnownMeans(definition);
    MismatchIff(definition.questions, r);
    FlatMapMembers(ShowChecks(known, r.id), Shows(r));
    FlatMapMembers(GrantChecks(known, r.id), Grants(r));
    SourceFaultIff(definition, r, d);
    assert d in FlatMap(ShowChecks(known, r.id), Shows(r)) <==> d.BrokenBranchShow? && RuleFault(definition, r, d);
    assert d in FlatMap(GrantChecks(known, r.id), Grants(r)) <==> d.BrokenBranchPackage? && RuleFault(definition, r, d);
  }

  lemma {:induction false} SourceFaultIff(definition: Definition, r: Rule, d: Diagnostic)
    ensures d in SourceChecks(definition.questions, r) <==> (d.BrokenBranchQuestion? || d.BranchValueMismatch?) && RuleFault(definition, r, d)
  {
    MismatchIff(definition.questions, r);
  }

  lemma {:induction false} RuleFindingsIff(definition: Definition, d: Diagnostic)
    ensures d in FlatMap(RuleChecks(KnownIn(definition), definition.questions), definition.branchRules) <==> OfRules(d) && Found(definition, d)
  {
    var check := RuleChecks(KnownIn(definition), definition.questions);
    FlatMapMembers(check, definition.branchRules);
    forall r ensures d in check(r) <==> RuleFault(definition, r, d) { RuleFaultIff(definition, r, d); }
  }

  predicate OfPackages(d: Diagnostic) {
    d.EmptyPackage? || (d.DuplicateId? && d.scope.DocumentsOf?)
  }

  lemma {:induction false} PackageFindingsIff(definition: Definition, d: Diagnostic)
    ensures d in FlatMap(PackageChecks, definition.packages) <==> OfPackages(d) && Found(definition, d)
  {
    FlatMapMembers(PackageChecks, definition.packages);
    forall p ensures d in PackageChecks(p) <==> PackageFault(p, d) { PackageFaultIff(p, d); }
    PackageFoundIff(definition, d);
  }

  /** What the check of one package says. */
  ghost predicate PackageFault(p: Package, d: Diagnostic) {
    match d
    case EmptyPackage(id) => id == p.id && p.documents == []
    case DuplicateId(scope, id) => scope == DocumentsOf(p.id) && Repeats(DocumentIds(p), id)
    case _ => false
  }

  lemma {:induction false} PackageFaultIff(p: Package, d: Diagnostic)
    ensures d in PackageChecks(p) <==> PackageFault(p, d)
  {
    DuplicatesIff(DocumentsOf(p.id), DocumentIds(p), d);
  }

  lemma {:induction false} PackageFoundIff(definition: Definition, d: Diagnostic)
    ensures OfPackages(d) && Found(definition, d) <==> exists p :: p in definition.packages && PackageFault(p, d)
  {
    forall p: Package ensures DocumentIds(p) == Map((c: Document) => c.id, p.documents) {}
  }

  /** A finding is reported if and only if what it says is the case. */
  lemma {:induction false} ReportedIff(definition: Definition, d: Diagnostic)
    ensures d in Diagnostics(definition) <==> Found(definition, d)
  {
    IdFindingsIff(definition, d);
    MappingFindingsIff(definition, d);
    SectionFindingsIff(definition, d);
    RuleFindingsIff(definition, d);
    PackageFindingsIff(definition, d);
  }

  lemma ItemsKept(p: Item -> bool, items: seq<Item>)
    ensures forall id :: id in Map(ItemId, Filter(p, items)) ==> id in Map(ItemId, items)
  {
    forall id | id in Map(ItemId, Filter(p, items)) ensures id in Map(ItemId, items) {
      MapMembers(ItemId, Filter(p, items), id);
      MapMembers(ItemId, items, id);
    }
  }

  lemma ItemsResolve(definition: Definition)
    requires WellFormed(definition)
    ensures forall i :: i in AllItems(definition) && i.QuestionItem? ==> HasQuestion(definition, i.questionId)
  {
    FlatMapMembers((s: Section) => s.items, definition.sections);
    forall i | i in AllItems(definition) && i.QuestionItem? ensures HasQuestion(definition, i.questionId) {
      var s :| s in definition.sections && i in s.items;
      assert SectionSound(definition, s);
    }
  }
}
