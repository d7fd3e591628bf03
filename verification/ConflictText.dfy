/** The text boxes of the conflict check: identifiers as `type: value` lines and
    aliases as comma or line separated names. A contact dossier prints them, the
    check parses them. */
module ConflictText {
  import opened Sequences
  import opened Text

  datatype Identifier = Identifier(kind: string, value: string)

  datatype ContactMethod = ContactMethod(kind: string, value: Option<string>, conflictCheckIncluded: Option<bool>)

  datatype Contact = Contact(aliases: seq<string>, formerNames: Option<seq<string>>, identifiers: seq<Identifier>, methods: Option<seq<ContactMethod>>)

  datatype Parsed = Identifiers(items: seq<Identifier>) | Malformed

  // ----- Printing -----

  function PrintIdentifier(id: Identifier): string {
    id.kind + ": " + id.value
  }

  function MethodsOf(contact: Contact): seq<ContactMethod> {
    if contact.methods.Some? then contact.methods.value else []
  }

  /** A method counts unless it is excluded or has no value. */
  predicate Included(m: ContactMethod) {
    m.conflictCheckIncluded != Some(false) && m.value.Some? && m.value.value != ""
  }

  function MethodIdentifier(m: ContactMethod): Identifier {
    Identifier(m.kind, if m.value.Some? then m.value.value else "")
  }

  /** The identifiers that the prefill shows: the contact's own, then its methods. */
  function PrefillIdentifiers(contact: Contact): seq<Identifier> {
    contact.identifiers + Map(MethodIdentifier, Filter(Included, MethodsOf(contact)))
  }

  function PrefillAliases(contact: Contact): seq<string> {
    contact.aliases + if contact.formerNames.Some? then contact.formerNames.value else []
  }

  function PrintIdentifiers(ids: seq<Identifier>): string {
    Join("\n", Map(PrintIdentifier, ids))
  }

  // ----- Parsing identifiers -----

  predicate IsNewline(c: char) {
    c == '\n'
  }

  predicate IsDelimiter(c: char) {
    c == ':' || c == '='
  }

  /** `s.search(/[:=]/)`. */
  function SearchDelimiter(s: string): (i: int)
    ensures -1 <= i < |s|
    ensures i >= 0 ==> IsDelimiter(s[i])
    ensures forall j :: 0 <= j < (if i < 0 then |s| else i) ==> !IsDelimiter(s[j])
  {
    if s == [] then -1
    else if IsDelimiter(s[0]) then 0
    else
      var i := SearchDelimiter(s[1..]);
      if i < 0 then -1 else i + 1
  }

  datatype LineResult = Blank | Bad | Good(id: Identifier)

  function ParseLine(line: string): LineResult {
    var trimmed := Trim(line);
    if trimmed == "" then Blank
    else
      var i := SearchDelimiter(trimmed);
      if i <= 0 || i == |trimmed| - 1 then Bad
      else
        var kind, value := Trim(trimmed[..i]), Trim(trimmed[i + 1..]);
        if kind == "" || value == "" then Bad else Good(Identifier(kind, value))
  }

  /** Gather the good lines in order, unless one is bad. */
  function Collect(results: seq<LineResult>, found: seq<Identifier>): Parsed
    decreases |results|
  {
    if results == [] then Identifiers(found)
    else
      match results[0]
      case Blank => Collect(results[1..], found)
      case Bad => Malformed
      case Good(id) => Collect(results[1..], found + [id])
  }

  function ParseIdentifiers(value: string): Parsed {
    Collect(Map(ParseLine, Split(IsNewline, value)), [])
  }

  /** `parseConflictIdentifiers`: a loop over the lines with an early return. */
  method ParseConflictIdentifiers(value: string) returns (r: Parsed)
    ensures r == ParseIdentifiers(value)
  {
    var found: seq<Identifier> := [];
    var lines := Split(IsNewline, value);
    ghost var results := Map(ParseLine, lines);
    for k := 0 to |lines|
      invariant ParseIdentifiers(value) == Collect(results[k..], found)
    {
      assert results[k..][0] == ParseLine(lines[k]) && results[k..][1..] == results[k + 1..];
      var trimmed := Trim(lines[k]);
      if trimmed == "" { continue; }
      var i := SearchDelimiter(trimmed);
      if i <= 0 || i == |trimmed| - 1 { return Malformed; }
      var kind := Trim(trimmed[..i]);
      var identifierValue := Trim(trimmed[i + 1..]);
      if kind == "" || identifierValue == "" { return Malformed; }
      found := found + [Identifier(kind, identifierValue)];
    }
    r := Identifiers(found);
  }

  // ----- What is printed and what is read -----

  /** The aliases come before the former names, and the contact's own identifiers
      before its methods that have a value and are not excluded. */
  lemma {:induction false} PrefillIs(contact: Contact)
    ensures PrefillAliases(contact) == contact.aliases + match contact.formerNames case None => [] case Some(names) => names
    ensures var own, all := contact.identifiers, PrefillIdentifiers(contact);
            own <= all && ShowMethods(all[|own|..], match contact.methods case None => [] case Some(methods) => methods)
  {
    var shown := Map(MethodIdentifier, Filter(Included, MethodsOf(contact)));
    MethodsShown(MethodsOf(contact));
    assert PrefillIdentifiers(contact)[|contact.identifiers|..] == shown;
  }

  /** The identifiers are those of the methods that have a value and are not
      excluded, in order. */
  ghost predicate ShowMethods(ids: seq<Identifier>, methods: seq<ContactMethod>) {
    if methods == [] then ids == []
    else
      var m := methods[0];
      if m.value == None || m.value == Some("") || m.conflictCheckIncluded == Some(false) then ShowMethods(ids, methods[1..])
      else ids != [] && ids[0].kind == m.kind && m.value == Some(ids[0].value) && ShowMethods(ids[1..], methods[1..])
  }

  lemma {:induction false} MethodsShown(methods: seq<ContactMethod>)
    ensures ShowMethods(Map(MethodIdentifier, Filter(Included, methods)), methods)
  {
    if methods != [] {
      var m, rest := methods[0], Filter(Included, methods[1..]);
      MethodsShown(methods[1..]);
      if Included(m) {
        var ids := Map(MethodIdentifier, [m] + rest);
        assert ids[0] == MethodIdentifier(m) && ids[1..] == Map(MethodIdentifier, rest);
      }
    }
  }

  /** The trimmed line has its first ':' or '=' at `i`, and text on both sides. */
  ghost predicate ReadsAt(line: string, id: Identifier, i: int) {
    var t := Trim(line);
    && 0 <= i < |t| && t[i] in ":=" && (forall j :: 0 <= j < i ==> t[j] !in ":=")
    && id == Identifier(Trim(t[..i]), Trim(t[i + 1..])) && id.kind != "" && id.value != ""
  }

  /** A line is skipped if and only if it is blank, and read as an identifier if
      and only if it has text on both sides of its first delimiter; any other
      line is bad. */
  lemma {:induction false} LineReadsIff(line: string, id: Identifier)
    ensures ParseLine(line) == Blank <==> Text.Blank(line)
    ensures ParseLine(line) == Good(id) <==> exists i :: ReadsAt(line, id, i)
  {
    TrimEmptyIff(line);
    forall i | ReadsAt(line, id, i) ensures ParseLine(line) == Good(id) { ReadIsGood(line, id, i); }
    if ParseLine(line) == Good(id) { assert ReadsAt(line, id, SearchDelimiter(Trim(line))); }
  }

  lemma {:induction false} ReadIsGood(line: string, id: Identifier, i: nat)
    requires ReadsAt(line, id, i)
    ensures ParseLine(line) == Good(id)
  {
    var t := Trim(line);
    DelimiterThere(t, i);
    assert Trim("") == "" && t[..0] == "" && t[|t|..] == "";
  }

  lemma {:induction false} DelimiterThere(t: string, i: nat)
    requires i < |t| && t[i] in ":=" && forall j :: 0 <= j < i ==> t[j] !in ":="
    ensures SearchDelimiter(t) == i
  {
    var k := SearchDelimiter(t);
    assert IsDelimiter(t[i]) && forall j :: 0 <= j < i ==> !IsDelimiter(t[j]);
  }

  /** The identifiers are those of the lines that are not blank, unless one is bad. */
  lemma {:induction false} ReadsAllIff(value: string, ids: seq<Identifier>)
    ensures ParseIdentifiers(value) == Identifiers(ids) <==>
            Filter((r: LineResult) => r != Blank, Map(ParseLine, Split((c: char) => c == '\n', value))) == Map((id: Identifier) => Good(id), ids)
  {
    SplitAgree(IsNewline, (c: char) => c == '\n', value);
    CollectIff(Map(ParseLine, Split(IsNewline, value)), [], ids);
    assert [] + ids == ids;
  }

  lemma {:induction false} CollectIff(results: seq<LineResult>, found: seq<Identifier>, ids: seq<Identifier>)
    ensures Collect(results, found) == Identifiers(found + ids) <==>
            Filter((r: LineResult) => r != Blank, results) == Map((id: Identifier) => Good(id), ids)
    decreases |results|
  {
    var rest := Filter((r: LineResult) => r != Blank, results);
    if results == [] {
      assert found + ids == found <==> ids == [];
    } else if results[0] == Blank {
      CollectIff(results[1..], found, ids);
    } else if results[0].Good? {
      CollectExtends(results[1..], found + [results[0].id]);
      if ids != [] {
        CollectIff(results[1..], found + [ids[0]], ids[1..]);
        assert found + [ids[0]] + ids[1..] == found + ids && (found + ids)[|found|] == ids[0];
        GoodPeel(results[0], Filter((r: LineResult) => r != Blank, results[1..]), ids);
      }
    } else if ids != [] {
      assert Map((id: Identifier) => Good(id), ids)[0] == Good(ids[0]) && rest[0] == Bad;
    }
  }

  lemma {:induction false} CollectExtends(results: seq<LineResult>, found: seq<Identifier>)
    ensures Collect(results, found).Identifiers? ==> found <= Collect(results, found).items
    decreases |results|
  {
    if results != [] && !results[0].Bad? {
      CollectExtends(results[1..], if results[0].Good? then found + [results[0].id] else found);
    }
  }

  lemma {:induction false} GoodPeel(first: LineResult, rest: seq<LineResult>, ids: seq<Identifier>)
    requires ids != []
    ensures [first] + rest == Map((id: Identifier) => Good(id), ids)
        <==> first == Good(ids[0]) && rest == Map((id: Identifier) => Good(id), ids[1..])
  {
    var all := Map((id: Identifier) => Good(id), ids);
    assert all == [Good(ids[0])] + Map((id: Identifier) => Good(id), ids[1..]) && all[1..] == Map((id: Identifier) => Good(id), ids[1..]);
    assert ([first] + rest)[0] == first && ([first] + rest)[1..] == rest;
  }

  // ----- Parsing undoes printing -----

  /** What a line can carry: values may contain delimiters, types may not. */
  predicate Clean(id: Identifier) {
    && Trimmed(id.kind) && id.kind != "" && Trimmed(id.value) && id.value != ""
    && (forall c :: c in id.kind ==> !IsDelimiter(c) && c != '\n')
    && '\n' !in id.value
  }

  ghost predicate AllClean(ids: seq<Identifier>) {
    forall id :: id in ids ==> Clean(id)
  }

  lemma PrintedLineParses(id: Identifier)
    requires Clean(id)
    ensures ParseLine(PrintIdentifier(id)) == Good(id)
  {
    PrintedIsTrimmed(id);
    PrintedDelimiter(id);
    TrimOfTrimmed(id.kind);
    TrimDropsSpace(id.value);
  }

  lemma {:induction false} PrintedDelimiter(id: Identifier)
    requires Clean(id)
    ensures var line, n := PrintIdentifier(id), |id.kind|;
            SearchDelimiter(line) == n && line[..n] == id.kind && line[n + 1..] == " " + id.value
  {
    var line, n := PrintIdentifier(id), |id.kind|;
    assert line[n] == ':';
    assert forall j :: 0 <= j < n ==> line[j] == id.kind[j] && id.kind[j] in id.kind;
  }

  lemma {:induction false} PrintedIsTrimmed(id: Identifier)
    requires Trimmed(id.kind) && id.kind != "" && Trimmed(id.value) && id.value != ""
    ensures Trim(PrintIdentifier(id)) == PrintIdentifier(id)
  {
    var line := PrintIdentifier(id);
    assert line[0] == id.kind[0] && line[|line| - 1] == id.value[|id.value| - 1];
    TrimOfTrimmed(line);
  }

  lemma ParsedLineIsClean(line: string)
    requires '\n' !in line && ParseLine(line).Good?
    ensures Clean(ParseLine(line).id)
  {
    var trimmed := Trim(line);
    var i := SearchDelimiter(trimmed);
    TrimFacts(line);
    TrimFacts(trimmed[..i]);
    TrimFacts(trimmed[i + 1..]);
    assert forall c :: c in trimmed[..i] ==> c in trimmed && !IsDelimiter(c);
    assert forall c :: c in trimmed[i + 1..] ==> c in trimmed;
  }

  lemma {:induction false} CollectKeeps(p: Identifier -> bool, results: seq<LineResult>, found: seq<Identifier>)
    requires forall id :: id in found ==> p(id)
    requires forall k :: 0 <= k < |results| && results[k].Good? ==> p(results[k].id)
    ensures Collect(results, found).Identifiers? ==> forall id :: id in Collect(results, found).items ==> p(id)
    decreases |results|
  {
    if results != [] {
      match results[0] {
        case Blank => CollectKeeps(p, results[1..], found);
        case Bad =>
        case Good(id) => CollectKeeps(p, results[1..], found + [id]);
      }
    }
  }

  lemma {:induction false} CollectGood(ids: seq<Identifier>, found: seq<Identifier>)
    ensures Collect(Map((id: Identifier) => Good(id), ids), found) == Identifiers(found + ids)
    decreases |ids|
  {
    if ids == [] {
      assert found + ids == found;
    } else {
      assert Map((id: Identifier) => Good(id), ids)[1..] == Map((id: Identifier) => Good(id), ids[1..]);
      CollectGood(ids[1..], found + [ids[0]]);
      assert found + [ids[0]] + ids[1..] == found + ids;
    }
  }

  /** Every successful parse yields identifiers that print and parse back. */
  lemma ParseYieldsClean(value: string)
    ensures ParseIdentifiers(value).Identifiers? ==> AllClean(ParseIdentifiers(value).items)
  {
    var lines := Split(IsNewline, value);
    var results := Map(ParseLine, lines);
    forall k | 0 <= k < |results| && results[k].Good? ensures Clean(results[k].id) {
      SplitFree(IsNewline, value, k);
      ParsedLineIsClean(lines[k]);
    }
    CollectKeeps(Clean, results, []);
  }

  lemma PrintedLinesParse(ids: seq<Identifier>)
    requires AllClean(ids)
    ensures Map(ParseLine, Map(PrintIdentifier, ids)) == Map((id: Identifier) => Good(id), ids)
  {
    var lines := Map(PrintIdentifier, ids);
    forall i | 0 <= i < |lines| ensures ParseLine(lines[i]) == Good(ids[i]) {
      PrintedLineParses(ids[i]);
    }
  }

  lemma {:induction false} PrintedHasNoNewline(id: Identifier)
    requires Clean(id)
    ensures forall c :: c in PrintIdentifier(id) ==> !IsNewline(c)
  {
  }

  lemma CleanRoundTrip(ids: seq<Identifier>)
    requires AllClean(ids)
    ensures ParseIdentifiers(PrintIdentifiers(ids)) == Identifiers(ids)
  {
    var lines := Map(PrintIdentifier, ids);
    if ids == [] {
      assert ParseIdentifiers("") == Identifiers([]) by { EmptyParses(); }
    } else {
      forall i | 0 <= i < |lines| ensures forall c :: c in lines[i] ==> !IsNewline(c) {
        PrintedHasNoNewline(ids[i]);
      }
      SplitOfJoin(IsNewline, '\n', lines);
      PrintedLinesParse(ids);
      CollectGood(ids, []);
      assert [] + ids == ids;
    }
  }

  lemma EmptyParses()
    ensures ParseIdentifiers("") == Identifiers([])
  {
    assert Split(IsNewline, "") == [""];
    assert Map(ParseLine, [""]) == [Blank];
    assert [Blank][1..] == [];
  }

  /** Parsing gives back exactly the printed list if and only if every type is
      trimmed, non-empty and free of ':', '=' and newline, and every value is
      trimmed, non-empty and free of newline. */
  lemma IdentifierRoundTripIff(ids: seq<Identifier>)
    ensures ParseIdentifiers(PrintIdentifiers(ids)) == Identifiers(ids) <==> AllClean(ids)
  {
    ParseYieldsClean(PrintIdentifiers(ids));
    if AllClean(ids) { CleanRoundTrip(ids); }
  }

  /** Printing what was parsed and parsing again changes nothing. */
  lemma ParsePrintParse(value: string)
    ensures ParseIdentifiers(value).Identifiers? ==>
            ParseIdentifiers(PrintIdentifiers(ParseIdentifiers(value).items)) == ParseIdentifiers(value)
  {
    ParseYieldsClean(value);
    if ParseIdentifiers(value).Identifiers? { CleanRoundTrip(ParseIdentifiers(value).items); }
  }

  // ----- Aliases -----

  predicate IsAliasSeparator(c: char) {
    c == ',' || c == '\n'
  }

  predicate NotEmpty(s: string) {
    s != ""
  }

  /** `parseConflictAliases`: split, trim, drop the empty ones, keep each once. */
  function ParseAliases(value: string): seq<string> {
    AddAll([], Filter(NotEmpty, Map(Trim, Split(IsAliasSeparator, value))))
  }

  predicate CleanAlias(s: string) {
    Trimmed(s) && s != "" && ',' !in s && '\n' !in s
  }

  ghost predicate CleanAliases(names: seq<string>) {
    Distinct(names) && forall s :: s in names ==> CleanAlias(s)
  }

  lemma TrimmedPartIsClean(part: string)
    requires (forall c :: c in part ==> !IsAliasSeparator(c)) && Trim(part) != ""
    ensures CleanAlias(Trim(part))
  {
    TrimFacts(part);
  }

  lemma AliasesAreClean(value: string)
    ensures CleanAliases(ParseAliases(value))
  {
    var parts := Split(IsAliasSeparator, value);
    var trimmed := Map(Trim, parts);
    forall s | s in Filter(NotEmpty, trimmed) ensures CleanAlias(s) {
      var i :| 0 <= i < |trimmed| && trimmed[i] == s;
      SplitFree(IsAliasSeparator, value, i);
      TrimmedPartIsClean(parts[i]);
    }
  }

  /** The aliases of a text are its parts between commas and line breaks, trimmed,
      if anything is left of them, each once. */
  lemma {:induction false} AliasIff(value: string, alias: string)
    ensures alias in ParseAliases(value) <==>
            alias != "" && exists part :: part in Split((c: char) => c == ',' || c == '\n', value) && Trim(part) == alias
    ensures Distinct(ParseAliases(value))
  {
    var parts := Split(IsAliasSeparator, value);
    SplitAgree(IsAliasSeparator, (c: char) => c == ',' || c == '\n', value);
    if part :| part in parts && Trim(part) == alias {
      var i :| 0 <= i < |parts| && parts[i] == part;
      assert Map(Trim, parts)[i] == alias;
    }
    if alias in Map(Trim, parts) {
      var i :| 0 <= i < |parts| && Map(Trim, parts)[i] == alias;
      assert parts[i] in parts;
    }
  }

  lemma {:induction false} AddAllDistinct(xs: seq<string>, ys: seq<string>)
    requires Distinct(xs + ys)
    ensures AddAll(xs, ys) == xs + ys
    decreases |ys|
  {
    if ys == [] {
      assert xs + ys == xs;
    } else {
      assert ys[0] !in xs by {
        forall i | 0 <= i < |xs| ensures xs[i] != ys[0] { assert (xs + ys)[i] == xs[i] && (xs + ys)[|xs|] == ys[0]; }
      }
      assert (xs + [ys[0]]) + ys[1..] == xs + ys;
      AddAllDistinct(xs + [ys[0]], ys[1..]);
    }
  }

  lemma CleanAliasesTrim(names: seq<string>)
    requires forall s :: s in names ==> CleanAlias(s)
    ensures Map(Trim, names) == names && Filter(NotEmpty, names) == names
  {
    forall i | 0 <= i < |names| ensures Trim(names[i]) == names[i] {
      assert CleanAlias(names[i]);
      TrimOfTrimmed(names[i]);
    }
    FilterAll(NotEmpty, names);
  }

  lemma CleanAliasesSplit(names: seq<string>)
    requires names != [] && forall s :: s in names ==> CleanAlias(s)
    ensures Split(IsAliasSeparator, Join("\n", names)) == names
  {
    forall i | 0 <= i < |names| ensures forall c :: c in names[i] ==> !IsAliasSeparator(c) {
      assert CleanAlias(names[i]);
    }
    SplitOfJoin(IsAliasSeparator, '\n', names);
  }

  lemma {:induction false} ParseAliasesUnchanged(text: string, names: seq<string>)
    requires Split(IsAliasSeparator, text) == names && Map(Trim, names) == names
    requires Filter(NotEmpty, names) == names && AddAll([], names) == names
    ensures ParseAliases(text) == names
  {
  }

  lemma {:induction false} DistinctUnchanged(names: seq<string>)
    requires Distinct(names)
    ensures AddAll([], names) == names
  {
    assert [] + names == names;
    AddAllDistinct([], names);
  }

  /** The printed aliases parse back exactly when they are clean and distinct. */
  lemma AliasRoundTripIff(names: seq<string>)
    ensures ParseAliases(Join("\n", names)) == names <==> CleanAliases(names)
  {
    AliasesAreClean(Join("\n", names));
    if names == [] {
      assert Split(IsAliasSeparator, "") == [""];
      assert Map(Trim, [""]) == [""];
      FilterNone(NotEmpty, [""]);
    } else if CleanAliases(names) {
      CleanAliasesSplit(names);
      CleanAliasesTrim(names);
      DistinctUnchanged(names);
      ParseAliasesUnchanged(Join("\n", names), names);
    }
  }

  /** A dossier's prefill survives the conflict check's parser exactly when its
      names and identifiers are clean. */
  lemma PrefillRoundTripIff(contact: Contact)
    ensures && ParseIdentifiers(PrintIdentifiers(PrefillIdentifiers(contact))) == Identifiers(PrefillIdentifiers(contact))
            && ParseAliases(Join("\n", PrefillAliases(contact))) == PrefillAliases(contact)
        <==> AllClean(PrefillIdentifiers(contact)) && CleanAliases(PrefillAliases(contact))
  {
    IdentifierRoundTripIff(PrefillIdentifiers(contact));
    AliasRoundTripIff(PrefillAliases(contact));
  }
}
