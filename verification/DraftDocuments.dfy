/** Draft documents: a tree of nodes, its text preview, and the insertion of a
    suggested text as paragraphs at its end. */
module DraftDocuments {
  import opened Sequences
  import opened Text
  import opened Words

  datatype Node = Node(kind: string, text: Option<string>, content: Content)

  datatype Content = Absent | Present(nodes: seq<Node>)

  const NO_PREVIEW := "No preview text."

  // ----- Extraction -----

  function Children(node: Node): seq<Node> {
    if node.content.Present? then node.content.nodes else []
  }

  /** The texts of a tree, a node before its children. */
  function Parts(node: Node): seq<string>
    decreases node, 1
  {
    (if node.text.Some? then [node.text.value] else []) +
    match node.content
    case Absent => []
    case Present(children) => PartsOfAll(children)
  }

  function PartsOfAll(nodes: seq<Node>): seq<string>
    decreases nodes, 0
  {
    if nodes == [] then [] else Parts(nodes[0]) + PartsOfAll(nodes[1..])
  }

  /** The recursive visit, which pushes every text onto one shared list. */
  class PartsCollector {
    var parts: seq<string>

    constructor ()
      ensures parts == []
    {
      parts := [];
    }

    method Visit(current: Node)
      modifies this
      ensures parts == old(parts) + Parts(current)
      decreases current, 1
    {
      if current.text.Some? {
        parts := parts + [current.text.value];
      }
      match current.content
      case Absent =>
      case Present(children) => VisitEach(current, children);
    }

    /** The loop over a node's children. */
    method VisitEach(ghost parent: Node, children: seq<Node>)
      requires parent.content == Present(children)
      modifies this
      ensures parts == old(parts) + PartsOfAll(children)
      decreases parent, 0
    {
      for i := 0 to |children|
        invariant parts == old(parts) + PartsOfAll(children[..i])
      {
        assert children[i] in children;
        Visit(children[i]);
        PartsSnoc(children, i);
      }
      assert children[..|children|] == children;
    }
  }

  lemma {:induction false} PartsConcat(xs: seq<Node>, ys: seq<Node>)
    ensures PartsOfAll(xs + ys) == PartsOfAll(xs) + PartsOfAll(ys)
  {
    if xs == [] {
      assert xs + ys == ys;
    } else {
      assert (xs + ys)[1..] == xs[1..] + ys;
      PartsConcat(xs[1..], ys);
    }
  }

  lemma PartsSnoc(nodes: seq<Node>, i: nat)
    requires i < |nodes|
    ensures PartsOfAll(nodes[..i + 1]) == PartsOfAll(nodes[..i]) + Parts(nodes[i])
  {
    assert nodes[..i + 1] == nodes[..i] + [nodes[i]];
    PartsConcat(nodes[..i], [nodes[i]]);
    assert PartsOfAll([nodes[i]]) == Parts(nodes[i]) + PartsOfAll([]);
  }

  function Preview(parts: seq<string>): string {
    var text := Trim(Collapse(Join(" ", parts)));
    if text == "" then NO_PREVIEW else text
  }

  function Extract(node: Node): string {
    Preview(Parts(node))
  }

  /** `extractDraftPlainText`. */
  method ExtractDraftPlainText(node: Node) returns (text: string)
    ensures text == Extract(node)
  {
    var collector := new PartsCollector();
    collector.Visit(node);
    assert collector.parts == Parts(node);
    text := Trim(Collapse(Join(" ", collector.parts)));
    if text == "" { text := NO_PREVIEW; }
  }

  // ----- Insertion -----

  function DropNewlines(s: string): string {
    if s != [] && s[0] == '\n' then DropNewlines(s[1..]) else s
  }

  lemma {:induction false} DropNewlinesShortens(s: string)
    ensures |DropNewlines(s)| <= |s|
  {
    if s != [] && s[0] == '\n' { DropNewlinesShortens(s[1..]); }
  }

  predicate AtBlankLine(s: string) {
    |s| > 1 && s[0] == '\n' && s[1] == '\n'
  }

  /** `s.split(/\n{2,}/)`, the piece read so far in `current`. */
  function Pieces(current: string, s: string): (pieces: seq<string>)
    ensures pieces != []
    decreases |s|
  {
    DropNewlinesShortens(s[if |s| < 2 then |s| else 2..]);
    if s == [] then [current]
    else if AtBlankLine(s) then [current] + Pieces([], DropNewlines(s[2..]))
    else Pieces(current + [s[0]], s[1..])
  }

  predicate NotEmpty(s: string) {
    s != ""
  }

  function Clean(pieces: seq<string>): seq<string> {
    Filter(NotEmpty, Map(Trim, pieces))
  }

  /** Blocks between blank lines, trimmed, without the empty ones. */
  function Paragraphs(plainText: string): seq<string> {
    Clean(Pieces([], plainText))
  }

  function ParagraphNode(text: string): Node {
    Node("paragraph", None, Present([Node("text", Some(text), Absent)]))
  }

  /** No paragraph leaves the document as it is; others go after its children. */
  function AppendNodes(document: Node, nodes: seq<Node>): Node {
    if nodes == [] then document else document.(content := Present(Children(document) + nodes))
  }

  /** `appendPlainTextToDraftDocument`, which `insertDraftAssistSuggestion` calls. */
  function Insert(document: Node, plainText: string): Node {
    AppendNodes(document, Map(ParagraphNode, Paragraphs(plainText)))
  }

  // ----- The words of a document -----

  function WordsOfAll(texts: seq<string>): seq<string> {
    FlatMap(WordsOf, texts)
  }

  function DocumentWords(node: Node): seq<string> {
    WordsOfAll(Parts(node))
  }

  lemma {:induction false} WordsOfJoin(texts: seq<string>)
    ensures WordsOf(Join(" ", texts)) == WordsOfAll(texts)
    decreases |texts|
  {
    if texts == [] {
    } else if |texts| == 1 {
      assert WordsOfAll(texts[1..]) == [];
      assert WordsOfAll(texts) == WordsOf(texts[0]) + [];
    } else {
      var rest := Join(" ", texts[1..]);
      WordsOfJoin(texts[1..]);
      assert Join(" ", texts) == texts[0] + (" " + rest);
      WordsBreak([], texts[0], " " + rest);
      assert (" " + rest)[1..] == rest;
      assert WordsFrom([], " " + rest) == WordsOf(rest);
    }
  }

  /** The preview is the document's words with single spaces between them. */
  lemma PreviewIsWords(node: Node)
    ensures Extract(node) == if DocumentWords(node) == [] then "No preview text." else Join(" ", DocumentWords(node))
  {
    var s := Join(" ", Parts(node));
    CollapsedIsWords(s);
    WordsOfJoin(Parts(node));
    WordsAreWords([], s);
    JoinedWordsTrimmed(WordsOf(s));
  }

  // ----- Pieces -----

  lemma {:induction false} WordsDropNewlines(s: string)
    ensures WordsOf(DropNewlines(s)) == WordsOf(s)
  {
    if s != [] && s[0] == '\n' { WordsDropNewlines(s[1..]); }
  }

  /** Cutting at blank lines loses no word and splits none. */
  lemma {:induction false} PiecesKeepWords(current: string, s: string)
    ensures WordsOfAll(Pieces(current, s)) == WordsOf(current + s)
    decreases |s|
  {
    DropNewlinesShortens(s[if |s| < 2 then |s| else 2..]);
    if s == [] {
      assert current + s == current;
      assert [current][1..] == [];
      assert WordsOfAll([current][1..]) == [];
      assert WordsOfAll([current]) == WordsOf(current) + [];
    } else if AtBlankLine(s) {
      var rest := DropNewlines(s[2..]);
      PiecesKeepWords([], rest);
      assert [] + rest == rest;
      WordsBreak([], current, s);
      WordsDropNewlines(s[2..]);
      assert s[1..][1..] == s[2..];
      assert WordsFrom([], s) == WordsFrom([], s[1..]) == WordsOf(s[2..]);
      assert ([current] + Pieces([], rest))[1..] == Pieces([], rest);
    } else {
      PiecesKeepWords(current + [s[0]], s[1..]);
      assert current + [s[0]] + s[1..] == current + s;
    }
  }

  lemma {:induction false} CleanKeepsWords(pieces: seq<string>)
    ensures WordsOfAll(Clean(pieces)) == WordsOfAll(pieces)
  {
    if pieces != [] {
      CleanKeepsWords(pieces[1..]);
      var trimmed := Map(Trim, pieces);
      assert trimmed[1..] == Map(Trim, pieces[1..]);
      WordsOfTrim(pieces[0]);
      assert WordsOf("") == [];
      if trimmed[0] != "" { assert ([trimmed[0]] + Clean(pieces[1..]))[1..] == Clean(pieces[1..]); }
    }
  }

  lemma ParagraphsKeepWords(plainText: string)
    ensures WordsOfAll(Paragraphs(plainText)) == WordsOf(plainText)
  {
    PiecesKeepWords([], plainText);
    assert [] + plainText == plainText;
    CleanKeepsWords(Pieces([], plainText));
  }

  lemma {:induction false} PartsOfParagraphs(texts: seq<string>)
    ensures PartsOfAll(Map(ParagraphNode, texts)) == texts
  {
    if texts != [] {
      PartsOfParagraphs(texts[1..]);
      assert Map(ParagraphNode, texts)[1..] == Map(ParagraphNode, texts[1..]);
      var leaf := Node("text", Some(texts[0]), Absent);
      assert Parts(leaf) == [texts[0]];
      assert PartsOfAll([leaf]) == Parts(leaf) + PartsOfAll([]);
      assert Parts(ParagraphNode(texts[0])) == [] + PartsOfAll([leaf]);
    }
  }

  lemma InsertAppendsParts(document: Node, plainText: string)
    ensures Parts(Insert(document, plainText)) == Parts(document) + Paragraphs(plainText)
  {
    var texts := Paragraphs(plainText);
    var paragraphs := Map(ParagraphNode, texts);
    PartsOfParagraphs(texts);
    if texts == [] {
      assert Parts(document) + texts == Parts(document);
    } else {
      AppendChildren(document, paragraphs);
    }
  }

  /** Each paragraph becomes a node with one text node in it; they follow the
      document's own children, and nothing else changes. */
  lemma {:induction false} InsertedNodes(document: Node, plainText: string)
    ensures var texts, after := Paragraphs(plainText), Insert(document, plainText);
            && after.kind == document.kind && after.text == document.text
            && Children(document) <= Children(after) && |Children(after)| == |Children(document)| + |texts|
            && (forall i :: 0 <= i < |texts| ==>
                  Children(after)[|Children(document)| + i] == Node("paragraph", None, Present([Node("text", Some(texts[i]), Absent)])))
            && (texts == [] ==> after == document)
  {
  }

  lemma AppendChildren(document: Node, nodes: seq<Node>)
    ensures Parts(document.(content := Present(Children(document) + nodes))) == Parts(document) + PartsOfAll(nodes)
  {
    var after := document.(content := Present(Children(document) + nodes));
    PartsConcat(Children(document), nodes);
    PartsAre(document);
    PartsAre(after);
  }

  lemma {:induction false} PartsAre(node: Node)
    ensures Parts(node) == (if node.text.Some? then [node.text.value] else []) + PartsOfAll(Children(node))
  {
  }

  /** Inserting a text adds exactly its words, in order, after the words of the
      document, and the preview shows them all. */
  lemma InsertAppendsWords(document: Node, plainText: string)
    ensures DocumentWords(Insert(document, plainText)) == DocumentWords(document) + WordsOf(plainText)
    ensures var all := DocumentWords(document) + WordsOf(plainText);
            Extract(Insert(document, plainText)) == if all == [] then NO_PREVIEW else Join(" ", all)
  {
    InsertAppendsParts(document, plainText);
    ParagraphsKeepWords(plainText);
    FlatMapConcat(WordsOf, Parts(document), Paragraphs(plainText));
    PreviewIsWords(Insert(document, plainText));
  }

  // ----- Inserting twice -----

  lemma CleanConcat(xs: seq<string>, ys: seq<string>)
    ensures Clean(xs + ys) == Clean(xs) + Clean(ys)
  {
    MapConcat(Trim, xs, ys);
    FilterConcat(NotEmpty, Map(Trim, xs), Map(Trim, ys));
  }

  /** What is read so far only lengthens the first piece. */
  lemma {:induction false} PiecesPrefix(current: string, s: string)
    ensures Pieces(current, s) == [current + Pieces([], s)[0]] + Pieces([], s)[1..]
    decreases |s|
  {
    DropNewlinesShortens(s[if |s| < 2 then |s| else 2..]);
    if s == [] {
      assert current + [] == current;
    } else if AtBlankLine(s) {
      assert current + [] == current;
    } else {
      PiecesPrefix(current + [s[0]], s[1..]);
      PiecesPrefix([] + [s[0]], s[1..]);
      assert current + [s[0]] + Pieces([], s[1..])[0] == current + ([] + [s[0]] + Pieces([], s[1..])[0]);
    }
  }

  /** Newlines in front of a text add at most an empty piece. */
  lemma {:induction false} LeadingNewlines(s: string)
    ensures Clean(Pieces([], DropNewlines(s))) == Clean(Pieces([], s))
    decreases |s|
  {
    if s != [] && s[0] == '\n' {
      DropNewlinesShortens(s[if |s| < 2 then |s| else 2..]);
      if AtBlankLine(s) {
        var rest := DropNewlines(s[2..]);
        assert DropNewlines(s) == rest by { assert DropNewlines(s[1..]) == DropNewlines(s[1..][1..]); assert s[1..][1..] == s[2..]; }
        CleanConcat([""], Pieces([], rest));
        EmptyIsDropped();
      } else {
        assert DropNewlines(s) == s[1..];
        NewlineInFront(s[1..]);
        assert [] + ['\n'] == "\n";
      }
    }
  }

  lemma {:induction false} EmptyIsDropped()
    ensures Clean([""]) == []
  {
    assert Map(Trim, [""]) == [""];
    FilterNone(NotEmpty, [""]);
  }

  lemma NewlineInFront(s: string)
    ensures Clean(Pieces("\n", s)) == Clean(Pieces([], s))
  {
    var pieces := Pieces([], s);
    PiecesPrefix("\n", s);
    TrimNewlineFront(pieces[0]);
    assert Map(Trim, ["\n" + pieces[0]] + pieces[1..]) == Map(Trim, pieces);
  }

  lemma {:induction false} TrimNewlineFront(s: string)
    ensures Trim("\n" + s) == Trim(s)
  {
    TrimSpaceFront('\n', s);
  }

  lemma {:induction false} TrimStartKeepsEnd(s: string, c: char)
    requires IsSpace(c)
    ensures TrimEnd(TrimStart(s + [c])) == TrimEnd(TrimStart(s))
  {
    if s == [] {
      assert s + [c] == [c];
      assert [c][1..] == [];
    } else if IsSpace(s[0]) {
      assert (s + [c])[1..] == s[1..] + [c];
      TrimStartKeepsEnd(s[1..], c);
    } else {
      var t := s + [c];
      assert t[0] == s[0] && t[..|t| - 1] == s;
    }
  }

  /** A blank line between two texts cuts them apart and adds no paragraph. */
  lemma {:induction false} BlankLineCuts(current: string, a: string, b: string)
    ensures Clean(Pieces(current, a + "\n\n" + b)) == Clean(Pieces(current, a)) + Clean(Pieces([], b))
    decreases |a|
  {
    var s := a + "\n\n" + b;
    DropNewlinesShortens(s[2..]);
    if a == [] {
      assert s[2..] == b;
      CleanConcat([current], Pieces([], DropNewlines(b)));
      LeadingNewlines(b);
    } else if a == "\n" {
      assert s[2..] == "\n" + b;
      CutAfterNewline(current, b);
    } else if AtBlankLine(a) {
      CutAtBlankLine(current, a, b);
    } else {
      assert s[0] == a[0] && s[1] == (if |a| > 1 then a[1] else '\n');
      assert s[1..] == a[1..] + "\n\n" + b;
      BlankLineCuts(current + [a[0]], a[1..], b);
    }
  }

  lemma CutAfterNewline(current: string, b: string)
    ensures Clean(Pieces(current, "\n" + "\n\n" + b)) == Clean(Pieces(current, "\n")) + Clean(Pieces([], b))
  {
    var s := "\n" + "\n\n" + b;
    assert s[2..] == "\n" + b;
    assert ("\n" + b)[1..] == b;
    assert Pieces(current, s) == [current] + Pieces([], DropNewlines(b));
    CleanConcat([current], Pieces([], DropNewlines(b)));
    LeadingNewlines(b);
    assert "\n"[1..] == "";
    assert Pieces(current, "\n") == [current + "\n"];
    TrimStartKeepsEnd(current, '\n');
    assert Map(Trim, [current + "\n"]) == Map(Trim, [current]);
  }

  lemma BlankLineCloses(current: string, s: string)
    requires AtBlankLine(s)
    ensures Clean(Pieces(current, s)) == Clean([current]) + Clean(Pieces([], DropNewlines(s[2..])))
  {
    DropNewlinesShortens(s[2..]);
    CleanConcat([current], Pieces([], DropNewlines(s[2..])));
  }

  lemma CutAtBlankLine(current: string, a: string, b: string)
    requires AtBlankLine(a)
    ensures Clean(Pieces(current, a + "\n\n" + b)) == Clean(Pieces(current, a)) + Clean(Pieces([], b))
    decreases |a|, 1
  {
    DropTwo(a, b);
    BlankLineCloses(current, a);
    BlankLineCloses(current, a + "\n\n" + b);
    CutAfterDrop(a[2..], b);
    ConcatAssociates(Clean([current]), Clean(Pieces([], DropNewlines(a[2..]))), Clean(Pieces([], b)));
  }

  lemma {:induction false} DropTwo(a: string, b: string)
    requires AtBlankLine(a)
    ensures AtBlankLine(a + "\n\n" + b) && (a + "\n\n" + b)[2..] == a[2..] + "\n\n" + b
  {
  }

  lemma {:induction false} ConcatAssociates(x: seq<string>, y: seq<string>, z: seq<string>)
    ensures x + (y + z) == x + y + z
  {
  }

  lemma CutAfterDrop(a: string, b: string)
    ensures Clean(Pieces([], DropNewlines(a + "\n\n" + b))) == Clean(Pieces([], DropNewlines(a))) + Clean(Pieces([], b))
    decreases |a| + 1
  {
    DropNewlinesShortens(a);
    DropAcross(a, b);
    if DropNewlines(a) == [] {
      LeadingNewlines(b);
      EmptyIsDropped();
    } else {
      BlankLineCuts([], DropNewlines(a), b);
    }
  }

  lemma {:induction false} DropAcross(a: string, b: string)
    ensures DropNewlines(a + "\n\n" + b) == if DropNewlines(a) == [] then DropNewlines(b) else DropNewlines(a) + "\n\n" + b
  {
    var s := a + "\n\n" + b;
    if a == [] {
      assert s[1..] == "\n" + b;
      assert ("\n" + b)[1..] == b;
    } else if a[0] == '\n' {
      assert s[1..] == a[1..] + "\n\n" + b;
      DropAcross(a[1..], b);
    }
  }

  lemma AppendTwice(document: Node, xs: seq<Node>, ys: seq<Node>)
    ensures AppendNodes(AppendNodes(document, xs), ys) == AppendNodes(document, xs + ys)
  {
    if xs == [] {
      assert xs + ys == ys;
    } else if ys == [] {
      assert xs + ys == xs;
    } else {
      assert Children(document) + (xs + ys) == Children(document) + xs + ys;
    }
  }

  lemma ParagraphsOfBoth(a: string, b: string)
    ensures Paragraphs(a + "\n\n" + b) == Paragraphs(a) + Paragraphs(b)
  {
    BlankLineCuts([], a, b);
  }

  // ----- Paragraphs -----

  ghost predicate HasBlankLine(s: string) {
    exists i :: 0 <= i < |s| - 1 && s[i] == '\n' && s[i + 1] == '\n'
  }

  ghost predicate IsParagraph(s: string) {
    Trimmed(s) && s != "" && !HasBlankLine(s)
  }

  lemma {:induction false} OnePiece(current: string, s: string)
    requires !HasBlankLine(s)
    ensures Pieces(current, s) == [current + s]
    decreases |s|
  {
    if s == [] {
      assert current + s == current;
    } else {
      assert forall i :: 0 <= i < |s| - 1 ==> s[1..][i] == s[i + 1];
      OnePiece(current + [s[0]], s[1..]);
      assert current + [s[0]] + s[1..] == current + s;
    }
  }

  lemma {:induction false} PiecesAreUnbroken(current: string, s: string)
    requires !HasBlankLine(current) && (current != [] && current[|current| - 1] == '\n' ==> s == [] || s[0] != '\n')
    ensures forall p :: p in Pieces(current, s) ==> !HasBlankLine(p)
    decreases |s|
  {
    DropNewlinesShortens(s[if |s| < 2 then |s| else 2..]);
    if s == [] {
    } else if AtBlankLine(s) {
      PiecesAreUnbroken([], DropNewlines(s[2..]));
    } else {
      PiecesAreUnbroken(current + [s[0]], s[1..]);
    }
  }

  lemma {:induction false} TrimStartUnbroken(s: string)
    requires !HasBlankLine(s)
    ensures !HasBlankLine(TrimStart(s))
  {
    if s != [] && IsSpace(s[0]) {
      assert forall i :: 0 <= i < |s| - 1 ==> s[1..][i] == s[i + 1];
      TrimStartUnbroken(s[1..]);
    }
  }

  lemma {:induction false} ParagraphsAreParagraphs(plainText: string)
    ensures forall p :: p in Paragraphs(plainText) ==> IsParagraph(p)
  {
    var pieces := Pieces([], plainText);
    PiecesAreUnbroken([], plainText);
    forall p | p in Paragraphs(plainText) ensures IsParagraph(p) {
      var i :| 0 <= i < |pieces| && Map(Trim, pieces)[i] == p;
      TrimFacts(pieces[i]);
      TrimStartUnbroken(pieces[i]);
      TrimEndFacts(TrimStart(pieces[i]));
    }
  }

  lemma {:induction false} ParagraphsOfJoin(paragraphs: seq<string>)
    requires forall p :: p in paragraphs ==> IsParagraph(p)
    ensures Paragraphs(Join("\n\n", paragraphs)) == paragraphs
    decreases |paragraphs|
  {
    if paragraphs == [] {
      EmptyIsDropped();
    } else {
      OneParagraph(paragraphs[0]);
      if |paragraphs| > 1 {
        var rest := Join("\n\n", paragraphs[1..]);
        ParagraphsOfJoin(paragraphs[1..]);
        ParagraphsOfBoth(paragraphs[0], rest);
      }
    }
  }

  lemma {:induction false} OneParagraph(p: string)
    requires IsParagraph(p)
    ensures Paragraphs(p) == [p]
  {
    OnePiece([], p);
    assert [] + p == p;
    TrimOfTrimmed(p);
    assert Map(Trim, [p]) == [p] && [p][1..] == [];
  }

  /** Texts joined by blank lines come back as the paragraphs if and only if each
      is trimmed, not empty and without a blank line of its own. */
  lemma {:induction false} ParagraphRoundTripIff(paragraphs: seq<string>)
    ensures Paragraphs(Join("\n\n", paragraphs)) == paragraphs <==> forall p :: p in paragraphs ==> IsParagraph(p)
  {
    ParagraphsAreParagraphs(Join("\n\n", paragraphs));
    if forall p :: p in paragraphs ==> IsParagraph(p) { ParagraphsOfJoin(paragraphs); }
  }

  /** Inserting a and then b gives the same document as inserting a, a blank line
      and b at once. */
  lemma InsertTwiceIsInsertOnce(document: Node, a: string, b: string)
    ensures Insert(Insert(document, a), b) == Insert(document, a + "\n\n" + b)
  {
    ParagraphsOfBoth(a, b);
    var xs, ys := Paragraphs(a), Paragraphs(b);
    MapConcat(ParagraphNode, xs, ys);
    AppendTwice(document, Map(ParagraphNode, xs), Map(ParagraphNode, ys));
  }
}
