/** Content lines of an iCalendar stream: folding at 75 units, unfolding,
    and splitting a line into its property name and value. */
module ICalendarLines {
  import opened Sequences
  import opened Text
  import opened ICalendarText

  const FOLD_AT := 75

  // ----- Folding -----

  function Chunks(line: string): (chunks: seq<string>)
    ensures chunks != []
    decreases |line|
  {
    if |line| <= FOLD_AT then [line] else [line[..FOLD_AT]] + Chunks(line[FOLD_AT..])
  }

  function Fold(line: string): string {
    Join("\r\n ", Chunks(line))
  }

  /** `foldICalendarLine`: cut off chunks while more than 75 units remain. */
  method FoldICalendarLine(line: string) returns (folded: string)
    ensures folded == Fold(line)
  {
    if |line| <= FOLD_AT { return line; }
    var chunks: seq<string>, remaining := [], line;
    while |remaining| > FOLD_AT
      invariant Chunks(line) == chunks + Chunks(remaining)
      decreases |remaining|
    {
      assert chunks + [remaining[..FOLD_AT]] + Chunks(remaining[FOLD_AT..]) == chunks + Chunks(remaining);
      chunks := chunks + [remaining[..FOLD_AT]];
      remaining := remaining[FOLD_AT..];
    }
    chunks := chunks + [remaining];
    folded := Join("\r\n ", chunks);
  }

  function Continuation(chunk: string): string {
    " " + chunk
  }

  /** The lines that a folded line occupies. */
  function PhysicalLines(line: string): (lines: seq<string>)
    ensures lines != []
  {
    [Chunks(line)[0]] + Map(Continuation, Chunks(line)[1..])
  }

  /** The text of an event: every content line folded, joined by CRLF. */
  function EventText(lines: seq<string>): string {
    Join("\r\n", Map(Fold, lines))
  }

  /** `s.split("\r\n")`. */
  function SplitCrLf(s: string): (parts: seq<string>)
    ensures parts != []
  {
    if s == [] then [""]
    else if |s| > 1 && s[0] == '\r' && s[1] == '\n' then [""] + SplitCrLf(s[2..])
    else
      var rest := SplitCrLf(s[1..]);
      [[s[0]] + rest[0]] + rest[1..]
  }

  /** The physical lines of an event's text, as the feed recovers them. */
  function SplitEvent(lines: seq<string>): seq<string> {
    SplitCrLf(EventText(lines))
  }

  /** A feed takes the event's lines apart and folds every one of them again. */
  function FeedText(header: seq<string>, events: seq<seq<string>>, footer: string): string {
    Join("\r\n", Map(Fold, header + FlatMap(SplitEvent, events) + [footer])) + "\r\n"
  }

  // ----- Unfolding -----

  /** `s.replace(/\r\n/g, "\n")`. */
  function CrLfToLf(s: string): string {
    if s == [] then []
    else if |s| > 1 && s[0] == '\r' && s[1] == '\n' then "\n" + CrLfToLf(s[2..])
    else [s[0]] + CrLfToLf(s[1..])
  }

  predicate IsNewline(c: char) {
    c == '\n'
  }

  predicate IsContinuation(line: string) {
    line != [] && (line[0] == ' ' || line[0] == '\t')
  }

  /** The reduce over the physical lines. */
  function Glue(physical: seq<string>, lines: seq<string>): seq<string>
    decreases |physical|
  {
    if physical == [] then lines
    else
      var line := physical[0];
      Glue(physical[1..],
           if IsContinuation(line) && lines != [] then lines[..|lines| - 1] + [lines[|lines| - 1] + line[1..]]
           else if line != [] then lines + [line]
           else lines)
  }

  /** `unfoldICalendarLines`. */
  function ReadLines(payload: string): seq<string> {
    Glue(Split(IsNewline, Replace('\r', "\n", CrLfToLf(payload))), [])
  }

  /** What the lines that continue a content line add to it. */
  function Tails(continuations: seq<string>): string {
    if continuations == [] then "" else (if continuations[0] == "" then "" else continuations[0][1..]) + Tails(continuations[1..])
  }

  /** A line that is cut anywhere, the rest marked by spaces or tabs, is read as a
      whole; empty lines before it are skipped. */
  lemma {:induction false} AnyFoldReads(first: string, continuations: seq<string>, lines: seq<string>)
    requires first != "" && first[0] !in " \t"
    requires forall i :: 0 <= i < |continuations| ==> continuations[i] != "" && continuations[i][0] in " \t"
    ensures Glue(["", first] + continuations, lines) == lines + [first + Tails(continuations)]
  {
    var physical := ["", first] + continuations;
    assert physical[1..] == [first] + continuations && physical[1..][1..] == continuations;
    assert Glue(physical, lines) == Glue([first] + continuations, lines);
    ContinuationsRead(first, continuations, lines);
  }

  lemma {:induction false} ContinuationsRead(line: string, continuations: seq<string>, lines: seq<string>)
    requires forall i :: 0 <= i < |continuations| ==> continuations[i] != "" && continuations[i][0] in " \t"
    ensures Glue(continuations, lines + [line]) == lines + [line + Tails(continuations)]
    decreases |continuations|
  {
    var all := lines + [line];
    if continuations == [] {
      assert line + "" == line;
    } else {
      var tail := continuations[0][1..];
      assert all[..|all| - 1] == lines && all[|all| - 1] == line;
      ContinuationsRead(line + tail, continuations[1..], lines);
      assert line + tail + Tails(continuations[1..]) == line + (tail + Tails(continuations[1..]));
    }
  }

  // ----- Folding never shows -----

  lemma {:induction false} GlueConcat(p: seq<string>, q: seq<string>, lines: seq<string>)
    ensures Glue(p + q, lines) == Glue(q, Glue(p, lines))
    decreases |p|
  {
    if p == [] {
      assert p + q == q;
    } else {
      assert (p + q)[1..] == p[1..] + q;
      var line := p[0];
      GlueConcat(p[1..], q,
                 if IsContinuation(line) && lines != [] then lines[..|lines| - 1] + [lines[|lines| - 1] + line[1..]]
                 else if line != [] then lines + [line] else lines);
    }
  }

  function Flatten(chunks: seq<string>): string {
    if chunks == [] then [] else chunks[0] + Flatten(chunks[1..])
  }

  lemma {:induction false} ChunksFlatten(line: string)
    ensures Flatten(Chunks(line)) == line
    decreases |line|
  {
    if |line| > FOLD_AT {
      ChunksFlatten(line[FOLD_AT..]);
      assert Chunks(line)[1..] == Chunks(line[FOLD_AT..]);
      assert line[..FOLD_AT] + line[FOLD_AT..] == line;
    } else {
      assert Chunks(line)[1..] == [] && line + [] == line;
    }
  }

  lemma {:induction false} GlueContinuations(chunks: seq<string>, lines: seq<string>, last: string)
    ensures Glue(Map(Continuation, chunks), lines + [last]) == lines + [last + Flatten(chunks)]
    decreases |chunks|
  {
    if chunks == [] {
      assert last + [] == last;
    } else {
      var physical := Map(Continuation, chunks);
      assert physical[1..] == Map(Continuation, chunks[1..]);
      assert physical[0][1..] == chunks[0];
      assert (lines + [last])[..|lines|] == lines;
      GlueContinuations(chunks[1..], lines, last + chunks[0]);
      assert last + chunks[0] + Flatten(chunks[1..]) == last + Flatten(chunks);
    }
  }

  /** Folding one physical line leaves what unfolding reads unchanged. */
  lemma GlueFolded(line: string, lines: seq<string>)
    ensures Glue(PhysicalLines(line), lines) == Glue([line], lines)
  {
    var chunks := Chunks(line);
    assert PhysicalLines(line)[1..] == Map(Continuation, chunks[1..]);
    ChunksFlatten(line);
    if |line| <= FOLD_AT {
      assert PhysicalLines(line) == [line];
    } else {
      var first := chunks[0];
      assert first == line[..FOLD_AT] && first[0] == line[0];
      assert line == first + Flatten(chunks[1..]);
      if IsContinuation(line) && lines != [] {
        var n := |lines| - 1;
        GlueContinuations(chunks[1..], lines[..n], lines[n] + first[1..]);
        assert lines[n] + first[1..] + Flatten(chunks[1..]) == lines[n] + line[1..];
      } else {
        GlueContinuations(chunks[1..], lines, first);
      }
    }
  }

  /** Folding all physical lines of any stream, folded before or not, leaves
      what unfolding reads unchanged. */
  lemma {:induction false} FoldingIsInvisible(physical: seq<string>, lines: seq<string>)
    ensures Glue(FlatMap(PhysicalLines, physical), lines) == Glue(physical, lines)
    decreases |physical|
  {
    if physical != [] {
      var first := [physical[0]];
      assert physical == first + physical[1..];
      GlueConcat(PhysicalLines(physical[0]), FlatMap(PhysicalLines, physical[1..]), lines);
      GlueConcat(first, physical[1..], lines);
      GlueFolded(physical[0], lines);
      FoldingIsInvisible(physical[1..], Glue(first, lines));
    }
  }

  // ----- Line lengths -----

  lemma {:induction false} ChunkLengths(line: string)
    ensures forall c :: c in Chunks(line) ==> |c| <= FOLD_AT
    ensures |line| >= FOLD_AT ==> |Chunks(line)[0]| == FOLD_AT
    decreases |line|
  {
    if |line| > FOLD_AT { ChunkLengths(line[FOLD_AT..]); }
  }

  /** One folding keeps to 75 units a line exactly for lines under 150: a
      full second chunk gets a leading space on top. */
  lemma FoldedWidthIff(line: string)
    ensures (forall l :: l in PhysicalLines(line) ==> |l| <= FOLD_AT) <==> |line| < 2 * FOLD_AT
    ensures forall l :: l in PhysicalLines(line) ==> |l| <= FOLD_AT + 1
  {
    FoldedWidthBound(line);
    if |line| < 2 * FOLD_AT { ShortFoldsNarrow(line); } else { LongFoldsWide(line); }
  }

  lemma FoldedWidthBound(line: string)
    ensures forall l :: l in PhysicalLines(line) ==> |l| <= FOLD_AT + 1
  {
    ChunkLengths(line);
    var chunks, physical := Chunks(line), PhysicalLines(line);
    forall l | l in physical ensures |l| <= FOLD_AT + 1 {
      var i :| 0 <= i < |physical| && physical[i] == l;
      if i > 0 { assert l == " " + chunks[i]; }
      assert chunks[i] in chunks;
    }
  }

  lemma ShortFoldsNarrow(line: string)
    requires |line| < 2 * FOLD_AT
    ensures forall l :: l in PhysicalLines(line) ==> |l| <= FOLD_AT
  {
    if |line| > FOLD_AT {
      var rest := line[FOLD_AT..];
      assert Chunks(line) == [line[..FOLD_AT]] + [rest];
      assert PhysicalLines(line) == [line[..FOLD_AT], " " + rest];
    } else {
      assert PhysicalLines(line) == [line];
    }
  }

  lemma LongFoldsWide(line: string)
    requires |line| >= 2 * FOLD_AT
    ensures exists l :: l in PhysicalLines(line) && |l| == FOLD_AT + 1
  {
    var rest := line[FOLD_AT..];
    ChunkLengths(rest);
    var chunks, physical := Chunks(line), PhysicalLines(line);
    assert chunks[1] == Chunks(rest)[0];
    assert physical[1] == " " + chunks[1];
    assert physical[1] in physical;
  }

  // ----- From text to lines and back -----

  /** The physical lines of several content lines. */
  function Physical(lines: seq<string>): seq<string> {
    FlatMap(PhysicalLines, lines)
  }

  function Concat(events: seq<seq<string>>): seq<string> {
    if events == [] then [] else events[0] + Concat(events[1..])
  }

  ghost predicate OneLine(s: string) {
    '\r' !in s && '\n' !in s
  }

  ghost predicate AllOneLine(lines: seq<string>) {
    forall i :: 0 <= i < |lines| ==> OneLine(lines[i])
  }

  lemma {:induction false} JoinConcat(separator: string, xs: seq<string>, ys: seq<string>)
    requires xs != [] && ys != []
    ensures Join(separator, xs + ys) == Join(separator, xs) + separator + Join(separator, ys)
    decreases |xs|
  {
    assert (xs + ys)[1..] == xs[1..] + ys;
    if |xs| > 1 {
      JoinConcat(separator, xs[1..], ys);
      assert xs[0] + separator + (Join(separator, xs[1..]) + separator + Join(separator, ys))
          == Join(separator, xs) + separator + Join(separator, ys);
    } else {
      assert xs[1..] + ys == ys;
    }
  }

  lemma {:induction false} JoinIndented(chunks: seq<string>)
    requires chunks != []
    ensures Join("\r\n ", chunks) == Join("\r\n", [chunks[0]] + Map(Continuation, chunks[1..]))
    decreases |chunks|
  {
    var physical := [chunks[0]] + Map(Continuation, chunks[1..]);
    if |chunks| > 1 {
      var tail := Map(Continuation, chunks[1..][1..]);
      JoinIndented(chunks[1..]);
      IndentFirst(chunks[1], tail);
      assert physical[1..] == [" " + chunks[1]] + tail;
      JoinPeel("\r\n", physical);
      JoinPeel("\r\n ", chunks);
      var rest := Join("\r\n ", chunks[1..]);
      assert "\r\n " + rest == "\r\n" + (" " + rest);
    }
  }

  lemma {:induction false} IndentFirst(first: string, rest: seq<string>)
    ensures Join("\r\n", [" " + first] + rest) == " " + Join("\r\n", [first] + rest)
  {
    assert ([" " + first] + rest)[1..] == rest && ([first] + rest)[1..] == rest;
  }

  lemma {:induction false} EventTextIsPhysical(lines: seq<string>)
    requires lines != []
    ensures EventText(lines) == Join("\r\n", Physical(lines))
    decreases |lines|
  {
    JoinIndented(Chunks(lines[0]));
    assert Fold(lines[0]) == Join("\r\n", PhysicalLines(lines[0]));
    if |lines| == 1 {
      assert FlatMap(PhysicalLines, lines[1..]) == [];
      assert Physical(lines) == PhysicalLines(lines[0]);
    } else {
      EventTextIsPhysical(lines[1..]);
      PhysicalNotEmpty(lines[1..]);
      JoinConcat("\r\n", PhysicalLines(lines[0]), Physical(lines[1..]));
      assert Map(Fold, lines)[1..] == Map(Fold, lines[1..]);
    }
  }

  lemma {:induction false} ChunksOneLine(line: string)
    requires OneLine(line)
    ensures forall c :: c in Chunks(line) ==> OneLine(c)
    decreases |line|
  {
    if |line| > FOLD_AT { ChunksOneLine(line[FOLD_AT..]); }
  }

  lemma PhysicalLinesOneLine(line: string)
    requires OneLine(line)
    ensures AllOneLine(PhysicalLines(line))
  {
    ChunksOneLine(line);
    var chunks, physical := Chunks(line), PhysicalLines(line);
    forall i | 0 <= i < |physical| ensures OneLine(physical[i]) {
      assert chunks[i] in chunks;
      if i > 0 { assert physical[i] == " " + chunks[i]; }
    }
  }

  lemma {:induction false} PhysicalOneLine(lines: seq<string>)
    requires AllOneLine(lines)
    ensures AllOneLine(Physical(lines))
  {
    if lines != [] {
      PhysicalOneLine(lines[1..]);
      PhysicalLinesOneLine(lines[0]);
    }
  }

  lemma {:induction false} CrLfPassesOver(w: string, s: string)
    requires '\r' !in w
    ensures CrLfToLf(w + s) == w + CrLfToLf(s)
    ensures SplitCrLf(w + s) == [w + SplitCrLf(s)[0]] + SplitCrLf(s)[1..]
  {
    var rest := SplitCrLf(s);
    if w == [] {
      assert w + s == s && w + rest[0] == rest[0] && rest == [rest[0]] + rest[1..];
    } else {
      assert (w + s)[1..] == w[1..] + s;
      CrLfPassesOver(w[1..], s);
      assert [w[0]] + (w[1..] + rest[0]) == w + rest[0];
      assert [w[0]] + (w[1..] + CrLfToLf(s)) == w + CrLfToLf(s);
    }
  }

  lemma {:induction false} CrLfLines(lines: seq<string>)
    requires lines != [] && AllOneLine(lines)
    ensures CrLfToLf(Join("\r\n", lines)) == Join("\n", lines)
    ensures SplitCrLf(Join("\r\n", lines)) == lines
    decreases |lines|
  {
    var w := lines[0];
    if |lines| == 1 {
      CrLfPassesOver(w, []);
      assert w + [] == w && [w] + [""][1..] == [w];
    } else {
      CrLfLines(lines[1..]);
      CrLfAfter(w, Join("\r\n", lines[1..]));
      JoinPeel("\r\n", lines);
      JoinPeel("\n", lines);
    }
  }

  lemma CrLfAfter(w: string, tail: string)
    requires '\r' !in w
    ensures CrLfToLf(w + ("\r\n" + tail)) == w + ("\n" + CrLfToLf(tail))
    ensures SplitCrLf(w + ("\r\n" + tail)) == [w] + SplitCrLf(tail)
  {
    var s := "\r\n" + tail;
    assert s[2..] == tail;
    assert CrLfToLf(s) == "\n" + CrLfToLf(tail) && SplitCrLf(s) == [""] + SplitCrLf(tail);
    CrLfPassesOver(w, s);
    assert w + "" == w;
  }

  lemma {:induction false} NoCrToReplace(s: string)
    requires '\r' !in s
    ensures Replace('\r', "\n", s) == s
  {
    if s != [] { NoCrToReplace(s[1..]); }
  }

  lemma {:induction false} JoinedHasNoCr(lines: seq<string>)
    requires AllOneLine(lines)
    ensures '\r' !in Join("\n", lines)
    decreases |lines|
  {
    if |lines| > 1 { JoinedHasNoCr(lines[1..]); }
  }

  /** Reading a text of physical lines glues exactly those lines. */
  lemma ReadsPhysical(physical: seq<string>)
    requires physical != [] && AllOneLine(physical)
    ensures ReadLines(Join("\r\n", physical)) == Glue(physical, [])
  {
    CrLfLines(physical);
    JoinedHasNoCr(physical);
    NoCrToReplace(Join("\n", physical));
    forall i | 0 <= i < |physical| ensures forall c :: c in physical[i] ==> !IsNewline(c) {
      assert OneLine(physical[i]);
    }
    SplitOfJoin(IsNewline, '\n', physical);
  }

  /** A content line as the exporter makes them. */
  ghost predicate ContentLine(line: string) {
    OneLine(line) && line != [] && !IsContinuation(line)
  }

  ghost predicate ContentLines(lines: seq<string>) {
    forall i :: 0 <= i < |lines| ==> ContentLine(lines[i])
  }

  lemma {:induction false} GlueContent(lines: seq<string>, before: seq<string>)
    requires ContentLines(lines)
    ensures Glue(lines, before) == before + lines
    decreases |lines|
  {
    if lines != [] {
      assert ContentLine(lines[0]);
      GlueContent(lines[1..], before + [lines[0]]);
      assert before + [lines[0]] + lines[1..] == before + lines;
    } else {
      assert before + lines == before;
    }
  }

  /** Reading an event's text gives back its content lines, however long. */
  lemma EventReads(lines: seq<string>)
    requires lines != [] && ContentLines(lines)
    ensures ReadLines(EventText(lines)) == lines
  {
    ContentIsOneLine(lines);
    EventTextIsPhysical(lines);
    PhysicalOneLine(lines);
    PhysicalNotEmpty(lines);
    ReadsPhysical(Physical(lines));
    FoldingIsInvisible(lines, []);
    GlueContent(lines, []);
    assert [] + lines == lines;
  }

  lemma {:induction false} PhysicalNotEmpty(lines: seq<string>)
    requires lines != []
    ensures Physical(lines) != []
  {
    assert Physical(lines) == PhysicalLines(lines[0]) + FlatMap(PhysicalLines, lines[1..]);
  }

  /** The physical lines that a feed folds a second time. */
  function FeedLines(header: seq<string>, events: seq<seq<string>>, footer: string): seq<string> {
    header + FlatMap(Physical, events) + [footer]
  }

  lemma {:induction false} EventsSplit(events: seq<seq<string>>)
    requires forall k :: 0 <= k < |events| ==> events[k] != [] && AllOneLine(events[k])
    ensures FlatMap(SplitEvent, events)
         == FlatMap(Physical, events)
    ensures AllOneLine(FlatMap(Physical, events))
  {
    if events != [] {
      EventsSplit(events[1..]);
      EventTextIsPhysical(events[0]);
      PhysicalOneLine(events[0]);
      PhysicalNotEmpty(events[0]);
      CrLfLines(Physical(events[0]));
    }
  }

  lemma {:induction false} GlueEvents(events: seq<seq<string>>, before: seq<string>)
    requires forall k :: 0 <= k < |events| ==> ContentLines(events[k])
    ensures Glue(FlatMap(Physical, events), before)
         == before + Concat(events)
    decreases |events|
  {
    if events == [] {
      assert before + [] == before;
    } else {
      GlueEvent(events[0], FlatMap(Physical, events[1..]), before);
      GlueEvents(events[1..], before + events[0]);
      JoinLists(before, events[0], Concat(events[1..]));
    }
  }

  lemma {:induction false} JoinLists(a: seq<string>, b: seq<string>, c: seq<string>)
    ensures a + b + c == a + (b + c)
  {
  }

  lemma GlueEvent(event: seq<string>, rest: seq<string>, before: seq<string>)
    requires ContentLines(event)
    ensures Glue(Physical(event) + rest, before) == Glue(rest, before + event)
  {
    GlueConcat(Physical(event), rest, before);
    FoldingIsInvisible(event, before);
    GlueContent(event, before);
  }

  /** Reading a whole feed gives back the header, the content lines of every
      event in order, and the footer: folding twice loses nothing. */
  lemma {:induction false} FeedReads(header: seq<string>, events: seq<seq<string>>, footer: string)
    requires ContentLines(header) && ContentLine(footer)
    requires forall k :: 0 <= k < |events| ==> events[k] != [] && ContentLines(events[k])
    ensures ReadLines(FeedText(header, events, footer)) == header + Concat(events) + [footer]
  {
    var once := FeedLines(header, events, footer);
    ContentIsOneLine(header);
    forall k | 0 <= k < |events| ensures AllOneLine(events[k]) { ContentIsOneLine(events[k]); }
    FeedIsPhysical(header, events, footer);
    PhysicalNotEmpty(once);
    PhysicalOneLine(once);
    FinalBreakReads(Physical(once));
    FoldingIsInvisible(once, []);
    GlueFeedLines(header, events, footer);
  }

  /** The line break that ends a feed adds no line. */
  lemma FinalBreakReads(physical: seq<string>)
    requires physical != [] && AllOneLine(physical)
    ensures ReadLines(Join("\r\n", physical) + "\r\n") == Glue(physical, [])
  {
    JoinConcat("\r\n", physical, [""]);
    assert Join("\r\n", physical + [""]) == Join("\r\n", physical) + "\r\n";
    ReadsPhysical(physical + [""]);
    GlueConcat(physical, [""], []);
    assert [""][1..] == [];
  }

  lemma {:induction false} GlueFeedLines(header: seq<string>, events: seq<seq<string>>, footer: string)
    requires ContentLines(header) && ContentLine(footer)
    requires forall k :: 0 <= k < |events| ==> ContentLines(events[k])
    ensures Glue(FeedLines(header, events, footer), []) == header + Concat(events) + [footer]
  {
    var middle := FlatMap(Physical, events);
    GlueConcat(header + middle, [footer], []);
    GlueConcat(header, middle, []);
    GlueContent(header, []);
    assert [] + header == header;
    GlueEvents(events, header);
    GlueContent([footer], header + Concat(events));
  }

  /** The lines that a feed folds are the header, the events' lines as folded
      once already, and the footer. */
  lemma FeedIsPhysical(header: seq<string>, events: seq<seq<string>>, footer: string)
    requires AllOneLine(header) && OneLine(footer)
    requires forall k :: 0 <= k < |events| ==> events[k] != [] && AllOneLine(events[k])
    ensures AllOneLine(FeedLines(header, events, footer))
    ensures FeedText(header, events, footer) == Join("\r\n", Physical(FeedLines(header, events, footer))) + "\r\n"
  {
    EventsSplit(events);
    EventTextIsPhysical(FeedLines(header, events, footer));
  }

  lemma {:induction false} ContentIsOneLine(lines: seq<string>)
    requires ContentLines(lines)
    ensures AllOneLine(lines)
  {
    assert forall i :: 0 <= i < |lines| ==> ContentLine(lines[i]);
  }

  // ----- Line lengths of what is sent -----

  ghost predicate Narrow(lines: seq<string>) {
    forall l :: l in lines ==> |l| <= FOLD_AT
  }

  ghost predicate AllShort(lines: seq<string>) {
    forall l :: l in lines ==> |l| < 2 * FOLD_AT
  }

  /** What is folded once is narrow exactly when every content line is short. */
  lemma {:induction false} NarrowIffShort(lines: seq<string>)
    ensures Narrow(Physical(lines)) <==> AllShort(lines)
  {
    FlatMapMembers(PhysicalLines, lines);
    forall l | l in lines ensures (forall x :: x in PhysicalLines(l) ==> |x| <= FOLD_AT) <==> |l| < 2 * FOLD_AT { FoldedWidthIff(l); }
    if Narrow(Physical(lines)) {
      forall l | l in lines ensures |l| < 2 * FOLD_AT {
        forall x | x in PhysicalLines(l) ensures |x| <= FOLD_AT { assert x in Physical(lines); }
      }
    }
  }

  /** What has been folded once is short enough to be folded well again. */
  lemma {:induction false} FoldedEventsAreShort(events: seq<seq<string>>)
    ensures AllShort(FlatMap(Physical, events))
  {
    FlatMapMembers(Physical, events);
    forall l | l in FlatMap(Physical, events) ensures |l| < 2 * FOLD_AT {
      var event :| event in events && l in Physical(event);
      FlatMapMembers(PhysicalLines, event);
      var line :| line in event && l in PhysicalLines(line);
      FoldedWidthBound(line);
    }
  }

  lemma {:induction false} SplitJoined(physical: seq<string>)
    requires physical != [] && AllOneLine(physical)
    ensures SplitCrLf(Join("\r\n", physical) + "\r\n") == physical + [""]
  {
    JoinConcat("\r\n", physical, [""]);
    assert Join("\r\n", physical) + "\r\n" + "" == Join("\r\n", physical) + "\r\n";
    CrLfLines(physical + [""]);
  }

  /** The lines of a feed keep to 75 units if and only if every line of its
      header and its footer is shorter than 150: the events' lines are folded
      twice, but the header and the footer only once. */
  lemma {:induction false} FeedWidthIff(header: seq<string>, events: seq<seq<string>>, footer: string)
    requires AllOneLine(header) && OneLine(footer)
    requires forall k :: 0 <= k < |events| ==> events[k] != [] && AllOneLine(events[k])
    ensures Narrow(SplitCrLf(FeedText(header, events, footer))) <==> AllShort(header) && |footer| < 2 * FOLD_AT
  {
    var lines := FeedLines(header, events, footer);
    FeedIsPhysical(header, events, footer);
    PhysicalNotEmpty(lines);
    PhysicalOneLine(lines);
    SplitJoined(Physical(lines));
    assert Narrow(Physical(lines) + [""]) <==> Narrow(Physical(lines)) by {
      assert forall l :: l in Physical(lines) ==> l in Physical(lines) + [""];
    }
    NarrowIffShort(lines);
    FoldedEventsAreShort(events);
    ShortParts(header, FlatMap(Physical, events), footer);
  }

  lemma {:induction false} ShortParts(header: seq<string>, middle: seq<string>, footer: string)
    requires AllShort(middle)
    ensures AllShort(header + middle + [footer]) <==> AllShort(header) && |footer| < 2 * FOLD_AT
  {
    var all := header + middle + [footer];
    assert forall l :: l in header ==> l in all;
    assert footer in all;
  }

  // ----- Properties -----

  /** A text property: its name and the text it carries. */
  datatype Property = Property(name: string, text: string)

  function Upper(s: string): string {
    Map((c: char) => if 'a' <= c <= 'z' then c - 32 as char else c, s)
  }

  /** The letters a to z become A to Z, everything else stays. */
  lemma {:induction false} UpperAt(s: string, i: nat)
    requires i < |s|
    ensures |Upper(s)| == |s| && Upper(s)[i] as int == if 97 <= s[i] as int <= 122 then s[i] as int - 32 else s[i] as int
  {
  }

  predicate IsSemicolon(c: char) {
    c == ';'
  }

  /** `line.indexOf(":")`, or the length if there is none. */
  function Colon(line: string): (i: nat)
    ensures i <= |line| && (i < |line| ==> line[i] == ':')
    ensures forall j :: 0 <= j < i ==> line[j] != ':'
  {
    if line == [] || line[0] == ':' then 0 else 1 + Colon(line[1..])
  }

  /** `parseContentLine`, without the parameters: the name up to the first ';'. */
  function ParseContentLine(line: string): Option<(string, string)> {
    var i := Colon(line);
    if i == |line| then None else Some((Upper(Split(IsSemicolon, line[..i])[0]), line[i + 1..]))
  }

  function PropertyLine(p: Property): string {
    p.name + ":" + Escape(p.text)
  }

  /** Read a content line back as a text property. */
  function ReadProperty(line: string): Option<Property> {
    var parsed := ParseContentLine(line);
    if parsed.None? then None else Some(Property(parsed.value.0, Unescape(parsed.value.1)))
  }

  /** The names that the exporter writes: upper case, no ':' and no ';'. */
  ghost predicate ValidName(name: string) {
    && OneLine(name) && name != [] && !IsContinuation(name)
    && ':' !in name && ';' !in name && Upper(name) == name
  }

  lemma LineParses(name: string, value: string)
    requires ValidName(name)
    ensures ParseContentLine(name + ":" + value) == Some((name, value))
  {
    var line := name + ":" + value;
    var n := |name|;
    assert line[n] == ':' && forall j :: 0 <= j < n ==> line[j] == name[j];
    assert Colon(line) == n;
    assert line[..n] == name && line[n + 1..] == value;
    SplitPrepend(IsSemicolon, name, "");
    assert name + "" == name;
  }

  lemma PropertyLineIsContent(p: Property)
    requires ValidName(p.name)
    ensures ContentLine(PropertyLine(p))
  {
    EscapeFitsOneLine(p.text);
    assert PropertyLine(p)[0] == p.name[0];
  }

  lemma PropertyReadsIff(p: Property)
    requires ValidName(p.name)
    ensures ReadProperty(PropertyLine(p)) == Some(p) <==> Survives(p.text)
  {
    LineParses(p.name, Escape(p.text));
    EscapeRoundTripIff(p.text);
  }

  /** Every text property published in an event is read back as it was written
      if and only if each text survives escaping; line length does not matter. */
  lemma PublishedPropertiesReadIff(properties: seq<Property>)
    requires properties != [] && forall p :: p in properties ==> ValidName(p.name)
    ensures Map(ReadProperty, ReadLines(EventText(Map(PropertyLine, properties)))) == Map((p: Property) => Some(p), properties)
        <==> forall p :: p in properties ==> Survives(p.text)
  {
    var lines := Map(PropertyLine, properties);
    forall i | 0 <= i < |lines| ensures ContentLine(lines[i]) { PropertyLineIsContent(properties[i]); }
    EventReads(lines);
    forall i | 0 <= i < |lines| ensures ReadProperty(lines[i]) == Some(properties[i]) <==> Survives(properties[i].text) {
      PropertyReadsIff(properties[i]);
    }
    AllOrNothing(properties, Map(ReadProperty, lines));
  }

  lemma {:induction false} AllOrNothing(properties: seq<Property>, read: seq<Option<Property>>)
    requires |read| == |properties|
    requires forall i :: 0 <= i < |read| ==> (read[i] == Some(properties[i]) <==> Survives(properties[i].text))
    ensures read == Map((p: Property) => Some(p), properties) <==> forall p :: p in properties ==> Survives(p.text)
  {
    var all := Map((p: Property) => Some(p), properties);
    if read == all {
      forall p | p in properties ensures Survives(p.text) {
        var i :| 0 <= i < |properties| && properties[i] == p;
        assert read[i] == all[i];
      }
    }
  }
}
