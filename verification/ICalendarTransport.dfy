/** What arrives of folded content lines that are sent as UTF-8: folding counts
    code units, so it can cut a character between its two halves. */
module ICalendarTransport {
  import opened Sequences
  import opened Text
  import opened Utf16
  import opened ICalendarText
  import opened ICalendarLines

  /** A content line as it is read after folding, sending and unfolding. */
  function Arrived(line: string): string {
    Flatten(Map(Utf8, Chunks(line)))
  }

  /** Folding leaves every character of the line whole. */
  predicate NotCut(line: string) {
    forall i :: 0 <= i < |Chunks(line)| ==> Paired(Chunks(line)[i])
  }

  lemma {:induction false} FlattenFades(chunks: seq<string>)
    ensures Fades(Flatten(chunks), Flatten(Map(Utf8, chunks)))
  {
    if chunks != [] {
      FlattenFades(chunks[1..]);
      Utf8Fades(chunks[0]);
      assert Map(Utf8, chunks)[1..] == Map(Utf8, chunks[1..]);
      FadesConcat(chunks[0], Flatten(chunks[1..]), Utf8(chunks[0]), Flatten(Map(Utf8, chunks[1..])));
    }
  }

  lemma {:induction false} ArrivedFades(line: string)
    ensures Fades(line, Arrived(line))
  {
    ChunksFlatten(line);
    FlattenFades(Chunks(line));
  }

  lemma {:induction false} FlattenIff(chunks: seq<string>)
    ensures Flatten(Map(Utf8, chunks)) == Flatten(chunks) <==> forall i :: 0 <= i < |chunks| ==> Paired(chunks[i])
  {
    if chunks != [] {
      var first, rest := chunks[0], Flatten(chunks[1..]);
      var all := Map(Utf8, chunks);
      assert all[1..] == Map(Utf8, chunks[1..]);
      FlattenIff(chunks[1..]);
      ArrivesIff(first);
      Utf8Fades(first);
      assert (first + rest)[..|first|] == first && (first + rest)[|first|..] == rest;
      assert Flatten(all)[..|first|] == Utf8(first) && Flatten(all)[|first|..] == Flatten(all[1..]);
    }
  }

  /** A line arrives as it was exactly when folding cuts no character in two. */
  lemma {:induction false} ArrivedIff(line: string)
    ensures Arrived(line) == line <==> NotCut(line)
  {
    ChunksFlatten(line);
    FlattenIff(Chunks(line));
  }

  /** That is: its halves are paired, and no pair is cut after a multiple of 75 units. */
  lemma {:induction false} NotCutIff(line: string)
    ensures NotCut(line) <==> Paired(line) && forall i :: 0 <= i < |line| - 1 && IsHigh(line[i]) ==> (i + 1) % FOLD_AT != 0
    decreases |line|
  {
    if |line| <= FOLD_AT {
      assert Chunks(line) == [line];
      assert NotCut(line) <==> Paired(line) by { assert NotCut(line) ==> Paired(Chunks(line)[0]); }
      if Paired(line) {
        forall i | 0 <= i < |line| - 1 && IsHigh(line[i]) ensures (i + 1) % FOLD_AT != 0 {}
      }
    } else {
      var head, rest := line[..FOLD_AT], line[FOLD_AT..];
      NotCutIff(rest);
      FirstChunk(line);
      NoCutInRest(line);
      if Paired(head) { PairedTail(line, FOLD_AT); }
      if Paired(line) && (IsHigh(line[FOLD_AT - 1]) ==> false) { HeadPaired(line, FOLD_AT); }
    }
  }

  lemma {:induction false} FirstChunk(line: string)
    requires |line| > FOLD_AT
    ensures NotCut(line) <==> Paired(line[..FOLD_AT]) && NotCut(line[FOLD_AT..])
  {
    var chunks, rest := Chunks(line), Chunks(line[FOLD_AT..]);
    assert chunks[0] == line[..FOLD_AT] && chunks[1..] == rest;
    assert forall i :: 0 <= i < |rest| ==> rest[i] == chunks[i + 1];
  }

  lemma {:induction false} HeadPaired(line: string, n: nat)
    requires 0 < n <= |line| && Paired(line) && !IsHigh(line[n - 1])
    ensures Paired(line[..n])
  {
    var h := line[..n];
    forall i | 0 <= i < n ensures PairedAt(h, i) { assert PairedAt(line, i); }
  }

  ghost predicate NoneAtFold(line: string) {
    forall i :: 0 <= i < |line| - 1 && IsHigh(line[i]) ==> (i + 1) % FOLD_AT != 0
  }

  lemma {:induction false} NoCutInRest(line: string)
    requires |line| > FOLD_AT
    ensures NoneAtFold(line) ==> !IsHigh(line[FOLD_AT - 1])
    ensures !IsHigh(line[FOLD_AT - 1]) ==> (NoneAtFold(line) <==> NoneAtFold(line[FOLD_AT..]))
    ensures Paired(line[..FOLD_AT]) ==> !IsHigh(line[FOLD_AT - 1])
  {
    var rest := line[FOLD_AT..];
    if Paired(line[..FOLD_AT]) { assert PairedAt(line[..FOLD_AT], FOLD_AT - 1); }
    assert (FOLD_AT - 1 + 1) % FOLD_AT == 0;
    if !IsHigh(line[FOLD_AT - 1]) && NoneAtFold(rest) {
      forall i | 0 <= i < |line| - 1 && IsHigh(line[i]) ensures (i + 1) % FOLD_AT != 0 {
        if i >= FOLD_AT { assert rest[i - FOLD_AT] == line[i]; }
      }
    }
    if NoneAtFold(line) {
      forall i | 0 <= i < |rest| - 1 && IsHigh(rest[i]) ensures (i + 1) % FOLD_AT != 0 {
        assert rest[i] == line[i + FOLD_AT];
      }
    }
  }

  // ----- Texts of lines -----

  lemma {:induction false} Utf8Joined(physical: seq<string>)
    requires physical != []
    ensures Utf8(Join("\r\n", physical) + "\r\n") == Join("\r\n", Map(Utf8, physical)) + "\r\n"
    decreases |physical|
  {
    var arrived := Map(Utf8, physical);
    BreakArrives([]);
    if |physical| == 1 {
      Utf8Concat(physical[0], "\r\n");
      assert "\r\n" + [] == "\r\n" && Utf8([]) == [];
    } else {
      var rest := Join("\r\n", physical[1..]) + "\r\n";
      JoinedPeel(physical);
      JoinedPeel(arrived);
      assert arrived[1..] == Map(Utf8, physical[1..]);
      Utf8Concat(physical[0], "\r\n" + rest);
      BreakArrives(rest);
      Utf8Joined(physical[1..]);
    }
  }

  lemma {:induction false} JoinedPeel(lines: seq<string>)
    requires |lines| > 1
    ensures Join("\r\n", lines) + "\r\n" == lines[0] + ("\r\n" + (Join("\r\n", lines[1..]) + "\r\n"))
  {
    var rest := Join("\r\n", lines[1..]);
    JoinPeel("\r\n", lines);
    Associate(lines[0], "\r\n", rest);
    Associate(lines[0], "\r\n", rest + "\r\n");
    Associate(lines[0] + "\r\n", rest, "\r\n");
  }

  lemma {:induction false} BreakArrives(rest: string)
    ensures Utf8("\r\n" + rest) == "\r\n" + Utf8(rest)
  {
    var s := "\r\n" + rest;
    assert s[1..] == "\n" + rest && s[1..][1..] == rest;
    assert Utf8(s) == ['\r'] + Utf8(s[1..]) && Utf8(s[1..]) == ['\n'] + Utf8(rest);
  }

  lemma {:induction false} Utf8Continuation(chunk: string)
    ensures Utf8(Continuation(chunk)) == Continuation(Utf8(chunk))
  {
    assert (" " + chunk)[1..] == chunk;
  }

  /** The lines of a folded line arrive as the chunks do. */
  lemma {:induction false} PhysicalArrives(line: string)
    ensures Map(Utf8, PhysicalLines(line)) == [Utf8(Chunks(line)[0])] + Map(Continuation, Map(Utf8, Chunks(line)[1..]))
  {
    var chunks := Chunks(line);
    forall i | 0 <= i < |chunks| - 1 ensures Utf8(Continuation(chunks[1..][i])) == Continuation(Utf8(chunks[1..][i])) {
      Utf8Continuation(chunks[1..][i]);
    }
  }

  lemma {:induction false} GlueArrived(line: string, before: seq<string>)
    requires ContentLine(line)
    ensures Glue(Map(Utf8, PhysicalLines(line)), before) == before + [Arrived(line)]
  {
    var chunks := Chunks(line);
    var first, rest := Utf8(chunks[0]), Map(Utf8, chunks[1..]);
    PhysicalArrives(line);
    Utf8Fades(chunks[0]);
    ChunksFlatten(line);
    assert chunks[0] != [] && chunks[0][0] == line[0];
    assert first != [] && !IsContinuation(first);
    var physical := [first] + Map(Continuation, rest);
    assert physical[0] == first && physical[1..] == Map(Continuation, rest);
    GlueContinuations(rest, before, first);
    assert Map(Utf8, chunks)[1..] == rest;
  }

  lemma {:induction false} GlueOneArrived(line: string, rest: seq<string>, before: seq<string>)
    requires ContentLine(line)
    ensures Glue(Map(Utf8, PhysicalLines(line) + rest), before) == Glue(Map(Utf8, rest), before + [Arrived(line)])
  {
    MapConcat(Utf8, PhysicalLines(line), rest);
    GlueConcat(Map(Utf8, PhysicalLines(line)), Map(Utf8, rest), before);
    GlueArrived(line, before);
  }

  lemma {:induction false} GlueAllArrived(lines: seq<string>, before: seq<string>)
    requires ContentLines(lines)
    ensures Glue(Map(Utf8, Physical(lines)), before) == before + Map(Arrived, lines)
    decreases |lines|
  {
    if lines == [] {
      assert Map(Arrived, lines) == [] && Map(Utf8, Physical(lines)) == [];
      assert before + [] == before;
    } else {
      assert ContentLine(lines[0]);
      PhysicalPeel(lines);
      GlueOneArrived(lines[0], Physical(lines[1..]), before);
      ContentTail(lines);
      GlueAllArrived(lines[1..], before + [Arrived(lines[0])]);
      ArrivedPeel(before, lines);
    }
  }

  lemma {:induction false} PhysicalPeel(lines: seq<string>)
    requires lines != []
    ensures Physical(lines) == PhysicalLines(lines[0]) + Physical(lines[1..])
  {
  }

  lemma {:induction false} ContentTail(lines: seq<string>)
    requires lines != [] && ContentLines(lines)
    ensures ContentLines(lines[1..])
  {
    forall i | 0 <= i < |lines| - 1 ensures ContentLine(lines[1..][i]) { assert ContentLine(lines[i + 1]); }
  }

  lemma {:induction false} ArrivedPeel(before: seq<string>, lines: seq<string>)
    requires lines != []
    ensures before + [Arrived(lines[0])] + Map(Arrived, lines[1..]) == before + Map(Arrived, lines)
  {
    assert Map(Arrived, lines) == [Arrived(lines[0])] + Map(Arrived, lines[1..]);
  }

  lemma {:induction false} FadedOneLine(s: string, t: string)
    requires Fades(s, t) && OneLine(s)
    ensures OneLine(t)
  {
    forall c | c in t ensures c != '\r' && c != '\n' {
      var i :| 0 <= i < |t| && t[i] == c;
      assert s[i] in s;
    }
  }

  /** A text of folded content lines that is sent as UTF-8 is read as the lines
      that arrive. */
  lemma {:induction false} ArrivedReads(lines: seq<string>)
    requires lines != [] && ContentLines(lines)
    ensures ReadLines(Utf8(Join("\r\n", Physical(lines)) + "\r\n")) == Map(Arrived, lines)
  {
    var physical := Physical(lines);
    var sent := Map(Utf8, physical);
    ContentIsOneLine(lines);
    PhysicalNotEmpty(lines);
    PhysicalOneLine(lines);
    Utf8Joined(physical);
    forall i | 0 <= i < |sent| ensures OneLine(sent[i]) {
      Utf8Fades(physical[i]);
      FadedOneLine(physical[i], sent[i]);
    }
    FinalBreakReads(sent);
    GlueAllArrived(lines, []);
    assert [] + Map(Arrived, lines) == Map(Arrived, lines);
  }

  // ----- Halves in escaped texts -----

  lemma {:induction false} ReplaceHalves(c: char, put: string, s: string)
    requires !IsHalf(c) && Halves(put) == 0
    ensures Halves(Replace(c, put, s)) == Halves(s)
  {
    if s != [] {
      ReplaceHalves(c, put, s[1..]);
      HalvesConcat(if s[0] == c then put else [s[0]], Replace(c, put, s[1..]));
    }
  }

  lemma {:induction false} EscapeNewlinesHalves(s: string)
    ensures Halves(EscapeNewlines(s)) == Halves(s)
  {
    if s == [] {
    } else if s[0] == '\r' && |s| > 1 && s[1] == '\n' {
      EscapeNewlinesHalves(s[2..]);
      HalvesConcat("\\n", EscapeNewlines(s[2..]));
      assert s[1..][1..] == s[2..];
    } else {
      EscapeNewlinesHalves(s[1..]);
      HalvesConcat(if s[0] == '\r' || s[0] == '\n' then "\\n" else [s[0]], EscapeNewlines(s[1..]));
    }
  }

  lemma {:induction false} EscapeHalves(s: string)
    ensures Halves(Escape(s)) == Halves(s)
  {
    var a := Replace('\\', "\\\\", s);
    var b := EscapeNewlines(a);
    ReplaceHalves('\\', "\\\\", s);
    EscapeNewlinesHalves(a);
    ReplaceHalves(';', "\\;", b);
    ReplaceHalves(',', "\\,", Replace(';', "\\;", b));
  }

  lemma {:induction false} UnescapeNewlinesHalves(s: string)
    ensures Halves(UnescapeNewlines(s)) == Halves(s)
  {
    if s == [] {
    } else if s[0] == '\\' && |s| > 1 && IsN(s[1]) {
      UnescapeNewlinesHalves(s[2..]);
      HalvesConcat("\n", UnescapeNewlines(s[2..]));
      assert s[1..][1..] == s[2..];
    } else {
      UnescapeNewlinesHalves(s[1..]);
      HalvesConcat([s[0]], UnescapeNewlines(s[1..]));
    }
  }

  lemma {:induction false} UnescapeCharsHalves(s: string)
    ensures Halves(UnescapeChars(s)) == Halves(s)
  {
    if s == [] {
    } else if s[0] == '\\' && |s| > 1 && IsEscapable(s[1]) {
      UnescapeCharsHalves(s[2..]);
      HalvesConcat([s[1]], UnescapeChars(s[2..]));
      assert s[1..][1..] == s[2..];
    } else {
      UnescapeCharsHalves(s[1..]);
      HalvesConcat([s[0]], UnescapeChars(s[1..]));
    }
  }

  lemma {:induction false} UnescapeHalves(s: string)
    ensures Halves(Unescape(s)) == Halves(s)
  {
    UnescapeNewlinesHalves(s);
    UnescapeCharsHalves(UnescapeNewlines(s));
  }

  /** An escaped text of which some halves may have faded is read back as the
      text exactly when none has and the text survives escaping. */
  lemma {:induction false} FadedTextReadsIff(text: string, faded: string)
    requires Fades(Escape(text), faded)
    ensures Unescape(faded) == text <==> faded == Escape(text) && Survives(text)
  {
    EscapeHalves(text);
    UnescapeHalves(faded);
    FadesCount(Escape(text), faded);
    EscapeRoundTripIff(text);
  }
}
