/** The words of a text, and what collapsing its whitespace leaves. */
module Words {
  import opened Sequences
  import opened Text

  /** Words read so far end in `current`, still open. */
  function WordsFrom(current: string, s: string): seq<string>
    decreases |s|
  {
    if s == [] then Closed(current)
    else if IsSpace(s[0]) then Closed(current) + WordsFrom([], s[1..])
    else WordsFrom(current + [s[0]], s[1..])
  }

  function Closed(current: string): seq<string> {
    if current == [] then [] else [current]
  }

  /** The maximal runs of characters that are not whitespace. */
  function WordsOf(s: string): seq<string> {
    WordsFrom([], s)
  }

  /** `s.replace(/\s+/g, " ")`. */
  function Collapse(s: string): string
    decreases |s|
  {
    if s == [] then []
    else if IsSpace(s[0]) then " " + Collapse(TrimStart(s[1..]))
    else [s[0]] + Collapse(s[1..])
  }

  ghost predicate SpaceFree(s: string) {
    forall c :: c in s ==> !IsSpace(c)
  }

  lemma {:induction false} WordsBreak(current: string, x: string, y: string)
    requires y == [] || IsSpace(y[0])
    ensures WordsFrom(current, x + y) == WordsFrom(current, x) + WordsFrom([], y)
    decreases |x|
  {
    if x == [] {
      assert x + y == y;
      if y == [] { assert WordsFrom([], y) == []; }
    } else {
      assert (x + y)[1..] == x[1..] + y;
      WordsBreak(if IsSpace(x[0]) then [] else current + [x[0]], x[1..], y);
    }
  }

  lemma {:induction false} WordsSkipLeading(s: string)
    ensures WordsOf(TrimStart(s)) == WordsOf(s)
  {
    if s != [] && IsSpace(s[0]) { WordsSkipLeading(s[1..]); }
  }

  lemma {:induction false} WordsSkipTrailing(s: string)
    ensures WordsOf(TrimEnd(s)) == WordsOf(s)
  {
    if s != [] && IsSpace(s[|s| - 1]) {
      var n := |s| - 1;
      WordsSkipTrailing(s[..n]);
      assert s == s[..n] + [s[n]];
      WordsBreak([], s[..n], [s[n]]);
      assert WordsFrom([], [s[n]]) == WordsFrom([], []) == [];
    }
  }

  lemma WordsOfTrim(s: string)
    ensures WordsOf(Trim(s)) == WordsOf(s)
  {
    WordsSkipLeading(s);
    WordsSkipTrailing(TrimStart(s));
  }

  /** Words are neither empty nor broken by spaces. */
  lemma {:induction false} WordsAreWords(current: string, s: string)
    requires SpaceFree(current)
    ensures forall i :: 0 <= i < |WordsFrom(current, s)| ==> WordsFrom(current, s)[i] != [] && SpaceFree(WordsFrom(current, s)[i])
    decreases |s|
  {
    if s != [] { WordsAreWords(if IsSpace(s[0]) then [] else current + [s[0]], s[1..]); }
  }

  lemma {:induction false} JoinedWordsTrimmed(words: seq<string>)
    requires forall i :: 0 <= i < |words| ==> words[i] != [] && SpaceFree(words[i])
    ensures Trimmed(Join(" ", words)) && (words != [] ==> Join(" ", words) != [])
    decreases |words|
  {
    if words != [] {
      var w := words[0];
      assert w[0] in w && w[|w| - 1] in w;
      if |words| > 1 {
        JoinedWordsTrimmed(words[1..]);
        var rest := Join(" ", words[1..]);
        var all := Join(" ", words);
        assert all == w + " " + rest;
        assert all[0] == w[0] && all[|all| - 1] == rest[|rest| - 1];
      }
    }
  }

  /** Collapsing leaves the words with single spaces, and perhaps one at the end. */
  lemma {:induction false} CollapseIsWords(current: string, s: string) returns (tail: string)
    requires current != [] || s == [] || !IsSpace(s[0])
    ensures tail == "" || tail == " "
    ensures current + Collapse(s) == Join(" ", WordsFrom(current, s)) + tail
    ensures WordsFrom(current, s) == [] ==> tail == ""
    decreases |s|
  {
    if s == [] {
      tail := "";
      assert current + [] == current;
      assert Join(" ", Closed(current)) + "" == current;
    } else if IsSpace(s[0]) {
      TrimStartFacts(s[1..]);
      var rest := TrimStart(s[1..]);
      if rest == [] {
        tail := " ";
        CollapseAtEnd(current, s);
      } else {
        tail := CollapseIsWords([], rest);
        CollapseAtSpace(current, s, tail);
      }
    } else {
      tail := CollapseIsWords(current + [s[0]], s[1..]);
      RegroupChar(current, s[0], Collapse(s[1..]));
    }
  }

  lemma CollapseAtEnd(current: string, s: string)
    requires current != [] && s != [] && IsSpace(s[0]) && TrimStart(s[1..]) == []
    ensures current + Collapse(s) == Join(" ", WordsFrom(current, s)) + " "
    ensures WordsFrom(current, s) != []
  {
    WordsSkipLeading(s[1..]);
    assert WordsFrom(current, s) == [current];
    assert Collapse(s) == " ";
  }

  lemma {:induction false} RegroupChar(a: string, c: char, b: string)
    ensures a + ([c] + b) == a + [c] + b
  {
  }

  lemma CollapseAtSpace(current: string, s: string, tail: string)
    requires current != [] && s != [] && IsSpace(s[0]) && TrimStart(s[1..]) != []
    requires [] + Collapse(TrimStart(s[1..])) == Join(" ", WordsOf(TrimStart(s[1..]))) + tail
    ensures current + Collapse(s) == Join(" ", WordsFrom(current, s)) + tail
    ensures WordsFrom(current, s) != []
  {
    TrimStartFacts(s[1..]);
    var rest := TrimStart(s[1..]);
    var words, c := WordsOf(rest), Collapse(rest);
    assert WordsFrom(current, s) == [current] + words by { WordsSkipLeading(s[1..]); }
    assert words != [] by { FirstCharStartsWord(rest); }
    JoinCons(current, words);
    assert c == Join(" ", words) + tail by { assert [] + c == c; }
    Regroup(current, Join(" ", words), tail);
  }

  lemma {:induction false} JoinCons(w: string, words: seq<string>)
    requires words != []
    ensures Join(" ", [w] + words) == w + " " + Join(" ", words)
  {
    assert ([w] + words)[1..] == words;
  }

  lemma {:induction false} Regroup(a: string, b: string, c: string)
    ensures a + (" " + (b + c)) == a + " " + b + c
  {
  }

  lemma FirstCharStartsWord(s: string)
    requires s != [] && !IsSpace(s[0])
    ensures WordsOf(s) != []
  {
    OpenWordCounts([s[0]], s[1..]);
    assert [] + [s[0]] == [s[0]];
  }

  lemma {:induction false} OpenWordCounts(current: string, s: string)
    requires current != []
    ensures WordsFrom(current, s) != []
    decreases |s|
  {
    if s != [] && !IsSpace(s[0]) { OpenWordCounts(current + [s[0]], s[1..]); }
  }

  lemma TrimTail(x: string, tail: string)
    requires Trimmed(x) && (tail == "" || tail == " ") && (x == [] ==> tail == "")
    ensures Trim(x + tail) == x
  {
    if tail == "" {
      assert x + tail == x;
      TrimOfTrimmed(x);
    } else {
      var s := x + tail;
      assert s[0] == x[0] && s[..|s| - 1] == x;
      assert TrimEnd(s) == TrimEnd(x);
      TrimOfTrimmed(x);
      assert TrimStart(x) == x;
    }
  }

  /** Collapsed and trimmed, a text is its words with single spaces between. */
  lemma CollapsedIsWords(s: string)
    ensures Trim(Collapse(s)) == Join(" ", WordsOf(s))
  {
    WordsAreWords([], s);
    JoinedWordsTrimmed(WordsOf(s));
    if s == [] || !IsSpace(s[0]) {
      var tail := CollapseIsWords([], s);
      assert [] + Collapse(s) == Collapse(s);
      TrimTail(Join(" ", WordsOf(s)), tail);
    } else {
      TrimStartFacts(s);
      var rest := TrimStart(s);
      WordsSkipLeading(s);
      var tail := CollapseIsWords([], rest);
      assert [] + Collapse(rest) == Collapse(rest);
      assert rest == TrimStart(s[1..]);
      assert Collapse(s) == " " + Collapse(rest);
      TrimSpaceFront(' ', Collapse(rest));
      TrimTail(Join(" ", WordsOf(s)), tail);
    }
  }

}
