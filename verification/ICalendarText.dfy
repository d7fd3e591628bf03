/** iCalendar text: value escaping, line folding and content lines, as the
    calendar feed writes them and the CalDAV import reads them. */
module ICalendarText {
  import opened Sequences
  import opened Text

  // ----- Escaping -----

  /** `s.replace(/c/g, put)` for one character. */
  function Replace(c: char, put: string, s: string): string {
    if s == [] then [] else (if s[0] == c then put else [s[0]]) + Replace(c, put, s[1..])
  }

  /** `s.replace(/\r\n|\r|\n/g, "\\n")`. */
  function EscapeNewlines(s: string): string {
    if s == [] then []
    else if s[0] == '\r' && |s| > 1 && s[1] == '\n' then "\\n" + EscapeNewlines(s[2..])
    else if s[0] == '\r' || s[0] == '\n' then "\\n" + EscapeNewlines(s[1..])
    else [s[0]] + EscapeNewlines(s[1..])
  }

  /** `escapeICalendarText`: four replacements, one after the other. */
  function Escape(s: string): string {
    Replace(',', "\\,", Replace(';', "\\;", EscapeNewlines(Replace('\\', "\\\\", s))))
  }

  predicate IsN(c: char) {
    c == 'n' || c == 'N'
  }

  /** `s.replace(/\\n/gi, "\n")`. */
  function UnescapeNewlines(s: string): string {
    if s == [] then []
    else if s[0] == '\\' && |s| > 1 && IsN(s[1]) then "\n" + UnescapeNewlines(s[2..])
    else [s[0]] + UnescapeNewlines(s[1..])
  }

  predicate IsEscapable(c: char) {
    c == '\\' || c == ';' || c == ','
  }

  /** `s.replace(/\\([\\;,])/g, "$1")`. */
  function UnescapeChars(s: string): string {
    if s == [] then []
    else if s[0] == '\\' && |s| > 1 && IsEscapable(s[1]) then [s[1]] + UnescapeChars(s[2..])
    else [s[0]] + UnescapeChars(s[1..])
  }

  /** `unescapeICalendarText`. */
  function Unescape(s: string): string {
    UnescapeChars(UnescapeNewlines(s))
  }

  /** A backslash directly followed by n or N. */
  ghost predicate HasBackslashN(s: string) {
    exists i :: 0 <= i < |s| - 1 && s[i] == '\\' && IsN(s[i + 1])
  }

  /** The texts that come back from an export unchanged. */
  ghost predicate Survives(s: string) {
    '\r' !in s && !HasBackslashN(s)
  }

  lemma {:induction false} ReplaceConcat(c: char, put: string, x: string, y: string)
    ensures Replace(c, put, x + y) == Replace(c, put, x) + Replace(c, put, y)
  {
    if x == [] {
      assert x + y == y;
    } else {
      assert (x + y)[1..] == x[1..] + y;
      ReplaceConcat(c, put, x[1..], y);
    }
  }

  /** What each character of the text becomes, CR aside. */
  function EscapeChar(c: char): string {
    if c == '\n' then "\\n" else if IsEscapable(c) then ['\\', c] else [c]
  }

  lemma EscapeHead(c: char, s: string)
    requires c != '\r'
    ensures Escape([c] + s) == EscapeChar(c) + Escape(s)
  {
    var x := if c == '\\' then "\\\\" else [c];
    var rest := Replace('\\', "\\\\", s);
    assert ([c] + s)[1..] == s;
    assert Replace('\\', "\\\\", [c] + s) == x + rest;
    var y := if c == '\n' then "\\n" else x;
    assert EscapeNewlines(x + rest) == y + EscapeNewlines(rest) by {
      assert (x + rest)[1..] == x[1..] + rest;
      if c == '\\' {
        assert x[1..] == "\\";
        assert ("\\" + rest)[1..] == rest;
        assert EscapeNewlines("\\" + rest) == "\\" + EscapeNewlines(rest);
      } else {
        assert x[1..] + rest == rest;
      }
    }
    var t := EscapeNewlines(rest);
    ReplaceConcat(';', "\\;", y, t);
    var z := Replace(';', "\\;", y);
    ReplaceConcat(',', "\\,", z, Replace(';', "\\;", t));
    EscapedUnit(c, y);
  }

  /** The last two replacements on what one character has become. */
  lemma EscapedUnit(c: char, y: string)
    requires y == if c == '\n' then "\\n" else if c == '\\' then "\\\\" else [c]
    ensures Replace(',', "\\,", Replace(';', "\\;", y)) == EscapeChar(c)
  {
    if |y| == 2 {
      assert y[1..] == [y[1]] && y[1..][1..] == [];
      assert Replace(';', "\\;", y[1..]) == [y[1]];
      assert Replace(';', "\\;", y) == y;
      assert Replace(',', "\\,", y[1..]) == [y[1]];
    } else {
      assert y[1..] == [];
      if c == ';' {
        assert Replace(';', "\\;", y) == "\\;";
        assert "\\;"[1..] == ";" && ";"[1..] == "";
        assert Replace(',', "\\,", ";") == ";";
      } else {
        assert Replace(';', "\\;", y) == y;
      }
    }
  }

  /** What one pass of newline unescaping leaves of an escaped text. */
  function Half(s: string): string {
    if s == [] then [] else (if IsEscapable(s[0]) then ['\\', s[0]] else [s[0]]) + Half(s[1..])
  }

  lemma {:induction false} NewlinesComeBack(s: string)
    requires Survives(s)
    ensures UnescapeNewlines(Escape(s)) == Half(s)
  {
    if s != [] {
      var c, t := s[0], s[1..];
      assert s == [c] + t;
      EscapeHead(c, t);
      assert Survives(t) by {
        assert forall i :: 0 <= i < |t| ==> t[i] == s[i + 1];
      }
      NewlinesComeBack(t);
      if c == '\\' { FirstNotN(s); }
      NewlineComesBack(c, Escape(t));
    }
  }

  /** Newline unescaping of one escaped character and what follows it. */
  lemma {:induction false} NewlineComesBack(c: char, rest: string)
    requires c == '\\' ==> rest == [] || !IsN(rest[0])
    ensures UnescapeNewlines(EscapeChar(c) + rest) == (if IsEscapable(c) then ['\\', c] else [c]) + UnescapeNewlines(rest)
  {
    var e := EscapeChar(c) + rest;
    if c == '\n' {
      assert e[2..] == rest;
    } else if c == '\\' {
      assert e[1..] == "\\" + rest;
      assert e[1..][1..] == rest;
      assert UnescapeNewlines(e[1..]) == "\\" + UnescapeNewlines(rest);
    } else if IsEscapable(c) {
      assert e[1..] == [c] + rest;
      assert e[1..][1..] == rest;
    } else {
      assert e[1..] == rest;
    }
  }

  /** After a backslash of a surviving text the escaped rest does not start with n. */
  lemma {:induction false} FirstNotN(s: string)
    requires Survives(s) && s != [] && s[0] == '\\'
    ensures Escape(s[1..]) == [] || !IsN(Escape(s[1..])[0])
  {
    var t := s[1..];
    if t != [] {
      assert t == [t[0]] + t[1..];
      EscapeHead(t[0], t[1..]);
      assert t[0] == s[1];
    }
  }

  lemma {:induction false} CharsComeBack(s: string)
    ensures UnescapeChars(Half(s)) == s
  {
    if s != [] {
      CharsComeBack(s[1..]);
      if IsEscapable(s[0]) { assert Half(s)[2..] == Half(s[1..]); } else { assert Half(s)[1..] == Half(s[1..]); }
    }
  }

  lemma {:induction false} EscapedHasNoNewline(s: string)
    ensures '\r' !in EscapeNewlines(s) && '\n' !in EscapeNewlines(s)
  {
    if s != [] {
      EscapedHasNoNewline(s[1..]);
      if |s| > 1 { EscapedHasNoNewline(s[2..]); }
    }
  }

  lemma {:induction false} ReplaceAddsOnly(c: char, put: string, s: string, d: char)
    requires d !in s && d !in put
    ensures d !in Replace(c, put, s)
  {
    if s != [] { ReplaceAddsOnly(c, put, s[1..], d); }
  }

  /** An escaped value fits on one line, whatever the text. */
  lemma EscapeFitsOneLine(s: string)
    ensures '\r' !in Escape(s) && '\n' !in Escape(s)
  {
    var t := EscapeNewlines(Replace('\\', "\\\\", s));
    EscapedHasNoNewline(Replace('\\', "\\\\", s));
    ReplaceAddsOnly(';', "\\;", t, '\r');
    ReplaceAddsOnly(';', "\\;", t, '\n');
    ReplaceAddsOnly(',', "\\,", Replace(';', "\\;", t), '\r');
    ReplaceAddsOnly(',', "\\,", Replace(';', "\\;", t), '\n');
  }

  lemma {:induction false} UnescapeAddsNoCR(s: string)
    requires '\r' !in s
    ensures '\r' !in UnescapeNewlines(s) && '\r' !in UnescapeChars(s)
  {
    if s != [] {
      UnescapeAddsNoCR(s[1..]);
      if |s| > 1 { UnescapeAddsNoCR(s[2..]); }
    }
  }

  lemma {:induction false} NewlinePassLeavesNone(s: string)
    ensures !HasBackslashN(UnescapeNewlines(s))
  {
    if s != [] {
      NewlinePassLeavesNone(s[1..]);
      if |s| > 1 { NewlinePassLeavesNone(s[2..]); }
      var r := UnescapeNewlines(s);
      assert forall i :: 0 <= i < |r| - 1 ==> r[i + 1] == r[1..][i];
    }
  }

  /** A letter n at the front of the second pass's result was there before. */
  lemma {:induction false} FirstOfPass(s: string)
    ensures UnescapeChars(s) != [] && IsN(UnescapeChars(s)[0]) ==> s[0] == UnescapeChars(s)[0]
  {
  }

  lemma {:induction false} CharPassAddsNone(s: string)
    requires !HasBackslashN(s)
    ensures !HasBackslashN(UnescapeChars(s))
  {
    if s != [] {
      var r := UnescapeChars(s);
      assert forall i :: 0 <= i < |r| - 1 ==> r[i + 1] == r[1..][i];
      if s[0] == '\\' && |s| > 1 && IsEscapable(s[1]) {
        assert forall i :: 0 <= i < |s| - 2 ==> s[2..][i] == s[i + 2];
        CharPassAddsNone(s[2..]);
        FirstOfPass(s[2..]);
        assert r[1..] == UnescapeChars(s[2..]);
        assert |s| > 2 && s[1] == '\\' ==> !IsN(s[1 + 1]);
      } else {
        assert forall i :: 0 <= i < |s| - 1 ==> s[1..][i] == s[i + 1];
        CharPassAddsNone(s[1..]);
        FirstOfPass(s[1..]);
        assert r[1..] == UnescapeChars(s[1..]);
        assert |s| > 1 && s[0] == '\\' ==> !IsN(s[0 + 1]);
      }
    }
  }

  /** Reading back an exported text gives the text exactly when it contains no
      CR and no backslash directly followed by n or N. */
  lemma EscapeRoundTripIff(s: string)
    ensures Unescape(Escape(s)) == s <==> Survives(s)
  {
    if Survives(s) {
      NewlinesComeBack(s);
      CharsComeBack(s);
    }
    UnescapedSurvives(s);
  }

  /** What is read back survives from then on. */
  lemma {:induction false} UnescapedSurvives(s: string)
    ensures Survives(Unescape(Escape(s)))
  {
    EscapeFitsOneLine(s);
    UnescapeAddsNoCR(Escape(s));
    UnescapeAddsNoCR(UnescapeNewlines(Escape(s)));
    NewlinePassLeavesNone(Escape(s));
    CharPassAddsNone(UnescapeNewlines(Escape(s)));
  }

  /** A Windows path does not survive: its `\n` is read as a line break. */
  lemma {:induction false} PathDoesNotSurvive()
    ensures Unescape(Escape("C:\\new")) != "C:\\new"
  {
    var s := "C:\\new";
    assert s[2] == '\\' && IsN(s[2 + 1]);
    EscapeRoundTripIff(s);
  }
}
