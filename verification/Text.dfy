/** Text helpers as JavaScript has them: whitespace, trimming, splitting,
    joining and decimal printing. */
module Text {
  import opened Sequences

  /** The characters that `trim` removes and `\s` matches. */
  predicate IsSpace(c: char) {
    || '\t' <= c <= '\r' || c == ' ' || c == '\U{a0}' || c == '\U{1680}'
    || '\U{2000}' <= c <= '\U{200a}' || c == '\U{2028}' || c == '\U{2029}'
    || c == '\U{202f}' || c == '\U{205f}' || c == '\U{3000}' || c == '\U{feff}'
  }

  /** The code points of `\s`, in decimal. */
  const SPACES: set<int> := {9, 10, 11, 12, 13, 32, 160, 5760, 8192, 8193, 8194, 8195, 8196, 8197, 8198, 8199, 8200, 8201, 8202,
                             8232, 8233, 8239, 8287, 12288, 65279}

  lemma {:induction false} SpaceIff(c: char)
    ensures IsSpace(c) <==> c as int in SPACES
  {
  }

  function TrimStart(s: string): (r: string)
    ensures |r| <= |s|
  {
    if s != [] && IsSpace(s[0]) then TrimStart(s[1..]) else s
  }

  function TrimEnd(s: string): string {
    if s != [] && IsSpace(s[|s| - 1]) then TrimEnd(s[..|s| - 1]) else s
  }

  function Trim(s: string): string {
    TrimEnd(TrimStart(s))
  }

  predicate Trimmed(s: string) {
    s == [] || (!IsSpace(s[0]) && !IsSpace(s[|s| - 1]))
  }

  lemma {:induction false} TrimStartFacts(s: string)
    ensures TrimStart(s) == [] || !IsSpace(TrimStart(s)[0])
    ensures forall c :: c in TrimStart(s) ==> c in s
  {
    if s != [] && IsSpace(s[0]) { TrimStartFacts(s[1..]); }
  }

  lemma {:induction false} TrimEndFacts(s: string)
    ensures TrimEnd(s) == [] || !IsSpace(TrimEnd(s)[|TrimEnd(s)| - 1])
    ensures TrimEnd(s) <= s
  {
    if s != [] && IsSpace(s[|s| - 1]) { TrimEndFacts(s[..|s| - 1]); }
  }

  /** Trimming leaves a trimmed text made of characters of the original. */
  lemma TrimFacts(s: string)
    ensures Trimmed(Trim(s))
    ensures forall c :: c in Trim(s) ==> c in s
  {
    TrimStartFacts(s);
    TrimEndFacts(TrimStart(s));
  }

  ghost predicate Blank(s: string) {
    forall c :: c in s ==> IsSpace(c)
  }

  lemma {:induction false} TrimStartSplits(s: string) returns (front: string)
    ensures Blank(front) && s == front + TrimStart(s)
  {
    front := "";
    if s != [] && IsSpace(s[0]) {
      var rest := TrimStartSplits(s[1..]);
      front := [s[0]] + rest;
    }
  }

  lemma {:induction false} TrimEndSplits(s: string) returns (back: string)
    ensures Blank(back) && s == TrimEnd(s) + back
  {
    back := "";
    if s != [] && IsSpace(s[|s| - 1]) {
      var rest := TrimEndSplits(s[..|s| - 1]);
      back := rest + [s[|s| - 1]];
    }
  }

  lemma {:induction false} TrimStartDrops(front: string, s: string)
    requires Blank(front)
    ensures TrimStart(front + s) == TrimStart(s)
  {
    if front == [] {
      assert front + s == s;
    } else {
      assert front[0] in front && (front + s)[1..] == front[1..] + s;
      TrimStartDrops(front[1..], s);
    }
  }

  lemma {:induction false} TrimEndDrops(s: string, back: string)
    requires Blank(back)
    ensures TrimEnd(s + back) == TrimEnd(s)
  {
    if back == [] {
      assert s + back == s;
    } else {
      var n := |back| - 1;
      assert back[n] in back && (s + back)[..|s + back| - 1] == s + back[..n];
      TrimEndDrops(s, back[..n]);
    }
  }

  /** `trim` takes away whitespace at both ends, all of it and nothing else. */
  lemma {:induction false} TrimIff(s: string, t: string)
    ensures Trim(s) == t <==> Trimmed(t) && exists front, back :: Blank(front) && Blank(back) && s == front + t + back
  {
    if Trim(s) == t {
      var front := TrimStartSplits(s);
      var back := TrimEndSplits(TrimStart(s));
      TrimFacts(s);
      assert s == front + t + back;
    }
    forall front, back | Trimmed(t) && Blank(front) && Blank(back) && s == front + t + back ensures Trim(s) == t {
      assert s == front + (t + back);
      TrimStartDrops(front, t + back);
      if t == [] {
        assert t + back == back == back + [];
        TrimStartDrops(back, []);
      } else {
        TrimEndDrops(t, back);
      }
    }
  }

  lemma {:induction false} TrimEmptyIff(s: string)
    ensures Trim(s) == "" <==> Blank(s)
  {
    TrimIff(s, "");
    if Blank(s) { assert Blank("") && s == s + "" + ""; }
    if Trim(s) == "" {
      var front, back :| Blank(front) && Blank(back) && s == front + "" + back;
    }
  }

  lemma {:induction false} TrimSpaceFront(c: char, s: string)
    requires IsSpace(c)
    ensures TrimStart([c] + s) == TrimStart(s) && Trim([c] + s) == Trim(s)
  {
    assert ([c] + s)[1..] == s;
  }

  lemma {:induction false} TrimOfTrimmed(s: string)
    requires Trimmed(s)
    ensures Trim(s) == s
  {
  }

  lemma TrimDropsSpace(s: string)
    requires Trimmed(s)
    ensures Trim(" " + s) == s
  {
    TrimSpaceFront(' ', s);
    TrimOfTrimmed(s);
  }

  /** `parts.join(separator)`. */
  function Join(separator: string, parts: seq<string>): string {
    if parts == [] then ""
    else if |parts| == 1 then parts[0]
    else parts[0] + separator + Join(separator, parts[1..])
  }

  /** `s.split(/[...]/)` for a class of single characters. */
  function Split(isSeparator: char -> bool, s: string): (parts: seq<string>)
    ensures parts != []
  {
    if s == [] then [""]
    else
      var rest := Split(isSeparator, s[1..]);
      if isSeparator(s[0]) then [""] + rest else [[s[0]] + rest[0]] + rest[1..]
  }

  lemma {:induction false} SplitAgree(p: char -> bool, q: char -> bool, s: string)
    requires forall c :: p(c) == q(c)
    ensures Split(p, s) == Split(q, s)
  {
    if s != [] { SplitAgree(p, q, s[1..]); }
  }

  lemma {:induction false} SplitFree(isSeparator: char -> bool, s: string, i: nat)
    requires i < |Split(isSeparator, s)|
    ensures forall c :: c in Split(isSeparator, s)[i] ==> !isSeparator(c)
  {
    if s != [] {
      var rest := Split(isSeparator, s[1..]);
      SplitFree(isSeparator, s[1..], if isSeparator(s[0]) && i > 0 then i - 1 else if isSeparator(s[0]) then 0 else i);
    }
  }

  /** Joining peels off the first part. */
  lemma {:induction false} JoinPeel(separator: string, parts: seq<string>)
    requires |parts| > 1
    ensures Join(separator, parts) == parts[0] + (separator + Join(separator, parts[1..]))
  {
  }

  lemma {:induction false} Associate(a: string, b: string, c: string)
    ensures a + (b + c) == a + b + c
  {
  }

  /** A separator-free start stays in the first part. */
  lemma {:induction false} SplitPrepend(isSeparator: char -> bool, w: string, s: string)
    requires forall c :: c in w ==> !isSeparator(c)
    ensures Split(isSeparator, w + s) == [w + Split(isSeparator, s)[0]] + Split(isSeparator, s)[1..]
  {
    var rest := Split(isSeparator, s);
    if w == [] {
      assert w + s == s && w + rest[0] == rest[0] && rest == [rest[0]] + rest[1..];
    } else {
      assert (w + s)[1..] == w[1..] + s;
      SplitPrepend(isSeparator, w[1..], s);
      assert [w[0]] + (w[1..] + rest[0]) == w + rest[0];
    }
  }

  /** Splitting undoes joining parts that contain no separator. */
  lemma {:induction false} SplitOfJoin(isSeparator: char -> bool, c: char, parts: seq<string>)
    requires isSeparator(c) && parts != []
    requires forall i :: 0 <= i < |parts| ==> forall d :: d in parts[i] ==> !isSeparator(d)
    ensures Split(isSeparator, Join([c], parts)) == parts
    decreases |parts|
  {
    var w := parts[0];
    if |parts| == 1 {
      SplitPrepend(isSeparator, w, "");
      assert w + "" == w;
    } else {
      SplitOfJoin(isSeparator, c, parts[1..]);
      var tail := Join([c], parts[1..]);
      assert ([c] + tail)[1..] == tail;
      assert Split(isSeparator, [c] + tail) == [""] + parts[1..];
      SplitPrepend(isSeparator, w, [c] + tail);
      JoinPeel([c], parts);
      assert w + "" == w;
    }
  }

  // ----- Decimal printing -----

  function Digit(d: nat): char
    requires d < 10
  {
    '0' + d as char
  }

  /** `String(n)` for a natural number. */
  function Decimal(n: nat): (s: string)
    ensures s != []
  {
    if n < 10 then [Digit(n)] else Decimal(n / 10) + [Digit(n % 10)]
  }

  /** The number that a decimal text stands for. */
  function ParseDecimal(s: string): Option<int> {
    if s == [] then None
    else
      var n := |s| - 1;
      if !('0' <= s[n] <= '9') then None
      else if n == 0 then Some(s[n] as int - '0' as int)
      else
        var front := ParseDecimal(s[..n]);
        if front.None? then None else Some(10 * front.value + (s[n] as int - '0' as int))
  }

  lemma {:induction false} DecimalParses(n: nat)
    ensures ParseDecimal(Decimal(n)) == Some(n)
    decreases n
  {
    if n >= 10 {
      var s := Decimal(n);
      DecimalParses(n / 10);
      assert s[..|s| - 1] == Decimal(n / 10);
    }
  }

  function DecimalInt(n: int): string {
    if n < 0 then "-" + Decimal(-n) else Decimal(n)
  }

  lemma {:induction false} DecimalInjective(m: nat, n: nat)
    requires Decimal(m) == Decimal(n)
    ensures m == n
    decreases m
  {
    var s, t := Decimal(m), Decimal(n);
    assert s[|s| - 1] == Digit(m % 10) && t[|t| - 1] == Digit(n % 10);
    if m >= 10 && n >= 10 {
      assert Decimal(m / 10) == s[..|s| - 1] && Decimal(n / 10) == t[..|t| - 1];
      DecimalInjective(m / 10, n / 10);
    }
  }
}
