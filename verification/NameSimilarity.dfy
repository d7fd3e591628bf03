/** The edit distance behind fuzzy conflict matches: the table that computes it,
    and what the number means. */
module NameSimilarity {
  import opened Sequences

  function Min(a: nat, b: nat): nat {
    if a <= b then a else b
  }

  function Max(a: nat, b: nat): nat {
    if a >= b then a else b
  }

  function Cost(c: char, d: char): nat {
    if c == d then 0 else 1
  }

  function Init(s: string): string
    requires s != []
  {
    s[..|s| - 1]
  }

  function Last(s: string): char
    requires s != []
  {
    s[|s| - 1]
  }

  /** The distance, by the last characters of both texts. */
  function Distance(a: string, b: string): nat
    decreases |a| + |b|
  {
    if a == [] then |b|
    else if b == [] then |a|
    else Min(Min(Distance(Init(a), b) + 1, Distance(a, Init(b)) + 1), Distance(Init(a), Init(b)) + Cost(Last(a), Last(b)))
  }

  lemma {:induction false} PrefixInit(s: string, i: nat)
    requires 0 < i <= |s|
    ensures Init(s[..i]) == s[..i - 1] && Last(s[..i]) == s[i - 1]
  {
  }

  /** `levenshtein`: a table of rows filled from the top left. */
  method Levenshtein(a: string, b: string) returns (distance: nat)
    ensures distance == Distance(a, b)
  {
    var rows := new nat[|a| + 1, |b| + 1];
    for i := 0 to |a| + 1
      invariant forall k :: 0 <= k < i ==> rows[k, 0] == k
    {
      rows[i, 0] := i;
    }
    for j := 1 to |b| + 1
      invariant forall k :: 0 <= k <= |a| ==> rows[k, 0] == k
      invariant forall k :: 0 <= k < j ==> rows[0, k] == k
    {
      rows[0, j] := j;
    }
    assert a[..0] == [];
    for i := 1 to |a| + 1
      invariant forall k :: 0 <= k <= |a| ==> rows[k, 0] == k
      invariant forall l :: 0 <= l <= |b| ==> rows[i - 1, l] == Distance(a[..i - 1], b[..l])
    {
      FillRow(rows, a, b, i);
    }
    assert a[..|a|] == a && b[..|b|] == b;
    distance := rows[|a|, |b|];
  }

  /** The inner loop: row i from the row above it. */
  method FillRow(rows: array2<nat>, a: string, b: string, i: nat)
    requires rows.Length0 == |a| + 1 && rows.Length1 == |b| + 1 && 0 < i <= |a|
    requires rows[i, 0] == i
    requires forall l :: 0 <= l <= |b| ==> rows[i - 1, l] == Distance(a[..i - 1], b[..l])
    modifies rows
    ensures forall l :: 0 <= l <= |b| ==> rows[i, l] == Distance(a[..i], b[..l])
    ensures forall k, l :: 0 <= k <= |a| && k != i && 0 <= l <= |b| ==> rows[k, l] == old(rows[k, l])
    ensures rows[i, 0] == i
  {
    assert b[..0] == [];
    for j := 1 to |b| + 1
      invariant forall l :: 0 <= l < j ==> rows[i, l] == Distance(a[..i], b[..l])
      invariant forall k, l :: 0 <= k <= |a| && k != i && 0 <= l <= |b| ==> rows[k, l] == old(rows[k, l])
      invariant rows[i, 0] == i
    {
      PrefixInit(a, i);
      PrefixInit(b, j);
      rows[i, j] := Min(Min(rows[i - 1, j] + 1, rows[i, j - 1] + 1), rows[i - 1, j - 1] + Cost(a[i - 1], b[j - 1]));
    }
  }

  // ----- Edits -----

  /** The single-character edits. */
  datatype Edit = Insert(at: nat, c: char) | Delete(at: nat) | Substitute(at: nat, c: char)

  predicate Fits(e: Edit, s: string) {
    match e
    case Insert(at, _) => at <= |s|
    case Delete(at) => at < |s|
    case Substitute(at, _) => at < |s|
  }

  function Apply(e: Edit, s: string): string
    requires Fits(e, s)
  {
    match e
    case Insert(at, c) => s[..at] + [c] + s[at..]
    case Delete(at) => s[..at] + [] + s[at + 1..]
    case Substitute(at, c) => s[..at] + [c] + s[at + 1..]
  }

  /** Apply the edits one after the other, if they all fit. */
  function RunScript(script: seq<Edit>, s: string): Option<string>
    decreases |script|
  {
    if script == [] then Some(s)
    else if !Fits(script[0], s) then None
    else RunScript(script[1..], Apply(script[0], s))
  }

  lemma {:induction false} DistanceSteps(a: string, b: string)
    requires a != [] && b != []
    ensures Distance(a, b) <= Distance(Init(a), b) + 1
    ensures Distance(a, b) <= Distance(a, Init(b)) + 1
    ensures Distance(a, b) <= Distance(Init(a), Init(b)) + 1
  {
  }

  lemma {:induction false} InitOf(x: string, c: char)
    ensures Init(x + [c]) == x && Last(x + [c]) == c
  {
  }

  lemma {:induction false} OneMoreAtEnd(x: string, c: char, b: string)
    ensures Distance(x + [c], b) <= Distance(x, b) + 1
    ensures Distance(x, b) <= Distance(x + [c], b) + 1
    decreases |b|
  {
    InitOf(x, c);
    if b != [] {
      OneMoreAtEnd(x, c, Init(b));
      if x != [] { DistanceSteps(x, b); }
    }
  }

  lemma {:induction false} OtherAtEnd(x: string, c: char, d: char, b: string)
    ensures Distance(x + [c], b) <= Distance(x + [d], b) + 1
    decreases |b|
  {
    InitOf(x, c);
    InitOf(x, d);
    if b != [] {
      OtherAtEnd(x, c, d, Init(b));
      DistanceSteps(x + [c], b);
    }
  }

  /** Two texts that differ in one place have nearly the same distance to any other. */
  lemma {:induction false} OnePlace(x: string, u: string, v: string, y: string, b: string)
    requires |u| <= 1 && |v| <= 1
    ensures Distance(x + u + y, b) <= Distance(x + v + y, b) + 1
    decreases |y| + |b|
  {
    var s, t := x + u + y, x + v + y;
    if y == [] {
      OnePlaceAtEnd(x, u, v, b);
      assert s == x + u && t == x + v;
    } else {
      var y' := Init(y);
      assert Init(s) == x + u + y' && Init(t) == x + v + y' && Last(s) == Last(t);
      if b != [] {
        OnePlace(x, u, v, y', b);
        OnePlace(x, u, v, y, Init(b));
        OnePlace(x, u, v, y', Init(b));
      }
    }
  }

  lemma {:induction false} OnePlaceAtEnd(x: string, u: string, v: string, b: string)
    requires |u| <= 1 && |v| <= 1
    ensures Distance(x + u, b) <= Distance(x + v, b) + 1
  {
    if u == [] && v == [] {
      assert x + u == x + v;
    } else if u == [] {
      assert x + u == x && v == [v[0]];
      OneMoreAtEnd(x, v[0], b);
    } else if v == [] {
      assert x + v == x && u == [u[0]];
      OneMoreAtEnd(x, u[0], b);
    } else {
      assert u == [u[0]] && v == [v[0]];
      OtherAtEnd(x, u[0], v[0], b);
    }
  }

  lemma EditMovesByOne(e: Edit, s: string, b: string)
    requires Fits(e, s)
    ensures Distance(s, b) <= Distance(Apply(e, s), b) + 1
  {
    match e
    case Insert(at, c) =>
      assert s == s[..at] + [] + s[at..];
      OnePlace(s[..at], [], [c], s[at..], b);
    case Delete(at) =>
      assert s == s[..at] + [s[at]] + s[at + 1..];
      OnePlace(s[..at], [s[at]], [], s[at + 1..], b);
    case Substitute(at, c) =>
      assert s == s[..at] + [s[at]] + s[at + 1..];
      OnePlace(s[..at], [s[at]], [c], s[at + 1..], b);
  }

  /** A script that leads from a to b bounds how far apart they are from any c. */
  lemma {:induction false} ScriptBound(script: seq<Edit>, a: string, b: string, c: string)
    requires RunScript(script, a) == Some(b)
    ensures Distance(a, c) <= |script| + Distance(b, c)
    decreases |script|
  {
    if script != [] {
      ScriptBound(script[1..], Apply(script[0], a), b, c);
      EditMovesByOne(script[0], a, c);
    }
  }

  lemma {:induction false} DistanceToSelf(a: string)
    ensures Distance(a, a) == 0
  {
    if a != [] { DistanceToSelf(Init(a)); }
  }

  lemma {:induction false} RunConcat(p: seq<Edit>, q: seq<Edit>, s: string)
    requires RunScript(p, s).Some?
    ensures RunScript(p + q, s) == RunScript(q, RunScript(p, s).value)
    decreases |p|
  {
    if p == [] {
      assert p + q == q;
    } else {
      assert (p + q)[1..] == p[1..] + q;
      RunConcat(p[1..], q, Apply(p[0], s));
    }
  }

  /** A script for s does the same to s with a character after it. */
  lemma {:induction false} RunWithSuffix(script: seq<Edit>, s: string, c: char)
    requires RunScript(script, s).Some?
    ensures RunScript(script, s + [c]) == Some(RunScript(script, s).value + [c])
    decreases |script|
  {
    if script != [] {
      ApplyWithSuffix(script[0], s, c);
      RunWithSuffix(script[1..], Apply(script[0], s), c);
    }
  }

  lemma {:induction false} ApplyWithSuffix(e: Edit, s: string, c: char)
    requires Fits(e, s)
    ensures Fits(e, s + [c]) && Apply(e, s + [c]) == Apply(e, s) + [c]
  {
    var t, at := s + [c], e.at;
    assert t[..at] == s[..at] && t[at..] == s[at..] + [c];
    if !e.Insert? { assert t[at + 1..] == s[at + 1..] + [c]; }
  }

  /** A script of as many edits as the distance says. */
  lemma {:induction false} OptimalScript(a: string, b: string) returns (script: seq<Edit>)
    ensures |script| == Distance(a, b) && RunScript(script, a) == Some(b)
    decreases |a| + |b|
  {
    if a == [] && b == [] {
      script := [];
    } else if a != [] && (b == [] || Distance(a, b) == Distance(Init(a), b) + 1) {
      script := OptimalScript(Init(a), b);
      script := DeleteLast(a, b, script);
    } else if b != [] && (a == [] || Distance(a, b) == Distance(a, Init(b)) + 1) {
      script := OptimalScript(a, Init(b));
      script := InsertLast(a, b, script);
    } else {
      script := OptimalScript(Init(a), Init(b));
      script := ReplaceLast(a, b, script);
    }
  }

  lemma {:induction false} DeleteLast(a: string, b: string, script: seq<Edit>) returns (longer: seq<Edit>)
    requires a != [] && RunScript(script, Init(a)) == Some(b)
    ensures |longer| == |script| + 1 && RunScript(longer, a) == Some(b)
  {
    var first := Delete(|a| - 1);
    longer := [first] + script;
    assert Apply(first, a) == Init(a);
    RunCons(first, script, a);
  }

  lemma {:induction false} InsertLast(a: string, b: string, script: seq<Edit>) returns (longer: seq<Edit>)
    requires b != [] && RunScript(script, a) == Some(Init(b))
    ensures |longer| == |script| + 1 && RunScript(longer, a) == Some(b)
  {
    var last := Insert(|b| - 1, Last(b));
    longer := script + [last];
    RunConcat(script, [last], a);
    assert Apply(last, Init(b)) == b;
    assert [last][1..] == [];
  }

  lemma {:induction false} ReplaceLast(a: string, b: string, script: seq<Edit>) returns (longer: seq<Edit>)
    requires a != [] && b != [] && RunScript(script, Init(a)) == Some(Init(b))
    ensures |longer| == |script| + Cost(Last(a), Last(b)) && RunScript(longer, a) == Some(b)
  {
    ScriptBeforeLast(a, b, script);
    if Last(a) == Last(b) {
      longer := script;
      assert a == Init(a) + [Last(b)];
    } else {
      SubstituteLast(a, Last(b));
      longer := [Substitute(|a| - 1, Last(b))] + script;
      RunCons(Substitute(|a| - 1, Last(b)), script, a);
    }
  }

  lemma {:induction false} ScriptBeforeLast(a: string, b: string, script: seq<Edit>)
    requires a != [] && b != [] && RunScript(script, Init(a)) == Some(Init(b))
    ensures RunScript(script, Init(a) + [Last(b)]) == Some(b)
  {
    RunWithSuffix(script, Init(a), Last(b));
    assert b == Init(b) + [Last(b)];
  }

  lemma {:induction false} SubstituteLast(a: string, c: char)
    requires a != []
    ensures Apply(Substitute(|a| - 1, c), a) == Init(a) + [c]
  {
  }

  lemma {:induction false} RunCons(first: Edit, script: seq<Edit>, s: string)
    requires Fits(first, s)
    ensures RunScript([first] + script, s) == RunScript(script, Apply(first, s))
  {
    assert ([first] + script)[1..] == script;
  }

  /** The distance is the least number of single-character edits. */
  lemma DistanceIsLeast(a: string, b: string)
    ensures exists script :: |script| == Distance(a, b) && RunScript(script, a) == Some(b)
    ensures forall script :: RunScript(script, a) == Some(b) ==> Distance(a, b) <= |script|
  {
    var best := OptimalScript(a, b);
    forall script | RunScript(script, a) == Some(b) ensures Distance(a, b) <= |script| {
      ScriptBound(script, a, b, b);
      DistanceToSelf(b);
    }
  }

  // ----- A metric -----

  lemma {:induction false} DistanceSymmetric(a: string, b: string)
    ensures Distance(a, b) == Distance(b, a)
    decreases |a| + |b|
  {
    if a != [] && b != [] {
      DistanceSymmetric(Init(a), b);
      DistanceSymmetric(a, Init(b));
      DistanceSymmetric(Init(a), Init(b));
    }
  }

  lemma {:induction false} DistanceZeroIff(a: string, b: string)
    ensures Distance(a, b) == 0 <==> a == b
  {
    DistanceToSelf(a);
    var script := OptimalScript(a, b);
  }

  lemma {:induction false} TriangleInequality(a: string, b: string, c: string)
    ensures Distance(a, c) <= Distance(a, b) + Distance(b, c)
  {
    var script := OptimalScript(a, b);
    ScriptBound(script, a, b, c);
  }

  lemma {:induction false} DistanceBounded(a: string, b: string)
    ensures Distance(a, b) <= Max(|a|, |b|)
    decreases |a| + |b|
  {
    if a != [] && b != [] { DistanceBounded(Init(a), Init(b)); }
  }

  /** `similarity`: one for two empty names, otherwise one minus the distance per
      character of the longer name. */
  function Similarity(a: string, b: string): real {
    var longest := Max(|a|, |b|);
    if longest == 0 then 1.0 else 1.0 - Distance(a, b) as real / longest as real
  }

  /** A similarity lies between 0 and 1, does not depend on the order, and is 1
      for equal names only; the match threshold allows 14 edits in a hundred
      characters. */
  lemma {:induction false} SimilarityProperties(a: string, b: string)
    ensures 0.0 <= Similarity(a, b) <= 1.0
    ensures Similarity(a, b) == Similarity(b, a)
    ensures Similarity(a, b) == 1.0 <==> a == b
    ensures Similarity(a, b) >= 0.86 <==> 100 * Distance(a, b) <= 14 * Max(|a|, |b|)
  {
    DistanceBounded(a, b);
    DistanceSymmetric(a, b);
    DistanceZeroIff(a, b);
    var longest := Max(|a|, |b|);
    if longest > 0 { RatioProperties(Distance(a, b), longest); }
  }

  /** Fifty times the longer length times an error. */
  function Scaled(longest: nat, error: real): real {
    50.0 * longest as real * error
  }

  /** A similarity and a threshold that are together off by less than one in fifty
      times the longer length, and compare as equal where they are equal, decide
      the match as the exact ones do. */
  lemma {:induction false} FloatingSimilarityDecides(a: string, b: string, s: real, threshold: real)
    requires |a| > 0 || |b| > 0
    requires -1.0 < Scaled(Max(|a|, |b|), (s - Similarity(a, b)) - (threshold - 0.86)) < 1.0
    requires Similarity(a, b) == 0.86 ==> s >= threshold
    ensures s >= threshold <==> 100 * Distance(a, b) <= 14 * Max(|a|, |b|)
  {
    var d, n := Distance(a, b), Max(|a|, |b|);
    var error := (s - Similarity(a, b)) - (threshold - 0.86);
    ScaledDifference(d, n, Similarity(a, b), s - threshold, error);
    ScaledSign(n, s - threshold);
    if 7 * n == 50 * d { TieIs(d, n, Similarity(a, b)); }
  }

  lemma {:induction false} ScaledDifference(d: nat, n: nat, similarity: real, difference: real, error: real)
    requires n > 0 && similarity == 1.0 - d as real / n as real && difference == similarity - 0.86 + error
    ensures Scaled(n, difference) == (7 * n - 50 * d) as real + Scaled(n, error)
  {
    var y, q := n as real, d as real / n as real;
    assert q * y == d as real;
    Expanded(y, q, error);
  }

  lemma {:induction false} ScaledSign(n: nat, difference: real)
    requires n > 0
    ensures difference >= 0.0 <==> Scaled(n, difference) >= 0.0
  {
    var scale := 50.0 * n as real;
    if difference > 0.0 { MultiplyLess(0.0, difference, scale); }
    if difference < 0.0 { MultiplyLess(difference, 0.0, scale); }
  }

  lemma {:induction false} TieIs(d: nat, n: nat, similarity: real)
    requires n > 0 && 7 * n == 50 * d && similarity == 1.0 - d as real / n as real
    ensures similarity == 0.86
  {
    QuotientCompares(d as real, n as real, 0.14);
  }

  lemma {:induction false} Expanded(y: real, q: real, error: real)
    ensures 50.0 * y * ((1.0 - q) - 0.86 + error) == 7.0 * y - 50.0 * (q * y) + 50.0 * y * error
  {
  }

  lemma RatioProperties(d: nat, n: nat)
    requires d <= n && n > 0
    ensures 0.0 <= d as real / n as real <= 1.0
    ensures d as real / n as real == 0.0 <==> d == 0
    ensures 1.0 - d as real / n as real >= 0.86 <==> 100 * d <= 14 * n
  {
    var x, y := d as real, n as real;
    QuotientCompares(x, y, 0.0);
    QuotientCompares(x, y, 1.0);
    QuotientCompares(x, y, 0.14);
  }

  lemma {:induction false} QuotientCompares(x: real, y: real, p: real)
    requires y > 0.0
    ensures x / y < p <==> x < p * y
    ensures x / y > p <==> x > p * y
  {
    var q := x / y;
    assert q * y == x;
    if q < p { MultiplyLess(q, p, y); }
    if p < q { MultiplyLess(p, q, y); }
  }

  lemma {:induction false} MultiplyLess(p: real, q: real, y: real)
    requires p < q && y > 0.0
    ensures p * y < q * y
  {
    assert (q - p) * y > 0.0;
  }
}
