/** UTF-16 code units. JavaScript texts are sequences of them, so a character of
    this model stands for one. Dafny's characters have no surrogates; U+10D800 to
    U+10DFFF stand in for the surrogate halves U+D800 to U+DFFF. */
module Utf16 {
  import opened Text

  predicate IsHigh(c: char) {
    '\U{10D800}' <= c <= '\U{10DBFF}'
  }

  predicate IsLow(c: char) {
    '\U{10DC00}' <= c <= '\U{10DFFF}'
  }

  predicate IsHalf(c: char) {
    IsHigh(c) || IsLow(c)
  }

  /** The halves are 2048 characters in a row, the first 1024 of them high. */
  lemma {:induction false} HalvesAre(c: char)
    ensures IsHigh(c) <==> (c as int - 0x10D800) / 1024 == 0
    ensures IsLow(c) <==> (c as int - 0x10D800) / 1024 == 1
  {
  }

  /** What is read in place of a half that is sent alone. */
  const LOST: char := '\U{FFFD}'

  /** What arrives of a text that is sent as UTF-8. */
  function Utf8(s: string): string {
    if s == [] then []
    else if IsHigh(s[0]) && |s| > 1 && IsLow(s[1]) then s[..2] + Utf8(s[2..])
    else if IsHalf(s[0]) then [LOST] + Utf8(s[1..])
    else [s[0]] + Utf8(s[1..])
  }

  predicate PairedAt(s: string, i: nat)
    requires i < |s|
  {
    && (IsHigh(s[i]) ==> i + 1 < |s| && IsLow(s[i + 1]))
    && (IsLow(s[i]) ==> i > 0 && IsHigh(s[i - 1]))
  }

  /** Every half stands next to its other half. */
  predicate Paired(s: string) {
    forall i :: 0 <= i < |s| ==> PairedAt(s, i)
  }

  lemma {:induction false} PairedTail(s: string, n: nat)
    requires n <= |s| && Paired(s[..n])
    ensures Paired(s) <==> Paired(s[n..])
  {
    var h, t := s[..n], s[n..];
    if Paired(s) {
      forall i | 0 <= i < |t| ensures PairedAt(t, i) {
        assert PairedAt(s, n + i);
        if i == 0 && n > 0 { assert PairedAt(h, n - 1) && h[n - 1] == s[n - 1]; }
      }
    }
    if Paired(t) {
      forall i | 0 <= i < |s| ensures PairedAt(s, i) {
        if i < n { assert PairedAt(h, i); } else { assert PairedAt(t, i - n); }
      }
    }
  }

  /** A text arrives as it was sent exactly when its halves are paired. */
  lemma {:induction false} ArrivesIff(s: string)
    ensures Utf8(s) == s <==> Paired(s)
  {
    if s == [] {
    } else if IsHigh(s[0]) && |s| > 1 && IsLow(s[1]) {
      ArrivesIff(s[2..]);
      assert Paired(s[..2]) by { assert PairedAt(s[..2], 0) && PairedAt(s[..2], 1); }
      PairedTail(s, 2);
      assert s == s[..2] + s[2..];
    } else if IsHalf(s[0]) {
      assert Utf8(s)[0] == LOST != s[0];
      assert !PairedAt(s, 0);
    } else {
      ArrivesIff(s[1..]);
      assert Paired(s[..1]) by { assert PairedAt(s[..1], 0); }
      PairedTail(s, 1);
      assert s == [s[0]] + s[1..];
    }
  }

  /** What arrives of a unit that is not part of a pair. */
  function Alone(c: char): char {
    if IsHalf(c) then LOST else c
  }

  lemma {:induction false} OneArrives(s: string)
    requires s != [] && !(IsHigh(s[0]) && |s| > 1 && IsLow(s[1]))
    ensures Utf8(s) == [Alone(s[0])] + Utf8(s[1..])
  {
  }

  /** Two texts sent one after the other arrive one after the other, unless a
      pair is cut between them. */
  lemma {:induction false} Utf8Concat(x: string, y: string)
    requires y == [] || !IsLow(y[0])
    ensures Utf8(x + y) == Utf8(x) + Utf8(y)
  {
    var s := x + y;
    if x == [] {
      assert s == y;
    } else if IsHigh(x[0]) && |x| > 1 && IsLow(x[1]) {
      assert s[..2] == x[..2] && s[2..] == x[2..] + y;
      Utf8Concat(x[2..], y);
      Associate(x[..2], Utf8(x[2..]), Utf8(y));
    } else {
      assert s[0] == x[0] && s[1..] == x[1..] + y;
      assert |x| == 1 ==> s[1..] == y;
      Utf8Concat(x[1..], y);
      OneArrives(x);
      OneArrives(s);
      Associate([Alone(x[0])], Utf8(x[1..]), Utf8(y));
    }
  }

  // ----- What fades -----

  /** The same text, but for some halves that are lost. */
  ghost predicate Fades(s: string, t: string) {
    |t| == |s| && forall i :: 0 <= i < |s| ==> t[i] == s[i] || (IsHalf(s[i]) && t[i] == LOST)
  }

  lemma {:induction false} Utf8Fades(s: string)
    ensures Fades(s, Utf8(s))
  {
    if s == [] {
    } else if IsHigh(s[0]) && |s| > 1 && IsLow(s[1]) {
      Utf8Fades(s[2..]);
    } else {
      Utf8Fades(s[1..]);
    }
  }

  lemma {:induction false} FadesConcat(a: string, b: string, c: string, d: string)
    requires Fades(a, c) && Fades(b, d)
    ensures Fades(a + b, c + d)
  {
  }

  lemma {:induction false} FadesSlice(s: string, t: string, from: nat, to: nat)
    requires Fades(s, t) && from <= to <= |s|
    ensures Fades(s[from..to], t[from..to])
  {
  }

  /** Where there are no halves, nothing fades. */
  lemma {:induction false} NothingFades(s: string, t: string)
    requires Fades(s, t) && forall c :: c in s ==> !IsHalf(c)
    ensures t == s
  {
    forall i | 0 <= i < |s| ensures t[i] == s[i] { assert s[i] in s; }
  }

  /** How many halves a text has. */
  function Halves(s: string): nat {
    if s == [] then 0 else (if IsHalf(s[0]) then 1 else 0) + Halves(s[1..])
  }

  lemma {:induction false} HalvesConcat(s: string, t: string)
    ensures Halves(s + t) == Halves(s) + Halves(t)
  {
    if s == [] {
      assert s + t == t;
    } else {
      assert (s + t)[1..] == s[1..] + t;
      HalvesConcat(s[1..], t);
    }
  }

  /** A text that has faded has fewer halves. */
  lemma {:induction false} FadesCount(s: string, t: string)
    requires Fades(s, t)
    ensures Halves(t) <= Halves(s) && (Halves(t) == Halves(s) ==> t == s)
  {
    if s != [] {
      assert Fades(s[1..], t[1..]);
      FadesCount(s[1..], t[1..]);
      assert s == [s[0]] + s[1..] && t == [t[0]] + t[1..];
    }
  }
}
