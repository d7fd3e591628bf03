/** The attendee lines of an event: a name in a parameter, an address in the
    value, and what the import reads back of both. */
module ICalendarAttendees {
  import opened Sequences
  import opened Text
  import opened Utf16
  import opened ICalendarText
  import opened ICalendarLines
  import opened ICalendarTransport

  datatype Role = Expected | Optional

  datatype Response = NeedsAction | Accepting | Undecided | Declining

  datatype Attendee = Attendee(name: string, email: string, role: Role, response: Response, deletedAt: Option<string>)

  // ----- Writing -----

  /** `s.replace(/\r\n|\r|\n/g, " ")`. */
  function BreaksToSpaces(s: string): string {
    if s == [] then []
    else if s[0] == '\r' && |s| > 1 && s[1] == '\n' then " " + BreaksToSpaces(s[2..])
    else (if s[0] == '\r' || s[0] == '\n' then " " else [s[0]]) + BreaksToSpaces(s[1..])
  }

  /** `escapeICalendarParam`. */
  function EscapeParam(s: string): string {
    BreaksToSpaces(Replace('"', "\\\"", Replace('\\', "\\\\", s)))
  }

  function RoleName(role: Role): string {
    if role == Optional then "OPT-PARTICIPANT" else "REQ-PARTICIPANT"
  }

  function ResponseName(response: Response): string {
    match response
    case NeedsAction => "NEEDS-ACTION"
    case Accepting => "ACCEPTED"
    case Undecided => "TENTATIVE"
    case Declining => "DECLINED"
  }

  function NameParam(name: string): string {
    "CN=\"" + EscapeParam(name) + "\""
  }

  function Params(a: Attendee): seq<string> {
    (if a.name != "" then [NameParam(a.name)] else []) + ["ROLE=" + RoleName(a.role), "PARTSTAT=" + ResponseName(a.response)]
  }

  function AttendeeHead(a: Attendee): string {
    "ATTENDEE;" + Join(";", Params(a))
  }

  /** `buildAttendeeLine`. */
  function AttendeeLine(a: Attendee): string {
    AttendeeHead(a) + ":" + ("mailto:" + Escape(a.email))
  }

  // ----- Reading -----

  datatype Invited = Invited(name: string, email: string, role: Role, response: Response)

  datatype AttendeeError = NotMailto | NoEmail | BadRole | BadResponse

  datatype Reading = Got(invited: Invited) | Bad(error: AttendeeError)

  /** `s.replace(/ab/g, put)` for two characters. */
  function ReplacePair(a: char, b: char, put: char, s: string): string {
    if s == [] then []
    else if |s| > 1 && s[0] == a && s[1] == b then [put] + ReplacePair(a, b, put, s[2..])
    else [s[0]] + ReplacePair(a, b, put, s[1..])
  }

  /** `s.replace(/^"|"$/g, "")`. */
  function StripQuotes(s: string): string {
    var t := if s != [] && s[0] == '"' then s[1..] else s;
    if t != [] && t[|t| - 1] == '"' then t[..|t| - 1] else t
  }

  /** `unescapeICalendarParam`. */
  function UnescapeParam(s: string): string {
    ReplacePair('\\', '\\', '\\', ReplacePair('\\', '"', '"', StripQuotes(s)))
  }

  /** `s.indexOf("=")`, or the length if there is none. */
  function EqualsSign(s: string): (i: nat)
    ensures i <= |s| && (i < |s| ==> s[i] == '=')
    ensures forall j :: 0 <= j < i ==> s[j] != '='
  {
    if s == [] || s[0] == '=' then 0 else 1 + EqualsSign(s[1..])
  }

  predicate Sets(raw: string, key: string) {
    var i := EqualsSign(raw);
    0 < i < |raw| && Upper(raw[..i]) == key
  }

  /** The value of a parameter; the last one of a name wins. */
  function Param(raws: seq<string>, key: string): Option<string> {
    if raws == [] then None
    else
      var raw := raws[|raws| - 1];
      if Sets(raw, key) then Some(raw[EqualsSign(raw) + 1..]) else Param(raws[..|raws| - 1], key)
  }

  function OrElse(value: Option<string>, default: string): string {
    if value.Some? then value.value else default
  }

  function Lower(s: string): string {
    Map((c: char) => if 'A' <= c <= 'Z' then c + 32 as char else c, s)
  }

  /** The letters A to Z become a to z, everything else stays. */
  lemma {:induction false} LowerAt(s: string, i: nat)
    requires i < |s|
    ensures |Lower(s)| == |s| && Lower(s)[i] as int == if 65 <= s[i] as int <= 90 then s[i] as int + 32 else s[i] as int
  {
  }

  function ParseRole(s: string): Option<Role> {
    if s == "REQ-PARTICIPANT" then Some(Expected) else if s == "OPT-PARTICIPANT" then Some(Optional) else None
  }

  function ParseResponse(s: string): Option<Response> {
    if s == "NEEDS-ACTION" then Some(NeedsAction) else if s == "ACCEPTED" then Some(Accepting)
    else if s == "TENTATIVE" then Some(Undecided) else if s == "DECLINED" then Some(Declining) else None
  }

  /** The raw parameters of a content line: the parts after the first ';'. */
  function RawParams(line: string): seq<string> {
    Split(IsSemicolon, line[..Colon(line)])[1..]
  }

  function ValueOf(line: string): string {
    if Colon(line) < |line| then line[Colon(line) + 1..] else ""
  }

  /** `parseAttendeeLine`, on a line that has a colon. */
  function ReadAttendee(line: string): Reading {
    ReadParts(RawParams(line), ValueOf(line))
  }

  function ReadParts(raws: seq<string>, value: string): Reading {
    if |value| < 7 || Lower(value[..7]) != "mailto:" then Bad(NotMailto)
    else
      var email := Trim(Unescape(value[7..]));
      if email == "" || '@' !in email then Bad(NoEmail)
      else
        var role := ParseRole(Upper(OrElse(Param(raws, "ROLE"), "REQ-PARTICIPANT")));
        var response := ParseResponse(Upper(OrElse(Param(raws, "PARTSTAT"), "NEEDS-ACTION")));
        if role.None? then Bad(BadRole)
        else if response.None? then Bad(BadResponse)
        else Got(Invited(UnescapeParam(OrElse(Param(raws, "CN"), email)), email, role.value, response.value))
  }

  // ----- Parameter texts -----

  predicate NoBreak(s: string) {
    '\r' !in s && '\n' !in s
  }

  lemma {:induction false} BreaksToSpacesNone(s: string)
    ensures NoBreak(BreaksToSpaces(s))
  {
    if s != [] {
      BreaksToSpacesNone(s[1..]);
      if |s| > 1 { BreaksToSpacesNone(s[2..]); }
    }
  }

  lemma {:induction false} NothingToSpace(s: string)
    requires NoBreak(s)
    ensures BreaksToSpaces(s) == s
  {
    if s != [] {
      assert s[0] in s && forall c :: c in s[1..] ==> c in s;
      NothingToSpace(s[1..]);
    }
  }

  /** Each character of a name as it is written. */
  function ParamChar(c: char): string {
    if c == '\\' then "\\\\" else if c == '"' then "\\\"" else [c]
  }

  function ParamChars(s: string): string {
    if s == [] then [] else ParamChar(s[0]) + ParamChars(s[1..])
  }

  lemma {:induction false} EscapedByChar(s: string)
    requires NoBreak(s)
    ensures EscapeParam(s) == ParamChars(s)
  {
    ReplacedByChar(s);
    ParamCharsNoBreak(s);
    NothingToSpace(ParamChars(s));
  }

  lemma {:induction false} ReplacedByChar(s: string)
    ensures Replace('"', "\\\"", Replace('\\', "\\\\", s)) == ParamChars(s)
  {
    if s != [] {
      var rest := Replace('\\', "\\\\", s[1..]);
      ReplacedByChar(s[1..]);
      ReplaceConcat('"', "\\\"", if s[0] == '\\' then "\\\\" else [s[0]], rest);
      assert Replace('"', "\\\"", "\\\\") == "\\\\" by { assert "\\\\"[1..] == "\\" && "\\"[1..] == []; }
      assert [s[0]][1..] == [];
    }
  }

  lemma {:induction false} ParamCharsNoBreak(s: string)
    requires NoBreak(s)
    ensures NoBreak(ParamChars(s))
  {
    if s != [] {
      assert s[0] in s && forall c :: c in s[1..] ==> c in s;
      ParamCharsNoBreak(s[1..]);
    }
  }

  /** Quotes with their backslash undone, backslashes still doubled. */
  function Doubled(s: string): string {
    if s == [] then [] else (if s[0] == '\\' then "\\\\" else [s[0]]) + Doubled(s[1..])
  }

  lemma {:induction false} FirstPass(s: string)
    ensures ReplacePair('\\', '"', '"', ParamChars(s)) == Doubled(s)
  {
    if s != [] {
      FirstPass(s[1..]);
      NotQuoteFirst(s[1..]);
      FirstPassChar(s[0], ParamChars(s[1..]));
    }
  }

  lemma {:induction false} FirstPassChar(c: char, rest: string)
    requires rest == [] || rest[0] != '"'
    ensures ReplacePair('\\', '"', '"', ParamChar(c) + rest) == (if c == '\\' then "\\\\" else [c]) + ReplacePair('\\', '"', '"', rest)
  {
    var t := ParamChar(c) + rest;
    if c == '\\' {
      var u := "\\" + rest;
      assert t[1..] == u && u[1..] == rest;
      assert ReplacePair('\\', '"', '"', u) == "\\" + ReplacePair('\\', '"', '"', rest);
      assert ReplacePair('\\', '"', '"', t) == ['\\'] + ReplacePair('\\', '"', '"', u);
    } else if c == '"' {
      assert t[2..] == rest;
    } else {
      assert t[1..] == rest;
    }
  }

  lemma {:induction false} NotQuoteFirst(s: string)
    ensures ParamChars(s) == [] || ParamChars(s)[0] != '"'
  {
    if s != [] { assert ParamChars(s)[0] == ParamChar(s[0])[0]; }
  }

  lemma {:induction false} SecondPass(s: string)
    ensures ReplacePair('\\', '\\', '\\', Doubled(s)) == s
  {
    if s != [] {
      var t := Doubled(s);
      SecondPass(s[1..]);
      if s[0] == '\\' {
        assert t[2..] == Doubled(s[1..]);
      } else {
        assert t[1..] == Doubled(s[1..]);
      }
      assert s == [s[0]] + s[1..];
    }
  }

  lemma {:induction false} StripQuoted(x: string)
    ensures StripQuotes("\"" + x + "\"") == x
  {
    var s := "\"" + x + "\"";
    assert s[1..] == x + "\"" && (x + "\"")[..|x|] == x;
  }

  /** A written name without line breaks is read back. */
  lemma {:induction false} ParamReadsBack(name: string)
    requires NoBreak(name)
    ensures UnescapeParam("\"" + EscapeParam(name) + "\"") == name
  {
    StripQuoted(EscapeParam(name));
    EscapedByChar(name);
    FirstPass(name);
    SecondPass(name);
  }

  // ----- What unescaping keeps -----

  lemma {:induction false} PairHalves(a: char, b: char, put: char, s: string)
    requires !IsHalf(a) && !IsHalf(b) && !IsHalf(put)
    ensures Halves(ReplacePair(a, b, put, s)) == Halves(s)
  {
    if s == [] {
    } else if |s| > 1 && s[0] == a && s[1] == b {
      PairHalves(a, b, put, s[2..]);
      HalvesConcat([put], ReplacePair(a, b, put, s[2..]));
      assert s[1..][1..] == s[2..];
    } else {
      PairHalves(a, b, put, s[1..]);
      HalvesConcat([s[0]], ReplacePair(a, b, put, s[1..]));
    }
  }

  lemma {:induction false} StripHalves(s: string)
    ensures Halves(StripQuotes(s)) == Halves(s)
  {
    var t := if s != [] && s[0] == '"' then s[1..] else s;
    if t != [] && t[|t| - 1] == '"' {
      assert t == t[..|t| - 1] + "\"";
      HalvesConcat(t[..|t| - 1], "\"");
    }
  }

  lemma {:induction false} UnescapeParamHalves(s: string)
    ensures Halves(UnescapeParam(s)) == Halves(s)
  {
    StripHalves(s);
    PairHalves('\\', '"', '"', StripQuotes(s));
    PairHalves('\\', '\\', '\\', ReplacePair('\\', '"', '"', StripQuotes(s)));
  }

  lemma {:induction false} BreakHalves(s: string)
    ensures Halves(BreaksToSpaces(s)) == Halves(s)
  {
    if s == [] {
    } else if s[0] == '\r' && |s| > 1 && s[1] == '\n' {
      BreakHalves(s[2..]);
      HalvesConcat(" ", BreaksToSpaces(s[2..]));
      assert s[1..][1..] == s[2..];
    } else {
      BreakHalves(s[1..]);
      HalvesConcat(if s[0] == '\r' || s[0] == '\n' then " " else [s[0]], BreaksToSpaces(s[1..]));
    }
  }

  lemma {:induction false} EscapeParamHalves(s: string)
    ensures Halves(EscapeParam(s)) == Halves(s)
  {
    var a := Replace('\\', "\\\\", s);
    ReplaceHalves('\\', "\\\\", s);
    ReplaceHalves('"', "\\\"", a);
    BreakHalves(Replace('"', "\\\"", a));
  }

  lemma {:induction false} PairChars(a: char, b: char, put: char, s: string, c: char)
    requires put == a || put == b
    ensures c in ReplacePair(a, b, put, s) ==> c in s
    ensures c in s && c != a && c != b ==> c in ReplacePair(a, b, put, s)
  {
    if s == [] {
    } else if |s| > 1 && s[0] == a && s[1] == b {
      PairChars(a, b, put, s[2..], c);
      assert s == [a, b] + s[2..];
    } else {
      PairChars(a, b, put, s[1..], c);
      assert s == [s[0]] + s[1..];
    }
  }

  /** Nothing is read that was not written, and nothing but quotes and
      backslashes is dropped. */
  lemma {:induction false} UnescapeParamChars(s: string, c: char)
    ensures c in UnescapeParam(s) ==> c in s
    ensures c in s && c != '"' && c != '\\' ==> c in UnescapeParam(s)
  {
    var t := StripQuotes(s);
    assert c in t ==> c in s;
    assert c in s && c != '"' ==> c in t;
    PairChars('\\', '"', '"', t, c);
    PairChars('\\', '\\', '\\', ReplacePair('\\', '"', '"', t), c);
  }

  // ----- Reading what was written -----

  /** Neither the colon that ends the parameters nor the ';' between them. */
  predicate NoDelimiter(s: string) {
    ':' !in s && ';' !in s
  }

  lemma {:induction false} ColonAt(head: string, value: string)
    requires ':' !in head
    ensures Colon(head + ":" + value) == |head| && ValueOf(head + ":" + value) == value
    ensures (head + ":" + value)[..|head|] == head
  {
    var line := head + ":" + value;
    assert line[|head|] == ':' && forall j :: 0 <= j < |head| ==> line[j] == head[j] && head[j] in head;
    assert Colon(line) == |head|;
    assert line[|head| + 1..] == value && line[..|head|] == head;
  }

  lemma {:induction false} SetsKey(key: string, value: string)
    requires key != "" && '=' !in key && Upper(key) == key
    ensures Sets(key + "=" + value, key) && (key + "=" + value)[EqualsSign(key + "=" + value) + 1..] == value
    ensures forall other :: Sets(key + "=" + value, other) ==> other == key
  {
    var raw := key + "=" + value;
    assert raw[|key|] == '=' && forall j :: 0 <= j < |key| ==> raw[j] == key[j] && key[j] in key;
    assert EqualsSign(raw) == |key|;
    assert raw[..|key|] == key && raw[|key| + 1..] == value;
  }

  /** The raw parameters that a line is written with. */
  function Raws(cn: Option<string>, role: string, response: string): seq<string> {
    (if cn.Some? then ["CN=" + cn.value] else []) + ["ROLE=" + role, "PARTSTAT=" + response]
  }

  lemma {:induction false} KeyTexts()
    ensures "CN" != "" && '=' !in "CN" && Upper("CN") == "CN"
    ensures "ROLE" != "" && '=' !in "ROLE" && Upper("ROLE") == "ROLE"
    ensures "PARTSTAT" != "" && '=' !in "PARTSTAT" && Upper("PARTSTAT") == "PARTSTAT"
  {
  }

  lemma {:induction false} ParamLast(raws: seq<string>, raw: string, key: string)
    ensures Param(raws + [raw], key) == if Sets(raw, key) then Some(raw[EqualsSign(raw) + 1..]) else Param(raws, key)
  {
    assert (raws + [raw])[..|raws|] == raws;
  }

  lemma {:induction false} WrittenParams(cn: Option<string>, role: string, response: string)
    ensures Param(Raws(cn, role, response), "CN") == cn
    ensures Param(Raws(cn, role, response), "ROLE") == Some(role) && Param(Raws(cn, role, response), "PARTSTAT") == Some(response)
  {
    var first := if cn.Some? then ["CN=" + cn.value] else [];
    KeyTexts();
    SetsKey("ROLE", role);
    SetsKey("PARTSTAT", response);
    assert |"CN"| != |"ROLE"| && |"CN"| != |"PARTSTAT"| && |"ROLE"| != |"PARTSTAT"|;
    var key := "CN";
    assert Raws(cn, role, response) == first + ["ROLE=" + role] + ["PARTSTAT=" + response];
    assert "ROLE" + "=" == "ROLE=" && "PARTSTAT" + "=" == "PARTSTAT=" && "CN" + "=" == "CN=";
    forall k ensures Param(Raws(cn, role, response), k)
                  == if Sets("PARTSTAT=" + response, k) then Some(response) else if Sets("ROLE=" + role, k) then Some(role) else Param(first, k) {
      ParamLast(first + ["ROLE=" + role], "PARTSTAT=" + response, k);
      ParamLast(first, "ROLE=" + role, k);
    }
    if cn.Some? {
      SetsKey("CN", cn.value);
      ParamLast([], "CN=" + cn.value, "CN");
      assert [] + ["CN=" + cn.value] == first;
    }
  }

  /** What is read of a name parameter and an address, given the rest. */
  function ReadWritten(cn: Option<string>, role: Role, response: Response, mail: string): Reading {
    var email := Trim(Unescape(mail));
    if email == "" || '@' !in email then Bad(NoEmail)
    else Got(Invited(UnescapeParam(OrElse(cn, email)), email, role, response))
  }

  lemma {:induction false} NamesParse(role: Role, response: Response)
    ensures ParseRole(Upper(RoleName(role))) == Some(role) && ParseResponse(Upper(ResponseName(response))) == Some(response)
  {
    assert Upper(RoleName(role)) == RoleName(role);
    assert Upper(ResponseName(response)) == ResponseName(response);
    assert "REQ-PARTICIPANT"[0] != "OPT-PARTICIPANT"[0];
    assert "ACCEPTED"[0] != "DECLINED"[0] && |"NEEDS-ACTION"| == 12 && |"TENTATIVE"| == 9 && |"ACCEPTED"| == 8;
  }

  lemma {:induction false} MailtoFirst(mail: string)
    ensures var value := "mailto:" + mail; |value| >= 7 && value[7..] == mail && Lower(value[..7]) == "mailto:"
  {
    var value := "mailto:" + mail;
    assert value[..7] == "mailto:";
  }

  lemma {:induction false} WrittenPartsRead(cn: Option<string>, role: Role, response: Response, mail: string)
    ensures ReadParts(Raws(cn, RoleName(role), ResponseName(response)), "mailto:" + mail) == ReadWritten(cn, role, response, mail)
  {
    WrittenParams(cn, RoleName(role), ResponseName(response));
    NamesParse(role, response);
    MailtoFirst(mail);
  }

  /** A line with given raw parameters and value. */
  function LineOfParts(raws: seq<string>, value: string): string {
    Join(";", ["ATTENDEE"] + raws) + ":" + value
  }

  lemma {:induction false} JoinNoColon(parts: seq<string>)
    requires forall i :: 0 <= i < |parts| ==> ':' !in parts[i]
    ensures ':' !in Join(";", parts)
    decreases |parts|
  {
    if |parts| > 1 { JoinNoColon(parts[1..]); }
  }

  lemma {:induction false} PartsParse(raws: seq<string>, value: string)
    requires forall i :: 0 <= i < |raws| ==> NoDelimiter(raws[i])
    ensures RawParams(LineOfParts(raws, value)) == raws && ValueOf(LineOfParts(raws, value)) == value
  {
    var parts := ["ATTENDEE"] + raws;
    assert NoDelimiter("ATTENDEE");
    JoinNoColon(parts);
    ColonAt(Join(";", parts), value);
    SplitOfJoin(IsSemicolon, ';', parts);
  }

  /** A line whose name parameter has no delimiter is read as it is written. */
  lemma {:induction false} WrittenLineReads(cn: Option<string>, role: Role, response: Response, mail: string)
    requires cn.Some? ==> NoDelimiter(cn.value)
    ensures ReadAttendee(LineOfParts(Raws(cn, RoleName(role), ResponseName(response)), "mailto:" + mail)) == ReadWritten(cn, role, response, mail)
  {
    var raws := Raws(cn, RoleName(role), ResponseName(response));
    RawsNoDelimiter(cn, role, response);
    PartsParse(raws, "mailto:" + mail);
    WrittenPartsRead(cn, role, response, mail);
  }

  lemma {:induction false} RawsNoDelimiter(cn: Option<string>, role: Role, response: Response)
    requires cn.Some? ==> NoDelimiter(cn.value)
    ensures forall i :: 0 <= i < |Raws(cn, RoleName(role), ResponseName(response))| ==> NoDelimiter(Raws(cn, RoleName(role), ResponseName(response))[i])
  {
    assert NoDelimiter("ROLE=") && NoDelimiter("PARTSTAT=") && NoDelimiter("CN=");
    assert NoDelimiter(RoleName(role)) && NoDelimiter(ResponseName(response));
  }

  function WrittenName(a: Attendee): Option<string> {
    if a.name == "" then None else Some("\"" + EscapeParam(a.name) + "\"")
  }

  lemma {:induction false} LineIsParts(a: Attendee)
    ensures AttendeeLine(a) == LineOfParts(Raws(WrittenName(a), RoleName(a.role), ResponseName(a.response)), "mailto:" + Escape(a.email))
  {
    var raws := Raws(WrittenName(a), RoleName(a.role), ResponseName(a.response));
    ParamsAreRaws(a);
    JoinPeel(";", ["ATTENDEE"] + raws);
    assert (["ATTENDEE"] + raws)[1..] == raws;
    Associate("ATTENDEE", ";", Join(";", raws));
    assert "ATTENDEE" + ";" == "ATTENDEE;";
  }

  lemma {:induction false} ParamsAreRaws(a: Attendee)
    ensures Params(a) == Raws(WrittenName(a), RoleName(a.role), ResponseName(a.response))
  {
    if a.name != "" { assert "CN=\"" + EscapeParam(a.name) + "\"" == "CN=" + ("\"" + EscapeParam(a.name) + "\""); }
  }

  // ----- Reading what arrives -----

  predicate NoHalf(s: string) {
    forall c :: c in s ==> !IsHalf(c)
  }

  /** What arrives of a text with two fixed parts. */
  lemma {:induction false} FadesAround(p: string, x: string, q: string, m: string, t: string)
    requires Fades(p + x + q + m, t) && NoHalf(p) && NoHalf(q)
    ensures var i, j := |p| + |x|, |p| + |x| + |q|;
            Fades(x, t[|p|..i]) && Fades(m, t[j..]) && t == p + t[|p|..i] + q + t[j..]
  {
    var s := p + x + q + m;
    var i, j := |p| + |x|, |p| + |x| + |q|;
    assert s[..|p|] == p && s[|p|..i] == x && s[i..j] == q && s[j..] == m;
    assert t[0..|p|] == t[..|p|] && s[0..|p|] == s[..|p|] && s[j..|s|] == s[j..] && t[j..|t|] == t[j..];
    FadesSlice(s, t, 0, |p|);
    FadesSlice(s, t, |p|, i);
    FadesSlice(s, t, i, j);
    FadesSlice(s, t, j, |s|);
    NothingFades(p, t[..|p|]);
    NothingFades(q, t[i..j]);
    assert t == t[..|p|] + t[|p|..i] + t[i..j] + t[j..];
  }

  const FRONT := "ATTENDEE" + ";" + "CN="

  /** Everything between the name and the address. */
  function Middle(role: Role, response: Response): string {
    ";" + ("ROLE=" + RoleName(role)) + ";" + ("PARTSTAT=" + ResponseName(response)) + ":" + "mailto:"
  }

  lemma {:induction false} FixedPartsNoHalf(role: Role, response: Response)
    ensures NoHalf(Middle(role, response)) && NoHalf(FRONT) && NoHalf("\"") && NoHalf("ATTENDEE")
  {
    LiteralsNoHalf();
    ChoicesNoHalf(role, response);
    var r, p := "ROLE=" + RoleName(role), "PARTSTAT=" + ResponseName(response);
    NoHalfConcat("ROLE=", RoleName(role));
    NoHalfConcat("PARTSTAT=", ResponseName(response));
    NoHalfConcat(";", r);
    NoHalfConcat(";" + r, ";");
    NoHalfConcat(";" + r + ";", p);
    NoHalfConcat(";" + r + ";" + p, ":");
    NoHalfConcat(";" + r + ";" + p + ":", "mailto:");
    NoHalfConcat("ATTENDEE", ";");
    NoHalfConcat("ATTENDEE" + ";", "CN=");
  }

  lemma {:induction false} NoHalfConcat(a: string, b: string)
    requires NoHalf(a) && NoHalf(b)
    ensures NoHalf(a + b)
  {
  }

  lemma {:induction false} LiteralsNoHalf()
    ensures NoHalf("ROLE=") && NoHalf("PARTSTAT=") && NoHalf(":") && NoHalf(";") && NoHalf("mailto:")
    ensures NoHalf("ATTENDEE") && NoHalf("CN=") && NoHalf("\"")
  {
  }

  lemma {:induction false} ChoicesNoHalf(role: Role, response: Response)
    ensures NoHalf(RoleName(role)) && NoHalf(ResponseName(response))
  {
  }

  lemma {:induction false} JoinFour(a: string, b: string, c: string, d: string)
    ensures Join(";", [a, b, c, d]) == a + ";" + b + ";" + c + ";" + d
  {
    assert [a, b, c, d][1..] == [b, c, d] && [b, c, d][1..] == [c, d] && [c, d][1..] == [d];
    JoinPeel(";", [a, b, c, d]);
    JoinPeel(";", [b, c, d]);
    JoinPeel(";", [c, d]);
  }

  lemma {:induction false} AssociateSix(y: string, a: string, b: string, c: string, d: string, e: string, v: string)
    ensures y + (a + b + c + d + e + v) == y + a + b + c + d + e + v
  {
    Associate(y, a + b + c + d + e, v);
    Associate(y, a + b + c + d, e);
    Associate(y, a + b + c, d);
    Associate(y, a + b, c);
    Associate(y, a, b);
  }

  lemma {:induction false} NamedText(a: string, k: string, cn: string, r: string, p: string, v: string, mail: string)
    ensures Join(";", [a, k + cn, r, p]) + ":" + (v + mail) == a + ";" + k + cn + (";" + r + ";" + p + ":" + v) + mail
  {
    JoinFour(a, k + cn, r, p);
    Associate(a + ";", k, cn);
    AssociateSix(a + ";" + k + cn, ";", r, ";", p, ":", v);
    Associate(a + ";" + (k + cn) + ";" + r + ";" + p + ":", v, mail);
  }

  lemma {:induction false} NamedLine(cn: string, role: Role, response: Response, mail: string)
    ensures LineOfParts(Raws(Some(cn), RoleName(role), ResponseName(response)), "mailto:" + mail) == FRONT + cn + Middle(role, response) + mail
  {
    var r, p := "ROLE=" + RoleName(role), "PARTSTAT=" + ResponseName(response);
    var raws := Raws(Some(cn), RoleName(role), ResponseName(response));
    assert raws == ["CN=" + cn, r, p];
    assert ["ATTENDEE"] + raws == ["ATTENDEE", "CN=" + cn, r, p];
    NamedText("ATTENDEE", "CN=", cn, r, p, "mailto:", mail);
  }

  lemma {:induction false} UnnamedText(a: string, r: string, p: string, v: string, mail: string)
    ensures Join(";", [a, r, p]) + ":" + (v + mail) == a + (";" + r + ";" + p + ":" + v) + mail
  {
    assert [a, r, p][1..] == [r, p] && [r, p][1..] == [p];
    JoinPeel(";", [a, r, p]);
    JoinPeel(";", [r, p]);
    assert Join(";", [a, r, p]) == a + (";" + (r + (";" + p)));
    AssociateSix(a, ";", r, ";", p, ":", v);
    assert a + (";" + (r + (";" + p))) == a + ";" + r + ";" + p;
    Associate(a + ";" + r + ";" + p + ":", v, mail);
  }

  lemma {:induction false} UnnamedLine(role: Role, response: Response, mail: string)
    ensures LineOfParts(Raws(None, RoleName(role), ResponseName(response)), "mailto:" + mail) == "ATTENDEE" + Middle(role, response) + mail
  {
    var r, p := "ROLE=" + RoleName(role), "PARTSTAT=" + ResponseName(response);
    assert Raws(None, RoleName(role), ResponseName(response)) == [r, p];
    assert ["ATTENDEE"] + [r, p] == ["ATTENDEE", r, p];
    UnnamedText("ATTENDEE", r, p, "mailto:", mail);
  }

  /** What arrives of a quoted name between fixed parts. */
  lemma {:induction false} QuotedArrives(front: string, name: string, middle: string, m: string, line: string) returns (x: string, mail: string)
    requires Fades(front + ("\"" + name + "\"") + middle + m, line) && NoHalf(front) && NoHalf(middle) && NoHalf("\"")
    ensures Fades(name, x) && Fades(m, mail) && line == front + ("\"" + x + "\"") + middle + mail
  {
    var p, q := front + "\"", "\"" + middle;
    Regroup(front, name, middle);
    FadesAround(p, name, q, m, line);
    x, mail := line[|p|..|p| + |name|], line[|p| + |name| + |q|..];
    Regroup(front, x, middle);
  }

  lemma {:induction false} Regroup(front: string, x: string, middle: string)
    ensures front + ("\"" + x + "\"") + middle == front + "\"" + x + ("\"" + middle)
  {
    Associate(front, "\"" + x, "\"");
    Associate(front, "\"", x);
    Associate(front + "\"" + x, "\"", middle);
  }

  /** What arrives of a line with a name. */
  lemma {:induction false} NamedArrives(a: Attendee, line: string) returns (x: string, mail: string)
    requires a.name != "" && Fades(AttendeeLine(a), line)
    ensures Fades(EscapeParam(a.name), x) && Fades(Escape(a.email), mail)
    ensures line == LineOfParts(Raws(Some("\"" + x + "\""), RoleName(a.role), ResponseName(a.response)), "mailto:" + mail)
  {
    LineIsParts(a);
    NamedLine("\"" + EscapeParam(a.name) + "\"", a.role, a.response, Escape(a.email));
    FixedPartsNoHalf(a.role, a.response);
    x, mail := QuotedArrives(FRONT, EscapeParam(a.name), Middle(a.role, a.response), Escape(a.email), line);
    NamedLine("\"" + x + "\"", a.role, a.response, mail);
  }

  lemma {:induction false} PlainArrives(front: string, middle: string, m: string, line: string) returns (mail: string)
    requires Fades(front + middle + m, line) && NoHalf(front) && NoHalf(middle)
    ensures Fades(m, mail) && line == front + middle + mail
  {
    assert front + [] == front;
    FadesAround(front, [], middle, m, line);
    mail := line[|front| + |middle|..];
    assert front + line[|front|..|front|] == front;
  }

  lemma {:induction false} UnnamedArrives(a: Attendee, line: string) returns (mail: string)
    requires a.name == "" && Fades(AttendeeLine(a), line)
    ensures Fades(Escape(a.email), mail)
    ensures line == LineOfParts(Raws(None, RoleName(a.role), ResponseName(a.response)), "mailto:" + mail)
  {
    LineIsParts(a);
    UnnamedLine(a.role, a.response, Escape(a.email));
    FixedPartsNoHalf(a.role, a.response);
    mail := PlainArrives("ATTENDEE", Middle(a.role, a.response), Escape(a.email), line);
    UnnamedLine(a.role, a.response, mail);
  }

  // ----- Names and addresses that come back -----

  predicate NameReturns(name: string) {
    name != "" && NoDelimiter(name) && NoBreak(name)
  }

  ghost predicate EmailReturns(email: string) {
    Survives(email) && Trimmed(email) && '@' in email
  }

  lemma {:induction false} TrimStartHalves(s: string)
    ensures Halves(TrimStart(s)) == Halves(s)
  {
    if s != [] && IsSpace(s[0]) { TrimStartHalves(s[1..]); }
  }

  lemma {:induction false} TrimEndHalves(s: string)
    ensures Halves(TrimEnd(s)) == Halves(s)
  {
    if s != [] && IsSpace(s[|s| - 1]) {
      var n := |s| - 1;
      TrimEndHalves(s[..n]);
      HalvesConcat(s[..n], [s[n]]);
      assert s == s[..n] + [s[n]];
    }
  }

  lemma {:induction false} TrimStartSurvives(s: string)
    requires Survives(s)
    ensures Survives(TrimStart(s))
  {
    if s != [] && IsSpace(s[0]) {
      assert forall i :: 0 <= i < |s| - 1 ==> s[1..][i] == s[i + 1];
      TrimStartSurvives(s[1..]);
    }
  }

  lemma {:induction false} TrimSurvives(s: string)
    requires Survives(s)
    ensures Survives(Trim(s))
  {
    TrimStartSurvives(s);
    TrimEndFacts(TrimStart(s));
  }

  /** An address is read back, trimmed, exactly when it is trimmed and survives. */
  lemma {:induction false} EmailReadsIff(email: string)
    ensures Trim(Unescape(Escape(email))) == email <==> Survives(email) && Trimmed(email)
  {
    UnescapedSurvives(email);
    TrimSurvives(Unescape(Escape(email)));
    TrimFacts(Unescape(Escape(email)));
    EscapeRoundTripIff(email);
    if Trimmed(email) { TrimOfTrimmed(email); }
  }

  lemma {:induction false} FadedEmailIff(email: string, mail: string)
    requires Fades(Escape(email), mail)
    ensures Trim(Unescape(mail)) == email <==> mail == Escape(email) && Survives(email) && Trimmed(email)
  {
    EscapeHalves(email);
    UnescapeHalves(mail);
    TrimStartHalves(Unescape(mail));
    TrimEndHalves(TrimStart(Unescape(mail)));
    FadesCount(Escape(email), mail);
    EmailReadsIff(email);
  }

  lemma {:induction false} FadedNameIff(name: string, x: string)
    requires Fades(EscapeParam(name), x) && NoBreak(name)
    ensures UnescapeParam("\"" + x + "\"") == name <==> x == EscapeParam(name)
  {
    ParamReadsBack(name);
    EscapeParamHalves(name);
    UnescapeParamHalves("\"" + x + "\"");
    HalvesConcat("\"" + x, "\"");
    HalvesConcat("\"", x);
    FadesCount(EscapeParam(name), x);
  }

  function InvitedOf(a: Attendee): Invited {
    Invited(a.name, a.email, a.role, a.response)
  }

  /** A name with a delimiter or a line break is never read back: the parameter
      that is read has none. */
  lemma {:induction false} ParamIsPart(raws: seq<string>, key: string)
    requires Param(raws, key).Some?
    ensures exists i :: 0 <= i < |raws| && forall c :: c in Param(raws, key).value ==> c in raws[i]
  {
    var n := |raws| - 1;
    var raw := raws[n];
    if Sets(raw, key) {
      assert forall c :: c in raw[EqualsSign(raw) + 1..] ==> c in raw;
    } else {
      ParamIsPart(raws[..n], key);
      var i :| 0 <= i < n && forall c :: c in Param(raws[..n], key).value ==> c in raws[..n][i];
      assert raws[..n][i] == raws[i];
    }
  }

  lemma {:induction false} PartsNoDelimiter(line: string, i: nat)
    requires i < |RawParams(line)|
    ensures NoDelimiter(RawParams(line)[i]) && (OneLine(line) ==> NoBreak(RawParams(line)[i]))
  {
    var head := line[..Colon(line)];
    assert ':' !in head && forall c :: c in head ==> c in line;
    SplitFree(IsSemicolon, head, i + 1);
    SplitChars(head, i + 1);
  }

  lemma {:induction false} SplitChars(s: string, i: nat)
    requires i < |Split(IsSemicolon, s)|
    ensures forall c :: c in Split(IsSemicolon, s)[i] ==> c in s
  {
    if s != [] {
      var parts, rest := Split(IsSemicolon, s), Split(IsSemicolon, s[1..]);
      assert forall c :: c in s[1..] ==> c in s;
      if IsSemicolon(s[0]) {
        if i > 0 { SplitChars(s[1..], i - 1); }
      } else {
        SplitChars(s[1..], i);
        assert i == 0 ==> parts[0] == [s[0]] + rest[0];
      }
    }
  }

  lemma {:induction false} FirstSets(raws: seq<string>, key: string)
    requires raws != [] && Sets(raws[0], key)
    ensures Param(raws, key).Some?
  {
    if |raws| > 1 { FirstSets(raws[..|raws| - 1], key); }
  }

  /** A written name is found, whatever is in it. */
  lemma {:induction false} NameHead(rest: string, n: nat)
    requires n <= |rest|
    ensures (FRONT + "\"" + rest)[..|FRONT + "\""| + n] == "ATTENDEE" + (";" + ("CN=\"" + rest[..n]))
  {
  }

  lemma {:induction false} NameFound(rest: string)
    requires ':' in rest
    ensures Param(RawParams(FRONT + "\"" + rest), "CN").Some?
  {
    var front := "CN=\"";
    var line := FRONT + "\"" + rest;
    var n := Colon(rest);
    ColonLater(FRONT + "\"", rest);
    NameHead(rest, n);
    HeadSplits("ATTENDEE", front, rest[..n]);
    var raws := RawParams(line);
    assert raws[0] == front + Split(IsSemicolon, rest[..n])[0];
    NameSets(Split(IsSemicolon, rest[..n])[0]);
    FirstSets(raws, "CN");
  }

  lemma {:induction false} NameSets(text: string)
    ensures Sets("CN=\"" + text, "CN")
  {
    KeyTexts();
    assert "CN=\"" + text == "CN" + "=" + ("\"" + text);
    SetsKey("CN", "\"" + text);
  }

  lemma {:induction false} HeadSplits(a: string, front: string, rest: string)
    requires NoDelimiter(a) && NoDelimiter(front)
    ensures Split(IsSemicolon, a + (";" + (front + rest)))
         == [a] + ([front + Split(IsSemicolon, rest)[0]] + Split(IsSemicolon, rest)[1..])
  {
    var t := ";" + (front + rest);
    SplitPrepend(IsSemicolon, front, rest);
    assert t[1..] == front + rest;
    SplitPrepend(IsSemicolon, a, t);
    assert a + "" == a;
  }

  lemma {:induction false} ColonLater(front: string, rest: string)
    requires ':' !in front && ':' in rest
    ensures Colon(rest) < |rest| && Colon(front + rest) == |front| + Colon(rest)
  {
    var line, n := front + rest, Colon(rest);
    var k :| 0 <= k < |rest| && rest[k] == ':';
    assert n <= k;
    assert line[|front| + n] == ':';
    forall j | 0 <= j < |front| + n ensures line[j] != ':' {
      if j < |front| { assert line[j] == front[j] && front[j] in front; } else { assert line[j] == rest[j - |front|]; }
    }
  }

  // ----- When an attendee comes back -----

  /** What is read of a line with a name, in terms of what arrives. */
  lemma {:induction false} DirtyNameIsLost(a: Attendee, line: string)
    requires a.name != "" && Fades(AttendeeLine(a), line) && !(NoDelimiter(a.name) && NoBreak(a.name))
    ensures ReadAttendee(line) != Got(InvitedOf(a))
  {
    var x, mail := NamedArrives(a, line);
    NamedLine("\"" + x + "\"", a.role, a.response, mail);
    var rest := x + ("\"" + Middle(a.role, a.response)) + mail;
    Regroup(FRONT, x, Middle(a.role, a.response));
    assert line == FRONT + "\"" + rest by {
      Associate(FRONT + "\"", x, "\"" + Middle(a.role, a.response));
      Associate(FRONT + "\"", x + ("\"" + Middle(a.role, a.response)), mail);
    }
    assert ':' in Middle(a.role, a.response);
    NameFound(rest);
    AttendeeLineOneLine(a);
    FadedOneLine(AttendeeLine(a), line);
    ReadNameIsPart(line);
  }

  lemma {:induction false} ReadNameIsPart(line: string)
    requires OneLine(line) && Param(RawParams(line), "CN").Some?
    ensures ReadAttendee(line).Got? ==> NoDelimiter(ReadAttendee(line).invited.name) && NoBreak(ReadAttendee(line).invited.name)
  {
    var raws := RawParams(line);
    var v := Param(raws, "CN").value;
    ParamIsPart(raws, "CN");
    var i :| 0 <= i < |raws| && forall c :: c in v ==> c in raws[i];
    PartsNoDelimiter(line, i);
    UnescapedPart(v, raws[i]);
    NameIsParam(raws, ValueOf(line));
  }

  lemma {:induction false} NameIsParam(raws: seq<string>, value: string)
    requires Param(raws, "CN").Some?
    ensures ReadParts(raws, value).Got? ==> ReadParts(raws, value).invited.name == UnescapeParam(Param(raws, "CN").value)
  {
  }

  lemma {:induction false} UnescapedPart(v: string, part: string)
    requires NoDelimiter(part) && NoBreak(part) && forall c :: c in v ==> c in part
    ensures NoDelimiter(UnescapeParam(v)) && NoBreak(UnescapeParam(v))
  {
    forall c | c in UnescapeParam(v) ensures c in v { UnescapeParamChars(v, c); }
  }

  lemma {:induction false} AttendeeLineOneLine(a: Attendee)
    ensures OneLine(AttendeeLine(a))
  {
    var r, p := "ROLE=" + RoleName(a.role), "PARTSTAT=" + ResponseName(a.response);
    BreaksToSpacesNone(Replace('"', "\\\"", Replace('\\', "\\\\", a.name)));
    EscapeFitsOneLine(a.email);
    FixedPartsOneLine(a.role, a.response);
    LineIsParts(a);
    if a.name == "" {
      UnnamedLine(a.role, a.response, Escape(a.email));
    } else {
      NamedLine("\"" + EscapeParam(a.name) + "\"", a.role, a.response, Escape(a.email));
    }
  }

  lemma {:induction false} FixedPartsOneLine(role: Role, response: Response)
    ensures OneLine(Middle(role, response)) && OneLine(FRONT) && OneLine("ATTENDEE") && OneLine("\"")
  {
    FixedTextsOneLine();
    RoleOneLine(role);
    ResponseOneLine(response);
  }

  lemma {:induction false} FixedTextsOneLine()
    ensures OneLine("ROLE=") && OneLine("PARTSTAT=") && OneLine("mailto:") && OneLine("CN=")
    ensures OneLine(";") && OneLine(":") && OneLine("ATTENDEE") && OneLine("\"")
  {
  }

  lemma {:induction false} RoleOneLine(role: Role)
    ensures OneLine(RoleName(role))
  {
  }

  lemma {:induction false} ResponseOneLine(response: Response)
    ensures OneLine(ResponseName(response))
  {
  }

  lemma {:induction false} CleanNameReadsIff(a: Attendee, line: string)
    requires NameReturns(a.name) && Fades(AttendeeLine(a), line)
    ensures ReadAttendee(line) == Got(InvitedOf(a)) <==> EmailReturns(a.email) && line == AttendeeLine(a)
  {
    var x, mail := NamedArrives(a, line);
    LineIsParts(a);
    FadedNoDelimiter(a.name, x);
    WrittenLineReads(Some("\"" + x + "\""), a.role, a.response, mail);
    FadedNameIff(a.name, x);
    FadedEmailIff(a.email, mail);
    if line == AttendeeLine(a) { SameParts(a, x, mail, line); }
  }

  /** Equal lines have equal names and addresses. */
  lemma {:induction false} SameParts(a: Attendee, x: string, mail: string, line: string)
    requires a.name != "" && |x| == |EscapeParam(a.name)| && line == AttendeeLine(a)
    requires line == LineOfParts(Raws(Some("\"" + x + "\""), RoleName(a.role), ResponseName(a.response)), "mailto:" + mail)
    ensures x == EscapeParam(a.name) && mail == Escape(a.email)
  {
    LineIsParts(a);
    NamedLine("\"" + x + "\"", a.role, a.response, mail);
    NamedLine("\"" + EscapeParam(a.name) + "\"", a.role, a.response, Escape(a.email));
    SplitAlike(FRONT, x, EscapeParam(a.name), Middle(a.role, a.response), mail, Escape(a.email));
  }

  lemma {:induction false} SplitAlike(front: string, x: string, y: string, middle: string, m: string, n: string)
    requires |x| == |y| && front + ("\"" + x + "\"") + middle + m == front + ("\"" + y + "\"") + middle + n
    ensures x == y && m == n
  {
    var s, t := front + ("\"" + x + "\"") + middle + m, front + ("\"" + y + "\"") + middle + n;
    var i := |front| + 1;
    var j := i + |x| + 1 + |middle|;
    assert s[i..i + |x|] == x && t[i..i + |x|] == y && s[j..] == m && t[j..] == n;
  }

  lemma {:induction false} FadedNoDelimiter(name: string, x: string)
    requires NoDelimiter(name) && Fades(EscapeParam(name), x)
    ensures NoDelimiter("\"" + x + "\"")
  {
    EscapeParamDelimiters(name);
    forall c | c in x ensures c != ':' && c != ';' {
      var i :| 0 <= i < |x| && x[i] == c;
      assert EscapeParam(name)[i] in EscapeParam(name);
    }
  }

  lemma {:induction false} EscapeParamDelimiters(name: string)
    requires NoDelimiter(name)
    ensures NoDelimiter(EscapeParam(name))
  {
    var a := Replace('\\', "\\\\", name);
    ReplaceAddsOnly('\\', "\\\\", name, ':');
    ReplaceAddsOnly('\\', "\\\\", name, ';');
    ReplaceAddsOnly('"', "\\\"", a, ':');
    ReplaceAddsOnly('"', "\\\"", a, ';');
    BreaksAddOnlySpace(Replace('"', "\\\"", a), ':');
    BreaksAddOnlySpace(Replace('"', "\\\"", a), ';');
  }

  lemma {:induction false} BreaksAddOnlySpace(s: string, c: char)
    requires c !in s && c != ' '
    ensures c !in BreaksToSpaces(s)
  {
    if s != [] {
      BreaksAddOnlySpace(s[1..], c);
      if |s| > 1 { BreaksAddOnlySpace(s[2..], c); }
    }
  }

  lemma {:induction false} EmptyNameIsLost(a: Attendee, line: string)
    requires a.name == "" && Fades(AttendeeLine(a), line)
    ensures ReadAttendee(line) != Got(InvitedOf(a))
  {
    var mail := UnnamedArrives(a, line);
    WrittenLineReads(None, a.role, a.response, mail);
    var email := Trim(Unescape(mail));
    UnescapeParamChars(email, '@');
  }

  ghost predicate Returns(a: Attendee) {
    NameReturns(a.name) && EmailReturns(a.email) && NotCut(AttendeeLine(a))
  }

  /** An attendee whose line is folded, sent and unfolded is read back as it was
      if and only if its name is not empty and has no ':', ';' or line break, its
      address survives escaping, is trimmed and has an '@', and folding cuts no
      character of the line in two. */
  lemma {:induction false} AttendeeReturnsIff(a: Attendee)
    ensures ReadAttendee(Arrived(AttendeeLine(a))) == Got(InvitedOf(a)) <==> Returns(a)
  {
    var line := Arrived(AttendeeLine(a));
    ArrivedFades(AttendeeLine(a));
    ArrivedIff(AttendeeLine(a));
    if a.name == "" {
      EmptyNameIsLost(a, line);
    } else if NameReturns(a.name) {
      CleanNameReadsIff(a, line);
    } else {
      DirtyNameIsLost(a, line);
    }
  }

  /** Characters that are written as they are. */
  predicate PlainText(s: string) {
    NoBreak(s) && '"' !in s && '\\' !in s && NoHalf(s)
  }

  /** A name such as "Lee: Counsel" cuts the line short: what follows its colon is
      taken for the value, and the import finds no address. */
  lemma {:induction false} ColonNameRefused(a: Attendee, line: string, p: string, q: string)
    requires a.name == p + (":" + (" " + q)) && PlainText(p) && PlainText(q) && NoDelimiter(p)
    requires Fades(AttendeeLine(a), line)
    ensures ReadAttendee(line) == Bad(NotMailto)
  {
    var x, mail := NamedArrives(a, line);
    PlainNameIsKept(a.name);
    NothingFades(a.name, x);
    NamedLine("\"" + x + "\"", a.role, a.response, mail);
    ColonLine(FRONT, p, " " + q, Middle(a.role, a.response), mail);
    var front, rest := FRONT + "\"" + p, " " + q + ("\"" + Middle(a.role, a.response)) + mail;
    FrontNoColon();
    ColonAt(front, rest);
    assert rest[0] == ' ';
    NotMailtoFirst(rest);
  }

  lemma {:induction false} FrontNoColon()
    ensures ':' !in FRONT && ':' !in "\""
  {
  }

  lemma {:induction false} NotMailtoFirst(value: string)
    requires value != [] && value[0] == ' '
    ensures |value| >= 7 ==> Lower(value[..7]) != "mailto:"
  {
    if |value| >= 7 { assert Lower(value[..7])[0] == ' '; }
  }

  lemma {:induction false} PlainNameIsKept(s: string)
    requires NoBreak(s) && '"' !in s && '\\' !in s
    ensures EscapeParam(s) == s
  {
    EscapedByChar(s);
    PlainChars(s);
  }

  lemma {:induction false} PlainChars(s: string)
    requires '"' !in s && '\\' !in s
    ensures ParamChars(s) == s
  {
    if s != [] {
      assert s[0] in s && s == [s[0]] + s[1..];
      PlainChars(s[1..]);
      assert ParamChar(s[0]) == [s[0]];
    }
  }

  lemma {:induction false} ColonLine(f: string, p: string, q: string, m: string, mail: string)
    ensures f + ("\"" + (p + (":" + q)) + "\"") + m + mail == f + "\"" + p + ":" + (q + ("\"" + m) + mail)
  {
    Regroup(f, p + (":" + q), m);
    Associate(f + "\"", p, ":" + q);
    Associate(f + "\"" + p, ":", q);
    Associate(f + "\"" + p + ":", q, "\"" + m);
    Associate(f + "\"" + p + ":", q + ("\"" + m), mail);
  }
}
