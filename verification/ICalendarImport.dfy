/** What a payload must be for the calendar import to take it, what it is read as,
    and why any other payload is refused. */
module ICalendarImport {
  import opened Sequences
  import opened Text
  import opened ICalendarText
  import opened ICalendarLines
  import opened ICalendarAttendees
  import opened ICalendarEvents

  // ----- Content lines -----

  /** The line has its first colon at `colon` and its first semicolon before that,
      if any, at `end`; its name is what stands before both, in upper case. */
  ghost predicate Splits(line: string, f: Field, end: int, colon: int) {
    && 0 <= end <= colon < |line| && line[colon] == ':' && ':' !in line[..colon]
    && ';' !in line[..end] && (end < colon ==> line[end] == ';')
    && f.name == Upper(line[..end]) && f.value == line[colon + 1..]
  }

  lemma {:induction false} NameEnds(head: string) returns (end: nat)
    ensures end <= |head| && ';' !in head[..end] && (end < |head| ==> head[end] == ';')
    ensures Split(IsSemicolon, head)[0] == head[..end]
  {
    end := 0;
    if head != [] && head[0] != ';' {
      var k := NameEnds(head[1..]);
      end := k + 1;
      assert head[..end] == [head[0]] + head[1..][..k];
    }
  }

  lemma {:induction false} NameEndsThere(head: string, end: nat)
    requires end <= |head| && ';' !in head[..end] && (end < |head| ==> head[end] == ';')
    ensures Split(IsSemicolon, head)[0] == head[..end]
  {
    var k := NameEnds(head);
    if k < end { assert false; }
    if end < k { assert false; }
  }

  lemma {:induction false} ColonThere(line: string, colon: nat)
    requires colon < |line| && line[colon] == ':' && ':' !in line[..colon]
    ensures Colon(line) == colon
  {
    var k := Colon(line);
    if k < colon { assert false; }
  }

  /** A line is read as a field if and only if it splits into it, and as none if
      and only if it has no colon. */
  lemma {:induction false} FieldIff(line: string, f: Field)
    ensures FieldOf(line) == Some(f) <==> exists end, colon :: Splits(line, f, end, colon)
    ensures FieldOf(line).None? <==> ':' !in line
  {
    var colon := Colon(line);
    if colon < |line| {
      var end := NameEnds(line[..colon]);
      assert line[..colon][..end] == line[..end];
      assert ':' !in line[..colon];
      assert FieldOf(line) == Some(Field(Upper(line[..end]), line[colon + 1..]));
      if FieldOf(line) == Some(f) { assert Splits(line, f, end, colon); }
    }
    forall e, c | Splits(line, f, e, c) ensures FieldOf(line) == Some(f) {
      ColonThere(line, c);
      assert line[..c][..e] == line[..e];
      NameEndsThere(line[..c], e);
    }
  }

  // ----- Lines that are not supported -----

  ghost predicate SupportedComponent(name: string) {
    Upper(name) !in ["VALARM", "VTODO", "VFREEBUSY", "VJOURNAL"]
  }

  ghost predicate SupportedName(name: string) {
    && SupportedComponent(name)
    && Upper(name) !in ["ORGANIZER", "RRULE", "RDATE", "EXDATE", "RECURRENCE-ID", "FREEBUSY", "REQUEST-STATUS", "TRIGGER"]
  }

  ghost predicate SupportedField(f: Field) {
    && SupportedName(f.name)
    && (f.name == "BEGIN" ==> SupportedComponent(f.value))
    && (f.name == "METHOD" ==> Upper(f.value) == "PUBLISH")
  }

  ghost predicate SupportedLine(line: string) {
    FieldOf(line).Some? && SupportedField(FieldOf(line).value)
  }

  lemma {:induction false} FieldSupportedIff(f: Field)
    ensures CheckField(f).None? <==> SupportedField(f)
  {
  }

  /** The first line that is not supported decides. */
  lemma {:induction false} SupportedIff(lines: seq<string>)
    ensures CheckLines(lines).None? <==> forall i :: 0 <= i < |lines| ==> SupportedLine(lines[i])
    ensures CheckLines(lines).Some? ==> exists i :: FirstUnsupported(lines, i, CheckLines(lines).value)
  {
    if lines != [] {
      SupportedIff(lines[1..]);
      if FieldOf(lines[0]).Some? { FieldSupportedIff(FieldOf(lines[0]).value); }
      if !SupportedLine(lines[0]) {
        assert FirstUnsupported(lines, 0, CheckLines(lines).value);
      } else {
        assert CheckLines(lines) == CheckLines(lines[1..]);
        if CheckLines(lines[1..]).Some? {
          var k :| FirstUnsupported(lines[1..], k, CheckLines(lines).value);
          assert forall j :: 1 <= j < k + 1 ==> lines[1..][j - 1] == lines[j];
          assert FirstUnsupported(lines, k + 1, CheckLines(lines).value);
        } else {
          forall i | 0 <= i < |lines| ensures SupportedLine(lines[i]) { if i > 0 { assert lines[i] == lines[1..][i - 1]; } }
        }
      }
    }
  }

  /** Line `i` is the first that is not supported, and `error` says what it has. */
  ghost predicate FirstUnsupported(lines: seq<string>, i: int, error: ImportError) {
    && 0 <= i < |lines| && !SupportedLine(lines[i]) && (forall j :: 0 <= j < i ==> SupportedLine(lines[j]))
    && match FieldOf(lines[i])
       case None => error == BadLine
       case Some(f) =>
         error == if SupportedName(f.name) || (f.name == "BEGIN" && !SupportedComponent(f.value)) then Unsupported(Upper(f.value)) else Unsupported(f.name)
  }

  // ----- Parameters and attendees -----

  /** The parameter has its first '=' at `equals`, after a name that is the key in
      upper case. */
  ghost predicate SetsTo(raw: string, key: string, value: string, equals: int) {
    && 0 < equals < |raw| && raw[equals] == '=' && '=' !in raw[..equals]
    && Upper(raw[..equals]) == key && value == raw[equals + 1..]
  }

  ghost predicate SetsSome(raw: string, key: string) {
    exists value, equals :: SetsTo(raw, key, value, equals)
  }

  lemma {:induction false} SetsIff(raw: string, key: string, value: string)
    ensures Sets(raw, key) && raw[EqualsSign(raw) + 1..] == value <==> exists equals :: SetsTo(raw, key, value, equals)
    ensures Sets(raw, key) <==> SetsSome(raw, key)
  {
    var i := EqualsSign(raw);
    if Sets(raw, key) { assert SetsTo(raw, key, raw[i + 1..], i); }
    forall v, e | SetsTo(raw, key, v, e) ensures Sets(raw, key) && v == raw[i + 1..] {
      if i < e { assert false; }
      if e < i { assert false; }
    }
  }

  /** Parameter `i` sets the key, and no later one does. */
  ghost predicate SetLast(raws: seq<string>, key: string, value: string, i: int) {
    && 0 <= i < |raws| && (exists equals :: SetsTo(raws[i], key, value, equals))
    && forall j :: i < j < |raws| ==> !SetsSome(raws[j], key)
  }

  /** The last parameter that sets a key counts. */
  lemma {:induction false} ParamIff(raws: seq<string>, key: string, value: string)
    ensures Param(raws, key) == Some(value) <==> exists i :: SetLast(raws, key, value, i)
    ensures Param(raws, key).None? <==> forall i :: 0 <= i < |raws| ==> !SetsSome(raws[i], key)
    decreases |raws|
  {
    if raws != [] {
      var n := |raws| - 1;
      var front := raws[..n];
      ParamIff(front, key, value);
      SetsIff(raws[n], key, value);
      if SetsSome(raws[n], key) {
        if Param(raws, key) == Some(value) { assert SetLast(raws, key, value, n); }
        forall i | SetLast(raws, key, value, i) ensures i == n {}
      } else {
        forall i ensures SetLast(raws, key, value, i) <==> SetLast(front, key, value, i) { SetLastSnoc(raws, key, value, i); }
        assert forall i :: 0 <= i < n ==> front[i] == raws[i];
      }
    }
  }

  lemma {:induction false} SetLastSnoc(raws: seq<string>, key: string, value: string, i: int)
    requires raws != [] && !SetsSome(raws[|raws| - 1], key)
    ensures SetLast(raws, key, value, i) <==> SetLast(raws[..|raws| - 1], key, value, i)
  {
    var front := raws[..|raws| - 1];
    assert forall j :: 0 <= j < |front| ==> front[j] == raws[j];
    if i == |front| && SetLast(raws, key, value, i) {
      assert false;
    }
  }

  /** What stands after `mailto:`, trimmed, is the address; role and response are
      one of the supported words, and the name defaults to the address. */
  ghost predicate Reads(raws: seq<string>, value: string, v: Invited) {
    && |value| >= 7 && Lower(value[..7]) == "mailto:" && v.email == Trim(Unescape(value[7..])) && '@' in v.email
    && (Upper(OrElse(Param(raws, "ROLE"), "REQ-PARTICIPANT")), v.role) in [("REQ-PARTICIPANT", Expected), ("OPT-PARTICIPANT", Optional)]
    && (Upper(OrElse(Param(raws, "PARTSTAT"), "NEEDS-ACTION")), v.response)
       in [("NEEDS-ACTION", NeedsAction), ("ACCEPTED", Accepting), ("TENTATIVE", Undecided), ("DECLINED", Declining)]
    && v.name == UnescapeParam(OrElse(Param(raws, "CN"), v.email))
  }

  lemma {:induction false} RoleIff(s: string, role: Role)
    ensures ParseRole(s) == Some(role) <==> (s, role) in [("REQ-PARTICIPANT", Expected), ("OPT-PARTICIPANT", Optional)]
    ensures ParseRole(s).None? <==> s !in ["REQ-PARTICIPANT", "OPT-PARTICIPANT"]
  {
    assert |"REQ-PARTICIPANT"| == |"OPT-PARTICIPANT"| && "REQ-PARTICIPANT"[0] != "OPT-PARTICIPANT"[0];
  }

  lemma {:induction false} ResponseIff(s: string, response: Response)
    ensures ParseResponse(s) == Some(response) <==>
            (s, response) in [("NEEDS-ACTION", NeedsAction), ("ACCEPTED", Accepting), ("TENTATIVE", Undecided), ("DECLINED", Declining)]
    ensures ParseResponse(s).None? <==> s !in ["NEEDS-ACTION", "ACCEPTED", "TENTATIVE", "DECLINED"]
  {
    assert |"NEEDS-ACTION"| == 12 && |"ACCEPTED"| == |"DECLINED"| == 8 && |"TENTATIVE"| == 9 && "ACCEPTED"[0] != "DECLINED"[0];
  }

  lemma {:induction false} PartsReadIff(raws: seq<string>, value: string, v: Invited)
    ensures ReadParts(raws, value) == Got(v) <==> Reads(raws, value, v)
  {
    RoleIff(Upper(OrElse(Param(raws, "ROLE"), "REQ-PARTICIPANT")), v.role);
    ResponseIff(Upper(OrElse(Param(raws, "PARTSTAT"), "NEEDS-ACTION")), v.response);
  }

  /** Why an attendee is refused. */
  lemma {:induction false} PartsRefused(raws: seq<string>, value: string)
    requires ReadParts(raws, value).Bad?
    ensures var mailto := |value| >= 7 && Lower(value[..7]) == "mailto:";
            match ReadParts(raws, value).error
            case NotMailto => !mailto
            case NoEmail => mailto && '@' !in Trim(Unescape(value[7..]))
            case BadRole =>
              mailto && '@' in Trim(Unescape(value[7..]))
              && Upper(OrElse(Param(raws, "ROLE"), "REQ-PARTICIPANT")) !in ["REQ-PARTICIPANT", "OPT-PARTICIPANT"]
            case BadResponse =>
              mailto && '@' in Trim(Unescape(value[7..]))
              && Upper(OrElse(Param(raws, "ROLE"), "REQ-PARTICIPANT")) in ["REQ-PARTICIPANT", "OPT-PARTICIPANT"]
              && Upper(OrElse(Param(raws, "PARTSTAT"), "NEEDS-ACTION")) !in ["NEEDS-ACTION", "ACCEPTED", "TENTATIVE", "DECLINED"]
  {
    RoleIff(Upper(OrElse(Param(raws, "ROLE"), "REQ-PARTICIPANT")), Expected);
    ResponseIff(Upper(OrElse(Param(raws, "PARTSTAT"), "NEEDS-ACTION")), NeedsAction);
  }

  /** The lines about attendees. */
  predicate IsAttendee(line: string) {
    ParsedField(line).name == "ATTENDEE"
  }

  /** All attendees are read if and only if every such line is, in their order. */
  lemma {:induction false} AttendeesReadIff(lines: seq<string>, invited: seq<Invited>)
    ensures ReadAttendees(lines) == All(invited) <==> Map(ReadAttendee, Filter(IsAttendee, lines)) == Map((v: Invited) => Got(v), invited)
  {
    if lines == [] {
      assert Map(ReadAttendee, Filter(IsAttendee, lines)) == [];
    } else if !IsAttendee(lines[0]) {
      AttendeesReadIff(lines[1..], invited);
    } else {
      if invited != [] { AttendeesReadIff(lines[1..], invited[1..]); }
      AttendeePeel(lines, invited);
    }
  }

  lemma {:induction false} AttendeePeel(lines: seq<string>, invited: seq<Invited>)
    requires lines != [] && IsAttendee(lines[0])
    requires invited != [] ==>
               (ReadAttendees(lines[1..]) == All(invited[1..])
                <==> Map(ReadAttendee, Filter(IsAttendee, lines[1..])) == Map((v: Invited) => Got(v), invited[1..]))
    ensures ReadAttendees(lines) == All(invited) <==> Map(ReadAttendee, Filter(IsAttendee, lines)) == Map((v: Invited) => Got(v), invited)
  {
    AllOfFirst(lines, invited);
    FirstReading(lines);
    PeelsAgree(ReadAttendee(lines[0]), ReadAttendees(lines[1..]), Map(ReadAttendee, Filter(IsAttendee, lines[1..])), invited);
  }

  lemma {:induction false} FirstReading(lines: seq<string>)
    requires lines != [] && IsAttendee(lines[0])
    ensures Map(ReadAttendee, Filter(IsAttendee, lines)) == [ReadAttendee(lines[0])] + Map(ReadAttendee, Filter(IsAttendee, lines[1..]))
  {
    MapCons(ReadAttendee, lines[0], Filter(IsAttendee, lines[1..]));
  }

  lemma {:induction false} PeelsAgree(first: Reading, rest: Attendance, readings: seq<Reading>, invited: seq<Invited>)
    requires invited != [] ==> (rest == All(invited[1..]) <==> readings == Map((v: Invited) => Got(v), invited[1..]))
    ensures (first.Got? && rest.All? && [first.invited] + rest.invited == invited) <==> [first] + readings == Map((v: Invited) => Got(v), invited)
  {
    if invited == [] {
      assert Map((v: Invited) => Got(v), invited) == [];
    } else {
      GotPeel(first, readings, invited);
      AllPeel(first, rest, invited);
    }
  }

  lemma {:induction false} AllOfFirst(lines: seq<string>, invited: seq<Invited>)
    requires lines != [] && IsAttendee(lines[0])
    ensures var first, rest := ReadAttendee(lines[0]), ReadAttendees(lines[1..]);
            ReadAttendees(lines) == All(invited) <==> first.Got? && rest.All? && [first.invited] + rest.invited == invited
  {
  }

  lemma {:induction false} GotPeel(first: Reading, rest: seq<Reading>, invited: seq<Invited>)
    requires invited != []
    ensures [first] + rest == Map((v: Invited) => Got(v), invited)
        <==> first == Got(invited[0]) && rest == Map((v: Invited) => Got(v), invited[1..])
  {
    var all := Map((v: Invited) => Got(v), invited);
    assert all == [Got(invited[0])] + Map((v: Invited) => Got(v), invited[1..]) && all[1..] == Map((v: Invited) => Got(v), invited[1..]);
    assert ([first] + rest)[0] == first && ([first] + rest)[1..] == rest;
  }

  lemma {:induction false} AllPeel(first: Reading, rest: Attendance, invited: seq<Invited>)
    requires invited != []
    ensures (first.Got? && rest.All? && [first.invited] + rest.invited == invited) <==> first == Got(invited[0]) && rest == All(invited[1..])
  {
    if first.Got? && rest.All? {
      var read := [first.invited] + rest.invited;
      assert read[0] == first.invited && read[1..] == rest.invited;
    }
    assert invited == [invited[0]] + invited[1..];
  }

  predicate NotBad(line: string) {
    IsAttendee(line) ==> ReadAttendee(line).Got?
  }

  /** Line `i` is the first about an attendee that cannot be read. */
  ghost predicate FirstBad(lines: seq<string>, i: int, error: AttendeeError) {
    0 <= i < |lines| && IsBad(lines[i], error) && AllMeet(NotBad, lines[..i])
  }

  ghost predicate IsBad(line: string, error: AttendeeError) {
    IsAttendee(line) && ReadAttendee(line) == Bad(error)
  }

  ghost predicate AllMeet(p: string -> bool, lines: seq<string>) {
    forall line :: line in lines ==> p(line)
  }

  lemma {:induction false} AllMeetCons(p: string -> bool, lines: seq<string>, k: nat)
    requires k < |lines| && p(lines[0]) && AllMeet(p, lines[1..][..k])
    ensures AllMeet(p, lines[..k + 1])
  {
    assert lines[..k + 1] == [lines[0]] + lines[1..][..k];
  }

  lemma {:induction false} FirstBadLater(lines: seq<string>, k: int, error: AttendeeError)
    requires lines != [] && NotBad(lines[0]) && FirstBad(lines[1..], k, error)
    ensures FirstBad(lines, k + 1, error)
  {
    AllMeetCons(NotBad, lines, k);
  }

  /** Otherwise the first such line that cannot be read decides. */
  lemma {:induction false} AttendeesRefused(lines: seq<string>) returns (i: int)
    requires ReadAttendees(lines).Refused?
    ensures FirstBad(lines, i, ReadAttendees(lines).error)
  {
    if NotBad(lines[0]) {
      RefusedLater(lines);
      var k := AttendeesRefused(lines[1..]);
      FirstBadLater(lines, k, ReadAttendees(lines).error);
      i := k + 1;
    } else {
      i := 0;
    }
  }

  lemma {:induction false} RefusedLater(lines: seq<string>)
    requires lines != [] && NotBad(lines[0])
    requires ReadAttendees(lines).Refused?
    ensures ReadAttendees(lines[1..]) == ReadAttendees(lines)
  {
  }

  // ----- Values and dates -----

  /** Field `i` is the first under the name. */
  ghost predicate IsFirst(fields: seq<Field>, name: string, value: string, i: int) {
    0 <= i < |fields| && fields[i] == Field(name, value) && forall j :: 0 <= j < i ==> fields[j].name != name
  }

  lemma {:induction false} LookupIff(fields: seq<Field>, name: string, value: string)
    ensures Lookup(fields, name) == Some(value) <==> exists i :: IsFirst(fields, name, value, i)
    ensures Lookup(fields, name).None? <==> forall i :: 0 <= i < |fields| ==> fields[i].name != name
  {
    if fields != [] {
      var rest := fields[1..];
      LookupIff(rest, name, value);
      assert forall j :: 1 <= j < |fields| ==> fields[j] == rest[j - 1];
      if fields[0].name == name {
        if fields[0].value == value { assert IsFirst(fields, name, value, 0); }
      } else {
        forall i | IsFirst(rest, name, value, i) ensures IsFirst(fields, name, value, i + 1) {}
        forall i | IsFirst(fields, name, value, i) ensures IsFirst(rest, name, value, i - 1) {}
      }
    }
  }

  /** A date is read if and only if it is a UTC time without punctuation that the
      clock knows; it is read as the ISO text of that time. */
  lemma {:induction false} UtcIff(clock: Clock, s: string, iso: string)
    ensures ParseUtc(clock, s) == Some(iso) <==>
            && IsoText(iso) && iso[19..] == ".000Z" && clock(iso).Some?
            && s == iso[..4] + iso[5..7] + iso[8..10] + "T" + iso[11..13] + iso[14..16] + iso[17..19] + "Z"
  {
    if UtcForm(s) { UtcIso(s); }
    if IsoText(iso) && iso[19..] == ".000Z" { IsoUtc(iso); }
  }

  lemma {:induction false} DigitsPart(s: string, from: nat, to: nat)
    requires Digits(s) && from <= to <= |s|
    ensures Digits(s[from..to])
  {
  }

  lemma {:induction false} UtcIso(s: string)
    requires UtcForm(s)
    ensures var iso := IsoOf(s);
            && IsoText(iso) && iso[19..] == ".000Z"
            && s == iso[..4] + iso[5..7] + iso[8..10] + "T" + iso[11..13] + iso[14..16] + iso[17..19] + "Z"
  {
    var iso := IsoOf(s);
    DigitsPart(s[..8], 0, 4);
    DigitsPart(s[..8], 4, 6);
    DigitsPart(s[..8], 6, 8);
    DigitsPart(s[9..15], 0, 2);
    DigitsPart(s[9..15], 2, 4);
    DigitsPart(s[9..15], 4, 6);
    assert s[..8][0..4] == s[..4];
    assert s[..8][4..6] == s[4..6];
    assert s[..8][6..8] == s[6..8];
    assert s[9..15][0..2] == s[9..11];
    assert s[9..15][2..4] == s[11..13];
    assert s[9..15][4..6] == s[13..15];
    assert iso[..4] == s[..4] && iso[5..7] == s[4..6] && iso[8..10] == s[6..8];
    assert iso[11..13] == s[9..11] && iso[14..16] == s[11..13] && iso[17..19] == s[13..15];
    assert iso[19..] == ".000Z" && iso[20..23] == "000";
  }

  lemma {:induction false} IsoUtc(iso: string)
    requires IsoText(iso) && iso[19..] == ".000Z"
    ensures var s := iso[..4] + iso[5..7] + iso[8..10] + "T" + iso[11..13] + iso[14..16] + iso[17..19] + "Z";
            UtcForm(s) && IsoOf(s) == iso
  {
    var s := iso[..4] + iso[5..7] + iso[8..10] + "T" + iso[11..13] + iso[14..16] + iso[17..19] + "Z";
    assert s[..8] == iso[..4] + iso[5..7] + iso[8..10] && s[9..15] == iso[11..13] + iso[14..16] + iso[17..19];
    assert s[..4] == iso[..4] && s[4..6] == iso[5..7] && s[6..8] == iso[8..10];
    assert s[9..11] == iso[11..13] && s[11..13] == iso[14..16] && s[13..15] == iso[17..19];
    var front := iso[..4] + "-" + iso[5..7] + "-" + iso[8..10] + "T" + iso[11..13] + ":" + iso[14..16] + ":" + iso[17..19];
    assert front == iso[..19];
    assert iso == iso[..19] + iso[19..];
    assert IsoOf(s) == front + ".000Z";
  }

  // ----- The event -----

  ghost predicate Frames(line: string, name: string) {
    FieldOf(line).Some? && FieldOf(line).value.name == name && Upper(FieldOf(line).value.value) == "VEVENT"
  }

  /** Line `b` is the only one that opens an event. */
  ghost predicate OpensAt(lines: seq<string>, b: int) {
    0 <= b < |lines| && forall i :: 0 <= i < |lines| ==> (Frames(lines[i], "BEGIN") <==> i == b)
  }

  /** Line `e` is the first after `b` that closes it. */
  ghost predicate ClosesAt(lines: seq<string>, b: int, e: int) {
    0 <= b < e < |lines| && Frames(lines[e], "END") && forall i :: b < i < e ==> !Frames(lines[i], "END")
  }

  lemma {:induction false} FramesIff(line: string)
    ensures IsBegin(line) <==> Frames(line, "BEGIN")
    ensures IsEnd(line) <==> Frames(line, "END")
  {
  }

  lemma {:induction false} AfterAt(p: string -> bool, lines: seq<string>) returns (b: nat)
    requires After(p, lines).Some?
    ensures b < |lines| && p(lines[b]) && (forall i :: 0 <= i < b ==> !p(lines[i])) && After(p, lines).value == lines[b + 1..]
  {
    b := 0;
    if !p(lines[0]) {
      var k := AfterAt(p, lines[1..]);
      assert forall i :: 1 <= i < k + 1 ==> lines[1..][i - 1] == lines[i];
      b := k + 1;
    }
  }

  lemma {:induction false} AfterNoneIff(p: string -> bool, lines: seq<string>)
    ensures After(p, lines).None? <==> forall i :: 0 <= i < |lines| ==> !p(lines[i])
  {
    if lines != [] {
      AfterNoneIff(p, lines[1..]);
      assert forall i :: 1 <= i < |lines| ==> lines[1..][i - 1] == lines[i];
    }
  }

  /** The import finds the one line that opens an event, if there is exactly one. */
  lemma {:induction false} OpensIff(lines: seq<string>, rest: seq<string>)
    ensures After(IsBegin, lines) == Some(rest) && After(IsBegin, rest).None? <==> exists b :: OpensAt(lines, b) && rest == lines[b + 1..]
  {
    forall line ensures IsBegin(line) <==> Frames(line, "BEGIN") { FramesIff(line); }
    AfterNoneIff(IsBegin, lines);
    AfterNoneIff(IsBegin, rest);
    if After(IsBegin, lines).Some? {
      var b := AfterAt(IsBegin, lines);
      assert forall i :: b < i < |lines| ==> lines[b + 1..][i - b - 1] == lines[i];
      if After(IsBegin, lines) == Some(rest) && After(IsBegin, rest).None? { assert OpensAt(lines, b); }
    }
    forall b | OpensAt(lines, b) && rest == lines[b + 1..] ensures After(IsBegin, lines) == Some(rest) && After(IsBegin, rest).None? {
      assert IsBegin(lines[b]);
      assert forall i :: 0 <= i < |rest| ==> rest[i] == lines[b + 1 + i];
    }
  }

  lemma {:induction false} UntilAt(p: string -> bool, lines: seq<string>, body: seq<string>)
    ensures Until(p, lines) == Some(body) <==> |body| < |lines| && body == lines[..|body|] && p(lines[|body|]) && forall i :: 0 <= i < |body| ==> !p(lines[i])
  {
    if lines != [] && !p(lines[0]) {
      assert forall i :: 1 <= i < |lines| ==> lines[1..][i - 1] == lines[i];
      if body != [] {
        UntilAt(p, lines[1..], body[1..]);
        assert body == [body[0]] + body[1..];
        if |body| <= |lines| { assert lines[..|body|] == [lines[0]] + lines[1..][..|body| - 1]; }
      }
    }
  }

  /** The event's own lines are those between the lines that open and close it. */
  lemma {:induction false} BodyIff(lines: seq<string>, b: nat, body: seq<string>)
    requires b < |lines|
    ensures Until(IsEnd, lines[b + 1..]) == Some(body) <==> ClosesAt(lines, b, b + 1 + |body|) && body == lines[b + 1..b + 1 + |body|]
  {
    var rest, e := lines[b + 1..], b + 1 + |body|;
    forall line ensures IsEnd(line) <==> Frames(line, "END") { FramesIff(line); }
    UntilAt(IsEnd, rest, body);
    assert forall i :: 0 <= i < |rest| ==> rest[i] == lines[b + 1 + i];
    if e <= |lines| { assert rest[..|body|] == lines[b + 1..e]; }
    if ClosesAt(lines, b, e) {
      forall i | 0 <= i < |body| ensures !IsEnd(rest[i]) { assert rest[i] == lines[b + 1 + i]; }
    }
    if Until(IsEnd, rest) == Some(body) {
      forall i | b < i < e ensures !Frames(lines[i], "END") { assert lines[i] == rest[i - b - 1]; }
    }
  }

  ghost predicate TextOf(fields: seq<Field>, name: string, text: string) {
    var raw := Lookup(fields, name);
    raw.Some? && raw.value != "" && text == Unescape(raw.value)
  }

  ghost predicate NoteOf(fields: seq<Field>, name: string, note: Option<string>) {
    match Lookup(fields, name)
    case None => note == None
    case Some(raw) => note == Some(Unescape(raw))
  }

  ghost predicate DateOf(clock: Clock, fields: seq<Field>, name: string, iso: string) {
    Lookup(fields, name).Some? && ParseUtc(clock, Lookup(fields, name).value) == Some(iso)
  }

  const STATUSES: seq<(string, Status)> := [("CONFIRMED", Confirmed), ("TENTATIVE", Tentative), ("CANCELLED", Cancelled)]

  ghost predicate StatusOf(fields: seq<Field>, status: Status) {
    match Lookup(fields, "STATUS")
    case None => status == Confirmed
    case Some(raw) => (Upper(raw), status) in STATUSES
  }

  ghost predicate SequenceOf(number: string -> Option<int>, fields: seq<Field>, sequence: int) {
    match Lookup(fields, "SEQUENCE")
    case None => sequence == 0
    case Some(raw) => number(raw) == Some(sequence) && sequence >= 0
  }

  /** The event's own lines carry the content: texts that are not empty, dates in
      their order, a known status, a natural sequence number and every attendee. */
  ghost predicate Carries(clock: Clock, number: string -> Option<int>, body: seq<string>, c: Content) {
    var fields := Map(ParsedField, body);
    && ReadAttendees(body) == All(c.attendees)
    && TextOf(fields, "UID", c.uid) && TextOf(fields, "SUMMARY", c.title)
    && DateOf(clock, fields, "DTSTART", c.startsAt) && DateOf(clock, fields, "DTEND", c.endsAt)
    && clock(c.startsAt).Some? && clock(c.endsAt).Some? && clock(c.startsAt).value < clock(c.endsAt).value
    && NoteOf(fields, "DESCRIPTION", c.description) && NoteOf(fields, "LOCATION", c.location)
    && StatusOf(fields, c.status) && SequenceOf(number, fields, c.sequence)
  }

  lemma {:induction false} StatusIff(s: string, status: Status)
    ensures ParseStatus(s) == Some(status) <==> (s, status) in STATUSES
    ensures ParseStatus(s).None? <==> s !in ["CONFIRMED", "TENTATIVE", "CANCELLED"]
  {
    assert STATUSES[0] == ("CONFIRMED", Confirmed) && STATUSES[1] == ("TENTATIVE", Tentative) && STATUSES[2] == ("CANCELLED", Cancelled);
    assert |"CONFIRMED"| == |"TENTATIVE"| == |"CANCELLED"| == 9 && "CONFIRMED"[1] != "CANCELLED"[1];
  }

  lemma {:induction false} CarriesIff(clock: Clock, number: string -> Option<int>, body: seq<string>, invited: seq<Invited>, c: Content)
    requires ReadAttendees(body) == All(invited)
    ensures ImportBody(clock, number, Map(ParsedField, body), invited) == Imported(c) <==> Carries(clock, number, body, c)
  {
    var fields := Map(ParsedField, body);
    var raw := Lookup(fields, "STATUS");
    StatusIff(if raw.Some? then Upper(raw.value) else "CONFIRMED", c.status);
    assert ("CONFIRMED", Confirmed) == STATUSES[0];
  }

  /** A payload is imported as the content if and only if all its lines are
      supported, exactly one opens an event, another closes it, and the lines
      between carry the content. */
  lemma {:induction false} ImportedIff(clock: Clock, number: string -> Option<int>, payload: string, c: Content)
    ensures var lines := ReadLines(payload);
            ImportEvent(clock, number, payload) == Imported(c) <==>
            && (forall i :: 0 <= i < |lines| ==> SupportedLine(lines[i]))
            && exists b, e :: OpensAt(lines, b) && ClosesAt(lines, b, e) && Carries(clock, number, lines[b + 1..e], c)
  {
    var lines := ReadLines(payload);
    SupportedIff(lines);
    LinesImportedIff(clock, number, lines, c);
  }

  lemma {:induction false} LinesImportedIff(clock: Clock, number: string -> Option<int>, lines: seq<string>, c: Content)
    ensures ImportLines(clock, number, lines) == Imported(c) <==>
            exists b, e :: OpensAt(lines, b) && ClosesAt(lines, b, e) && Carries(clock, number, lines[b + 1..e], c)
  {
    if ImportLines(clock, number, lines) == Imported(c) { var b, e := EventImported(clock, number, lines, c); }
    forall b, e | OpensAt(lines, b) && ClosesAt(lines, b, e) && Carries(clock, number, lines[b + 1..e], c)
      ensures ImportLines(clock, number, lines) == Imported(c)
    {
      EventCarried(clock, number, lines, b, e, c);
    }
  }

  lemma {:induction false} EventImported(clock: Clock, number: string -> Option<int>, lines: seq<string>, c: Content) returns (b: nat, e: nat)
    requires ImportLines(clock, number, lines) == Imported(c)
    ensures OpensAt(lines, b) && ClosesAt(lines, b, e) && Carries(clock, number, lines[b + 1..e], c)
  {
    var rest := After(IsBegin, lines).value;
    var body := Until(IsEnd, rest).value;
    OpensIff(lines, rest);
    b :| OpensAt(lines, b) && rest == lines[b + 1..];
    e := b + 1 + |body|;
    BodyIff(lines, b, body);
    CarriesIff(clock, number, body, ReadAttendees(body).invited, c);
  }

  lemma {:induction false} EventCarried(clock: Clock, number: string -> Option<int>, lines: seq<string>, b: nat, e: nat, c: Content)
    requires OpensAt(lines, b) && ClosesAt(lines, b, e) && Carries(clock, number, lines[b + 1..e], c)
    ensures ImportLines(clock, number, lines) == Imported(c)
  {
    var body := lines[b + 1..e];
    OpensThere(lines, b);
    ClosesThere(lines, b, e);
    CarriesIff(clock, number, body, c.attendees, c);
    BodyImports(clock, number, lines, lines[b + 1..], body, c.attendees);
  }

  lemma {:induction false} OpensThere(lines: seq<string>, b: nat)
    requires OpensAt(lines, b)
    ensures After(IsBegin, lines) == Some(lines[b + 1..]) && After(IsBegin, lines[b + 1..]).None?
  {
    OpensIff(lines, lines[b + 1..]);
  }

  lemma {:induction false} ClosesThere(lines: seq<string>, b: nat, e: nat)
    requires ClosesAt(lines, b, e)
    ensures Until(IsEnd, lines[b + 1..]) == Some(lines[b + 1..e])
  {
    BodyIff(lines, b, lines[b + 1..e]);
  }

  lemma {:induction false} BodyImports(
    clock: Clock, number: string -> Option<int>, lines: seq<string>, rest: seq<string>, body: seq<string>, invited: seq<Invited>)
    requires After(IsBegin, lines) == Some(rest) && After(IsBegin, rest).None? && Until(IsEnd, rest) == Some(body)
    requires ReadAttendees(body) == All(invited)
    ensures ImportLines(clock, number, lines) == ImportBody(clock, number, Map(ParsedField, body), invited)
  {
  }

  // ----- Why a payload is refused -----

  ghost predicate HasValue(fields: seq<Field>, name: string) {
    Lookup(fields, name).Some? && Lookup(fields, name).value != ""
  }

  ghost predicate Complete(fields: seq<Field>) {
    HasValue(fields, "UID") && HasValue(fields, "SUMMARY") && HasValue(fields, "DTSTART") && HasValue(fields, "DTEND")
  }

  ghost predicate KnownStatus(fields: seq<Field>) {
    Lookup(fields, "STATUS").Some? ==> Upper(Lookup(fields, "STATUS").value) in ["CONFIRMED", "TENTATIVE", "CANCELLED"]
  }

  ghost predicate NaturalSequence(number: string -> Option<int>, fields: seq<Field>) {
    match Lookup(fields, "SEQUENCE")
    case None => true
    case Some(raw) => number(raw).Some? && number(raw).value >= 0
  }

  ghost predicate DatesRead(clock: Clock, fields: seq<Field>) {
    && HasValue(fields, "DTSTART") && HasValue(fields, "DTEND")
    && ParseUtc(clock, Lookup(fields, "DTSTART").value).Some? && ParseUtc(clock, Lookup(fields, "DTEND").value).Some?
  }

  ghost predicate DatesCross(clock: Clock, fields: seq<Field>) {
    && DatesRead(clock, fields)
    && var start, end := ParseUtc(clock, Lookup(fields, "DTSTART").value).value, ParseUtc(clock, Lookup(fields, "DTEND").value).value;
       clock(start).Some? && clock(end).Some? && clock(start).value >= clock(end).value
  }

  /** What is wrong with the event's own lines, when their attendees are read. */
  ghost predicate BodyFault(clock: Clock, number: string -> Option<int>, fields: seq<Field>, error: ImportError) {
    match error
    case Incomplete => !Complete(fields)
    case BadStatus => Complete(fields) && !KnownStatus(fields)
    case BadSequence => Complete(fields) && KnownStatus(fields) && !NaturalSequence(number, fields)
    case BadDate => Complete(fields) && KnownStatus(fields) && NaturalSequence(number, fields) && !DatesRead(clock, fields)
    case BadRange => Complete(fields) && KnownStatus(fields) && NaturalSequence(number, fields) && DatesCross(clock, fields)
    case _ => false
  }

  /** What is wrong with the lines, when all are supported. */
  ghost predicate LinesFault(clock: Clock, number: string -> Option<int>, lines: seq<string>, error: ImportError) {
    match error
    case NotOneEvent => forall b :: !OpensAt(lines, b)
    case NoEnd => exists b :: OpensAt(lines, b) && forall e :: !ClosesAt(lines, b, e)
    case BadAttendee(attendee) =>
      exists b, e :: OpensAt(lines, b) && ClosesAt(lines, b, e) && ReadAttendees(lines[b + 1..e]) == Refused(attendee)
    case _ =>
      exists b, e :: OpensAt(lines, b) && ClosesAt(lines, b, e) && ReadAttendees(lines[b + 1..e]).All?
                  && BodyFault(clock, number, Map(ParsedField, lines[b + 1..e]), error)
  }

  lemma {:induction false} BodyRefused(clock: Clock, number: string -> Option<int>, fields: seq<Field>, invited: seq<Invited>)
    requires ImportBody(clock, number, fields, invited).Failed?
    ensures BodyFault(clock, number, fields, ImportBody(clock, number, fields, invited).error)
  {
    var raw := Lookup(fields, "STATUS");
    StatusIff(if raw.Some? then Upper(raw.value) else "CONFIRMED", Confirmed);
  }

  /** A payload is refused for its first fault: a line that is not supported, then
      the lines that open and close the event, its attendees, what it must have,
      its status, its sequence number and its dates. The faults exclude each other. */
  lemma {:induction false} ImportRefused(clock: Clock, number: string -> Option<int>, payload: string)
    requires ImportEvent(clock, number, payload).Failed?
    ensures var lines, error := ReadLines(payload), ImportEvent(clock, number, payload).error;
            if forall i :: 0 <= i < |lines| ==> SupportedLine(lines[i]) then LinesFault(clock, number, lines, error)
            else exists i :: FirstUnsupported(lines, i, error)
  {
    var lines := ReadLines(payload);
    SupportedIff(lines);
    if CheckLines(lines).None? { LinesRefused(clock, number, lines); }
  }

  lemma {:induction false} LinesRefused(clock: Clock, number: string -> Option<int>, lines: seq<string>)
    requires ImportLines(clock, number, lines).Failed?
    ensures LinesFault(clock, number, lines, ImportLines(clock, number, lines).error)
  {
    var after := After(IsBegin, lines);
    if after.None? || After(IsBegin, after.value).Some? {
      forall b ensures !OpensAt(lines, b) { if OpensAt(lines, b) { OpensIff(lines, lines[b + 1..]); } }
    } else {
      OpensIff(lines, after.value);
      var b :| OpensAt(lines, b) && after.value == lines[b + 1..];
      if Until(IsEnd, after.value).None? {
        NeverCloses(lines, b);
      } else {
        EventRefused(clock, number, lines, b, Until(IsEnd, after.value).value);
      }
    }
  }

  lemma {:induction false} NeverCloses(lines: seq<string>, b: nat)
    requires b < |lines| && Until(IsEnd, lines[b + 1..]).None?
    ensures forall e :: !ClosesAt(lines, b, e)
  {
    forall e ensures !ClosesAt(lines, b, e) {
      if ClosesAt(lines, b, e) { BodyIff(lines, b, lines[b + 1..e]); }
    }
  }

  lemma {:induction false} EventRefused(clock: Clock, number: string -> Option<int>, lines: seq<string>, b: nat, body: seq<string>)
    requires OpensAt(lines, b) && Until(IsEnd, lines[b + 1..]) == Some(body)
    ensures match ReadAttendees(body)
            case Refused(error) => LinesFault(clock, number, lines, BadAttendee(error))
            case All(invited) =>
              var result := ImportBody(clock, number, Map(ParsedField, body), invited);
              result.Failed? ==> LinesFault(clock, number, lines, result.error)
  {
    BodyIff(lines, b, body);
    var e := b + 1 + |body|;
    assert OpensAt(lines, b) && ClosesAt(lines, b, e) && lines[b + 1..e] == body;
    match ReadAttendees(body)
    case Refused(_) =>
    case All(invited) =>
      if ImportBody(clock, number, Map(ParsedField, body), invited).Failed? { BodyRefused(clock, number, Map(ParsedField, body), invited); }
  }
}
