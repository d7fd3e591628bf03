/** What the import makes of an event that the CalDAV server has sent. */
module ICalendarRoundTrip {
  import opened Sequences
  import opened Text
  import opened Sorting
  import opened Utf16
  import opened ICalendarText
  import opened ICalendarLines
  import opened ICalendarTransport
  import opened ICalendarAttendees
  import opened ICalendarEvents
  import opened ICalendarDocuments

  // ----- The lines that arrive -----

  lemma {:induction false} NameNoHalf(name: string)
    requires PlainName(name)
    ensures NoHalf(name)
  {
    forall c | c in name ensures !IsHalf(c) {
      var i :| 0 <= i < |name| && name[i] == c;
    }
  }

  /** A line's content as it arrives. */
  function ArrivedField(f: Field): Field {
    var line := Arrived(FieldLine(f));
    Field(f.name, if |f.name| < |line| then line[|f.name| + 1..] else "")
  }

  lemma {:induction false} ArrivedFieldLine(f: Field)
    requires PlainName(f.name)
    ensures Arrived(FieldLine(f)) == FieldLine(ArrivedField(f)) && Fades(f.value, ArrivedField(f).value)
  {
    var line := Arrived(FieldLine(f));
    ArrivedFades(FieldLine(f));
    NameNoHalf(f.name);
    ColonNoHalf();
    var value := PlainArrives(f.name, ":", f.value, line);
    assert line[|f.name| + 1..] == value;
  }

  lemma {:induction false} ColonNoHalf()
    ensures NoHalf(":")
  {
  }

  lemma {:induction false} PlainFieldArrives(f: Field)
    requires PlainName(f.name) && NoHalf(f.value)
    ensures ArrivedField(f) == f && Arrived(FieldLine(f)) == FieldLine(f)
  {
    ArrivedFieldLine(f);
    NothingFades(f.value, ArrivedField(f).value);
  }

  /** The line passes the first check of the import. */
  predicate Passes(line: string) {
    FieldOf(line).Some? && CheckField(FieldOf(line).value).None?
  }

  predicate PassesInside(line: string) {
    Passes(line) && InnerName(ParsedField(line).name)
  }

  lemma {:induction false} InnerPasses(line: string)
    requires FieldOf(line).Some? && InnerName(ParsedField(line).name)
    ensures PassesInside(line) && !IsBegin(line) && !IsEnd(line)
  {
    PlainIsValid(ParsedField(line).name);
  }

  lemma {:induction false} BodyFieldArrives(f: Field)
    requires BodyField(f)
    ensures var line := Arrived(FieldLine(f));
            PassesInside(line) && !IsBegin(line) && !IsEnd(line) && ParsedField(line) == ArrivedField(f)
  {
    ArrivedFieldLine(f);
    FadedOneLine(f.value, ArrivedField(f).value);
    FieldReads(ArrivedField(f));
    InnerPasses(Arrived(FieldLine(f)));
  }

  lemma {:induction false} AttendeeParses(rest: string)
    requires ':' in rest
    ensures var line := "ATTENDEE" + (";" + ("" + rest));
            FieldOf(line).Some? && ParsedField(line).name == "ATTENDEE"
  {
    AttendeeNoDelimiter();
    HeadToColon("ATTENDEE" + ";", rest);
    Grouped("ATTENDEE", rest);
    Grouped("ATTENDEE", rest[..Colon(rest)]);
    HeadSplits("ATTENDEE", "", rest[..Colon(rest)]);
    AttendeeName();
    PlainIsValid("ATTENDEE");
  }

  lemma {:induction false} HeadToColon(front: string, rest: string)
    requires ':' !in front && ':' in rest
    ensures var line, n := front + rest, Colon(rest);
            n < |rest| && Colon(line) < |line| && line[..Colon(line)] == front + rest[..n]
  {
    ColonLater(front, rest);
    assert (front + rest)[..|front| + Colon(rest)] == front + rest[..Colon(rest)];
  }

  lemma {:induction false} Grouped(name: string, rest: string)
    ensures name + (";" + ("" + rest)) == name + ";" + rest
  {
    assert "" + rest == rest;
    Associate(name, ";", rest);
  }

  lemma {:induction false} AttendeeNoDelimiter()
    ensures NoDelimiter("ATTENDEE") && ':' !in "ATTENDEE" + ";" && NoDelimiter("")
  {
  }

  lemma {:induction false} AttendeeArrives(a: Attendee)
    ensures var line := Arrived(AttendeeLine(a));
            PassesInside(line) && !IsBegin(line) && !IsEnd(line) && ParsedField(line).name == "ATTENDEE"
  {
    var line := Arrived(AttendeeLine(a));
    ArrivedFades(AttendeeLine(a));
    AttendeeShape(a, line);
    AttendeeParses(line[9..]);
    AttendeeName();
    InnerPasses(line);
  }

  lemma {:induction false} AttendeeShape(a: Attendee, line: string)
    requires Fades(AttendeeLine(a), line)
    ensures |line| >= 9 && ':' in line[9..] && line == "ATTENDEE" + (";" + ("" + line[9..]))
  {
    var s := AttendeeLine(a);
    var colon := |AttendeeHead(a)|;
    assert s[..9] == "ATTENDEE;" && s[colon] == ':' && colon >= 9;
    assert line[colon] == ':' && line[9..][colon - 9] == ':';
    LiteralsNoHalf();
    AttendeePrefix(s, line);
  }

  lemma {:induction false} AttendeePrefix(s: string, line: string)
    requires Fades(s, line) && |s| >= 9 && s[..9] == "ATTENDEE;"
    ensures line == "ATTENDEE" + (";" + ("" + line[9..]))
  {
    assert s[0..9] == s[..9] && line[0..9] == line[..9];
    FadesSlice(s, line, 0, 9);
    assert NoHalf("ATTENDEE;");
    NothingFades("ATTENDEE;", line[..9]);
    assert line == line[..9] + line[9..];
  }

  // ----- The document that arrives -----

  lemma {:induction false} FieldPasses(f: Field)
    requires PassingName(f.name) && NoHalf(f.value) && OneLine(f.value) && f.name != "BEGIN"
    ensures Arrived(FieldLine(f)) == FieldLine(f) && Passes(FieldLine(f)) && !IsBegin(FieldLine(f)) && ParsedField(FieldLine(f)) == f
  {
    PlainFieldArrives(f);
    FieldReads(f);
    PlainIsValid(f.name);
  }

  lemma {:induction false} BeginPasses(value: string)
    requires PlainName(value) && value !in UNSUPPORTED_COMPONENTS
    ensures var f := Field("BEGIN", value);
            && Arrived(FieldLine(f)) == FieldLine(f) && Passes(FieldLine(f)) && (IsBegin(FieldLine(f)) <==> value == "VEVENT")
  {
    var f := Field("BEGIN", value);
    FrameNames();
    PlainIsValid("BEGIN");
    PlainIsValid(value);
    NameNoHalf(value);
    PlainFieldArrives(f);
    FieldReads(f);
  }

  lemma {:induction false} EndPasses(value: string)
    requires PlainName(value)
    ensures var f := Field("END", value);
            && Arrived(FieldLine(f)) == FieldLine(f) && Passes(FieldLine(f)) && !IsBegin(FieldLine(f)) && (IsEnd(FieldLine(f)) <==> value == "VEVENT")
  {
    FrameNames();
    PlainIsValid(value);
    NameNoHalf(value);
    assert |"END"| != |"BEGIN"|;
    FieldPasses(Field("END", value));
  }

  ghost predicate Framing(line: string) {
    Arrived(line) == line && Passes(line) && !IsBegin(line)
  }

  lemma {:induction false} HeaderPart(name: string, value: string)
    requires PassingName(name) && |name| != 5 && OneLine(value) && NoHalf(value)
    ensures Framing(FieldLine(Field(name, value)))
  {
    assert |"BEGIN"| == 5;
    FieldPasses(Field(name, value));
  }

  lemma {:induction false} ValuesNoHalf()
    ensures NoHalf("2.0") && NoHalf("GREGORIAN") && NoHalf(PRODUCT)
  {
  }

  lemma {:induction false} HeaderFrames()
    ensures Framing(FieldLine(BEGIN_CALENDAR)) && Framing(FieldLine(VERSION))
    ensures Framing(FieldLine(Field("PRODID", PRODUCT))) && Framing(FieldLine(GREGORIAN))
  {
    CalendarFrames();
    VersionFrames();
    ProductFrames();
  }

  lemma {:induction false} CalendarFrames()
    ensures Framing(FieldLine(BEGIN_CALENDAR))
  {
    ComponentNames();
    assert |"VCALENDAR"| != |"VEVENT"|;
    BeginPasses("VCALENDAR");
  }

  lemma {:induction false} VersionFrames()
    ensures Framing(FieldLine(VERSION)) && Framing(FieldLine(GREGORIAN))
  {
    HeaderNames();
    ValuesNoHalf();
    HeaderPart("VERSION", "2.0");
    HeaderPart("CALSCALE", "GREGORIAN");
  }

  lemma {:induction false} ProductFrames()
    ensures Framing(FieldLine(Field("PRODID", PRODUCT)))
  {
    HeaderNames();
    ValuesNoHalf();
    ProductOneLine();
    HeaderPart("PRODID", PRODUCT);
  }

  ghost predicate AllFraming(lines: seq<string>) {
    forall i :: 0 <= i < |lines| ==> Framing(lines[i])
  }

  lemma {:induction false} FourFrames(a: Field, b: Field, c: Field, d: Field)
    requires Framing(FieldLine(a)) && Framing(FieldLine(b)) && Framing(FieldLine(c)) && Framing(FieldLine(d))
    ensures AllFraming(Map(FieldLine, [a, b, c, d]))
  {
  }

  lemma {:induction false} HeaderArrives()
    ensures AllFraming(HeaderLines()) && Map(Arrived, HeaderLines()) == HeaderLines()
  {
    HeaderFrames();
    FourFrames(BEGIN_CALENDAR, VERSION, Field("PRODID", PRODUCT), GREGORIAN);
    var lines := HeaderLines();
    forall i | 0 <= i < |lines| ensures Arrived(lines[i]) == lines[i] { assert Framing(lines[i]); }
  }

  /** The event's lines as they arrive. */
  function Received(order: EmailOrder, e: CalendarEvent): seq<string> {
    Map(Arrived, BodyLines(order, e.updatedAt, e))
  }

  lemma {:induction false} FramesArrive()
    ensures var begin, end, last := FieldLine(BEGIN_EVENT), FieldLine(END_EVENT), FieldLine(END_CALENDAR);
            && Arrived(begin) == begin && Passes(begin) && IsBegin(begin)
            && Framing(end) && IsEnd(end) && Framing(last)
  {
    ComponentNames();
    BeginPasses("VEVENT");
    EndPasses("VEVENT");
    EndPasses("VCALENDAR");
  }

  lemma {:induction false} DocumentArrives(order: EmailOrder, e: CalendarEvent)
    ensures Map(Arrived, DocumentLines(order, e))
         == HeaderLines() + ([FieldLine(BEGIN_EVENT)] + Received(order, e) + [FieldLine(END_EVENT)]) + [FieldLine(END_CALENDAR)]
  {
    var begin, end, last, body := [FieldLine(BEGIN_EVENT)], [FieldLine(END_EVENT)], [FieldLine(END_CALENDAR)], BodyLines(order, e.updatedAt, e);
    HeaderArrives();
    FramesArrive();
    MapConcat(Arrived, begin, body);
    MapConcat(Arrived, begin + body, end);
    MapConcat(Arrived, HeaderLines(), begin + body + end);
    MapConcat(Arrived, HeaderLines() + (begin + body + end), last);
    assert Map(Arrived, begin) == begin && Map(Arrived, end) == end && Map(Arrived, last) == last;
  }

  ghost predicate AllInside(lines: seq<string>) {
    forall i :: 0 <= i < |lines| ==> PassesInside(lines[i]) && !IsBegin(lines[i]) && !IsEnd(lines[i])
  }

  lemma {:induction false} ReceivedInside(clock: Clock, order: EmailOrder, e: CalendarEvent)
    requires ValidEvent(clock, e)
    ensures AllInside(Received(order, e))
  {
    var fields, listed := BodyFields(e.updatedAt, e), Listed(order, e);
    BodyIsBody(clock, e.updatedAt, e);
    forall i | 0 <= i < |fields| + |listed|
      ensures PassesInside(Received(order, e)[i]) && !IsBegin(Received(order, e)[i]) && !IsEnd(Received(order, e)[i])
    {
      if i < |fields| {
        assert fields[i] in fields;
        BodyFieldArrives(fields[i]);
      } else {
        AttendeeArrives(listed[i - |fields|]);
      }
    }
  }

  lemma {:induction false} LinesPass(lines: seq<string>)
    requires forall i :: 0 <= i < |lines| ==> Passes(lines[i])
    ensures CheckLines(lines).None?
  {
    if lines != [] { LinesPass(lines[1..]); }
  }

  lemma {:induction false} AfterSkips(p: string -> bool, xs: seq<string>, f: string, rest: seq<string>)
    requires p(f) && forall x :: x in xs ==> !p(x)
    ensures After(p, xs + ([f] + rest)) == Some(rest)
  {
    var all := xs + ([f] + rest);
    if xs == [] {
      assert all[0] == f && all[1..] == rest;
    } else {
      assert all[0] == xs[0] && xs[0] in xs && all[1..] == xs[1..] + ([f] + rest);
      AfterSkips(p, xs[1..], f, rest);
    }
  }

  lemma {:induction false} AfterNone(p: string -> bool, xs: seq<string>)
    requires forall x :: x in xs ==> !p(x)
    ensures After(p, xs).None?
  {
    if xs != [] {
      assert xs[0] in xs;
      AfterNone(p, xs[1..]);
    }
  }

  lemma {:induction false} UntilSkips(p: string -> bool, xs: seq<string>, f: string, rest: seq<string>)
    requires p(f) && forall x :: x in xs ==> !p(x)
    ensures Until(p, xs + ([f] + rest)) == Some(xs)
  {
    var all := xs + ([f] + rest);
    if xs == [] {
      assert all[0] == f;
    } else {
      assert all[0] == xs[0] && xs[0] in xs && all[1..] == xs[1..] + ([f] + rest);
      UntilSkips(p, xs[1..], f, rest);
      assert [xs[0]] + xs[1..] == xs;
    }
  }

  lemma {:induction false} FramedBody(
    clock: Clock, number: string -> Option<int>, header: seq<string>, begin: string, body: seq<string>, end: string, last: string)
    requires AllFraming(header) && Passes(begin) && IsBegin(begin) && AllInside(body) && Framing(end) && IsEnd(end) && Framing(last)
    ensures ImportLines(clock, number, header + ([begin] + body + [end]) + [last]) == ImportInside(clock, number, body)
  {
    var tail := [end] + [last];
    assert header + ([begin] + body + [end]) + [last] == header + ([begin] + (body + tail));
    NoBeginFramed(header);
    NoBeginInside(body, tail);
    AfterSkips(IsBegin, header, begin, body + tail);
    AfterNone(IsBegin, body + tail);
    UntilSkips(IsEnd, body, end, [last]);
  }

  lemma {:induction false} NoBeginFramed(lines: seq<string>)
    requires AllFraming(lines)
    ensures forall l :: l in lines ==> !IsBegin(l)
  {
    forall l | l in lines ensures !IsBegin(l) {
      var i :| 0 <= i < |lines| && lines[i] == l;
      assert Framing(lines[i]);
    }
  }

  lemma {:induction false} NoBeginInside(body: seq<string>, tail: seq<string>)
    requires AllInside(body) && AllFraming(tail)
    ensures (forall l :: l in body ==> !IsEnd(l)) && forall l :: l in body + tail ==> !IsBegin(l)
  {
    NoBeginFramed(tail);
    forall l | l in body ensures !IsEnd(l) && !IsBegin(l) {
      var i :| 0 <= i < |body| && body[i] == l;
      assert PassesInside(body[i]);
    }
  }

  lemma {:induction false} PassConcat(xs: seq<string>, ys: seq<string>)
    requires CheckLines(xs).None?
    ensures CheckLines(xs + ys) == CheckLines(ys)
  {
    if xs == [] {
      assert xs + ys == ys;
    } else {
      assert (xs + ys)[1..] == xs[1..] + ys;
      PassConcat(xs[1..], ys);
    }
  }

  lemma {:induction false} FramedPasses(header: seq<string>, begin: string, body: seq<string>, end: string, last: string)
    requires AllFraming(header) && Passes(begin) && AllInside(body) && Framing(end) && Framing(last)
    ensures CheckLines(header + ([begin] + body + [end]) + [last]).None?
  {
    forall i | 0 <= i < |header| ensures Passes(header[i]) { assert Framing(header[i]); }
    forall i | 0 <= i < |body| ensures Passes(body[i]) { assert PassesInside(body[i]); }
    LinesPass(header);
    LinesPass(body);
    LinesPass([begin]);
    LinesPass([end]);
    LinesPass([last]);
    PassConcat([begin], body);
    PassConcat([begin] + body, [end]);
    PassConcat(header, [begin] + body + [end]);
    PassConcat(header + ([begin] + body + [end]), [last]);
  }

  /** What the import makes of the event's own lines. */
  function ImportInside(clock: Clock, number: string -> Option<int>, body: seq<string>): Import {
    match ReadAttendees(body)
    case Refused(error) => Failed(BadAttendee(error))
    case All(invited) => ImportBody(clock, number, Map(ParsedField, body), invited)
  }

  /** The import of a document that is sent as UTF-8 comes down to the event's
      lines as they arrive. */
  lemma {:induction false} DocumentImports(clock: Clock, number: string -> Option<int>, order: EmailOrder, e: CalendarEvent)
    requires ValidEvent(clock, e)
    ensures ImportEvent(clock, number, Utf8(Document(order, e))) == ImportInside(clock, number, Received(order, e))
  {
    DocumentText(order, e);
    DocumentIsContent(clock, order, e);
    ArrivedReads(DocumentLines(order, e));
    DocumentArrives(order, e);
    HeaderArrives();
    FramesArrive();
    ReceivedInside(clock, order, e);
    FramedPasses(HeaderLines(), FieldLine(BEGIN_EVENT), Received(order, e), FieldLine(END_EVENT), FieldLine(END_CALENDAR));
    FramedBody(clock, number, HeaderLines(), FieldLine(BEGIN_EVENT), Received(order, e), FieldLine(END_EVENT), FieldLine(END_CALENDAR));
  }

  // ----- Lookups -----

  lemma {:induction false} LookupAt(fields: seq<Field>, i: nat)
    requires i < |fields| && forall j :: 0 <= j < i ==> fields[j].name != fields[i].name
    ensures Lookup(fields, fields[i].name) == Some(fields[i].value)
  {
    if i > 0 {
      assert fields[0].name != fields[i].name && fields[1..][i - 1] == fields[i];
      LookupAt(fields[1..], i - 1);
    }
  }

  lemma {:induction false} LookupConcat(xs: seq<Field>, ys: seq<Field>, name: string)
    ensures Lookup(xs + ys, name) == if Lookup(xs, name).Some? then Lookup(xs, name) else Lookup(ys, name)
  {
    if xs == [] {
      assert xs + ys == ys;
    } else {
      assert (xs + ys)[1..] == xs[1..] + ys;
      LookupConcat(xs[1..], ys, name);
    }
  }

  lemma {:induction false} LookupNone(fields: seq<Field>, name: string)
    requires forall i :: 0 <= i < |fields| ==> fields[i].name != name
    ensures Lookup(fields, name).None?
  {
    if fields != [] { LookupNone(fields[1..], name); }
  }

  const REQUIRED_NAMES: seq<string> :=
    ["UID", "DTSTAMP", "DTSTART", "DTEND", "SUMMARY", "STATUS", "SEQUENCE", "CREATED", "LAST-MODIFIED", "X-OPEN-PRACTICE-FIRM-ID"]

  lemma {:induction false} FieldsNamed(stamp: string, e: CalendarEvent, i: nat)
    requires i < 10
    ensures |RequiredFields(stamp, e)| == 10 && RequiredFields(stamp, e)[i].name == REQUIRED_NAMES[i]
  {
  }

  ghost predicate FirstOfName(i: nat)
    requires i < 10
  {
    forall j :: 0 <= j < i ==> REQUIRED_NAMES[j] != REQUIRED_NAMES[i]
  }

  lemma {:induction false} DateNamesFirst()
    ensures FirstOfName(2) && FirstOfName(3)
  {
    assert "DTSTAMP"[5] != "DTSTART"[5];
  }

  lemma {:induction false} TextNamesFirst()
    ensures FirstOfName(0) && FirstOfName(4)
  {
    assert "SUMMARY"[0] == 'S' && "DTSTAMP"[0] == "DTSTART"[0] == 'D';
  }

  lemma {:induction false} StateNamesFirst()
    ensures FirstOfName(5) && FirstOfName(6)
  {
  }

  lemma {:induction false} RequiredAt(stamp: string, e: CalendarEvent, i: nat)
    requires i < 10 && FirstOfName(i)
    ensures |RequiredFields(stamp, e)| == 10 && Lookup(RequiredFields(stamp, e), REQUIRED_NAMES[i]) == Some(RequiredFields(stamp, e)[i].value)
  {
    FieldsNamed(stamp, e, i);
    forall j | 0 <= j < i ensures RequiredFields(stamp, e)[j].name != RequiredFields(stamp, e)[i].name { FieldsNamed(stamp, e, j); }
    LookupAt(RequiredFields(stamp, e), i);
  }

  lemma {:induction false} DatesFound(e: CalendarEvent)
    ensures Lookup(RequiredFields(e.updatedAt, e), "DTSTART") == Some(FormatUtc(e.startsAt))
    ensures Lookup(RequiredFields(e.updatedAt, e), "DTEND") == Some(FormatUtc(e.endsAt))
  {
    DateNamesFirst();
    RequiredAt(e.updatedAt, e, 2);
    RequiredAt(e.updatedAt, e, 3);
  }

  lemma {:induction false} TextsFound(e: CalendarEvent)
    ensures Lookup(RequiredFields(e.updatedAt, e), "UID") == Some(Escape(EventUid(e)))
    ensures Lookup(RequiredFields(e.updatedAt, e), "SUMMARY") == Some(Escape(e.title))
  {
    TextNamesFirst();
    RequiredAt(e.updatedAt, e, 0);
    RequiredAt(e.updatedAt, e, 4);
  }

  lemma {:induction false} StateFound(e: CalendarEvent)
    ensures Lookup(RequiredFields(e.updatedAt, e), "STATUS") == Some(StatusName(e.status))
    ensures Lookup(RequiredFields(e.updatedAt, e), "SEQUENCE") == Some(Decimal(e.sequence))
  {
    StateNamesFirst();
    RequiredAt(e.updatedAt, e, 5);
    RequiredAt(e.updatedAt, e, 6);
  }

  lemma {:induction false} NotesNotRequired(e: CalendarEvent)
    ensures Lookup(RequiredFields(e.updatedAt, e), "DESCRIPTION").None? && Lookup(RequiredFields(e.updatedAt, e), "LOCATION").None?
  {
    assert "SEQUENCE"[0] == 'S' && "LOCATION"[0] == 'L';
    LookupNone(RequiredFields(e.updatedAt, e), "DESCRIPTION");
    LookupNone(RequiredFields(e.updatedAt, e), "LOCATION");
  }

  lemma {:induction false} OptionalFound(name: string, text: Option<string>)
    ensures Lookup(OptionalField(name, text), name) == if Filled(text) then Some(Escape(text.value)) else None
  {
  }

  lemma {:induction false} OptionalOther(name: string, text: Option<string>, other: string)
    requires name != other
    ensures Lookup(OptionalField(name, text), other).None?
  {
  }

  lemma {:induction false} NotesFound(e: CalendarEvent)
    ensures Lookup(OptionalFields(e), "DESCRIPTION") == if Filled(e.description) then Some(Escape(e.description.value)) else None
    ensures Lookup(OptionalFields(e), "LOCATION") == if Filled(e.location) then Some(Escape(e.location.value)) else None
  {
    var m, c := OptionalField("X-OPEN-PRACTICE-MATTER-ID", e.matterId), OptionalField("X-OPEN-PRACTICE-CLIENT-CONTACT-ID", e.clientContactId);
    var d, l := OptionalField("DESCRIPTION", e.description), OptionalField("LOCATION", e.location);
    assert "DESCRIPTION"[0] == 'D' && "LOCATION"[0] == 'L';
    FourLookups(m, c, d, l, "DESCRIPTION");
    FourLookups(m, c, d, l, "LOCATION");
    OptionalOther("X-OPEN-PRACTICE-MATTER-ID", e.matterId, "DESCRIPTION");
    OptionalOther("X-OPEN-PRACTICE-MATTER-ID", e.matterId, "LOCATION");
    OptionalOther("X-OPEN-PRACTICE-CLIENT-CONTACT-ID", e.clientContactId, "DESCRIPTION");
    OptionalOther("X-OPEN-PRACTICE-CLIENT-CONTACT-ID", e.clientContactId, "LOCATION");
    OptionalOther("LOCATION", e.location, "DESCRIPTION");
    OptionalOther("DESCRIPTION", e.description, "LOCATION");
    OptionalFound("DESCRIPTION", e.description);
    OptionalFound("LOCATION", e.location);
  }

  lemma {:induction false} FourLookups(a: seq<Field>, b: seq<Field>, c: seq<Field>, d: seq<Field>, name: string)
    requires Lookup(a, name).None? && Lookup(b, name).None?
    ensures Lookup(a + b + c + d, name) == if Lookup(c, name).Some? then Lookup(c, name) else Lookup(d, name)
  {
    LookupConcat(a, b, name);
    LookupConcat(a + b, c, name);
    LookupConcat(a + b + c, d, name);
  }

  /** A value as it arrives under its name. */
  function ArrivedValue(name: string, value: string): string {
    ArrivedField(Field(name, value)).value
  }

  lemma {:induction false} LookupArrived(fields: seq<Field>, name: string)
    ensures Lookup(Map(ArrivedField, fields), name)
         == if Lookup(fields, name).None? then None else Some(ArrivedValue(name, Lookup(fields, name).value))
  {
    if fields != [] {
      assert Map(ArrivedField, fields)[1..] == Map(ArrivedField, fields[1..]);
      LookupArrived(fields[1..], name);
    }
  }

  /** Attendee lines do not take part in the lookups. */
  lemma {:induction false} LookupReceived(clock: Clock, order: EmailOrder, e: CalendarEvent, name: string)
    requires ValidEvent(clock, e) && name != "ATTENDEE"
    ensures Lookup(Map(ParsedField, Received(order, e)), name)
         == if Lookup(BodyFields(e.updatedAt, e), name).None? then None else Some(ArrivedValue(name, Lookup(BodyFields(e.updatedAt, e), name).value))
  {
    var fields, listed := BodyFields(e.updatedAt, e), Listed(order, e);
    var a, b := Map(ParsedField, Map(Arrived, Map(FieldLine, fields))), Map(ParsedField, Map(Arrived, Map(AttendeeLine, listed)));
    MapConcat(Arrived, Map(FieldLine, fields), Map(AttendeeLine, listed));
    MapConcat(ParsedField, Map(Arrived, Map(FieldLine, fields)), Map(Arrived, Map(AttendeeLine, listed)));
    FieldsReceived(clock, e);
    forall i | 0 <= i < |b| ensures b[i].name != name { AttendeeArrives(listed[i]); }
    LookupNone(b, name);
    LookupConcat(a, b, name);
    LookupArrived(fields, name);
  }

  lemma {:induction false} FieldsReceived(clock: Clock, e: CalendarEvent)
    requires ValidEvent(clock, e)
    ensures Map(ParsedField, Map(Arrived, Map(FieldLine, BodyFields(e.updatedAt, e)))) == Map(ArrivedField, BodyFields(e.updatedAt, e))
    ensures forall i :: 0 <= i < |BodyFields(e.updatedAt, e)| ==> ParsedField(Map(Arrived, Map(FieldLine, BodyFields(e.updatedAt, e)))[i]).name != "ATTENDEE"
  {
    var fields := BodyFields(e.updatedAt, e);
    BodyIsBody(clock, e.updatedAt, e);
    forall i | 0 <= i < |fields| ensures ParsedField(Arrived(FieldLine(fields[i]))) == ArrivedField(fields[i]) && fields[i].name != "ATTENDEE" {
      assert fields[i] in fields;
      BodyFieldArrives(fields[i]);
    }
  }

  // ----- The attendees -----

  lemma {:induction false} FieldsHaveNoAttendee(xs: seq<string>, ys: seq<string>)
    requires forall i :: 0 <= i < |xs| ==> ParsedField(xs[i]).name != "ATTENDEE"
    ensures ReadAttendees(xs + ys) == ReadAttendees(ys)
  {
    if xs == [] {
      assert xs + ys == ys;
    } else {
      assert (xs + ys)[1..] == xs[1..] + ys;
      FieldsHaveNoAttendee(xs[1..], ys);
    }
  }

  /** What is read of the attendees of an event. */
  function AttendeesRead(listed: seq<Attendee>): Attendance {
    ReadAttendees(Map(Arrived, Map(AttendeeLine, listed)))
  }

  lemma {:induction false} ReceivedAttendees(clock: Clock, order: EmailOrder, e: CalendarEvent)
    requires ValidEvent(clock, e)
    ensures ReadAttendees(Received(order, e)) == AttendeesRead(Listed(order, e))
  {
    var a, b := Map(FieldLine, BodyFields(e.updatedAt, e)), Map(AttendeeLine, Listed(order, e));
    MapConcat(Arrived, a, b);
    FieldsReceived(clock, e);
    FieldsHaveNoAttendee(Map(Arrived, a), Map(Arrived, b));
  }

  lemma {:induction false} AttendeesPeel(listed: seq<Attendee>)
    requires listed != []
    ensures AttendeesRead(listed) ==
            match ReadAttendee(Arrived(AttendeeLine(listed[0])))
            case Bad(error) => Refused(error)
            case Got(invited) =>
              var rest := AttendeesRead(listed[1..]);
              if rest.All? then All([invited] + rest.invited) else rest
  {
    var lines := Map(Arrived, Map(AttendeeLine, listed));
    assert lines[1..] == Map(Arrived, Map(AttendeeLine, listed[1..]));
    AttendeeArrives(listed[0]);
  }

  /** All attendees come back, in their order, exactly when each one does. */
  lemma {:induction false} AttendeesReturnIff(listed: seq<Attendee>)
    ensures AttendeesRead(listed) == All(Map(InvitedOf, listed)) <==> forall i :: 0 <= i < |listed| ==> Returns(listed[i])
  {
    if listed == [] {
      assert Map(InvitedOf, listed) == [];
    } else {
      AttendeesPeel(listed);
      AttendeesReturnIff(listed[1..]);
      AttendeeReturnsIff(listed[0]);
      FirstAndRest(ReadAttendee(Arrived(AttendeeLine(listed[0]))), AttendeesRead(listed[1..]), listed);
      AllReturnPeel(listed);
    }
  }

  lemma {:induction false} AllReturnPeel(listed: seq<Attendee>)
    requires listed != []
    ensures (forall i :: 0 <= i < |listed| ==> Returns(listed[i])) <==>
            Returns(listed[0]) && forall i :: 0 <= i < |listed[1..]| ==> Returns(listed[1..][i])
  {
    var rest := listed[1..];
    if Returns(listed[0]) && forall i :: 0 <= i < |rest| ==> Returns(rest[i]) {
      forall i | 0 <= i < |listed| ensures Returns(listed[i]) {
        if i > 0 { assert listed[i] == rest[i - 1]; }
      }
    }
  }

  lemma {:induction false} FirstAndRest(first: Reading, rest: Attendance, listed: seq<Attendee>)
    requires listed != []
    ensures (first.Got? && rest.All? && [first.invited] + rest.invited == Map(InvitedOf, listed)) <==>
            first == Got(InvitedOf(listed[0])) && rest == All(Map(InvitedOf, listed[1..]))
  {
    var all := Map(InvitedOf, listed);
    assert all == [InvitedOf(listed[0])] + Map(InvitedOf, listed[1..]) && all[1..] == Map(InvitedOf, listed[1..]);
    if first.Got? && rest.All? {
      var read := [first.invited] + rest.invited;
      assert read[0] == first.invited && read[1..] == rest.invited;
    }
  }

  // ----- What is read back -----

  /** `Date.parse` reads a date without its milliseconds as the second before. */
  ghost predicate ReadsSeconds(clock: Clock) {
    forall s :: IsoText(s) && clock(s).Some? ==> clock(WholeSecond(s)) == Some(clock(s).value / 1000 * 1000)
  }

  /** `Number` reads a printed natural number. */
  ghost predicate ReadsNumbers(number: string -> Option<int>) {
    forall n: nat :: number(Decimal(n)) == Some(n)
  }

  lemma {:induction false} StatusReadsBack(status: Status)
    ensures ParseStatus(Upper(StatusName(status))) == Some(status)
  {
    var name := StatusName(status);
    assert PlainName(name);
    PlainIsValid(name);
    assert "CONFIRMED"[0] != "TENTATIVE"[0] && "CONFIRMED"[1] != "CANCELLED"[1] && "TENTATIVE"[0] != "CANCELLED"[0];
  }

  lemma {:induction false} EscapeEmptyIff(s: string)
    ensures Escape(s) == "" <==> s == ""
  {
    if s != [] { assert EscapeNewlines(Replace('\\', "\\\\", s)) != []; }
  }

  lemma {:induction false} DigitsNoHalf(n: nat)
    ensures NoHalf(Decimal(n))
    decreases n
  {
    if n >= 10 { DigitsNoHalf(n / 10); }
  }

  lemma {:induction false} FormattedNoHalf(s: string)
    requires IsoText(s)
    ensures NoHalf(FormatUtc(s))
  {
    FormattedDate(s);
    forall c | c in FormatUtc(s) ensures c == 'T' || c == 'Z' || c in s {}
    forall i | 0 <= i < |s| ensures !IsHalf(s[i]) { IsoChars(s, i); }
  }

  lemma {:induction false} StatusNoHalf(status: Status)
    ensures NoHalf(StatusName(status))
  {
  }

  lemma {:induction false} PlainValueArrives(name: string, value: string)
    requires PlainName(name) && NoHalf(value)
    ensures ArrivedValue(name, value) == value
  {
    PlainFieldArrives(Field(name, value));
  }

  /** What is read back: texts as they arrive and unescaping leaves them, dates
      without their milliseconds, empty notes as none. */
  function ReadBack(e: CalendarEvent, invited: seq<Invited>): Content
    requires |e.startsAt| == 24 && |e.endsAt| == 24
  {
    Content(ReadText("UID", EventUid(e)), ReadText("SUMMARY", e.title), WholeSecond(e.startsAt), WholeSecond(e.endsAt),
            ReadNote("DESCRIPTION", e.description), ReadNote("LOCATION", e.location), e.status, e.sequence, invited)
  }

  function ReadText(name: string, text: string): string {
    Unescape(ArrivedValue(name, Escape(text)))
  }

  function ReadNote(name: string, note: Option<string>): Option<string> {
    if Filled(note) then Some(ReadText(name, note.value)) else None
  }

  /** The lookups in the lines find the event's values as they arrive. */
  ghost predicate Finds(body: seq<Field>, e: CalendarEvent) {
    && Lookup(body, "UID") == Some(ArrivedValue("UID", Escape(EventUid(e)))) && Lookup(body, "SUMMARY") == Some(ArrivedValue("SUMMARY", Escape(e.title)))
    && Lookup(body, "DTSTART") == Some(FormatUtc(e.startsAt)) && Lookup(body, "DTEND") == Some(FormatUtc(e.endsAt))
    && Lookup(body, "STATUS") == Some(StatusName(e.status)) && Lookup(body, "SEQUENCE") == Some(Decimal(e.sequence))
    && Lookup(body, "DESCRIPTION") == (if Filled(e.description) then Some(ArrivedValue("DESCRIPTION", Escape(e.description.value))) else None)
    && Lookup(body, "LOCATION") == (if Filled(e.location) then Some(ArrivedValue("LOCATION", Escape(e.location.value))) else None)
  }

  lemma {:induction false} SentTexts(e: CalendarEvent)
    ensures Lookup(BodyFields(e.updatedAt, e), "UID") == Some(Escape(EventUid(e))) && Lookup(BodyFields(e.updatedAt, e), "SUMMARY") == Some(Escape(e.title))
    ensures Lookup(BodyFields(e.updatedAt, e), "DTSTART") == Some(FormatUtc(e.startsAt)) && Lookup(BodyFields(e.updatedAt, e), "DTEND") == Some(FormatUtc(e.endsAt))
    ensures Lookup(BodyFields(e.updatedAt, e), "STATUS") == Some(StatusName(e.status)) && Lookup(BodyFields(e.updatedAt, e), "SEQUENCE") == Some(Decimal(e.sequence))
  {
    var a, b := RequiredFields(e.updatedAt, e), OptionalFields(e);
    DatesFound(e);
    TextsFound(e);
    StateFound(e);
    LookupConcat(a, b, "UID");
    LookupConcat(a, b, "SUMMARY");
    LookupConcat(a, b, "DTSTART");
    LookupConcat(a, b, "DTEND");
    LookupConcat(a, b, "STATUS");
    LookupConcat(a, b, "SEQUENCE");
  }

  lemma {:induction false} SentNotes(e: CalendarEvent)
    ensures Lookup(BodyFields(e.updatedAt, e), "DESCRIPTION") == if Filled(e.description) then Some(Escape(e.description.value)) else None
    ensures Lookup(BodyFields(e.updatedAt, e), "LOCATION") == if Filled(e.location) then Some(Escape(e.location.value)) else None
  {
    NotesNotRequired(e);
    NotesFound(e);
    LookupConcat(RequiredFields(e.updatedAt, e), OptionalFields(e), "DESCRIPTION");
    LookupConcat(RequiredFields(e.updatedAt, e), OptionalFields(e), "LOCATION");
  }

  lemma {:induction false} NotAttendee()
    ensures "UID" != "ATTENDEE" && "SUMMARY" != "ATTENDEE" && "DTSTART" != "ATTENDEE" && "DTEND" != "ATTENDEE"
    ensures "STATUS" != "ATTENDEE" && "SEQUENCE" != "ATTENDEE" && "DESCRIPTION" != "ATTENDEE" && "LOCATION" != "ATTENDEE"
  {
    assert "SEQUENCE"[0] == 'S' && "LOCATION"[0] == 'L' && "ATTENDEE"[0] == 'A';
  }

  lemma {:induction false} PlainValuesArrive(clock: Clock, e: CalendarEvent)
    requires ValidEvent(clock, e)
    ensures ArrivedValue("DTSTART", FormatUtc(e.startsAt)) == FormatUtc(e.startsAt)
    ensures ArrivedValue("DTEND", FormatUtc(e.endsAt)) == FormatUtc(e.endsAt)
    ensures ArrivedValue("STATUS", StatusName(e.status)) == StatusName(e.status)
    ensures ArrivedValue("SEQUENCE", Decimal(e.sequence)) == Decimal(e.sequence)
  {
    DateNames();
    StateNames();
    FormattedNoHalf(e.startsAt);
    FormattedNoHalf(e.endsAt);
    StatusNoHalf(e.status);
    DigitsNoHalf(e.sequence);
    PlainValueArrives("DTSTART", FormatUtc(e.startsAt));
    PlainValueArrives("DTEND", FormatUtc(e.endsAt));
    PlainValueArrives("STATUS", StatusName(e.status));
    PlainValueArrives("SEQUENCE", Decimal(e.sequence));
  }

  lemma {:induction false} ReceivedFinds(clock: Clock, order: EmailOrder, e: CalendarEvent)
    requires ValidEvent(clock, e)
    ensures Finds(Map(ParsedField, Received(order, e)), e)
  {
    SentTexts(e);
    SentNotes(e);
    NotAttendee();
    PlainValuesArrive(clock, e);
    LookupReceived(clock, order, e, "UID");
    LookupReceived(clock, order, e, "SUMMARY");
    LookupReceived(clock, order, e, "DTSTART");
    LookupReceived(clock, order, e, "DTEND");
    LookupReceived(clock, order, e, "STATUS");
    LookupReceived(clock, order, e, "SEQUENCE");
    LookupReceived(clock, order, e, "DESCRIPTION");
    LookupReceived(clock, order, e, "LOCATION");
  }

  // ----- What other readers find -----

  lemma {:induction false} MarkNamesFirst()
    ensures FirstOfName(1) && FirstOfName(7) && FirstOfName(8) && FirstOfName(9)
  {
    assert "LAST-MODIFIED"[0] == 'L' && "CREATED"[0] == 'C' && "X-OPEN-PRACTICE-FIRM-ID"[0] == 'X';
  }

  lemma {:induction false} SentMarks(e: CalendarEvent)
    ensures Lookup(BodyFields(e.updatedAt, e), "DTSTAMP") == Some(FormatUtc(e.updatedAt))
    ensures Lookup(BodyFields(e.updatedAt, e), "CREATED") == Some(FormatUtc(e.createdAt))
    ensures Lookup(BodyFields(e.updatedAt, e), "LAST-MODIFIED") == Some(FormatUtc(e.updatedAt))
    ensures Lookup(BodyFields(e.updatedAt, e), "X-OPEN-PRACTICE-FIRM-ID") == Some(Escape(e.firmId))
  {
    var a, b := RequiredFields(e.updatedAt, e), OptionalFields(e);
    MarkNamesFirst();
    RequiredAt(e.updatedAt, e, 1);
    RequiredAt(e.updatedAt, e, 7);
    RequiredAt(e.updatedAt, e, 8);
    RequiredAt(e.updatedAt, e, 9);
    LookupConcat(a, b, "DTSTAMP");
    LookupConcat(a, b, "CREATED");
    LookupConcat(a, b, "LAST-MODIFIED");
    LookupConcat(a, b, "X-OPEN-PRACTICE-FIRM-ID");
  }

  const MATTER_NAME := "X-OPEN-PRACTICE-MATTER-ID"
  const CLIENT_NAME := "X-OPEN-PRACTICE-CLIENT-CONTACT-ID"

  lemma {:induction false} IdsNotRequired(e: CalendarEvent)
    ensures Lookup(RequiredFields(e.updatedAt, e), MATTER_NAME).None? && Lookup(RequiredFields(e.updatedAt, e), CLIENT_NAME).None?
  {
    assert |MATTER_NAME| == 25 && |CLIENT_NAME| == 33 && |"X-OPEN-PRACTICE-FIRM-ID"| == 23;
    LookupNone(RequiredFields(e.updatedAt, e), MATTER_NAME);
    LookupNone(RequiredFields(e.updatedAt, e), CLIENT_NAME);
  }

  lemma {:induction false} FourConcat(a: seq<Field>, b: seq<Field>, c: seq<Field>, d: seq<Field>, name: string)
    requires Lookup(c, name).None? && Lookup(d, name).None?
    ensures Lookup(a + b + c + d, name) == if Lookup(a, name).Some? then Lookup(a, name) else Lookup(b, name)
  {
    LookupConcat(a + b + c, d, name);
    LookupConcat(a + b, c, name);
    LookupConcat(a, b, name);
  }

  lemma {:induction false} IdsFound(e: CalendarEvent)
    ensures Lookup(OptionalFields(e), MATTER_NAME) == if Filled(e.matterId) then Some(Escape(e.matterId.value)) else None
    ensures Lookup(OptionalFields(e), CLIENT_NAME) == if Filled(e.clientContactId) then Some(Escape(e.clientContactId.value)) else None
  {
    var m, c := OptionalField(MATTER_NAME, e.matterId), OptionalField(CLIENT_NAME, e.clientContactId);
    var d, l := OptionalField("DESCRIPTION", e.description), OptionalField("LOCATION", e.location);
    assert |MATTER_NAME| == 25 && |CLIENT_NAME| == 33 && |"DESCRIPTION"| == 11 && |"LOCATION"| == 8;
    FourConcat(m, c, d, l, MATTER_NAME);
    FourConcat(m, c, d, l, CLIENT_NAME);
    OptionalOther(CLIENT_NAME, e.clientContactId, MATTER_NAME);
    OptionalOther("DESCRIPTION", e.description, MATTER_NAME);
    OptionalOther("LOCATION", e.location, MATTER_NAME);
    OptionalOther(MATTER_NAME, e.matterId, CLIENT_NAME);
    OptionalOther("DESCRIPTION", e.description, CLIENT_NAME);
    OptionalOther("LOCATION", e.location, CLIENT_NAME);
    OptionalFound(MATTER_NAME, e.matterId);
    OptionalFound(CLIENT_NAME, e.clientContactId);
  }

  lemma {:induction false} SentIds(e: CalendarEvent)
    ensures Lookup(BodyFields(e.updatedAt, e), MATTER_NAME) == if Filled(e.matterId) then Some(Escape(e.matterId.value)) else None
    ensures Lookup(BodyFields(e.updatedAt, e), CLIENT_NAME) == if Filled(e.clientContactId) then Some(Escape(e.clientContactId.value)) else None
  {
    IdsNotRequired(e);
    IdsFound(e);
    LookupConcat(RequiredFields(e.updatedAt, e), OptionalFields(e), MATTER_NAME);
    LookupConcat(RequiredFields(e.updatedAt, e), OptionalFields(e), CLIENT_NAME);
  }

  /** A text as it is read under a name, or nothing where there is none. */
  ghost predicate ReadsText(fields: seq<Field>, name: string, text: Option<string>) {
    Lookup(fields, name) == if text == None || text == Some("") then None else Some(ArrivedValue(name, Escape(text.value)))
  }

  /** Every event is stamped with the date that its text is given. */
  lemma {:induction false} StampSent(stamp: string, e: CalendarEvent)
    ensures Lookup(BodyFields(stamp, e), "DTSTAMP") == Some(FormatUtc(stamp))
  {
    MarkNamesFirst();
    RequiredAt(stamp, e, 1);
    LookupConcat(RequiredFields(stamp, e), OptionalFields(e), "DTSTAMP");
  }

  const OPENING: seq<string> :=
    ["BEGIN:VCALENDAR", "VERSION:2.0", "PRODID:" + "-//Open Practice//Matter Calendar//EN", "CALSCALE:GREGORIAN", "BEGIN:VEVENT"]
  const CLOSING: seq<string> := ["END:VEVENT", "END:VCALENDAR"]

  /** The sent document opens and closes with these lines. */
  lemma {:induction false} DocumentFramed(clock: Clock, order: EmailOrder, e: CalendarEvent)
    requires ValidEvent(clock, e)
    ensures ReadLines(Utf8(Document(order, e))) == OPENING + Received(order, e) + CLOSING
  {
    DocumentText(order, e);
    DocumentIsContent(clock, order, e);
    ArrivedReads(DocumentLines(order, e));
    DocumentArrives(order, e);
    OpeningIs();
    ClosingIs();
    Reframed(HeaderLines(), FieldLine(BEGIN_EVENT), Received(order, e), FieldLine(END_EVENT), FieldLine(END_CALENDAR));
  }

  lemma {:induction false} Reframed(h: seq<string>, begin: string, body: seq<string>, end: string, last: string)
    ensures h + ([begin] + body + [end]) + [last] == (h + [begin]) + body + [end, last]
  {
  }

  lemma {:induction false} OpeningIs()
    ensures HeaderLines() + [FieldLine(BEGIN_EVENT)] == OPENING
  {
    CalendarText();
    VersionText();
    ProductText();
    FrameTextsOfEvent();
    assert HeaderLines() == [FieldLine(BEGIN_CALENDAR), FieldLine(VERSION), FieldLine(Field("PRODID", PRODUCT)), FieldLine(GREGORIAN)];
  }

  lemma {:induction false} ClosingIs()
    ensures [FieldLine(END_EVENT), FieldLine(END_CALENDAR)] == CLOSING
  {
    FrameTextsOfEvent();
  }

  lemma {:induction false} CalendarText()
    ensures FieldLine(BEGIN_CALENDAR) == "BEGIN:VCALENDAR"
  {
  }

  lemma {:induction false} VersionText()
    ensures FieldLine(VERSION) == "VERSION:2.0" && FieldLine(GREGORIAN) == "CALSCALE:GREGORIAN"
  {
  }

  lemma {:induction false} ProductText()
    ensures FieldLine(Field("PRODID", PRODUCT)) == "PRODID:" + "-//Open Practice//Matter Calendar//EN"
  {
    assert "PRODID" + ":" == "PRODID:";
  }

  lemma {:induction false} FrameTextsOfEvent()
    ensures FieldLine(BEGIN_EVENT) == "BEGIN:VEVENT" && FieldLine(END_EVENT) == "END:VEVENT" && FieldLine(END_CALENDAR) == "END:VCALENDAR"
  {
  }

  const FRAME_NAMES: seq<string> := ["BEGIN", "VERSION", "PRODID", "CALSCALE", "END"]

  lemma {:induction false} FramesParse()
    ensures ParsedField(FieldLine(BEGIN_CALENDAR)) == BEGIN_CALENDAR && ParsedField(FieldLine(VERSION)) == VERSION
    ensures ParsedField(FieldLine(Field("PRODID", PRODUCT))) == Field("PRODID", PRODUCT) && ParsedField(FieldLine(GREGORIAN)) == GREGORIAN
    ensures ParsedField(FieldLine(BEGIN_EVENT)) == BEGIN_EVENT && ParsedField(FieldLine(END_EVENT)) == END_EVENT
    ensures ParsedField(FieldLine(END_CALENDAR)) == END_CALENDAR
  {
    FrameNames();
    HeaderNames();
    ComponentNames();
    ProductOneLine();
    FieldReads(BEGIN_CALENDAR);
    FieldReads(VERSION);
    FieldReads(Field("PRODID", PRODUCT));
    FieldReads(GREGORIAN);
    FieldReads(BEGIN_EVENT);
    FieldReads(END_EVENT);
    FieldReads(END_CALENDAR);
  }

  lemma {:induction false} HeaderHasNone(name: string)
    requires name !in FRAME_NAMES
    ensures Lookup(Map(ParsedField, HeaderLines()), name).None?
    ensures Lookup(Map(ParsedField, [FieldLine(BEGIN_EVENT)]), name).None? && Lookup(Map(ParsedField, [FieldLine(END_EVENT)]), name).None?
    ensures Lookup(Map(ParsedField, [FieldLine(END_CALENDAR)]), name).None?
  {
    FramesParse();
    var names := FRAME_NAMES;
    assert name != names[0] && name != names[1] && name != names[2] && name != names[3] && name != names[4];
    LookupNone(Map(ParsedField, HeaderLines()), name);
  }

  /** A lookup in all lines of the sent document finds what the event's lines have. */
  lemma {:induction false} DocumentLookup(clock: Clock, order: EmailOrder, e: CalendarEvent, name: string)
    requires ValidEvent(clock, e) && name !in FRAME_NAMES
    ensures Lookup(Map(ParsedField, ReadLines(Utf8(Document(order, e)))), name) == Lookup(Map(ParsedField, Received(order, e)), name)
  {
    DocumentText(order, e);
    DocumentIsContent(clock, order, e);
    ArrivedReads(DocumentLines(order, e));
    DocumentArrives(order, e);
    HeaderHasNone(name);
    FramedLookup(HeaderLines(), [FieldLine(BEGIN_EVENT)], Received(order, e), [FieldLine(END_EVENT)], [FieldLine(END_CALENDAR)], name);
  }

  lemma {:induction false} FramedLookup(h: seq<string>, b: seq<string>, r: seq<string>, e: seq<string>, l: seq<string>, name: string)
    requires Lookup(Map(ParsedField, h), name).None? && Lookup(Map(ParsedField, b), name).None?
    requires Lookup(Map(ParsedField, e), name).None? && Lookup(Map(ParsedField, l), name).None?
    ensures Lookup(Map(ParsedField, h + (b + r + e) + l), name) == Lookup(Map(ParsedField, r), name)
  {
    MapConcat(ParsedField, b, r);
    MapConcat(ParsedField, b + r, e);
    MapConcat(ParsedField, h, b + r + e);
    MapConcat(ParsedField, h + (b + r + e), l);
    LookupConcat(Map(ParsedField, b), Map(ParsedField, r), name);
    LookupConcat(Map(ParsedField, b) + Map(ParsedField, r), Map(ParsedField, e), name);
    LookupConcat(Map(ParsedField, h), Map(ParsedField, b + r + e), name);
    LookupConcat(Map(ParsedField, h) + Map(ParsedField, b + r + e), Map(ParsedField, l), name);
  }

  lemma {:induction false} MarkNamesFree()
    ensures "CREATED" !in FRAME_NAMES && "LAST-MODIFIED" !in FRAME_NAMES && "DTSTAMP" !in FRAME_NAMES
    ensures "X-OPEN-PRACTICE-FIRM-ID" !in FRAME_NAMES && MATTER_NAME !in FRAME_NAMES && CLIENT_NAME !in FRAME_NAMES
  {
    assert "CREATED"[1] == 'R' && "VERSION"[1] == 'E' && "DTSTAMP"[0] == 'D' && |"BEGIN"| == 5 && |"PRODID"| == 6 && |"END"| == 3 && |"CALSCALE"| == 8;
    assert |"LAST-MODIFIED"| == 13 && |"X-OPEN-PRACTICE-FIRM-ID"| == 23 && |MATTER_NAME| == 25 && |CLIENT_NAME| == 33;
  }

  /** A reader of the sent document finds the dates of creation and of the last
      change, which is also the stamp, and the ids of firm, matter and client. */
  lemma {:induction false} MarksArrive(clock: Clock, order: EmailOrder, e: CalendarEvent)
    requires ValidEvent(clock, e)
    ensures var fields := Map(ParsedField, ReadLines(Utf8(Document(order, e))));
            && Lookup(fields, "CREATED") == Some(FormatUtc(e.createdAt))
            && Lookup(fields, "LAST-MODIFIED") == Lookup(fields, "DTSTAMP") == Some(FormatUtc(e.updatedAt))
            && Lookup(fields, "X-OPEN-PRACTICE-FIRM-ID") == Some(ArrivedValue("X-OPEN-PRACTICE-FIRM-ID", Escape(e.firmId)))
            && ReadsText(fields, "X-OPEN-PRACTICE-MATTER-ID", e.matterId)
            && ReadsText(fields, "X-OPEN-PRACTICE-CLIENT-CONTACT-ID", e.clientContactId)
  {
    DatesArrive(clock, order, e);
    IdsArrive(clock, order, e);
    MarkNamesFree();
    DocumentLookup(clock, order, e, "CREATED");
    DocumentLookup(clock, order, e, "LAST-MODIFIED");
    DocumentLookup(clock, order, e, "DTSTAMP");
    DocumentLookup(clock, order, e, "X-OPEN-PRACTICE-FIRM-ID");
    DocumentLookup(clock, order, e, MATTER_NAME);
    DocumentLookup(clock, order, e, CLIENT_NAME);
  }

  lemma {:induction false} DatesArrive(clock: Clock, order: EmailOrder, e: CalendarEvent)
    requires ValidEvent(clock, e)
    ensures var fields := Map(ParsedField, Received(order, e));
            && Lookup(fields, "CREATED") == Some(FormatUtc(e.createdAt))
            && Lookup(fields, "LAST-MODIFIED") == Lookup(fields, "DTSTAMP") == Some(FormatUtc(e.updatedAt))
  {
    SentMarks(e);
    DateNames();
    ChangeNames();
    FormattedNoHalf(e.createdAt);
    FormattedNoHalf(e.updatedAt);
    PlainValueArrives("DTSTAMP", FormatUtc(e.updatedAt));
    PlainValueArrives("CREATED", FormatUtc(e.createdAt));
    PlainValueArrives("LAST-MODIFIED", FormatUtc(e.updatedAt));
    LookupReceived(clock, order, e, "DTSTAMP");
    LookupReceived(clock, order, e, "CREATED");
    LookupReceived(clock, order, e, "LAST-MODIFIED");
  }

  lemma {:induction false} IdsArrive(clock: Clock, order: EmailOrder, e: CalendarEvent)
    requires ValidEvent(clock, e)
    ensures var fields := Map(ParsedField, Received(order, e));
            && Lookup(fields, "X-OPEN-PRACTICE-FIRM-ID") == Some(ArrivedValue("X-OPEN-PRACTICE-FIRM-ID", Escape(e.firmId)))
            && ReadsText(fields, MATTER_NAME, e.matterId) && ReadsText(fields, CLIENT_NAME, e.clientContactId)
  {
    SentMarks(e);
    SentIds(e);
    FirmName();
    MatterName();
    ClientName();
    LookupReceived(clock, order, e, "X-OPEN-PRACTICE-FIRM-ID");
    LookupReceived(clock, order, e, MATTER_NAME);
    LookupReceived(clock, order, e, CLIENT_NAME);
  }

  /** The event's values pass the checks of the import one by one. */
  ghost predicate Readable(clock: Clock, number: string -> Option<int>, e: CalendarEvent) {
    && IsoText(e.startsAt) && IsoText(e.endsAt)
    && ArrivedValue("UID", Escape(EventUid(e))) != "" && (ArrivedValue("SUMMARY", Escape(e.title)) == "" <==> e.title == "")
    && ParseUtc(clock, FormatUtc(e.startsAt)) == Some(WholeSecond(e.startsAt)) && ParseUtc(clock, FormatUtc(e.endsAt)) == Some(WholeSecond(e.endsAt))
    && ParseStatus(Upper(StatusName(e.status))) == Some(e.status) && number(Decimal(e.sequence)) == Some(e.sequence)
  }

  lemma {:induction false} ArrivedEmptyIff(name: string, text: string)
    requires PlainName(name)
    ensures ArrivedValue(name, Escape(text)) == "" <==> text == ""
  {
    ArrivedFieldLine(Field(name, Escape(text)));
    EscapeEmptyIff(text);
  }

  lemma {:induction false} EventIsReadable(clock: Clock, number: string -> Option<int>, e: CalendarEvent)
    requires ValidEvent(clock, e) && ReadsSeconds(clock) && ReadsNumbers(number)
    ensures Readable(clock, number, e)
  {
    TextNames();
    ArrivedEmptyIff("UID", EventUid(e));
    ArrivedEmptyIff("SUMMARY", e.title);
    StatusReadsBack(e.status);
    DateReadsBack(clock, e.startsAt);
    DateReadsBack(clock, e.endsAt);
  }

  /** The checks of the import, given what the lookups find, up to the dates. */
  lemma {:induction false} BodyReadBack(clock: Clock, number: string -> Option<int>, e: CalendarEvent, body: seq<Field>, invited: seq<Invited>)
    ensures Finds(body, e) && Readable(clock, number, e) ==>
            ImportBody(clock, number, body, invited) ==
            if e.title == "" then Failed(Incomplete)
            else ImportDates(clock, ReadBack(e, invited).(startsAt := FormatUtc(e.startsAt), endsAt := FormatUtc(e.endsAt)))
  {
    if Finds(body, e) && Readable(clock, number, e) {
      assert FormatUtc(e.startsAt) != "" && FormatUtc(e.endsAt) != "";
      assert Filled(Lookup(body, "UID")) && Filled(Lookup(body, "DTSTART")) && Filled(Lookup(body, "DTEND"));
      assert Filled(Lookup(body, "SUMMARY")) <==> e.title != "";
      NotesRead(body, e);
    }
  }

  lemma {:induction false} NotesRead(body: seq<Field>, e: CalendarEvent)
    requires Finds(body, e)
    ensures UnescapeOption(Lookup(body, "DESCRIPTION")) == ReadNote("DESCRIPTION", e.description)
    ensures UnescapeOption(Lookup(body, "LOCATION")) == ReadNote("LOCATION", e.location)
  {
  }

  lemma {:induction false} DatesReadBack(clock: Clock, startsAt: string, endsAt: string, raw: Content)
    requires ReadsSeconds(clock) && IsoText(startsAt) && IsoText(endsAt)
    requires clock(startsAt).Some? && clock(endsAt).Some? && clock(startsAt).value < clock(endsAt).value
    requires ParseUtc(clock, raw.startsAt) == Some(WholeSecond(startsAt)) && ParseUtc(clock, raw.endsAt) == Some(WholeSecond(endsAt))
    ensures ImportDates(clock, raw) ==
            if clock(startsAt).value / 1000 == clock(endsAt).value / 1000 then Failed(BadRange)
            else Imported(raw.(startsAt := WholeSecond(startsAt), endsAt := WholeSecond(endsAt)))
  {
    RangeIff(clock(startsAt).value, clock(endsAt).value);
  }

  lemma {:induction false} RangeIff(start: int, end: int)
    requires start < end
    ensures start / 1000 * 1000 >= end / 1000 * 1000 <==> start / 1000 == end / 1000
  {
  }

  /** What the import makes of the server's own document: it refuses it when an
      attendee that was sent cannot be read, when the title is empty, and when the
      event starts and ends within one second of the clock; otherwise it reads back
      the event but for cut characters, escaping and milliseconds. */
  lemma {:induction false} DocumentReadBack(
    clock: Clock, number: string -> Option<int>, order: EmailOrder, e: CalendarEvent, sent: seq<Attendee>)
    requires ValidEvent(clock, e) && ReadsSeconds(clock) && ReadsNumbers(number)
    requires TotalPreorder(order) && SentAttendees(order, e.attendees, sent)
    ensures ImportEvent(clock, number, Utf8(Document(order, e))) ==
            match AttendeesRead(sent)
            case Refused(error) => Failed(BadAttendee(error))
            case All(invited) =>
              if e.title == "" then Failed(Incomplete)
              else if clock(e.startsAt).value / 1000 == clock(e.endsAt).value / 1000 then Failed(BadRange)
              else Imported(ReadBack(e, invited))
  {
    ListedIff(order, e, sent);
    ListedReadBack(clock, number, order, e);
  }

  lemma {:induction false} ListedReadBack(clock: Clock, number: string -> Option<int>, order: EmailOrder, e: CalendarEvent)
    requires ValidEvent(clock, e) && ReadsSeconds(clock) && ReadsNumbers(number)
    ensures ImportEvent(clock, number, Utf8(Document(order, e))) ==
            match AttendeesRead(Listed(order, e))
            case Refused(error) => Failed(BadAttendee(error))
            case All(invited) =>
              if e.title == "" then Failed(Incomplete)
              else if clock(e.startsAt).value / 1000 == clock(e.endsAt).value / 1000 then Failed(BadRange)
              else Imported(ReadBack(e, invited))
  {
    DocumentImports(clock, number, order, e);
    ReceivedAttendees(clock, order, e);
    ReceivedFinds(clock, order, e);
    EventIsReadable(clock, number, e);
    var read := AttendeesRead(Listed(order, e));
    if read.All? {
      BodyReadBack(clock, number, e, Map(ParsedField, Received(order, e)), read.invited);
      DatesReadBack(clock, e.startsAt, e.endsAt, ReadBack(e, read.invited).(startsAt := FormatUtc(e.startsAt), endsAt := FormatUtc(e.endsAt)));
    }
  }

  // ----- When the event comes back as it was -----

  /** The event's own content, with the attendees that were sent. */
  function ContentOf(e: CalendarEvent, sent: seq<Attendee>): Content {
    Content(if e.uid == "" then e.id + "@open-practice.local" else e.uid, e.title, e.startsAt, e.endsAt,
            e.description, e.location, e.status, e.sequence, Map(InvitedOf, sent))
  }

  /** The text survives escaping, and folding its line cuts no character in two. */
  ghost predicate TextReturns(name: string, text: string) {
    Survives(text) && NotCut(FieldLine(Field(name, Escape(text))))
  }

  ghost predicate NoteReturns(name: string, note: Option<string>) {
    note.Some? ==> note.value != "" && TextReturns(name, note.value)
  }

  predicate OnTheSecond(iso: string)
    requires |iso| == 24
  {
    iso[19..] == ".000Z"
  }

  lemma {:induction false} TextReturnsIff(name: string, text: string)
    requires PlainName(name)
    ensures ReadText(name, text) == text <==> TextReturns(name, text)
  {
    var f := Field(name, Escape(text));
    ArrivedFieldLine(f);
    ArrivedIff(FieldLine(f));
    FadedTextReadsIff(text, ArrivedField(f).value);
    if Arrived(FieldLine(f)) == FieldLine(f) { SameValue(name, ArrivedField(f).value, Escape(text)); }
  }

  lemma {:induction false} SameValue(name: string, a: string, b: string)
    requires FieldLine(Field(name, a)) == FieldLine(Field(name, b))
    ensures a == b
  {
    var n := |name| + 1;
    assert a == FieldLine(Field(name, a))[n..] && b == FieldLine(Field(name, b))[n..];
  }

  lemma {:induction false} NoteReturnsIff(name: string, note: Option<string>)
    requires PlainName(name)
    ensures ReadNote(name, note) == note <==> NoteReturns(name, note)
  {
    if note.Some? { TextReturnsIff(name, note.value); }
  }

  lemma {:induction false} SecondIff(iso: string)
    requires |iso| == 24
    ensures WholeSecond(iso) == iso <==> OnTheSecond(iso)
  {
    assert iso == iso[..19] + iso[19..];
  }

  ghost predicate EventReturns(e: CalendarEvent)
    requires |e.startsAt| == 24 && |e.endsAt| == 24
  {
    && e.title != "" && TextReturns("SUMMARY", e.title) && TextReturns("UID", EventUid(e))
    && NoteReturns("DESCRIPTION", e.description) && NoteReturns("LOCATION", e.location)
    && OnTheSecond(e.startsAt) && OnTheSecond(e.endsAt)
    && forall a :: a in e.attendees && (a.deletedAt == None || a.deletedAt == Some("")) ==> Returns(a)
  }

  lemma {:induction false} SentReturnIff(order: EmailOrder, attendees: seq<Attendee>, sent: seq<Attendee>)
    requires SentAttendees(order, attendees, sent)
    ensures (forall i :: 0 <= i < |sent| ==> Returns(sent[i]))
        <==> forall a :: a in attendees && (a.deletedAt == None || a.deletedAt == Some("")) ==> Returns(a)
  {
    forall a ensures a in sent <==> a in attendees && (a.deletedAt == None || a.deletedAt == Some("")) {
      assert multiset(sent)[a] > 0 <==> a in sent;
      assert multiset(attendees)[a] > 0 <==> a in attendees;
    }
    if forall i :: 0 <= i < |sent| ==> Returns(sent[i]) {
      forall a | a in sent ensures Returns(a) { var i :| 0 <= i < |sent| && sent[i] == a; }
    }
  }

  lemma {:induction false} ReadBackIff(e: CalendarEvent, sent: seq<Attendee>, invited: seq<Invited>)
    requires |e.startsAt| == 24 && |e.endsAt| == 24
    ensures ReadBack(e, invited) == ContentOf(e, sent) <==>
            && TextReturns("SUMMARY", e.title) && TextReturns("UID", EventUid(e))
            && NoteReturns("DESCRIPTION", e.description) && NoteReturns("LOCATION", e.location)
            && OnTheSecond(e.startsAt) && OnTheSecond(e.endsAt) && invited == Map(InvitedOf, sent)
  {
    TextNames();
    NoteNames();
    TextReturnsIff("SUMMARY", e.title);
    TextReturnsIff("UID", EventUid(e));
    NoteReturnsIff("DESCRIPTION", e.description);
    NoteReturnsIff("LOCATION", e.location);
    SecondIff(e.startsAt);
    SecondIff(e.endsAt);
  }

  /** An event that the CalDAV server sends is read back as it was if and only if
      its title is not empty, its texts survive escaping and are not cut inside a
      character, its notes are not empty texts, it starts and ends on a second of
      the clock, and every attendee that is not deleted comes back. */
  lemma {:induction false} EventRoundTripIff(
    clock: Clock, number: string -> Option<int>, order: EmailOrder, e: CalendarEvent, sent: seq<Attendee>)
    requires ValidEvent(clock, e) && ReadsSeconds(clock) && ReadsNumbers(number)
    requires TotalPreorder(order) && SentAttendees(order, e.attendees, sent)
    ensures ImportEvent(clock, number, Utf8(Document(order, e))) == Imported(ContentOf(e, sent)) <==> EventReturns(e)
  {
    DocumentReadBack(clock, number, order, e, sent);
    AttendeesReturnIff(sent);
    SentReturnIff(order, e.attendees, sent);
    var read := AttendeesRead(sent);
    if read.All? { ReadBackIff(e, sent, read.invited); }
    SecondIff(e.startsAt);
    SecondIff(e.endsAt);
  }

  // ----- Events that do not come back -----

  /** A moment after ten, given by its milliseconds. */
  function TenOClock(millis: string): string {
    TEN + millis + "Z"
  }

  const TEN := "2026-01-02T10:00:00."

  lemma {:induction false} TenIsIso(millis: string)
    requires |millis| == 3 && Digits(millis)
    ensures IsoText(TenOClock(millis))
  {
    var s := TenOClock(millis);
    assert s[..4] == "2026" && s[5..7] == "01" && s[8..10] == "02";
    assert s[11..13] == "10" && s[14..16] == "00" && s[17..19] == "00" && s[20..23] == millis;
  }

  function Millis(s: string): nat
    requires |s| == 3 && Digits(s)
  {
    100 * (s[0] as int - '0' as int) + 10 * (s[1] as int - '0' as int) + (s[2] as int - '0' as int)
  }

  /** A clock that reads the moments of one second. */
  function OneSecondClock(s: string): Option<int> {
    if IsoText(s) && s[..20] == TEN then Some(1767348000000 + Millis(s[20..23])) else None
  }

  lemma {:induction false} ClockReadsSeconds()
    ensures ReadsSeconds(OneSecondClock)
  {
    forall s | IsoText(s) && OneSecondClock(s).Some? ensures OneSecondClock(WholeSecond(s)) == Some(OneSecondClock(s).value / 1000 * 1000) {
      SecondReads(s);
    }
  }

  lemma {:induction false} NumbersAreRead()
    ensures ReadsNumbers(ParseDecimal)
  {
    forall n: nat ensures ParseDecimal(Decimal(n)) == Some(n) { DecimalParses(n); }
  }

  lemma {:induction false} TenReads(millis: string)
    requires |millis| == 3 && Digits(millis)
    ensures OneSecondClock(TenOClock(millis)) == Some(1767348000000 + Millis(millis))
  {
    TenIsIso(millis);
    var s := TenOClock(millis);
    assert s[..20] == TEN && s[20..23] == millis;
  }

  lemma {:induction false} SecondReads(s: string)
    requires IsoText(s) && s[..20] == TEN
    ensures OneSecondClock(WholeSecond(s)) == Some(OneSecondClock(s).value / 1000 * 1000)
  {
    assert s[..19] == s[..20][..19] == TEN[..19];
    assert TEN[..19] + ".000Z" == TenOClock("000");
    TenReads("000");
    var m := Millis(s[20..23]);
    MillisBound(s[20..23]);
    assert (1767348000000 + m) / 1000 * 1000 == 1767348000000;
  }

  lemma {:induction false} MillisBound(s: string)
    requires |s| == 3 && Digits(s)
    ensures Millis(s) < 1000
  {
  }

  /** An event of eight tenths of a second, without attendees. */
  ghost predicate ShortEvent(e: CalendarEvent) {
    && e.startsAt == e.createdAt == e.updatedAt == TenOClock("100") && e.endsAt == TenOClock("900")
    && e.title != "" && e.attendees == []
  }

  ghost predicate WithinOneSecond(clock: Clock, e: CalendarEvent) {
    ValidEvent(clock, e) && e.title != "" && clock(e.startsAt).value / 1000 == clock(e.endsAt).value / 1000
  }

  lemma {:induction false} MomentsRead()
    ensures OneSecondClock(TenOClock("100")) == Some(1767348000100) && OneSecondClock(TenOClock("900")) == Some(1767348000900)
  {
    TenReads("100");
    TenReads("900");
  }

  lemma {:induction false} ShortEventIsValid(e: CalendarEvent)
    ensures ShortEvent(e) ==> WithinOneSecond(OneSecondClock, e)
  {
    TenIsIso("100");
    TenIsIso("900");
    MomentsRead();
  }

  lemma {:induction false} SameSecondRefused(clock: Clock, number: string -> Option<int>, order: EmailOrder, e: CalendarEvent)
    ensures ReadsSeconds(clock) && ReadsNumbers(number) && WithinOneSecond(clock, e) && e.attendees == [] ==>
            ImportEvent(clock, number, Utf8(Document(order, e))) == Failed(BadRange)
  {
    if ReadsSeconds(clock) && ReadsNumbers(number) && WithinOneSecond(clock, e) && e.attendees == [] {
      assert Listed(order, e) == [];
      assert AttendeesRead([]) == All([]);
      ListedReadBack(clock, number, order, e);
    }
  }

  /** It is sent and not accepted back. */
  lemma {:induction false} ShortEventRefused(order: EmailOrder, e: CalendarEvent)
    ensures ShortEvent(e) ==> ImportEvent(OneSecondClock, ParseDecimal, Utf8(Document(order, e))) == Failed(BadRange)
  {
    ClockReadsSeconds();
    NumbersAreRead();
    ShortEventIsValid(e);
    SameSecondRefused(OneSecondClock, ParseDecimal, order, e);
  }

  /** An event whose first attendee is called "Lee: Counsel", or the like, is sent
      and not accepted back. */
  lemma {:induction false} ColonAttendeeRefused(
    clock: Clock, number: string -> Option<int>, order: EmailOrder, e: CalendarEvent, sent: seq<Attendee>, p: string, q: string)
    requires ValidEvent(clock, e) && ReadsSeconds(clock) && ReadsNumbers(number)
    requires TotalPreorder(order) && SentAttendees(order, e.attendees, sent)
    requires PlainText(p) && PlainText(q) && NoDelimiter(p) && sent != [] && sent[0].name == p + (":" + (" " + q))
    ensures ImportEvent(clock, number, Utf8(Document(order, e))) == Failed(BadAttendee(NotMailto))
  {
    var a := sent[0];
    DocumentReadBack(clock, number, order, e, sent);
    AttendeesPeel(sent);
    ArrivedFades(AttendeeLine(a));
    ColonNameRefused(a, Arrived(AttendeeLine(a)), p, q);
  }

  lemma {:induction false} EscapeOrdinary(s: string)
    requires forall i :: 0 <= i < |s| ==> s[i] != '\r' && EscapeChar(s[i]) == [s[i]]
    ensures Escape(s) == s
  {
    if s != [] {
      assert s == [s[0]] + s[1..];
      EscapeHead(s[0], s[1..]);
      EscapeOrdinary(s[1..]);
    }
  }

  /** A title of 66 letters and an emoji is whole and survives escaping, but
      folding cuts the emoji in two. */
  lemma {:induction false} EmojiTitleIsCut(title: string)
    requires title == seq(66, _ => 'x') + ['\U{10D83D}', '\U{10DE00}']
    ensures Paired(title) && Survives(title) && !TextReturns("SUMMARY", title)
  {
    EscapeOrdinary(title);
    CutAtFold(FieldLine(Field("SUMMARY", title)));
    EmojiTitleIsWhole(title);
  }

  lemma {:induction false} EmojiTitleIsWhole(title: string)
    requires title == seq(66, _ => 'x') + ['\U{10D83D}', '\U{10DE00}']
    ensures Paired(title)
  {
    forall i | 0 <= i < |title| ensures PairedAt(title, i) {}
  }

  lemma {:induction false} CutAtFold(line: string)
    requires |line| == 76 && IsHigh(line[74])
    ensures !NotCut(line)
  {
    NotCutIff(line);
    assert (74 + 1) % FOLD_AT == 0;
  }
}
