/** Calendar events as the feed and the CalDAV server send them, and the import
    that reads an event back. */
module ICalendarEvents {
  import opened Sequences
  import opened Text
  import opened ICalendarText
  import opened ICalendarLines
  import opened ICalendarAttendees
  import Sorting

  // ----- Dates -----

  predicate IsDigit(c: char) {
    '0' <= c <= '9'
  }

  predicate Digits(s: string) {
    forall i :: 0 <= i < |s| ==> IsDigit(s[i])
  }

  /** A date as `toISOString` prints it, with a year of four digits. */
  predicate IsoText(s: string) {
    && |s| == 24
    && Digits(s[..4]) && s[4] == '-' && Digits(s[5..7]) && s[7] == '-' && Digits(s[8..10]) && s[10] == 'T'
    && Digits(s[11..13]) && s[13] == ':' && Digits(s[14..16]) && s[16] == ':' && Digits(s[17..19])
    && s[19] == '.' && Digits(s[20..23]) && s[23] == 'Z'
  }

  predicate NotPunctuation(c: char) {
    c != '-' && c != ':'
  }

  /** `s.replace(/\.\d{3}Z$/, "Z")`. */
  function DropMillis(s: string): string {
    var n := |s|;
    if n >= 5 && s[n - 5] == '.' && Digits(s[n - 4..n - 1]) && s[n - 1] == 'Z' then s[..n - 5] + "Z" else s
  }

  /** `formatUtcDateTime` of a date with the given ISO text. */
  function FormatUtc(iso: string): string {
    DropMillis(Filter(NotPunctuation, iso))
  }

  /** The test `/^\d{8}T\d{6}Z$/`. */
  predicate UtcForm(s: string) {
    |s| == 16 && Digits(s[..8]) && s[8] == 'T' && Digits(s[9..15]) && s[15] == 'Z'
  }

  function IsoOf(s: string): string
    requires |s| == 16
  {
    s[..4] + "-" + s[4..6] + "-" + s[6..8] + "T" + s[9..11] + ":" + s[11..13] + ":" + s[13..15] + ".000Z"
  }

  /** `Date.parse`, None for what is not a date. */
  type Clock = string -> Option<int>

  /** `parseUtcICalendarDateTime`. */
  function ParseUtc(clock: Clock, s: string): Option<string> {
    if UtcForm(s) && clock(IsoOf(s)).Some? then Some(IsoOf(s)) else None
  }

  /** The same date without its milliseconds. */
  function WholeSecond(iso: string): string
    requires |iso| == 24
  {
    iso[..19] + ".000Z"
  }

  lemma {:induction false} FilterDigits(s: string)
    requires Digits(s)
    ensures Filter(NotPunctuation, s) == s
  {
    forall c | c in s ensures NotPunctuation(c) {
      var i :| 0 <= i < |s| && s[i] == c;
    }
    FilterAll(NotPunctuation, s);
  }

  /** Digits, then one character: what is left of both and of the rest. */
  lemma {:induction false} FilterStep(s: string, from: nat, mid: nat)
    requires from <= mid < |s| && Digits(s[from..mid])
    ensures Filter(NotPunctuation, s[from..])
         == s[from..mid] + if NotPunctuation(s[mid]) then [s[mid]] + Filter(NotPunctuation, s[mid + 1..]) else Filter(NotPunctuation, s[mid + 1..])
  {
    var digits, c, rest := s[from..mid], [s[mid]], s[mid + 1..];
    assert s[from..] == digits + (c + rest);
    FilterDigits(digits);
    FilterConcat(NotPunctuation, digits, c + rest);
    FilterConcat(NotPunctuation, c, rest);
    assert Filter(NotPunctuation, c) == if NotPunctuation(s[mid]) then c else [];
  }

  lemma {:induction false} DatePunctuation(s: string)
    requires IsoText(s)
    ensures Filter(NotPunctuation, s) == s[..4] + (s[5..7] + (s[8..10] + ("T" + Filter(NotPunctuation, s[11..]))))
  {
    assert s[0..] == s && s[0..4] == s[..4];
    FilterStep(s, 0, 4);
    MonthPunctuation(s);
  }

  lemma {:induction false} MonthPunctuation(s: string)
    requires IsoText(s)
    ensures Filter(NotPunctuation, s[5..]) == s[5..7] + (s[8..10] + ("T" + Filter(NotPunctuation, s[11..])))
  {
    FilterStep(s, 5, 7);
    FilterStep(s, 8, 10);
  }

  lemma {:induction false} TimePunctuation(s: string)
    requires IsoText(s)
    ensures Filter(NotPunctuation, s[11..]) == s[11..13] + (s[14..16] + (s[17..19] + ("." + (s[20..23] + "Z"))))
  {
    FilterStep(s, 11, 13);
    FilterStep(s, 14, 16);
    SecondPunctuation(s);
  }

  lemma {:induction false} SecondPunctuation(s: string)
    requires IsoText(s)
    ensures Filter(NotPunctuation, s[17..]) == s[17..19] + ("." + (s[20..23] + "Z"))
  {
    FilterStep(s, 17, 19);
    FilterStep(s, 20, 23);
    assert Filter(NotPunctuation, s[24..]) == [];
    assert "Z" + [] == "Z";
  }

  lemma {:induction false} FormattedDate(s: string)
    requires IsoText(s)
    ensures FormatUtc(s) == s[..4] + s[5..7] + s[8..10] + "T" + s[11..13] + s[14..16] + s[17..19] + "Z"
  {
    DatePunctuation(s);
    TimePunctuation(s);
    Regrouped(s[..4], s[5..7], s[8..10], s[11..13], s[14..16], s[17..19], s[20..23]);
  }

  lemma {:induction false} Regrouped(y: string, m: string, d: string, h: string, n: string, c: string, f: string)
    requires |f| == 3 && Digits(f)
    ensures DropMillis(y + (m + (d + ("T" + (h + (n + (c + ("." + (f + "Z")))))))))
         == y + m + d + "T" + h + n + c + "Z"
  {
    var tail := "." + (f + "Z");
    Associate(y, m, d + ("T" + (h + (n + (c + tail)))));
    Associate(y + m, d, "T" + (h + (n + (c + tail))));
    Associate(y + m + d, "T", h + (n + (c + tail)));
    Associate(y + m + d + "T", h, n + (c + tail));
    Associate(y + m + d + "T" + h, n, c + tail);
    Associate(y + m + d + "T" + h + n, c, tail);
    MillisDropped(y + m + d + "T" + h + n + c, f);
  }

  lemma {:induction false} MillisDropped(front: string, f: string)
    requires |f| == 3 && Digits(f)
    ensures DropMillis(front + ("." + (f + "Z"))) == front + "Z"
  {
    var t := front + ("." + (f + "Z"));
    var k := |t|;
    assert t[k - 5] == '.' && t[k - 4..k - 1] == f && t[k - 1] == 'Z' && t[..k - 5] == front;
  }

  /** A printed date is read back without its milliseconds. */
  lemma {:induction false} DateReadsBack(clock: Clock, s: string)
    requires IsoText(s) && clock(WholeSecond(s)).Some?
    ensures ParseUtc(clock, FormatUtc(s)) == Some(WholeSecond(s))
  {
    FormattedDate(s);
    var t := FormatUtc(s);
    assert t[..4] == s[..4] && t[4..6] == s[5..7] && t[6..8] == s[8..10] && t[8] == 'T';
    assert t[9..11] == s[11..13] && t[11..13] == s[14..16] && t[13..15] == s[17..19] && t[15] == 'Z';
    assert t[..8] == s[..4] + s[5..7] + s[8..10] && t[9..15] == s[11..13] + s[14..16] + s[17..19];
    assert IsoOf(t) == WholeSecond(s);
  }

  lemma {:induction false} FormattedOneLine(s: string)
    requires IsoText(s)
    ensures OneLine(FormatUtc(s))
  {
    FormattedDate(s);
    forall c | c in FormatUtc(s) ensures c == 'T' || c == 'Z' || c in s {
    }
    forall i | 0 <= i < |s| ensures s[i] != '\r' && s[i] != '\n' { IsoChars(s, i); }
  }

  lemma {:induction false} IsoChars(s: string, i: nat)
    requires IsoText(s) && i < 24
    ensures IsDigit(s[i]) || s[i] in "-T:.Z"
  {
    if i < 4 { assert s[..4][i] == s[i]; }
    else if 5 <= i < 7 { assert s[5..7][i - 5] == s[i]; }
    else if 8 <= i < 10 { assert s[8..10][i - 8] == s[i]; }
    else if 11 <= i < 13 { assert s[11..13][i - 11] == s[i]; }
    else if 14 <= i < 16 { assert s[14..16][i - 14] == s[i]; }
    else if 17 <= i < 19 { assert s[17..19][i - 17] == s[i]; }
    else if 20 <= i < 23 { assert s[20..23][i - 20] == s[i]; }
    else { assert s[i] == '-' || s[i] == 'T' || s[i] == ':' || s[i] == '.' || s[i] == 'Z'; }
  }

  // ----- Export -----

  datatype Status = Confirmed | Tentative | Cancelled

  /** An event; its dates are ISO texts. */
  datatype CalendarEvent = CalendarEvent(
    id: string, uid: string, firmId: string, matterId: Option<string>, clientContactId: Option<string>,
    title: string, description: Option<string>, location: Option<string>, status: Status, sequence: nat,
    startsAt: string, endsAt: string, createdAt: string, updatedAt: string, attendees: seq<Attendee>)

  /** A content line: a name, a colon, a value. */
  datatype Field = Field(name: string, value: string)

  function FieldLine(f: Field): string {
    f.name + ":" + f.value
  }

  function EventUid(e: CalendarEvent): string {
    if e.uid != "" then e.uid else e.id + "@open-practice.local"
  }

  function StatusName(status: Status): string {
    match status
    case Confirmed => "CONFIRMED"
    case Tentative => "TENTATIVE"
    case Cancelled => "CANCELLED"
  }

  /** A line for a text that is there and not empty. */
  function OptionalField(name: string, text: Option<string>): seq<Field> {
    if text.Some? && text.value != "" then [Field(name, Escape(text.value))] else []
  }

  /** The lines that every event has, stamped with a date. */
  function RequiredFields(stamp: string, e: CalendarEvent): seq<Field> {
    [Field("UID", Escape(EventUid(e))), Field("DTSTAMP", FormatUtc(stamp)), Field("DTSTART", FormatUtc(e.startsAt)),
     Field("DTEND", FormatUtc(e.endsAt)), Field("SUMMARY", Escape(e.title)), Field("STATUS", StatusName(e.status)),
     Field("SEQUENCE", Decimal(e.sequence)), Field("CREATED", FormatUtc(e.createdAt)), Field("LAST-MODIFIED", FormatUtc(e.updatedAt)),
     Field("X-OPEN-PRACTICE-FIRM-ID", Escape(e.firmId))]
  }

  function OptionalFields(e: CalendarEvent): seq<Field> {
    OptionalField("X-OPEN-PRACTICE-MATTER-ID", e.matterId) + OptionalField("X-OPEN-PRACTICE-CLIENT-CONTACT-ID", e.clientContactId)
    + OptionalField("DESCRIPTION", e.description) + OptionalField("LOCATION", e.location)
  }

  /** The event's own lines, without its attendees. */
  function BodyFields(stamp: string, e: CalendarEvent): seq<Field> {
    RequiredFields(stamp, e) + OptionalFields(e)
  }

  const PRODUCT := "-//Open Practice//Matter Calendar//EN"

  const BEGIN_CALENDAR := Field("BEGIN", "VCALENDAR")
  const VERSION := Field("VERSION", "2.0")
  const GREGORIAN := Field("CALSCALE", "GREGORIAN")
  const BEGIN_EVENT := Field("BEGIN", "VEVENT")
  const END_EVENT := Field("END", "VEVENT")
  const END_CALENDAR := Field("END", "VCALENDAR")

  /** `left.localeCompare(right) <= 0` on addresses. */
  type EmailOrder = (string, string) -> bool

  predicate LiveAttendee(a: Attendee) {
    a.deletedAt.None? || a.deletedAt.value == ""
  }

  function ByEmail(order: EmailOrder): (Attendee, Attendee) -> bool {
    (a: Attendee, b: Attendee) => order(a.email, b.email)
  }

  /** The attendees that are not deleted, by address. */
  function Listed(order: EmailOrder, e: CalendarEvent): seq<Attendee> {
    Sorting.Sort(ByEmail(order), Filter(LiveAttendee, e.attendees))
  }

  /** Attendees with an address that the order cannot tell from `email`. */
  function At(order: EmailOrder, email: string): Attendee -> bool {
    (a: Attendee) => order(a.email, email) && order(email, a.email)
  }

  /** `sent` are the attendees of an event that are not deleted, each as often as
      the event has it, ascending by address; those at one address stand as in
      the event. */
  ghost predicate SentAttendees(order: EmailOrder, attendees: seq<Attendee>, sent: seq<Attendee>) {
    && (forall a :: multiset(sent)[a] == if a.deletedAt == None || a.deletedAt == Some("") then multiset(attendees)[a] else 0)
    && (forall i, j :: 0 <= i < j < |sent| ==> order(sent[i].email, sent[j].email))
    && (forall email :: Filter(At(order, email), sent)
                     == Filter((a: Attendee) => a.deletedAt == None || a.deletedAt == Some(""), Filter(At(order, email), attendees)))
  }

  /** Exactly these are listed. */
  lemma {:induction false} ListedIff(order: EmailOrder, e: CalendarEvent, sent: seq<Attendee>)
    requires Sorting.TotalPreorder(order)
    ensures SentAttendees(order, e.attendees, sent) <==> sent == Listed(order, e)
  {
    var leq, live := ByEmail(order), Filter(LiveAttendee, e.attendees);
    ByEmailOrder(order);
    if SentAttendees(order, e.attendees, sent) {
      forall k ensures Filter(Sorting.Tied(leq, k), sent) == Filter(Sorting.Tied(leq, k), live) { TiedIsAt(order, e.attendees, sent, k); }
      Sorting.StableSortUnique(leq, live, sent);
    }
    ListedAreSent(order, e);
  }

  lemma {:induction false} ByEmailOrder(order: EmailOrder)
    requires Sorting.TotalPreorder(order)
    ensures Sorting.TotalPreorder(ByEmail(order))
  {
    var leq := ByEmail(order);
    forall a, b ensures leq(a, b) || leq(b, a) { assert order(a.email, b.email) || order(b.email, a.email); }
    forall a, b, c | leq(a, b) && leq(b, c) ensures leq(a, c) { assert order(a.email, b.email) && order(b.email, c.email); }
  }

  lemma {:induction false} AtOneAddress(order: EmailOrder, attendees: seq<Attendee>, email: string)
    ensures Filter((a: Attendee) => a.deletedAt == None || a.deletedAt == Some(""), Filter(At(order, email), attendees))
         == Filter(At(order, email), Filter(LiveAttendee, attendees))
  {
    var live := (a: Attendee) => a.deletedAt == None || a.deletedAt == Some("");
    FilterAgree(live, LiveAttendee, Filter(At(order, email), attendees));
    Sorting.FilterCommutes(LiveAttendee, At(order, email), attendees);
  }

  lemma {:induction false} TiedIsAt(order: EmailOrder, attendees: seq<Attendee>, sent: seq<Attendee>, k: Attendee)
    requires SentAttendees(order, attendees, sent)
    ensures Filter(Sorting.Tied(ByEmail(order), k), sent) == Filter(Sorting.Tied(ByEmail(order), k), Filter(LiveAttendee, attendees))
  {
    AtOneAddress(order, attendees, k.email);
    FilterAgree(Sorting.Tied(ByEmail(order), k), At(order, k.email), sent);
    FilterAgree(Sorting.Tied(ByEmail(order), k), At(order, k.email), Filter(LiveAttendee, attendees));
  }

  lemma {:induction false} ListedAreSent(order: EmailOrder, e: CalendarEvent)
    requires Sorting.TotalPreorder(order)
    ensures SentAttendees(order, e.attendees, Listed(order, e))
  {
    var leq, live, listed := ByEmail(order), Filter(LiveAttendee, e.attendees), Listed(order, e);
    ByEmailOrder(order);
    Sorting.SortPermutes(leq, live);
    Sorting.SortSorted(leq, live);
    forall a: Attendee ensures multiset(listed)[a] == if a.deletedAt == None || a.deletedAt == Some("") then multiset(e.attendees)[a] else 0 {
      Sorting.FilterMultiset(LiveAttendee, e.attendees, a);
    }
    forall i, j | 0 <= i < j < |listed| ensures order(listed[i].email, listed[j].email) { assert leq(listed[i], listed[j]); }
    forall email ensures Filter(At(order, email), listed)
                      == Filter((a: Attendee) => a.deletedAt == None || a.deletedAt == Some(""), Filter(At(order, email), e.attendees))
    {
      AtStaysInOrder(order, live, email);
      AtOneAddress(order, e.attendees, email);
    }
  }

  lemma {:induction false} AtStaysInOrder(order: EmailOrder, live: seq<Attendee>, email: string)
    requires Sorting.TotalPreorder(order) && Sorting.TotalPreorder(ByEmail(order))
    ensures Filter(At(order, email), Sorting.Sort(ByEmail(order), live)) == Filter(At(order, email), live)
  {
    var leq := ByEmail(order);
    if a :| a in live && At(order, email)(a) {
      Sorting.SortTied(leq, live, a);
      forall b ensures At(order, email)(b) == Sorting.Tied(leq, a)(b) {
        assert order(b.email, a.email) && order(a.email, email) ==> order(b.email, email);
        assert order(email, a.email) && order(a.email, b.email) ==> order(email, b.email);
        assert order(b.email, email) && order(email, a.email) ==> order(b.email, a.email);
        assert order(a.email, email) && order(email, b.email) ==> order(a.email, b.email);
      }
      FilterAgree(At(order, email), Sorting.Tied(leq, a), Sorting.Sort(leq, live));
      FilterAgree(At(order, email), Sorting.Tied(leq, a), live);
    } else {
      FilterNone(At(order, email), live);
      FilterNone(At(order, email), Sorting.Sort(leq, live));
    }
  }

  /** The lines between BEGIN:VEVENT and END:VEVENT. */
  function BodyLines(order: EmailOrder, stamp: string, e: CalendarEvent): seq<string> {
    Map(FieldLine, BodyFields(stamp, e)) + Map(AttendeeLine, Listed(order, e))
  }

  /** The content lines of `buildICalendarEvent`. */
  function EventLines(order: EmailOrder, stamp: string, e: CalendarEvent): seq<string> {
    [FieldLine(BEGIN_EVENT)] + BodyLines(order, stamp, e) + [FieldLine(END_EVENT)]
  }

  /** What the CalDAV server puts before an event. */
  const CALDAV_HEADER: seq<Field> := [BEGIN_CALENDAR, VERSION, Field("PRODID", PRODUCT), GREGORIAN]

  /** The document that the CalDAV server sends for an event, stamped with its last
      change. */
  function Document(order: EmailOrder, e: CalendarEvent): string {
    Join("\r\n", Map(FieldLine, CALDAV_HEADER)) + "\r\n" + EventText(EventLines(order, e.updatedAt, e)) + "\r\n" + FieldLine(END_CALENDAR) + "\r\n"
  }

  /** What `buildICalendarFeed` puts before the events. */
  function FeedHeader(productId: Option<string>, calendarName: string): seq<Field> {
    [BEGIN_CALENDAR, VERSION, Field("PRODID", Escape(if productId.Some? then productId.value else PRODUCT)),
     GREGORIAN, Field("METHOD", "PUBLISH"), Field("X-WR-CALNAME", Escape(calendarName))]
  }

  const DEFAULT_STAMP := "1970-01-01" + "T00:00:00" + ".000Z"

  /** The date that stamps the events of a feed. */
  function FeedStamp(generatedAt: Option<string>): string {
    if generatedAt.Some? then generatedAt.value else DEFAULT_STAMP
  }

  function FeedEvents(order: EmailOrder, stamp: string, events: seq<CalendarEvent>): seq<seq<string>> {
    Map((e: CalendarEvent) => EventLines(order, stamp, e), events)
  }

  /** `buildICalendarFeed`, of events in their order. */
  function Feed(
    order: EmailOrder, generatedAt: Option<string>, productId: Option<string>, calendarName: string, events: seq<CalendarEvent>): string
  {
    FeedText(Map(FieldLine, FeedHeader(productId, calendarName)),
             FeedEvents(order, FeedStamp(generatedAt), events), FieldLine(END_CALENDAR))
  }

  // ----- Import -----

  const UNSUPPORTED_PROPERTIES: set<string> := {"ORGANIZER", "RRULE", "RDATE", "EXDATE", "RECURRENCE-ID", "FREEBUSY", "REQUEST-STATUS", "TRIGGER"}
  const UNSUPPORTED_COMPONENTS: set<string> := {"VALARM", "VTODO", "VFREEBUSY", "VJOURNAL"}

  datatype ImportError =
    | BadLine | Unsupported(name: string) | NotOneEvent | NoEnd | BadAttendee(attendee: AttendeeError)
    | Incomplete | BadStatus | BadSequence | BadDate | BadRange

  datatype Content = Content(
    uid: string, title: string, startsAt: string, endsAt: string,
    description: Option<string>, location: Option<string>, status: Status, sequence: int, attendees: seq<Invited>)

  datatype Import = Imported(content: Content) | Failed(error: ImportError)

  function FieldOf(line: string): Option<Field> {
    var parsed := ParseContentLine(line);
    if parsed.None? then None else Some(Field(parsed.value.0, parsed.value.1))
  }

  function CheckField(f: Field): Option<ImportError> {
    if f.name == "BEGIN" && Upper(f.value) in UNSUPPORTED_COMPONENTS then Some(Unsupported(Upper(f.value)))
    else if Upper(f.name) in UNSUPPORTED_COMPONENTS || Upper(f.name) in UNSUPPORTED_PROPERTIES then Some(Unsupported(f.name))
    else if f.name == "METHOD" && Upper(f.value) != "PUBLISH" then Some(Unsupported(Upper(f.value)))
    else None
  }

  /** `assertSupportedICalendarPayload`, which also refuses a line without a colon. */
  function CheckLines(lines: seq<string>): Option<ImportError> {
    if lines == [] then None
    else
      var f := FieldOf(lines[0]);
      if f.None? then Some(BadLine)
      else if CheckField(f.value).Some? then CheckField(f.value)
      else CheckLines(lines[1..])
  }

  /** The content of a line; the check before makes sure that there is one. */
  function ParsedField(line: string): Field {
    if FieldOf(line).Some? then FieldOf(line).value else Field("", "")
  }

  predicate IsBegin(line: string) {
    ParsedField(line).name == "BEGIN" && Upper(ParsedField(line).value) == "VEVENT"
  }

  predicate IsEnd(line: string) {
    ParsedField(line).name == "END" && Upper(ParsedField(line).value) == "VEVENT"
  }

  /** What comes after the first line that meets `p`. */
  function After(p: string -> bool, lines: seq<string>): Option<seq<string>> {
    if lines == [] then None else if p(lines[0]) then Some(lines[1..]) else After(p, lines[1..])
  }

  /** What comes before the first line that meets `p`. */
  function Until(p: string -> bool, lines: seq<string>): Option<seq<string>> {
    if lines == [] then None
    else if p(lines[0]) then Some([])
    else
      var rest := Until(p, lines[1..]);
      if rest.None? then None else Some([lines[0]] + rest.value)
  }

  datatype Attendance = All(invited: seq<Invited>) | Refused(error: AttendeeError)

  /** The attendees of the event's lines, unless one cannot be read. */
  function ReadAttendees(lines: seq<string>): Attendance {
    if lines == [] then All([])
    else if ParsedField(lines[0]).name != "ATTENDEE" then ReadAttendees(lines[1..])
    else
      match ReadAttendee(lines[0])
      case Bad(error) => Refused(error)
      case Got(invited) =>
        var rest := ReadAttendees(lines[1..]);
        if rest.All? then All([invited] + rest.invited) else rest
  }

  /** The first value under a name. */
  function Lookup(fields: seq<Field>, name: string): Option<string> {
    if fields == [] then None else if fields[0].name == name then Some(fields[0].value) else Lookup(fields[1..], name)
  }

  /** The loop over the event's lines: attendees are pushed onto a list, and of
      the other lines the first of a name goes into the Map of values. */
  method GatherLines(lines: seq<string>) returns (values: map<string, string>, attendees: Attendance)
    ensures attendees == ReadAttendees(lines)
    ensures attendees.All? ==> forall name :: name != "ATTENDEE" ==>
              Lookup(Map(ParsedField, lines), name) == if name in values then Some(values[name]) else None
  {
    var fields := Map(ParsedField, lines);
    values := map[];
    var invited: seq<Invited> := [];
    for i := 0 to |lines|
      invariant ReadAttendees(lines) == Prepend(invited, ReadAttendees(lines[i..]))
      invariant forall name :: name != "ATTENDEE" ==>
                  Lookup(fields, name) == if name in values then Some(values[name]) else Lookup(fields[i..], name)
    {
      assert lines[i..][0] == lines[i] && lines[i..][1..] == lines[i + 1..];
      assert fields[i..][0] == fields[i] && fields[i..][1..] == fields[i + 1..];
      var f := ParsedField(lines[i]);
      if f.name == "ATTENDEE" {
        var reading := ReadAttendee(lines[i]);
        if reading.Bad? { return values, Refused(reading.error); }
        PrependOne(invited, reading.invited, ReadAttendees(lines[i + 1..]));
        invited := invited + [reading.invited];
      } else if f.name !in values {
        values := values[f.name := f.value];
      }
    }
    assert invited + [] == invited;
    attendees := All(invited);
  }

  ghost function Prepend(invited: seq<Invited>, rest: Attendance): Attendance {
    if rest.All? then All(invited + rest.invited) else rest
  }

  lemma {:induction false} PrependOne(invited: seq<Invited>, one: Invited, rest: Attendance)
    ensures Prepend(invited, Prepend([one], rest)) == Prepend(invited + [one], rest)
  {
    if rest.All? { assert invited + ([one] + rest.invited) == invited + [one] + rest.invited; }
  }

  function ParseStatus(s: string): Option<Status> {
    if s == "CONFIRMED" then Some(Confirmed) else if s == "TENTATIVE" then Some(Tentative) else if s == "CANCELLED" then Some(Cancelled) else None
  }

  function UnescapeOption(value: Option<string>): Option<string> {
    if value.Some? then Some(Unescape(value.value)) else None
  }

  predicate Filled(value: Option<string>) {
    value.Some? && value.value != ""
  }

  /** The checks on the event's own lines; `number` is `Number`, None for what is
      not an integer. */
  function ImportBody(clock: Clock, number: string -> Option<int>, body: seq<Field>, invited: seq<Invited>): Import {
    var uid, summary, dtstart, dtend := Lookup(body, "UID"), Lookup(body, "SUMMARY"), Lookup(body, "DTSTART"), Lookup(body, "DTEND");
    if !Filled(uid) || !Filled(summary) || !Filled(dtstart) || !Filled(dtend) then Failed(Incomplete)
    else
      var rawStatus, rawSequence := Lookup(body, "STATUS"), Lookup(body, "SEQUENCE");
      var status := ParseStatus(if rawStatus.Some? then Upper(rawStatus.value) else "CONFIRMED");
      var sequence := if rawSequence.Some? then number(rawSequence.value) else Some(0);
      if status.None? then Failed(BadStatus)
      else if sequence.None? || sequence.value < 0 then Failed(BadSequence)
      else
        ImportDates(clock, Content(
          Unescape(uid.value), Unescape(summary.value), dtstart.value, dtend.value,
          UnescapeOption(Lookup(body, "DESCRIPTION")), UnescapeOption(Lookup(body, "LOCATION")), status.value, sequence.value, invited))
  }

  /** The checks on the dates of what has been read, which are the last ones. */
  function ImportDates(clock: Clock, raw: Content): Import {
    var startsAt, endsAt := ParseUtc(clock, raw.startsAt), ParseUtc(clock, raw.endsAt);
    if startsAt.None? || endsAt.None? then Failed(BadDate)
    else if clock(startsAt.value).Some? && clock(endsAt.value).Some? && clock(startsAt.value).value >= clock(endsAt.value).value
    then Failed(BadRange)
    else Imported(raw.(startsAt := startsAt.value, endsAt := endsAt.value))
  }

  function ImportLines(clock: Clock, number: string -> Option<int>, lines: seq<string>): Import {
    var after := After(IsBegin, lines);
    if after.None? || After(IsBegin, after.value).Some? then Failed(NotOneEvent)
    else
      var body := Until(IsEnd, after.value);
      if body.None? then Failed(NoEnd)
      else
        match ReadAttendees(body.value)
        case Refused(error) => Failed(BadAttendee(error))
        case All(invited) => ImportBody(clock, number, Map(ParsedField, body.value), invited)
  }

  /** `parseICalendarEvent`. What its loop over the event's lines would refuse
      besides attendees has been refused before. */
  function ImportEvent(clock: Clock, number: string -> Option<int>, payload: string): Import {
    var lines := ReadLines(payload);
    if CheckLines(lines).Some? then Failed(CheckLines(lines).value)
    else ImportLines(clock, number, lines)
  }
}
