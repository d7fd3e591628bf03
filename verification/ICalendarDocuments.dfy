/** The lines of an event and of the documents that carry it, and how wide they
    are when they are sent. */
module ICalendarDocuments {
  import opened Sequences
  import opened Text
  import opened ICalendarText
  import opened ICalendarLines
  import opened ICalendarAttendees
  import opened ICalendarEvents

  // ----- Names -----

  predicate PlainName(name: string) {
    name != [] && 'A' <= name[0] <= 'Z' && forall i :: 0 <= i < |name| ==> 'A' <= name[i] <= 'Z' || name[i] == '-'
  }

  lemma {:induction false} PlainIsValid(name: string)
    requires PlainName(name)
    ensures ValidName(name)
  {
    forall c | c in name ensures 'A' <= c <= 'Z' || c == '-' {
      var i :| 0 <= i < |name| && name[i] == c;
    }
    assert Upper(name) == name;
  }

  /** A name that the export uses and the import lets pass. */
  predicate PassingName(name: string) {
    PlainName(name) && name !in UNSUPPORTED_COMPONENTS && name !in UNSUPPORTED_PROPERTIES && name != "METHOD"
  }

  /** A name of a line that belongs to the event. */
  predicate InnerName(name: string) {
    PassingName(name) && name != "BEGIN" && name != "END"
  }

  predicate BodyName(name: string) {
    InnerName(name) && name != "ATTENDEE"
  }

  ghost predicate BodyField(f: Field) {
    BodyName(f.name) && OneLine(f.value)
  }

  lemma {:induction false} FrameNames()
    ensures PassingName("BEGIN") && PassingName("END")
  {
  }

  lemma {:induction false} HeaderNames()
    ensures PassingName("VERSION") && PassingName("PRODID") && PassingName("CALSCALE")
  {
  }

  lemma {:induction false} ComponentNames()
    ensures PlainName("VEVENT") && PlainName("VCALENDAR") && "VEVENT" !in UNSUPPORTED_COMPONENTS && "VCALENDAR" !in UNSUPPORTED_COMPONENTS
  {
  }

  lemma {:induction false} DateNames()
    ensures BodyName("DTSTAMP") && BodyName("DTSTART") && BodyName("DTEND")
  {
  }

  lemma {:induction false} ChangeNames()
    ensures BodyName("CREATED") && BodyName("LAST-MODIFIED")
  {
  }

  lemma {:induction false} TextNames()
    ensures BodyName("UID") && BodyName("SUMMARY")
  {
  }

  lemma {:induction false} StateNames()
    ensures BodyName("STATUS") && BodyName("SEQUENCE")
  {
  }

  lemma {:induction false} NoteNames()
    ensures BodyName("DESCRIPTION") && BodyName("LOCATION")
  {
  }

  lemma {:induction false} AttendeeName()
    ensures InnerName("ATTENDEE")
  {
  }

  lemma {:induction false} FirmName()
    ensures BodyName("X-OPEN-PRACTICE-FIRM-ID")
  {
  }

  lemma {:induction false} MatterName()
    ensures BodyName("X-OPEN-PRACTICE-MATTER-ID")
  {
  }

  lemma {:induction false} ClientName()
    ensures BodyName("X-OPEN-PRACTICE-CLIENT-CONTACT-ID")
  {
  }

  lemma {:induction false} FieldReads(f: Field)
    requires PlainName(f.name) && OneLine(f.value)
    ensures FieldOf(FieldLine(f)) == Some(f) && ParsedField(FieldLine(f)) == f && ContentLine(FieldLine(f))
  {
    PlainIsValid(f.name);
    LineParses(f.name, f.value);
    assert FieldLine(f)[0] == f.name[0];
  }

  // ----- The lines of an event -----

  /** The dates are ISO texts of real dates, and the event ends after it starts. */
  ghost predicate ValidEvent(clock: Clock, e: CalendarEvent) {
    && IsoText(e.startsAt) && IsoText(e.endsAt) && IsoText(e.createdAt) && IsoText(e.updatedAt)
    && clock(e.startsAt).Some? && clock(e.endsAt).Some? && clock(e.startsAt).value < clock(e.endsAt).value
  }

  lemma {:induction false} DecimalOneLine(n: nat)
    ensures OneLine(Decimal(n))
    decreases n
  {
    if n >= 10 { DecimalOneLine(n / 10); }
  }

  lemma {:induction false} TextIsBody(name: string, text: string)
    requires BodyName(name)
    ensures BodyField(Field(name, Escape(text)))
  {
    EscapeFitsOneLine(text);
  }

  lemma {:induction false} DateIsBody(name: string, iso: string)
    requires BodyName(name) && IsoText(iso)
    ensures BodyField(Field(name, FormatUtc(iso)))
  {
    FormattedOneLine(iso);
  }

  lemma {:induction false} StateIsBody(e: CalendarEvent)
    ensures BodyField(Field("STATUS", StatusName(e.status))) && BodyField(Field("SEQUENCE", Decimal(e.sequence)))
  {
    StateNames();
    StatusOneLine(e.status);
    DecimalOneLine(e.sequence);
  }

  lemma {:induction false} StatusOneLine(status: Status)
    ensures OneLine(StatusName(status))
  {
  }

  lemma {:induction false} RequiredAreBody(clock: Clock, stamp: string, e: CalendarEvent)
    requires ValidEvent(clock, e) && IsoText(stamp)
    ensures forall f :: f in RequiredFields(stamp, e) ==> BodyField(f)
  {
    TextNames();
    DateNames();
    ChangeNames();
    FirmName();
    TextIsBody("UID", EventUid(e));
    DateIsBody("DTSTAMP", stamp);
    DateIsBody("DTSTART", e.startsAt);
    DateIsBody("DTEND", e.endsAt);
    TextIsBody("SUMMARY", e.title);
    StateIsBody(e);
    DateIsBody("CREATED", e.createdAt);
    DateIsBody("LAST-MODIFIED", e.updatedAt);
    TextIsBody("X-OPEN-PRACTICE-FIRM-ID", e.firmId);
  }

  lemma {:induction false} OptionalIsBody(name: string, text: Option<string>)
    requires BodyName(name)
    ensures forall f :: f in OptionalField(name, text) ==> BodyField(f)
  {
    if text.Some? { EscapeFitsOneLine(text.value); }
  }

  lemma {:induction false} BodyIsBody(clock: Clock, stamp: string, e: CalendarEvent)
    requires ValidEvent(clock, e) && IsoText(stamp)
    ensures forall f :: f in BodyFields(stamp, e) ==> BodyField(f)
  {
    MatterName();
    ClientName();
    NoteNames();
    RequiredAreBody(clock, stamp, e);
    OptionalIsBody("X-OPEN-PRACTICE-MATTER-ID", e.matterId);
    OptionalIsBody("X-OPEN-PRACTICE-CLIENT-CONTACT-ID", e.clientContactId);
    OptionalIsBody("DESCRIPTION", e.description);
    OptionalIsBody("LOCATION", e.location);
  }

  lemma {:induction false} AttendeeLineIsContent(a: Attendee)
    ensures ContentLine(AttendeeLine(a))
  {
    AttendeeLineOneLine(a);
    assert AttendeeLine(a)[0] == 'A';
  }

  lemma {:induction false} ContentConcat(xs: seq<string>, ys: seq<string>)
    requires ContentLines(xs) && ContentLines(ys)
    ensures ContentLines(xs + ys)
  {
    forall i | 0 <= i < |xs + ys| ensures ContentLine((xs + ys)[i]) {
      if i < |xs| { assert ContentLine(xs[i]); } else { assert ContentLine(ys[i - |xs|]); }
    }
  }

  lemma {:induction false} BodyIsContent(clock: Clock, order: EmailOrder, stamp: string, e: CalendarEvent)
    requires ValidEvent(clock, e) && IsoText(stamp)
    ensures ContentLines(BodyLines(order, stamp, e))
  {
    var fields, listed := BodyFields(stamp, e), Listed(order, e);
    BodyIsBody(clock, stamp, e);
    forall i | 0 <= i < |fields| ensures ContentLine(Map(FieldLine, fields)[i]) {
      assert fields[i] in fields;
      FieldReads(fields[i]);
    }
    forall i | 0 <= i < |listed| ensures ContentLine(Map(AttendeeLine, listed)[i]) { AttendeeLineIsContent(listed[i]); }
    ContentConcat(Map(FieldLine, fields), Map(AttendeeLine, listed));
  }

  lemma {:induction false} FrameIsContent()
    ensures ContentLine(FieldLine(BEGIN_EVENT)) && ContentLine(FieldLine(END_EVENT)) && ContentLine(FieldLine(END_CALENDAR))
  {
    FrameNames();
    ComponentNames();
    PlainIsValid("VEVENT");
    PlainIsValid("VCALENDAR");
    FieldReads(BEGIN_EVENT);
    FieldReads(END_EVENT);
    FieldReads(END_CALENDAR);
  }

  lemma {:induction false} EventIsContent(clock: Clock, order: EmailOrder, stamp: string, e: CalendarEvent)
    requires ValidEvent(clock, e) && IsoText(stamp)
    ensures ContentLines(EventLines(order, stamp, e)) && EventLines(order, stamp, e) != []
  {
    FrameIsContent();
    BodyIsContent(clock, order, stamp, e);
    ContentConcat([FieldLine(BEGIN_EVENT)], BodyLines(order, stamp, e));
    ContentConcat([FieldLine(BEGIN_EVENT)] + BodyLines(order, stamp, e), [FieldLine(END_EVENT)]);
  }

  // ----- The document of an event -----

  function HeaderLines(): seq<string> {
    Map(FieldLine, CALDAV_HEADER)
  }

  function DocumentLines(order: EmailOrder, e: CalendarEvent): seq<string> {
    HeaderLines() + EventLines(order, e.updatedAt, e) + [FieldLine(END_CALENDAR)]
  }

  lemma {:induction false} ProductOneLine()
    ensures OneLine(PRODUCT)
  {
  }

  lemma {:induction false} HeaderParts()
    ensures ContentLine(FieldLine(VERSION)) && ContentLine(FieldLine(GREGORIAN)) && ContentLine(FieldLine(Field("PRODID", PRODUCT)))
  {
    HeaderNames();
    ProductOneLine();
    FieldReads(VERSION);
    FieldReads(GREGORIAN);
    FieldReads(Field("PRODID", PRODUCT));
  }

  lemma {:induction false} HeaderIsContent()
    ensures ContentLines(HeaderLines())
  {
    FrameNames();
    ComponentNames();
    PlainIsValid("VCALENDAR");
    FieldReads(BEGIN_CALENDAR);
    HeaderParts();
    FourContent(BEGIN_CALENDAR, VERSION, Field("PRODID", PRODUCT), GREGORIAN);
  }

  lemma {:induction false} FourContent(a: Field, b: Field, c: Field, d: Field)
    requires ContentLine(FieldLine(a)) && ContentLine(FieldLine(b)) && ContentLine(FieldLine(c)) && ContentLine(FieldLine(d))
    ensures ContentLines(Map(FieldLine, [a, b, c, d]))
  {
  }

  lemma {:induction false} DocumentIsContent(clock: Clock, order: EmailOrder, e: CalendarEvent)
    requires ValidEvent(clock, e)
    ensures ContentLines(DocumentLines(order, e))
  {
    HeaderIsContent();
    FrameIsContent();
    EventIsContent(clock, order, e.updatedAt, e);
    ContentConcat(HeaderLines(), EventLines(order, e.updatedAt, e));
    ContentConcat(HeaderLines() + EventLines(order, e.updatedAt, e), [FieldLine(END_CALENDAR)]);
  }

  lemma {:induction false} ShortIsPhysical(lines: seq<string>)
    requires Narrow(lines)
    ensures Physical(lines) == lines
  {
    if lines != [] {
      assert lines[0] in lines;
      assert PhysicalLines(lines[0]) == [lines[0]];
      ShortIsPhysical(lines[1..]);
    }
  }

  /** A document whose frame is narrow is the folding of all its lines. */
  lemma {:induction false} FramedText(head: seq<string>, event: seq<string>, foot: string)
    requires head != [] && event != [] && Narrow(head) && |foot| <= FOLD_AT
    ensures Join("\r\n", head) + "\r\n" + EventText(event) + "\r\n" + foot + "\r\n"
         == Join("\r\n", Physical(head + event + [foot])) + "\r\n"
  {
    ShortIsPhysical(head);
    ShortIsPhysical([foot]);
    EventTextIsPhysical(event);
    PhysicalNotEmpty(event);
    FlatMapConcat(PhysicalLines, head, event);
    FlatMapConcat(PhysicalLines, head + event, [foot]);
    JoinConcat("\r\n", head, Physical(event));
    JoinConcat("\r\n", head + Physical(event), [foot]);
  }

  lemma {:induction false} HeaderIsNarrow()
    ensures Narrow(HeaderLines()) && |FieldLine(END_CALENDAR)| <= FOLD_AT
  {
    var lines := HeaderLines();
    forall l | l in lines ensures |l| <= FOLD_AT {
      var i :| 0 <= i < |lines| && lines[i] == l;
    }
  }

  lemma {:induction false} DocumentText(order: EmailOrder, e: CalendarEvent)
    ensures Document(order, e) == Join("\r\n", Physical(DocumentLines(order, e))) + "\r\n"
  {
    HeaderIsNarrow();
    FramedText(HeaderLines(), EventLines(order, e.updatedAt, e), FieldLine(END_CALENDAR));
  }

  /** The lines of the document keep to 75 units if and only if every line of the
      event is shorter than 150: they are folded once. */
  lemma {:induction false} DocumentWidthIff(clock: Clock, order: EmailOrder, e: CalendarEvent)
    requires ValidEvent(clock, e)
    ensures Narrow(SplitCrLf(Document(order, e))) <==> AllShort(EventLines(order, e.updatedAt, e))
  {
    DocumentText(order, e);
    HeaderIsNarrow();
    DocumentIsContent(clock, order, e);
    ContentIsOneLine(DocumentLines(order, e));
    FramedWidthIff(HeaderLines(), EventLines(order, e.updatedAt, e), FieldLine(END_CALENDAR));
  }

  lemma {:induction false} FramedWidthIff(head: seq<string>, event: seq<string>, foot: string)
    requires AllOneLine(head + event + [foot]) && Narrow(head) && |foot| <= FOLD_AT
    ensures Narrow(SplitCrLf(Join("\r\n", Physical(head + event + [foot])) + "\r\n")) <==> AllShort(event)
  {
    var lines := head + event + [foot];
    PhysicalNotEmpty(lines);
    PhysicalOneLine(lines);
    SplitJoined(Physical(lines));
    NarrowIffShort(lines);
    assert forall l :: l in Physical(lines) ==> l in Physical(lines) + [""];
    assert forall l :: l in event ==> l in lines;
  }

  // ----- The width of a feed -----

  ghost predicate FrameLine(l: string) {
    OneLine(l) && |l| < 2 * FOLD_AT
  }

  lemma {:induction false} ShortField(name: string, value: string)
    requires OneLine(name) && OneLine(value) && |name| + |value| < FOLD_AT
    ensures FrameLine(FieldLine(Field(name, value)))
  {
  }

  lemma {:induction false} BeginLine()
    ensures FrameLine(FieldLine(BEGIN_CALENDAR)) && FrameLine(FieldLine(END_CALENDAR))
  {
    ShortField("BEGIN", "VCALENDAR");
    ShortField("END", "VCALENDAR");
  }

  lemma {:induction false} VersionLine()
    ensures FrameLine(FieldLine(VERSION)) && FrameLine(FieldLine(GREGORIAN))
  {
    ShortField("VERSION", "2.0");
    ShortField("CALSCALE", "GREGORIAN");
  }

  lemma {:induction false} MethodLine()
    ensures FrameLine(FieldLine(Field("METHOD", "PUBLISH")))
  {
    ShortField("METHOD", "PUBLISH");
  }

  lemma {:induction false} SixLines(a: string, b: string, p: string, c: string, d: string, n: string)
    requires FrameLine(a) && FrameLine(b) && FrameLine(c) && FrameLine(d) && OneLine(p) && OneLine(n)
    ensures AllOneLine([a, b, p, c, d, n]) && (AllShort([a, b, p, c, d, n]) <==> |p| < 2 * FOLD_AT && |n| < 2 * FOLD_AT)
  {
    var lines := [a, b, p, c, d, n];
    assert lines[2] in lines && lines[5] in lines;
  }

  function ProductLine(productId: Option<string>): string {
    FieldLine(Field("PRODID", Escape(if productId.Some? then productId.value else PRODUCT)))
  }

  function NameLine(calendarName: string): string {
    FieldLine(Field("X-WR-CALNAME", Escape(calendarName)))
  }

  lemma {:induction false} FreeLines(productId: Option<string>, calendarName: string)
    ensures OneLine(ProductLine(productId)) && OneLine(NameLine(calendarName))
  {
    FeedNames();
    EscapedField("PRODID", if productId.Some? then productId.value else PRODUCT);
    EscapedField("X-WR-CALNAME", calendarName);
  }

  lemma {:induction false} FeedNames()
    ensures PlainName("PRODID") && PlainName("X-WR-CALNAME")
  {
  }

  lemma {:induction false} EscapedField(name: string, text: string)
    requires PlainName(name)
    ensures OneLine(FieldLine(Field(name, Escape(text))))
  {
    PlainIsValid(name);
    EscapeFitsOneLine(text);
    OneLineField(name, Escape(text));
  }

  lemma {:induction false} OneLineField(name: string, value: string)
    requires OneLine(name) && OneLine(value)
    ensures OneLine(FieldLine(Field(name, value)))
  {
  }

  lemma {:induction false} FeedHeaderLines(productId: Option<string>, calendarName: string)
    ensures Map(FieldLine, FeedHeader(productId, calendarName))
         == [FieldLine(BEGIN_CALENDAR), FieldLine(VERSION), ProductLine(productId), FieldLine(GREGORIAN),
             FieldLine(Field("METHOD", "PUBLISH")), NameLine(calendarName)]
  {
    MapSix(BEGIN_CALENDAR, VERSION, Field("PRODID", Escape(if productId.Some? then productId.value else PRODUCT)), GREGORIAN,
           Field("METHOD", "PUBLISH"), Field("X-WR-CALNAME", Escape(calendarName)));
  }

  lemma {:induction false} MapSix(a: Field, b: Field, p: Field, c: Field, d: Field, n: Field)
    ensures Map(FieldLine, [a, b, p, c, d, n]) == [FieldLine(a), FieldLine(b), FieldLine(p), FieldLine(c), FieldLine(d), FieldLine(n)]
  {
  }

  lemma {:induction false} EventsOneLine(clock: Clock, order: EmailOrder, stamp: string, events: seq<CalendarEvent>, lines: seq<seq<string>>)
    requires IsoText(stamp) && forall e :: e in events ==> ValidEvent(clock, e)
    requires |lines| == |events| && forall k :: 0 <= k < |events| ==> lines[k] == EventLines(order, stamp, events[k])
    ensures forall k :: 0 <= k < |lines| ==> lines[k] != [] && AllOneLine(lines[k])
  {
    forall k | 0 <= k < |lines| ensures lines[k] != [] && AllOneLine(lines[k]) {
      assert events[k] in events;
      EventIsContent(clock, order, stamp, events[k]);
      ContentIsOneLine(lines[k]);
    }
  }

  lemma {:induction false} HeaderLinesShort(productId: Option<string>, calendarName: string)
    ensures var lines := Map(FieldLine, FeedHeader(productId, calendarName));
            && AllOneLine(lines)
            && (AllShort(lines) <==> |ProductLine(productId)| < 2 * FOLD_AT && |NameLine(calendarName)| < 2 * FOLD_AT)
    ensures FrameLine(FieldLine(END_CALENDAR))
  {
    BeginLine();
    VersionLine();
    MethodLine();
    FreeLines(productId, calendarName);
    FeedHeaderLines(productId, calendarName);
    SixLines(FieldLine(BEGIN_CALENDAR), FieldLine(VERSION), ProductLine(productId), FieldLine(GREGORIAN),
             FieldLine(Field("METHOD", "PUBLISH")), NameLine(calendarName));
  }

  lemma {:induction false} DefaultStamp()
    ensures IsoText(DEFAULT_STAMP)
  {
    var s := DEFAULT_STAMP;
    assert |s| == 24;
    assert s[0] == '1' && s[1] == '9' && s[2] == '7' && s[3] == '0' && s[4] == '-';
    assert s[5] == '0' && s[6] == '1' && s[7] == '-' && s[8] == '0' && s[9] == '1' && s[10] == 'T';
    assert s[11] == '0' && s[12] == '0' && s[13] == ':' && s[14] == '0' && s[15] == '0' && s[16] == ':';
    assert s[17] == '0' && s[18] == '0' && s[19] == '.' && s[20] == '0' && s[21] == '0' && s[22] == '0' && s[23] == 'Z';
  }

  lemma {:induction false} StampIsIso(generatedAt: Option<string>)
    requires generatedAt.Some? ==> IsoText(generatedAt.value)
    ensures IsoText(FeedStamp(generatedAt))
  {
    DefaultStamp();
  }

  lemma {:induction false} FeedIsText(
    order: EmailOrder, generatedAt: Option<string>, productId: Option<string>, calendarName: string, events: seq<CalendarEvent>, stamp: string)
    requires stamp == FeedStamp(generatedAt)
    ensures Feed(order, generatedAt, productId, calendarName, events)
         == FeedText(Map(FieldLine, FeedHeader(productId, calendarName)), FeedEvents(order, stamp, events), FieldLine(END_CALENDAR))
  {
  }

  lemma {:induction false} FeedEventsOneLine(clock: Clock, order: EmailOrder, stamp: string, events: seq<CalendarEvent>)
    requires IsoText(stamp) && forall e :: e in events ==> ValidEvent(clock, e)
    ensures var lines := FeedEvents(order, stamp, events); forall k :: 0 <= k < |lines| ==> lines[k] != [] && AllOneLine(lines[k])
  {
    EventsOneLine(clock, order, stamp, events, FeedEvents(order, stamp, events));
  }

  /** The lines of a feed keep to 75 units if and only if its product line and its
      calendar name line are shorter than 150, whatever the events. */
  lemma {:induction false} CalendarFeedWidthIff(
    clock: Clock, order: EmailOrder, generatedAt: Option<string>, productId: Option<string>, calendarName: string, events: seq<CalendarEvent>)
    requires generatedAt.Some? ==> IsoText(generatedAt.value)
    requires forall e :: e in events ==> ValidEvent(clock, e)
    ensures Narrow(SplitCrLf(Feed(order, generatedAt, productId, calendarName, events))) <==>
            |ProductLine(productId)| < 2 * FOLD_AT && |NameLine(calendarName)| < 2 * FOLD_AT
  {
    var stamp := FeedStamp(generatedAt);
    var lines := FeedEvents(order, stamp, events);
    StampIsIso(generatedAt);
    FeedEventsOneLine(clock, order, stamp, events);
    FeedIsText(order, generatedAt, productId, calendarName, events, stamp);
    HeaderLinesShort(productId, calendarName);
    WidthOfFeed(Map(FieldLine, FeedHeader(productId, calendarName)), lines, FieldLine(END_CALENDAR), ProductLine(productId), NameLine(calendarName));
  }

  lemma {:induction false} WidthOfFeed(header: seq<string>, events: seq<seq<string>>, footer: string, product: string, name: string)
    requires AllOneLine(header) && FrameLine(footer)
    requires AllShort(header) <==> |product| < 2 * FOLD_AT && |name| < 2 * FOLD_AT
    requires forall k :: 0 <= k < |events| ==> events[k] != [] && AllOneLine(events[k])
    ensures Narrow(SplitCrLf(FeedText(header, events, footer))) <==> |product| < 2 * FOLD_AT && |name| < 2 * FOLD_AT
  {
    FeedWidthIff(header, events, footer);
  }

  function HeaderTexts(productId: Option<string>, calendarName: string): seq<string> {
    ["BEGIN:VCALENDAR", "VERSION:2.0",
     "PRODID:" + Escape(match productId case None => "-//Open Practice//Matter Calendar//EN" case Some(id) => id),
     "CALSCALE:GREGORIAN", "METHOD:PUBLISH", "X-WR-CALNAME:" + Escape(calendarName)]
  }

  lemma {:induction false} ProductText(productId: Option<string>)
    ensures ProductLine(productId)
         == "PRODID:" + Escape(match productId case None => "-//Open Practice//Matter Calendar//EN" case Some(id) => id)
  {
    assert "PRODID" + ":" == "PRODID:";
  }

  lemma {:induction false} NameText(calendarName: string)
    ensures NameLine(calendarName) == "X-WR-CALNAME:" + Escape(calendarName)
  {
    assert "X-WR-CALNAME" + ":" == "X-WR-CALNAME:";
  }

  lemma {:induction false} FixedTexts()
    ensures FieldLine(BEGIN_CALENDAR) == "BEGIN:VCALENDAR" && FieldLine(VERSION) == "VERSION:2.0"
    ensures FieldLine(END_CALENDAR) == "END:VCALENDAR"
  {
  }

  lemma {:induction false} MethodText()
    ensures FieldLine(GREGORIAN) == "CALSCALE:GREGORIAN" && FieldLine(Field("METHOD", "PUBLISH")) == "METHOD:PUBLISH"
  {
  }

  lemma {:induction false} HeaderTextsAre(productId: Option<string>, calendarName: string)
    ensures Map(FieldLine, FeedHeader(productId, calendarName)) == HeaderTexts(productId, calendarName)
  {
    FeedHeaderLines(productId, calendarName);
    ProductText(productId);
    NameText(calendarName);
    FixedTexts();
    MethodText();
  }

  lemma {:induction false} ProductContent(productId: Option<string>)
    ensures ContentLine(ProductLine(productId))
  {
    var text := if productId.Some? then productId.value else PRODUCT;
    FeedNames();
    EscapeFitsOneLine(text);
    FieldReads(Field("PRODID", Escape(text)));
  }

  lemma {:induction false} NameContent(calendarName: string)
    ensures ContentLine(NameLine(calendarName))
  {
    FeedNames();
    EscapeFitsOneLine(calendarName);
    FieldReads(Field("X-WR-CALNAME", Escape(calendarName)));
  }

  lemma {:induction false} FixedContent()
    ensures ContentLine(FieldLine(BEGIN_CALENDAR)) && ContentLine(FieldLine(END_CALENDAR)) && ContentLine(FieldLine(VERSION))
    ensures ContentLine(FieldLine(GREGORIAN)) && ContentLine(FieldLine(Field("METHOD", "PUBLISH")))
  {
    FrameNames();
    HeaderNames();
    ComponentNames();
    FieldReads(BEGIN_CALENDAR);
    FieldReads(END_CALENDAR);
    HeaderParts();
    FieldReads(Field("METHOD", "PUBLISH"));
  }

  lemma {:induction false} SixContent(a: string, b: string, p: string, c: string, d: string, n: string)
    requires ContentLine(a) && ContentLine(b) && ContentLine(p) && ContentLine(c) && ContentLine(d) && ContentLine(n)
    ensures ContentLines([a, b, p, c, d, n])
  {
  }

  /** A feed is read as its header, the lines of every event in order, stamped with
      the date of the feed or the start of 1970, and its last line. */
  lemma {:induction false} CalendarFeedReads(
    clock: Clock, order: EmailOrder, generatedAt: Option<string>, productId: Option<string>, calendarName: string, events: seq<CalendarEvent>)
    requires generatedAt.Some? ==> IsoText(generatedAt.value)
    requires forall e :: e in events ==> ValidEvent(clock, e)
    ensures var stamp := match generatedAt case None => "1970-01-01" + "T00:00:00" + ".000Z" case Some(date) => date;
            ReadLines(Feed(order, generatedAt, productId, calendarName, events))
            == HeaderTexts(productId, calendarName) + Concat(FeedEvents(order, stamp, events)) + ["END:VCALENDAR"]
  {
    var stamp := FeedStamp(generatedAt);
    var lines := FeedEvents(order, stamp, events);
    StampIsIso(generatedAt);
    EventsContent(clock, order, stamp, events, lines);
    FeedIsText(order, generatedAt, productId, calendarName, events, stamp);
    HeaderContent(productId, calendarName);
    FixedContent();
    FeedReads(Map(FieldLine, FeedHeader(productId, calendarName)), lines, FieldLine(END_CALENDAR));
    HeaderTextsAre(productId, calendarName);
    FixedTexts();
  }

  lemma {:induction false} EventsContent(clock: Clock, order: EmailOrder, stamp: string, events: seq<CalendarEvent>, lines: seq<seq<string>>)
    requires IsoText(stamp) && forall e :: e in events ==> ValidEvent(clock, e)
    requires |lines| == |events| && forall k :: 0 <= k < |events| ==> lines[k] == EventLines(order, stamp, events[k])
    ensures forall k :: 0 <= k < |lines| ==> lines[k] != [] && ContentLines(lines[k])
  {
    forall k | 0 <= k < |lines| ensures lines[k] != [] && ContentLines(lines[k]) {
      assert events[k] in events;
      EventIsContent(clock, order, stamp, events[k]);
    }
  }

  lemma {:induction false} HeaderContent(productId: Option<string>, calendarName: string)
    ensures ContentLines(Map(FieldLine, FeedHeader(productId, calendarName)))
  {
    FeedHeaderLines(productId, calendarName);
    ProductContent(productId);
    NameContent(calendarName);
    FixedContent();
    SixContent(FieldLine(BEGIN_CALENDAR), FieldLine(VERSION), ProductLine(productId), FieldLine(GREGORIAN),
               FieldLine(Field("METHOD", "PUBLISH")), NameLine(calendarName));
  }

  /** A calendar name of 140 letters makes a line of 76 units. */
  lemma {:induction false} LongNameIsTooWide(
    clock: Clock, order: EmailOrder, generatedAt: Option<string>, events: seq<CalendarEvent>, name: string)
    requires generatedAt.Some? ==> IsoText(generatedAt.value)
    requires forall e :: e in events ==> ValidEvent(clock, e)
    requires name == seq(140, _ => 'x')
    ensures !Narrow(SplitCrLf(Feed(order, generatedAt, None, name, events)))
  {
    EscapeLetters(name);
    assert |NameLine(name)| == 153;
    CalendarFeedWidthIff(clock, order, generatedAt, None, name, events);
  }

  lemma {:induction false} EscapeLetters(s: string)
    requires forall i :: 0 <= i < |s| ==> s[i] == 'x'
    ensures Escape(s) == s
  {
    if s != [] {
      assert s == [s[0]] + s[1..];
      EscapeHead(s[0], s[1..]);
      EscapeLetters(s[1..]);
    }
  }
}
