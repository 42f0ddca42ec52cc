/** The Microsoft Graph calendar client of `internal/calendar/client.go`:
    reading Graph's date-time strings (`parseDateTime`), turning the wire
    events into schema events (`parseCalendarEvents`) and the request,
    status and decode handling of `GetCalendarView`. The network is a
    function from the request to the response it gets. */
module Client {
  import opened Wrappers
  import opened Chrono
  import opened Schema
  import opened Sorting
  import Events
  import R = Rfc3339

  // ---------------------------------------------------------------- zones

  /** What `time.LoadLocation` can see: the zone `Local` stands for, and the
      time-zone database reduced to one fixed offset per name. */
  datatype ZoneData = ZoneData(local: Zone, table: map<string, int>)

  /** `time.LoadLocation`: "" and "UTC" are UTC, "Local" is the local zone,
      any other name must be in the database. */
  function LoadLocation(name: string, zones: ZoneData): (r: Option<Zone>)
    ensures name == "" || name == "UTC" ==> r == Some(UTC)
    ensures name != "" && name != "UTC" && name != "Local" ==> (r.Some? <==> name in zones.table)
    ensures r.Some? && name != "" && name != "UTC" && name != "Local" ==> r.value == Zone(name, zones.table[name])
  {
    if name == "" || name == "UTC" then Some(UTC)
    else if name == "Local" then Some(zones.local)
    else if name in zones.table then Some(Zone(name, zones.table[name]))
    else None
  }

  // ------------------------------------------------------------ date-times

  /** "failed to parse datetime '<text>'". */
  datatype DateTimeError = DateTimeError(text: string)

  /** `parseDateTime`: RFC 3339 text is the instant it names, shown in
      `loc`; zone-less `2006-01-02T15:04:05` text is a wall-clock reading in
      `loc`; anything else is an error that quotes the text. */
  function ParseDateTime(text: string, loc: Zone): (r: Result<Time, DateTimeError>)
    ensures r.Ok? <==> R.ParseRFC3339(text).Some? || R.Parse(R.DateTimeLayout, text, loc).Some?
    ensures R.ParseRFC3339(text).Some? ==> r == Ok(In(R.ParseRFC3339(text).value, loc))
    ensures r.Err? ==> r.error.text == text
  {
    match R.ParseRFC3339(text)
    case Some(t) => Ok(In(t, loc))
    case None =>
      match R.Parse(R.DateTimeLayout, text, loc)
      case Some(t) => Ok(t)
      case None => Err(DateTimeError(text))
  }

  /** Text written with an offset in whole minutes is read as that instant,
      shown in the target zone. */
  lemma ParseDateTimeWithOffset(t: Time, loc: Zone)
    requires R.InFourDigitYears(t) && R.WholeMinuteOffset(t.offset)
    ensures ParseDateTime(R.FormatRFC3339Nano(t), loc) == Ok(In(t, loc))
  {
    R.ParseFormatNano(t);
  }

  /** Text the zone-less layout reads completely lacks the zone `RFC3339`
      asks for, so the first attempt always fails on it. */
  lemma ZoneLessIsNotRFC3339(text: string, loc: Zone)
    requires R.Parse(R.DateTimeLayout, text, loc).Some?
    ensures R.ParseRFC3339(text).None?
  {
    R.LayoutShapes();
    R.DateHourMinuteContents();
    var whole := R.ParseElements(R.DateTimeLayout, text, R.Unset);
    assert whole.Some? && whole.value.1 == [];
    assert R.DateTimeLayout == R.DateHourMinute + [R.ZeroSecond];
    assert R.RFC3339Layout == R.DateHourMinute + [R.ZeroSecond, R.ISO8601ColonTZ];
    R.ParseElementsAppend(R.DateHourMinute, [R.ZeroSecond], text, R.Unset);
    R.ParseElementsAppend(R.DateHourMinute, [R.ZeroSecond, R.ISO8601ColonTZ], text, R.Unset);
    var head := R.ParseElements(R.DateHourMinute, text, R.Unset);
    assert head.Some?;
    var (f1, rest1) := head.value;
    assert whole == R.ParseElements([R.ZeroSecond], rest1, f1);
    SecondsLeaveNoZone(rest1, f1);
    assert R.ParseElements(R.RFC3339Layout, text, R.Unset).None?;
  }

  /** Seconds that end the text leave nothing for a zone to be read from. */
  lemma SecondsLeaveNoZone(text: string, f: R.Fields)
    requires R.ParseElements([R.ZeroSecond], text, f).Some?
    requires R.ParseElements([R.ZeroSecond], text, f).value.1 == []
    ensures R.ParseElements([R.ZeroSecond, R.ISO8601ColonTZ], text, f).None?
  {
    assert [R.ZeroSecond][1..] == [] && [R.ZeroSecond, R.ISO8601ColonTZ][1..] == [R.ISO8601ColonTZ];
    assert !R.NextIsFraction([]) && !R.NextIsFraction([R.ISO8601ColonTZ]);
    var step := R.ParseElement(R.ZeroSecond, [], text, f);
    assert step == R.ParseElement(R.ZeroSecond, [R.ISO8601ColonTZ], text, f);
    assert step.Some? && step.value.1 == [];
    assert R.ParseZone([]).None?;
  }

  /** Graph's zone-less text for a time, read in a zone with that time's
      offset, is that time: the text is a wall-clock reading in the target
      zone. It reads the same as the text with the zone's offset written
      out. */
  lemma ZoneLessIsWallClock(t: Time, loc: Zone)
    requires R.InFourDigitYears(t) && R.WholeMinuteOffset(t.offset) && loc.offset == t.offset
    ensures ParseDateTime(R.Format(R.DateTimeLayout + [R.FracSecond9], t), loc) == Ok(t)
    ensures ParseDateTime(R.FormatRFC3339Nano(t), loc) == Ok(t)
  {
    R.ParseDateTimeRoundTrip(t, loc);
    ZoneLessIsNotRFC3339(R.Format(R.DateTimeLayout + [R.FracSecond9], t), loc);
    R.ParseFormatNano(t);
  }

  // ---------------------------------------------------------- wire events

  /** An `emailAddress` object of Graph. */
  datatype GraphEmail = GraphEmail(name: string, address: string)

  /** A `dateTime` with the `timeZone` Graph reports beside it (unused). */
  datatype GraphDateTime = GraphDateTime(dateTime: string, timeZone: string)

  datatype GraphAttendee = GraphAttendee(emailAddress: GraphEmail, kind: string)

  /** `graphEvent`; `location` is `location.displayName` and `organizer`
      is `organizer.emailAddress`. */
  datatype GraphEvent = GraphEvent(
    id: string,
    subject: string,
    isAllDay: bool,
    start: GraphDateTime,
    end: GraphDateTime,
    location: string,
    organizer: GraphEmail,
    attendees: seq<GraphAttendee>)

  /** Why `parseCalendarEvents` gives up. */
  datatype ParseError =
    | InvalidTimezone(name: string)
    | BadStart(eventId: string, cause: DateTimeError)
    | BadEnd(eventId: string, cause: DateTimeError)

  /** One wire attendee as a schema attendee. */
  function ConvertAttendee(a: GraphAttendee): Attendee {
    Attendee(a.emailAddress.name, a.emailAddress.address, a.kind)
  }

  function ConvertAttendees(attendees: seq<GraphAttendee>): (r: seq<Attendee>)
    ensures |r| == |attendees|
  {
    seq(|attendees|, i requires 0 <= i < |attendees| => ConvertAttendee(attendees[i]))
  }

  /** One wire event as a schema event, read in `loc`: the start is read
      before the end, and the attendees are in `sortAttendees` order. */
  function ConvertEvent(ge: GraphEvent, loc: Zone): Result<CalendarEvent, ParseError> {
    match ParseDateTime(ge.start.dateTime, loc)
    case Err(e) => Err(BadStart(ge.id, e))
    case Ok(start) =>
      match ParseDateTime(ge.end.dateTime, loc)
      case Err(e) => Err(BadEnd(ge.id, e))
      case Ok(end) =>
        Ok(CalendarEvent(ge.id, ge.subject, ge.isAllDay, start, end, ge.location,
                         Organizer(ge.organizer.name, ge.organizer.address),
                         Elems(SortBy(Events.Less, ConvertAttendees(ge.attendees)))))
  }

  /** What a converted event keeps of its wire event: every scalar field,
      as many attendees, none added, dropped or altered, in attendee
      order; an event fails exactly when one of its times does not parse,
      and the error names the event. */
  lemma ConvertEventKeeps(ge: GraphEvent, loc: Zone)
    ensures ConvertEvent(ge, loc).Ok? <==>
      ParseDateTime(ge.start.dateTime, loc).Ok? && ParseDateTime(ge.end.dateTime, loc).Ok?
    ensures ConvertEvent(ge, loc).Err? ==> ConvertEvent(ge, loc).error.eventId == ge.id
    ensures ParseDateTime(ge.start.dateTime, loc).Err? ==> ConvertEvent(ge, loc).error.BadStart?
    ensures ConvertEvent(ge, loc).Ok? ==>
      var e := ConvertEvent(ge, loc).value;
      && e.id == ge.id && e.subject == ge.subject && e.isAllDay == ge.isAllDay
      && e.location == ge.location
      && e.organizer == Organizer(ge.organizer.name, ge.organizer.address)
      && e.start == ParseDateTime(ge.start.dateTime, loc).value
      && e.end == ParseDateTime(ge.end.dateTime, loc).value
      && e.attendees.Elems?
      && |e.attendees.items| == |ge.attendees|
      && multiset(e.attendees.items) == multiset(ConvertAttendees(ge.attendees))
      && (forall i, j :: 0 <= i < j < |e.attendees.items| ==>
            !Events.Less(e.attendees.items[j], e.attendees.items[i]))
      && (ge.attendees == [] ==> e.attendees == Elems([]))
  {
    Events.SortedAttendees(ConvertAttendees(ge.attendees));
  }

  /** All of `gs` converted, in their order. */
  function ConvertAll(gs: seq<GraphEvent>, loc: Zone): (r: seq<CalendarEvent>)
    requires forall i :: 0 <= i < |gs| ==> ConvertEvent(gs[i], loc).Ok?
    ensures |r| == |gs|
  {
    seq(|gs|, i requires 0 <= i < |gs| && ConvertEvent(gs[i], loc).Ok? => ConvertEvent(gs[i], loc).value)
  }

  /** The comparator of the `sort.Slice` call: by start instant. */
  function StartsBefore(a: CalendarEvent, b: CalendarEvent): bool {
    Before(a.start, b.start)
  }

  lemma StartsBeforeIsStrictWeakOrder()
    ensures StrictWeakOrder(StartsBefore)
  {
  }

  /** What `parseCalendarEvents` promises for `gs` in `timezone`: an
      unknown zone fails before any event is read; otherwise the first
      event that does not convert fails the whole call with its error, and
      if every event converts the result is a non-nil list of exactly
      those events in order of their start (equal starts in no promised
      order). */
  ghost predicate ParsedAs(gs: seq<GraphEvent>, timezone: string, zones: ZoneData,
                           r: Result<Slice<CalendarEvent>, ParseError>)
  {
    match LoadLocation(timezone, zones)
    case None => r == Err(InvalidTimezone(timezone))
    case Some(loc) =>
      && (r.Ok? <==> forall i :: 0 <= i < |gs| ==> ConvertEvent(gs[i], loc).Ok?)
      && (r.Err? ==> exists i :: 0 <= i < |gs| && ConvertEvent(gs[i], loc) == Err(r.error)
                                && forall j :: 0 <= j < i ==> ConvertEvent(gs[j], loc).Ok?)
      && (r.Ok? ==> && r.value.Elems?
                    && |r.value.items| == |gs|
                    && multiset(r.value.items) == multiset(ConvertAll(gs, loc))
                    && forall i, j :: 0 <= i < j < |gs| ==>
                         !Before(r.value.items[j].start, r.value.items[i].start))
  }

  /** An error at event `i`, after every earlier event converted, is the
      outcome `parseCalendarEvents` promises. */
  lemma FailureIsParsedAs(gs: seq<GraphEvent>, timezone: string, zones: ZoneData, i: int, e: ParseError)
    requires LoadLocation(timezone, zones).Some?
    requires 0 <= i < |gs| && ConvertEvent(gs[i], LoadLocation(timezone, zones).value) == Err(e)
    requires forall j :: 0 <= j < i ==> ConvertEvent(gs[j], LoadLocation(timezone, zones).value).Ok?
    ensures ParsedAs(gs, timezone, zones, Err(e))
  {
  }

  /** The converted events, sorted by start, are the outcome
      `parseCalendarEvents` promises. */
  lemma SuccessIsParsedAs(gs: seq<GraphEvent>, timezone: string, zones: ZoneData, events: seq<CalendarEvent>)
    requires LoadLocation(timezone, zones).Some?
    requires forall i :: 0 <= i < |gs| ==> ConvertEvent(gs[i], LoadLocation(timezone, zones).value).Ok?
    requires events == ConvertAll(gs, LoadLocation(timezone, zones).value)
    ensures ParsedAs(gs, timezone, zones, Ok(Elems(SortBy(StartsBefore, events))))
  {
    var sorted := SortBy(StartsBefore, events);
    StartsBeforeIsStrictWeakOrder();
    SortByPermutes(StartsBefore, events);
    SortBySorted(StartsBefore, events);
    SortedIsPairwise(StartsBefore, sorted);
  }

  /** The loop body of `parseCalendarEvents` once both times are read:
      the attendees copied by index into a new slice, sorted in place, and
      the event built around them. */
  method BuildEvent(ge: GraphEvent, start: Time, end: Time) returns (event: CalendarEvent)
    ensures event == CalendarEvent(ge.id, ge.subject, ge.isAllDay, start, end, ge.location,
                                   Organizer(ge.organizer.name, ge.organizer.address),
                                   Elems(SortBy(Events.Less, ConvertAttendees(ge.attendees))))
  {
    var attendees := new Attendee[|ge.attendees|];
    var k := 0;
    while k < |ge.attendees|
      invariant 0 <= k <= |ge.attendees|
      invariant forall m :: 0 <= m < k ==> attendees[m] == ConvertAttendee(ge.attendees[m])
    {
      attendees[k] := ConvertAttendee(ge.attendees[k]);
      k := k + 1;
    }
    assert attendees[..] == ConvertAttendees(ge.attendees);
    Events.SortAttendees(attendees);
    event := CalendarEvent(ge.id, ge.subject, ge.isAllDay, start, end, ge.location,
                           Organizer(ge.organizer.name, ge.organizer.address), Elems(attendees[..]));
  }

  /** Once both times are read, the event built around them is the
      converted event. */
  lemma ConvertEventOk(ge: GraphEvent, loc: Zone, event: CalendarEvent)
    requires ParseDateTime(ge.start.dateTime, loc).Ok? && ParseDateTime(ge.end.dateTime, loc).Ok?
    requires event == CalendarEvent(ge.id, ge.subject, ge.isAllDay, ParseDateTime(ge.start.dateTime, loc).value,
                                    ParseDateTime(ge.end.dateTime, loc).value, ge.location,
                                    Organizer(ge.organizer.name, ge.organizer.address),
                                    Elems(SortBy(Events.Less, ConvertAttendees(ge.attendees))))
    ensures ConvertEvent(ge, loc) == Ok(event)
  {
  }

  /** Converting one more event appends it. */
  lemma ConvertAllSnoc(gs: seq<GraphEvent>, loc: Zone, i: int)
    requires 0 <= i < |gs| && forall j :: 0 <= j <= i ==> ConvertEvent(gs[j], loc).Ok?
    ensures ConvertAll(gs[..i + 1], loc) == ConvertAll(gs[..i], loc) + [ConvertEvent(gs[i], loc).value]
  {
    assert forall j :: 0 <= j < i ==> gs[..i + 1][j] == gs[..i][j];
  }

  /** The closing `sort.Slice` call: the events, in a slice sorted in
      place by start. */
  method SortByStart(events: seq<CalendarEvent>) returns (sorted: seq<CalendarEvent>)
    ensures sorted == SortBy(StartsBefore, events)
  {
    var slice := new CalendarEvent[|events|](j requires 0 <= j < |events| => events[j]);
    assert slice[..] == events;
    InsertionSort(slice, StartsBefore);
    sorted := slice[..];
  }

  /** `parseCalendarEvents`: loads the zone, converts the wire events one
      by one and sorts the converted events by start. */
  method ParseCalendarEvents(graphEvents: seq<GraphEvent>, timezone: string, zones: ZoneData)
      returns (r: Result<Slice<CalendarEvent>, ParseError>)
    ensures ParsedAs(graphEvents, timezone, zones, r)
  {
    var location := LoadLocation(timezone, zones);
    if location.None? {
      return Err(InvalidTimezone(timezone));
    }
    var loc := location.value;
    var events: seq<CalendarEvent> := [];
    var i := 0;
    while i < |graphEvents|
      invariant 0 <= i <= |graphEvents|
      invariant forall j :: 0 <= j < i ==> ConvertEvent(graphEvents[j], loc).Ok?
      invariant events == ConvertAll(graphEvents[..i], loc)
    {
      var ge := graphEvents[i];
      var start := ParseDateTime(ge.start.dateTime, loc);
      if start.Err? {
        r := Err(BadStart(ge.id, start.error));
        FailureIsParsedAs(graphEvents, timezone, zones, i, r.error);
        return;
      }
      var end := ParseDateTime(ge.end.dateTime, loc);
      if end.Err? {
        r := Err(BadEnd(ge.id, end.error));
        FailureIsParsedAs(graphEvents, timezone, zones, i, r.error);
        return;
      }
      var event := BuildEvent(ge, start.value, end.value);
      ConvertEventOk(ge, loc, event);
      ConvertAllSnoc(graphEvents, loc, i);
      events := events + [event];
      i := i + 1;
    }
    assert graphEvents[..i] == graphEvents;
    var sorted := SortByStart(events);
    SuccessIsParsedAs(graphEvents, timezone, zones, events);
    r := Ok(Elems(sorted));
  }

  /** No wire events, in a zone that loads, give an empty non-nil list. */
  lemma NoEventsGiveEmptyList(timezone: string, zones: ZoneData, r: Result<Slice<CalendarEvent>, ParseError>)
    requires LoadLocation(timezone, zones).Some? && ParsedAs([], timezone, zones, r)
    ensures r == Ok(Elems([]))
  {
  }

  // ------------------------------------------------------------ the request

  const GraphBaseURL := "https://graph.microsoft.com/v1.0"

  /** `graphClientImpl`: the bearer token and the API root. */
  datatype GraphClient = GraphClient(accessToken: string, baseURL: string)

  /** `NewGraphClient`. */
  function NewGraphClient(accessToken: string): GraphClient {
    GraphClient(accessToken, GraphBaseURL)
  }

  /** An HTTP request as far as Graph sees it: the query parameters before
      URL encoding and the header fields. */
  datatype Request = Request(verb: string, url: string, query: map<string, string>, headers: map<string, string>)

  /** What came back for a request: no response at all, or a status, the
      body, and the wire events if the body decodes as a calendar view. */
  datatype Response =
    | NoResponse
    | Reply(status: int, body: string, value: Option<seq<GraphEvent>>)

  /** Why `GetCalendarView` fails. */
  datatype ViewError =
    | RequestFailed
    | BadStatus(status: int, body: string)
    | DecodeFailed
    | ParseFailed(cause: ParseError)

  /** The calendar-view request for a window, as `GetCalendarView` builds
      it. */
  function CalendarViewRequest(client: GraphClient, start: Time, end: Time, timezone: string): Request {
    Request("GET", client.baseURL + "/me/calendarView",
            map["startDateTime" := R.Format(R.RFC3339Layout, start),
                "endDateTime" := R.Format(R.RFC3339Layout, end)],
            map["Authorization" := "Bearer " + client.accessToken,
                "Prefer" := "outlook.timezone=\"" + timezone + "\"",
                "Content-Type" := "application/json"])
  }

  /** The query asks for exactly the window, to the second. */
  lemma RequestCarriesWindow(client: GraphClient, start: Time, end: Time, timezone: string)
    requires R.InFourDigitYears(start) && R.WholeMinuteOffset(start.offset)
    requires R.InFourDigitYears(end) && R.WholeMinuteOffset(end.offset)
    ensures var q := CalendarViewRequest(client, start, end, timezone).query;
      && q.Keys == {"startDateTime", "endDateTime"}
      && R.ParseRFC3339(q["startDateTime"]) == Some(R.TruncateToSecond(start))
      && R.ParseRFC3339(q["endDateTime"]) == Some(R.TruncateToSecond(end))
  {
    var q := CalendarViewRequest(client, start, end, timezone).query;
    assert q["startDateTime"] == R.Format(R.RFC3339Layout, start);
    assert q["endDateTime"] == R.Format(R.RFC3339Layout, end);
    R.ParseFormat(start);
    R.ParseFormat(end);
  }

  /** The headers carry the client's token and ask for times in the
      caller's zone. */
  lemma RequestCarriesTokenAndZone(client: GraphClient, start: Time, end: Time, timezone: string)
    ensures var h := CalendarViewRequest(client, start, end, timezone).headers;
      && h.Keys == {"Authorization", "Prefer", "Content-Type"}
      && h["Authorization"][..7] == "Bearer " && h["Authorization"][7..] == client.accessToken
      && |h["Prefer"]| == |timezone| + 19 && h["Prefer"][18..|timezone| + 18] == timezone
  {
    var h := CalendarViewRequest(client, start, end, timezone).headers;
    var bearer := "Bearer " + client.accessToken;
    var prefer := "outlook.timezone=\"" + timezone + "\"";
    assert h["Authorization"] == bearer && h["Prefer"] == prefer;
    assert bearer[..7] == "Bearer " && bearer[7..] == client.accessToken;
    assert prefer[18..|timezone| + 18] == timezone;
  }

  /** What `GetCalendarView` promises for the response `resp`: no response
      and a status other than 200 (with its body) are errors, as is a body
      that does not decode; otherwise the outcome of `parseCalendarEvents`
      on the decoded events. */
  ghost predicate ViewedAs(resp: Response, timezone: string, zones: ZoneData,
                           r: Result<Slice<CalendarEvent>, ViewError>)
  {
    match resp
    case NoResponse => r == Err(RequestFailed)
    case Reply(status, body, value) =>
      if status != 200 then r == Err(BadStatus(status, body))
      else if value.None? then r == Err(DecodeFailed)
      else
        && (r.Ok? ==> ParsedAs(value.value, timezone, zones, Ok(r.value)))
        && (r.Err? ==> r.error.ParseFailed? && ParsedAs(value.value, timezone, zones, Err(r.error.cause)))
  }

  /** `GetCalendarView`: builds the query and the headers, sends the
      request and turns the response into events or an error. */
  method GetCalendarView(client: GraphClient, start: Time, end: Time, timezone: string, zones: ZoneData,
                         send: Request -> Response)
      returns (r: Result<Slice<CalendarEvent>, ViewError>)
    ensures ViewedAs(send(CalendarViewRequest(client, start, end, timezone)), timezone, zones, r)
  {
    var endpoint := client.baseURL + "/me/calendarView";
    var query: map<string, string> := map[];
    query := query["startDateTime" := R.Format(R.RFC3339Layout, start)];
    query := query["endDateTime" := R.Format(R.RFC3339Layout, end)];
    var headers: map<string, string> := map[];
    headers := headers["Authorization" := "Bearer " + client.accessToken];
    headers := headers["Prefer" := "outlook.timezone=\"" + timezone + "\""];
    headers := headers["Content-Type" := "application/json"];
    var request := Request("GET", endpoint, query, headers);
    assert request == CalendarViewRequest(client, start, end, timezone);
    var response := send(request);
    if response.NoResponse? {
      return Err(RequestFailed);
    }
    if response.status != 200 {
      return Err(BadStatus(response.status, response.body));
    }
    if response.value.None? {
      return Err(DecodeFailed);
    }
    var events := ParseCalendarEvents(response.value.value, timezone, zones);
    if events.Err? {
      return Err(ParseFailed(events.error));
    }
    return Ok(events.value);
  }

  /** The shapes of the outcome: events only for a 200 response whose body
      decodes, one event per wire event, never a nil list; and an empty
      `value` gives an empty list. */
  lemma ViewOutcomes(resp: Response, timezone: string, zones: ZoneData, r: Result<Slice<CalendarEvent>, ViewError>)
    requires ViewedAs(resp, timezone, zones, r)
    ensures r.Ok? ==> resp.Reply? && resp.status == 200 && resp.value.Some?
    ensures r.Ok? ==> r.value.Elems? && |r.value.items| == |resp.value.value|
    ensures resp.Reply? && resp.status == 200 && resp.value == Some([]) && LoadLocation(timezone, zones).Some?
            ==> r == Ok(Elems([]))
  {
    if resp.Reply? && resp.status == 200 && resp.value == Some([]) && LoadLocation(timezone, zones).Some? {
      NoEventsGiveEmptyList(timezone, zones, if r.Ok? then Ok(r.value) else Err(r.error.cause));
    }
  }
}
