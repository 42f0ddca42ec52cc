/** The version-1 output schema of the command-line tool (`pkg/schema/v1.go`)
    and the conditions a well-formed output meets. */
module Schema {
  import opened Chrono

  /** A Go slice as `encoding/json` sees it: `nil` is written as `null`, an
      empty slice as `[]`. */
  datatype Slice<T> = Nil | Elems(items: seq<T>)

  /** The elements of a slice; a nil slice has none. */
  function Items<T>(s: Slice<T>): (r: seq<T>)
    ensures s.Nil? ==> r == []
    ensures s.Elems? ==> r == s.items
  {
    if s.Nil? then [] else s.items
  }

  datatype Organizer = Organizer(name: string, email: string)

  /** `kind` is the JSON field `type`: "required", "optional" or "resource". */
  datatype Attendee = Attendee(name: string, email: string, kind: string)

  datatype CalendarEvent = CalendarEvent(
    id: string,
    subject: string,
    isAllDay: bool,
    start: Time,
    end: Time,
    location: string,
    organizer: Organizer,
    attendees: Slice<Attendee>)

  /** The queried range of time. */
  datatype TimeWindow = TimeWindow(start: Time, end: Time)

  /** The complete output of one run. */
  datatype CLIOutput = CLIOutput(version: int, timezone: string, window: TimeWindow, events: Slice<CalendarEvent>)

  const Required := "required"
  const Optional := "optional"
  const Resource := "resource"

  /** The three attendee types, in the order of their rank. */
  const AttendeeTypes := [Required, Optional, Resource]

  /** `AttendeeType.IsValid`: the three known types and nothing else. */
  predicate IsValid(t: string) {
    t == Required || t == Optional || t == Resource
  }

  lemma IsValidExactly(t: string)
    ensures IsValid(t) <==> t in AttendeeTypes
    ensures IsValid(t) ==> |t| == 8
    ensures !IsValid("") && !IsValid("Required")
  {
  }

  /** What every event of a well-formed output satisfies. */
  predicate WellFormedEvent(e: CalendarEvent) {
    && e.id != ""
    && !IsZero(e.start) && !IsZero(e.end)
    && (!e.isAllDay ==> Before(e.start, e.end))
    && e.attendees.Elems?
    && forall a :: a in e.attendees.items ==> IsValid(a.kind)
  }

  /** A well-formed output: version 1, a named zone, a non-empty window and
      a present (possibly empty) list of well-formed events. */
  predicate WellFormed(o: CLIOutput) {
    && o.version == 1
    && o.timezone != ""
    && !IsZero(o.window.start) && !IsZero(o.window.end)
    && Before(o.window.start, o.window.end)
    && o.events.Elems?
    && forall e :: e in o.events.items ==> WellFormedEvent(e)
  }
}
